/**
  `BibliotecaService`: lending and returning books. Each operation is given
  first as a function from the tables before to the tables after (and the
  loan returned or the exception thrown), then as a method of the service
  that updates the database in place and is proved to agree with it.
  `today` stands for `LocalDate.now()`.
*/
module BibliotecaService {
  import opened Optional
  import opened Entities
  import opened Exceptions
  import opened Repositories
  import PrestamoRepository

  /** `obtenerLibro(id)` */
  function ObtenerLibro(t: Tables, id: int): (r: Result<Libro>)
    ensures r.Ok? <==> id in t.libros
    ensures r.Ok? ==> r.value == t.libros[id]
    ensures r.Err? ==> r.error == IllegalArgument(Some("Libro no encontrado"))
  {
    if id in t.libros then Ok(t.libros[id]) else Err(IllegalArgument(Some("Libro no encontrado")))
  }

  /** The loan `prestarLibro` creates: lent today, due in seven days, no fine. */
  function NuevoPrestamo(id: int, usuario: int, libro: int, today: int): Prestamo {
    Prestamo(id, usuario, libro, today, today + DIAS_PRESTAMO, None, PRESTADO, Some(0), Some(0))
  }

  /** The table of books with one more copy of book `b` on the shelf. */
  function Restock(libros: map<int, Libro>, b: int): (r: map<int, Libro>)
    ensures r.Keys == libros.Keys
    ensures b in libros ==> r[b] == libros[b].(cantidadDisponible := libros[b].cantidadDisponible + 1)
    ensures forall k :: k in libros && k != b ==> r[k] == libros[k]
  {
    if b in libros then libros[b := libros[b].(cantidadDisponible := libros[b].cantidadDisponible + 1)] else libros
  }

  /** `prestarLibro(libroId, username)` on the tables `t`. */
  function AfterPrestar(t: Tables, libroId: int, username: string, today: int): Outcome<Prestamo>
  {
    match FindByUsername(t.usuarios, username)
    case None => Outcome(t, Err(IllegalArgument(Some("Usuario no encontrado"))))
    case Some(usuario) =>
      match ObtenerLibro(t, libroId)
      case Err(e) => Outcome(t, Err(e))
      case Ok(libro) =>
        if libro.cantidadDisponible <= 0 then
          Outcome(t, Err(IllegalState(Some("No hay unidades disponibles"))))
        else
          var p := NuevoPrestamo(t.nextPrestamoId, usuario.id, libroId, today);
          var t' := t.(libros := t.libros[libroId := libro.(cantidadDisponible := libro.cantidadDisponible - 1)],
                       prestamos := t.prestamos + [p],
                       nextPrestamoId := t.nextPrestamoId + 1);
          Outcome(t', Ok(p))
  }

  /**
    Lending fails, changing nothing, for an unknown user, an unknown book or
    a book with no copy available (in that order); otherwise the book has one
    copy fewer and a new PRESTADO loan due in seven days is appended.
  */
  lemma PrestarLibroSpec(t: Tables, libroId: int, username: string, today: int)
    ensures var r := AfterPrestar(t, libroId, username, today);
            !ExistsByUsername(t.usuarios, username) ==>
              r == Outcome(t, Err(IllegalArgument(Some("Usuario no encontrado"))))
    ensures var r := AfterPrestar(t, libroId, username, today);
            ExistsByUsername(t.usuarios, username) && libroId !in t.libros ==>
              r == Outcome(t, Err(IllegalArgument(Some("Libro no encontrado"))))
    ensures var r := AfterPrestar(t, libroId, username, today);
            ExistsByUsername(t.usuarios, username) && libroId in t.libros && t.libros[libroId].cantidadDisponible <= 0 ==>
              r == Outcome(t, Err(IllegalState(Some("No hay unidades disponibles"))))
    ensures var r := AfterPrestar(t, libroId, username, today);
            r.result.Ok? <==>
              ExistsByUsername(t.usuarios, username) && libroId in t.libros && t.libros[libroId].cantidadDisponible > 0
    ensures var r := AfterPrestar(t, libroId, username, today);
            r.result.Ok? ==>
              var p := r.result.value;
              && p.libro == libroId
              && (exists i :: 0 <= i < |t.usuarios| && t.usuarios[i].username == username && t.usuarios[i].id == p.usuario)
              && p.id == t.nextPrestamoId
              && p.fechaPrestamo == today && p.fechaLimite == today + 7 && p.fechaDevolucion == None
              && p.estado == PRESTADO && p.diasRetraso == Some(0) && p.valorMulta == Some(0)
              && r.tables.prestamos == t.prestamos + [p]
              && r.tables.nextPrestamoId == t.nextPrestamoId + 1
              && r.tables.libros.Keys == t.libros.Keys
              && r.tables.libros[libroId] == t.libros[libroId].(cantidadDisponible := t.libros[libroId].cantidadDisponible - 1)
              && (forall b :: b in t.libros && b != libroId ==> r.tables.libros[b] == t.libros[b])
              && r.tables.usuarios == t.usuarios && r.tables.categorias == t.categorias
              && r.tables.nextLibroId == t.nextLibroId && r.tables.nextUsuarioId == t.nextUsuarioId
  {
  }

  /** The loan `p` as `devolverLibro` leaves it when it is handed back on day `today`. */
  function Devuelto(p: Prestamo, today: int): (q: Prestamo)
    ensures q.id == p.id && q.usuario == p.usuario && q.libro == p.libro
    ensures q.fechaPrestamo == p.fechaPrestamo && q.fechaLimite == p.fechaLimite
    ensures q.fechaDevolucion == Some(today)
    ensures today > p.fechaLimite ==>
              && q.estado == MULTA
              && q.diasRetraso == Some(DiasRetraso(today - p.fechaLimite))
              && q.valorMulta == Some(ValorMulta(today - p.fechaLimite))
    ensures today <= p.fechaLimite ==>
              q.estado == DEVUELTO && q.diasRetraso == p.diasRetraso && q.valorMulta == p.valorMulta
  {
    var p' := p.(fechaDevolucion := Some(today));
    if today > p.fechaLimite then
      var diasRetraso := DiasRetraso(today - p.fechaLimite);
      p'.(diasRetraso := Some(diasRetraso), valorMulta := Some(Int32(diasRetraso * MULTA_POR_DIA)), estado := MULTA)
    else
      p'.(estado := DEVUELTO)
  }

  /** A return within the 429496 days the `int` fine can hold charges 5000 per day late. */
  lemma DevueltoTardeMulta(p: Prestamo, today: int)
    requires p.fechaLimite < today <= p.fechaLimite + 429496
    ensures Devuelto(p, today).estado == MULTA
    ensures Devuelto(p, today).diasRetraso == Some(today - p.fechaLimite)
    ensures Devuelto(p, today).valorMulta == Some(5000 * (today - p.fechaLimite))
    ensures Devuelto(p, today).valorMulta.value > 0
  {
    ValorMultaExact(today - p.fechaLimite);
  }

  /** `devolverLibro(prestamoId)` on the tables `t`. */
  function AfterDevolver(t: Tables, prestamoId: int, today: int): Outcome<Prestamo>
  {
    match FindPrestamo(t.prestamos, prestamoId)
    case None => Outcome(t, Err(IllegalArgument(Some("Préstamo no encontrado"))))
    case Some(i) =>
      var p := t.prestamos[i];
      if p.estado == DEVUELTO then Outcome(t, Ok(p))
      else
        var q := Devuelto(p, today);
        Outcome(t.(prestamos := t.prestamos[i := q], libros := Restock(t.libros, p.libro)), Ok(q))
  }

  /**
    Returning an unknown loan fails and changes nothing; a loan already
    DEVUELTO is returned as it is; any other loan is marked returned today
    (fined if late) and its book gets one copy back.
  */
  lemma DevolverLibroSpec(t: Tables, prestamoId: int, today: int)
    ensures var r := AfterDevolver(t, prestamoId, today);
            FindPrestamo(t.prestamos, prestamoId).None? <==> r.result.Err?
    ensures var r := AfterDevolver(t, prestamoId, today);
            r.result.Err? ==> r == Outcome(t, Err(IllegalArgument(Some("Préstamo no encontrado"))))
    ensures var r := AfterDevolver(t, prestamoId, today);
            r.result.Ok? ==>
              var i := FindPrestamo(t.prestamos, prestamoId).value;
              var p := t.prestamos[i];
              && (p.estado == DEVUELTO ==> r == Outcome(t, Ok(p)))
              && (p.estado != DEVUELTO ==>
                    && r.result.value == Devuelto(p, today)
                    && r.tables == t.(prestamos := t.prestamos[i := Devuelto(p, today)],
                                      libros := Restock(t.libros, p.libro)))
  {
  }

  /** Returning a loan that is already DEVUELTO changes nothing, so a second return of an on-time loan is a no-op. */
  lemma {:induction false} DevolverIdempotent(t: Tables, prestamoId: int, today: int, later: int)
    requires LoanIdsIncrease(t.prestamos, t.nextPrestamoId)
    requires AfterDevolver(t, prestamoId, today).result.Ok?
    requires AfterDevolver(t, prestamoId, today).result.value.estado == DEVUELTO
    ensures AfterDevolver(AfterDevolver(t, prestamoId, today).tables, prestamoId, later)
         == Outcome(AfterDevolver(t, prestamoId, today).tables, AfterDevolver(t, prestamoId, today).result)
  {
    var r := AfterDevolver(t, prestamoId, today);
    var i := FindPrestamo(t.prestamos, prestamoId).value;
    var ps := r.tables.prestamos;
    assert |ps| == |t.prestamos| && ps[i] == r.result.value;
    assert forall k :: 0 <= k < |ps| && k != i ==> ps[k] == t.prestamos[k];
    FindPrestamoUnique(ps, prestamoId, i);
  }

  /** With increasing ids, `findById` finds the one loan carrying the id. */
  lemma FindPrestamoUnique(ps: seq<Prestamo>, id: int, i: nat)
    requires forall j, k :: 0 <= j < k < |ps| ==> ps[j].id != ps[k].id
    requires i < |ps| && ps[i].id == id
    ensures FindPrestamo(ps, id) == Some(i)
  {
  }

  /**
    `prestamosPorUsuario(username)`: every loan of the user and no other,
    each as often as in `findByUsuario`, most recent first.
  */
  function PrestamosPorUsuario(t: Tables, username: string): (r: Result<seq<Prestamo>>)
    ensures r.Err? <==> !ExistsByUsername(t.usuarios, username)
    ensures r.Err? ==> r.error == IllegalArgument(Some("Usuario no encontrado"))
    ensures r.Ok? ==> PrestamoRepository.SortedByFechaPrestamoDesc(r.value)
    ensures r.Ok? ==>
              exists u ::
                && u in t.usuarios && u.username == username
                && (forall i :: 0 <= i < |r.value| ==> r.value[i] in t.prestamos && r.value[i].usuario == u.id)
                && (forall i :: 0 <= i < |t.prestamos| && t.prestamos[i].usuario == u.id ==> t.prestamos[i] in r.value)
                && multiset(r.value) == multiset(PrestamoRepository.FindByUsuario(t.prestamos, u.id))
  {
    match FindByUsername(t.usuarios, username)
    case None => Err(IllegalArgument(Some("Usuario no encontrado")))
    case Some(u) => Ok(PrestamoRepository.FindByUsuarioWithRelations(t.prestamos, u.id))
  }

  /** `prestamosConMulta()`: exactly the loans in MULTA, in table order. */
  function PrestamosConMulta(t: Tables): (r: seq<Prestamo>)
    ensures forall i :: 0 <= i < |r| ==> r[i] in t.prestamos && r[i].estado == MULTA
    ensures forall i :: 0 <= i < |t.prestamos| && t.prestamos[i].estado == MULTA ==> t.prestamos[i] in r
  {
    PrestamoRepository.FindByEstado(t.prestamos, MULTA)
  }

  /** Lending keeps the database consistent. */
  lemma PrestarKeepsConsistent(t: Tables, libroId: int, username: string, today: int)
    requires Consistent(t)
    ensures Consistent(AfterPrestar(t, libroId, username, today).tables)
  {
    var r := AfterPrestar(t, libroId, username, today);
    if r.result.Ok? {
      var ps := r.tables.prestamos;
      assert forall i :: 0 <= i < |t.prestamos| ==> ps[i] == t.prestamos[i];
      assert ps[|t.prestamos|] == r.result.value;
    }
  }

  /** Returning keeps the database consistent. */
  lemma DevolverKeepsConsistent(t: Tables, prestamoId: int, today: int)
    requires Consistent(t)
    ensures Consistent(AfterDevolver(t, prestamoId, today).tables)
  {
    var r := AfterDevolver(t, prestamoId, today);
    if r.result.Ok? {
      var i := FindPrestamo(t.prestamos, prestamoId).value;
      var ps := r.tables.prestamos;
      assert forall k :: 0 <= k < |ps| && k != i ==> ps[k] == t.prestamos[k];
    }
  }

  /** The service, over the database it shares with the controllers. */
  class BibliotecaService {
    const db: Store

    constructor (db: Store)
      ensures this.db == db
    {
      this.db := db;
    }

    /** `prestarLibro(libroId, username)` */
    method PrestarLibro(libroId: int, username: string, today: int) returns (r: Result<Prestamo>)
      requires db.Valid()
      modifies db
      ensures Outcome(db.Snapshot(), r) == AfterPrestar(old(db.Snapshot()), libroId, username, today)
      ensures db.Valid()
    {
      var usuario := FindByUsername(db.usuarios, username);
      if usuario.None? {
        return Err(IllegalArgument(Some("Usuario no encontrado")));
      }
      var found := ObtenerLibro(db.Snapshot(), libroId);
      if found.Err? {
        return Err(found.error);
      }
      var libro := found.value;
      if libro.cantidadDisponible <= 0 {
        return Err(IllegalState(Some("No hay unidades disponibles")));
      }
      libro := libro.(cantidadDisponible := libro.cantidadDisponible - 1);
      db.libros := db.libros[libroId := libro];
      var prestamo := NuevoPrestamo(db.nextPrestamoId, usuario.value.id, libroId, today);
      db.prestamos := db.prestamos + [prestamo];
      db.nextPrestamoId := db.nextPrestamoId + 1;
      r := Ok(prestamo);
      PrestarKeepsConsistent(old(db.Snapshot()), libroId, username, today);
    }

    /** `devolverLibro(prestamoId)` */
    method DevolverLibro(prestamoId: int, today: int) returns (r: Result<Prestamo>)
      requires db.Valid()
      modifies db
      ensures Outcome(db.Snapshot(), r) == AfterDevolver(old(db.Snapshot()), prestamoId, today)
      ensures db.Valid()
    {
      var found := FindPrestamo(db.prestamos, prestamoId);
      if found.None? {
        return Err(IllegalArgument(Some("Préstamo no encontrado")));
      }
      var i := found.value;
      var prestamo := db.prestamos[i];
      if prestamo.estado == DEVUELTO {
        return Ok(prestamo);
      }
      prestamo := prestamo.(fechaDevolucion := Some(today));
      if today > prestamo.fechaLimite {
        var diasRetraso := DiasRetraso(today - prestamo.fechaLimite);
        prestamo := prestamo.(diasRetraso := Some(diasRetraso),
                              valorMulta := Some(Int32(diasRetraso * MULTA_POR_DIA)),
                              estado := MULTA);
      } else {
        prestamo := prestamo.(estado := DEVUELTO);
      }
      assert prestamo == Devuelto(db.prestamos[i], today);
      ghost var libros := db.libros;
      if prestamo.libro in db.libros {
        var libro := db.libros[prestamo.libro];
        db.libros := db.libros[prestamo.libro := libro.(cantidadDisponible := libro.cantidadDisponible + 1)];
      }
      assert db.libros == Restock(libros, prestamo.libro);
      db.prestamos := db.prestamos[i := prestamo];
      r := Ok(prestamo);
      DevolverKeepsConsistent(old(db.Snapshot()), prestamoId, today);
    }
  }
}
