/**
  The stock of a book: copies on the shelf (`cantidadDisponible`) plus
  copies in readers' hands (loans of the book with no return date). Lending
  moves a copy from the shelf to a reader and a return moves it back, so
  this sum should never change; with the loan state machine as written it
  does. This module shows the inputs that break it and proves that the
  corrected return and fine payment keep it, together with lending and the
  nightly fine update.
*/
module Stock {
  import opened Optional
  import opened Entities
  import opened Exceptions
  import opened Seqs
  import opened Repositories
  import BibliotecaService
  import AdminController

  /** The loan holds a copy of book `b`: it is for `b` and has not been returned. */
  predicate FueraDe(b: int, p: Prestamo) {
    p.libro == b && p.fechaDevolucion.None?
  }

  function EnManos(b: int): Prestamo -> bool {
    (p: Prestamo) => FueraDe(b, p)
  }

  /** Copies of `b` in readers' hands. */
  function Fuera(ps: seq<Prestamo>, b: int): nat {
    Count(ps, EnManos(b))
  }

  /** Copies of `b` the library owns by its own records: on the shelf plus lent. */
  function Existencias(t: Tables, b: int): int
    requires b in t.libros
  {
    t.libros[b].cantidadDisponible + Fuera(t.prestamos, b)
  }

  /** `u` has the same books as `t`, each with the same stock. */
  predicate MismasExistencias(t: Tables, u: Tables) {
    && t.libros.Keys == u.libros.Keys
    && (forall b :: b in t.libros ==> u.libros[b].cantidadTotal == t.libros[b].cantidadTotal)
    && (forall b :: b in t.libros ==> Existencias(u, b) == Existencias(t, b))
  }

  /** Every book's stock is its `cantidadTotal`. */
  predicate Cuadra(t: Tables) {
    forall b :: b in t.libros ==> Existencias(t, b) == t.libros[b].cantidadTotal
  }

  /** Where the stock adds up, no book shows more copies available than it has. */
  lemma CuadraAcota(t: Tables, b: int)
    requires Cuadra(t) && b in t.libros
    ensures t.libros[b].cantidadDisponible <= t.libros[b].cantidadTotal
  {
    assert Existencias(t, b) == t.libros[b].cantidadTotal;
  }

  /** Same stock and same totals keep the stock adding up. */
  lemma MismasExistenciasCuadra(t: Tables, u: Tables)
    requires MismasExistencias(t, u) && Cuadra(t)
    ensures Cuadra(u)
  {
    forall b | b in u.libros
      ensures Existencias(u, b) == u.libros[b].cantidadTotal
    {
      assert b in t.libros;
    }
  }

  /** Lending takes a copy off the shelf and puts it in a reader's hands. */
  lemma PrestarKeepsStock(t: Tables, libroId: int, username: string, today: int)
    ensures MismasExistencias(t, BibliotecaService.AfterPrestar(t, libroId, username, today).tables)
  {
    var r := BibliotecaService.AfterPrestar(t, libroId, username, today);
    BibliotecaService.PrestarLibroSpec(t, libroId, username, today);
    if r.result.Ok? {
      var p := r.result.value;
      forall b | b in t.libros
        ensures Existencias(r.tables, b) == Existencias(t, b)
      {
        CountAppend(t.prestamos, p, EnManos(b));
      }
    }
  }

  /** Fining overdue loans changes neither shelves nor return dates. */
  lemma ActualizarMultasKeepsStock(t: Tables, today: int)
    ensures MismasExistencias(t, AdminController.AfterActualizarMultas(t, today))
  {
    var u := AdminController.AfterActualizarMultas(t, today);
    forall b | b in t.libros
      ensures Existencias(u, b) == Existencias(t, b)
    {
      CountPointwise(t.prestamos, u.prestamos, EnManos(b));
    }
  }

  /**
    Replacing the unreturned loan `ps[i]` by a returned one while its book
    gets a copy back keeps every book's stock.
  */
  lemma ReturnKeepsStock(t: Tables, i: nat, q: Prestamo)
    requires i < |t.prestamos| && t.prestamos[i].fechaDevolucion.None?
    requires q.libro == t.prestamos[i].libro && q.fechaDevolucion.Some?
    ensures MismasExistencias(t, t.(prestamos := t.prestamos[i := q],
                                    libros := BibliotecaService.Restock(t.libros, q.libro)))
  {
    var u := t.(prestamos := t.prestamos[i := q], libros := BibliotecaService.Restock(t.libros, q.libro));
    forall b | b in t.libros
      ensures Existencias(u, b) == Existencias(t, b)
    {
      CountUpdate(t.prestamos, i, q, EnManos(b));
    }
  }

  /** `devolverLibro` as intended: a loan that already has a return date is not returned again. */
  function AfterDevolverCorregido(t: Tables, prestamoId: int, today: int): Outcome<Prestamo> {
    match FindPrestamo(t.prestamos, prestamoId)
    case None => Outcome(t, Err(IllegalArgument(Some("Préstamo no encontrado"))))
    case Some(i) =>
      var p := t.prestamos[i];
      if p.estado == DEVUELTO || p.fechaDevolucion.Some? then Outcome(t, Ok(p))
      else
        var q := BibliotecaService.Devuelto(p, today);
        Outcome(t.(prestamos := t.prestamos[i := q], libros := BibliotecaService.Restock(t.libros, p.libro)), Ok(q))
  }

  /**
    `pagarMulta` as intended: paying closes the loan, and the copy goes back
    to the shelf only if it had not been returned already (a fine set by
    `actualizarMultas` on a book still out). An earlier return date is kept.
  */
  function AfterPagarMultaCorregido(t: Tables, prestamoId: int, today: int): Outcome<Prestamo> {
    match FindPrestamo(t.prestamos, prestamoId)
    case None => Outcome(t, Err(IllegalArgument(Some("Préstamo no encontrado"))))
    case Some(i) =>
      var p := t.prestamos[i];
      if p.estado != MULTA then Outcome(t, Err(IllegalState(Some("Este préstamo no tiene multa pendiente"))))
      else if p.fechaDevolucion.Some? then
        var q := p.(estado := DEVUELTO);
        Outcome(t.(prestamos := t.prestamos[i := q]), Ok(q))
      else
        var q := p.(fechaDevolucion := Some(today), estado := DEVUELTO);
        Outcome(t.(prestamos := t.prestamos[i := q], libros := BibliotecaService.Restock(t.libros, p.libro)), Ok(q))
  }

  /** The corrected return keeps every book's stock, and agrees with `devolverLibro` on unreturned loans. */
  lemma DevolverCorregidoKeepsStock(t: Tables, prestamoId: int, today: int)
    ensures MismasExistencias(t, AfterDevolverCorregido(t, prestamoId, today).tables)
    ensures var found := FindPrestamo(t.prestamos, prestamoId);
            found.Some? && t.prestamos[found.value].fechaDevolucion.None? ==>
              AfterDevolverCorregido(t, prestamoId, today) == BibliotecaService.AfterDevolver(t, prestamoId, today)
  {
    match FindPrestamo(t.prestamos, prestamoId)
    case None =>
    case Some(i) =>
      var p := t.prestamos[i];
      if p.estado != DEVUELTO && p.fechaDevolucion.None? {
        ReturnKeepsStock(t, i, BibliotecaService.Devuelto(p, today));
      }
  }

  /** The corrected payment keeps every book's stock. */
  lemma PagarMultaCorregidoKeepsStock(t: Tables, prestamoId: int, today: int)
    ensures MismasExistencias(t, AfterPagarMultaCorregido(t, prestamoId, today).tables)
  {
    match FindPrestamo(t.prestamos, prestamoId)
    case None =>
    case Some(i) =>
      var p := t.prestamos[i];
      if p.estado == MULTA {
        var q := p.(estado := DEVUELTO);
        if p.fechaDevolucion.Some? {
          var u := t.(prestamos := t.prestamos[i := q]);
          forall b | b in t.libros
            ensures Existencias(u, b) == Existencias(t, b)
          {
            CountUpdate(t.prestamos, i, q, EnManos(b));
          }
        } else {
          ReturnKeepsStock(t, i, q.(fechaDevolucion := Some(today)));
        }
      }
  }

  /**
    `actualizarLibro` stores both counts as sent, with no check between
    them: a request with more copies available than in total is accepted,
    and that book's stock no longer adds up.
  */
  lemma ActualizarLibroSinTope(t: Tables, id: int, req: AdminController.LibroRequest)
    requires id in t.libros && req.categoria.None?
    requires req.cantidadDisponible > req.cantidadTotal
    ensures var r := AdminController.AfterActualizarLibro(t, id, req);
            && r.result.Ok?
            && r.tables.libros[id].cantidadDisponible == req.cantidadDisponible
            && r.tables.libros[id].cantidadTotal == req.cantidadTotal
            && !Cuadra(r.tables)
  {
    AdminController.ActualizarLibroSpec(t, id, req);
    var u := AdminController.AfterActualizarLibro(t, id, req).tables;
    assert Existencias(u, id) >= u.libros[id].cantidadDisponible;
  }

  /** One book with one copy and one reader, before any loan. */
  function Inicial(): Tables {
    Tables(map[1 := Libro(1, "Rayuela", "Cortázar", "", "", 1, 1, None)],
           map[],
           [Usuario(1, "ana", None, "Ana", "Ruiz", "ana@correo.co", USUARIO, false)],
           [], 2, 2, 1)
  }

  /** Ana borrows the book on day 0 and returns it on day 10, three days late. */
  function DevueltoTarde(): Tables {
    var prestado := BibliotecaService.AfterPrestar(Inicial(), 1, "ana", 0).tables;
    BibliotecaService.AfterDevolver(prestado, 1, 10).tables
  }

  lemma DevueltoTardeCuadra()
    ensures Cuadra(Inicial())
    ensures 1 in DevueltoTarde().libros && DevueltoTarde().libros[1].cantidadDisponible == 1
    ensures |DevueltoTarde().prestamos| == 1 && DevueltoTarde().prestamos[0].estado == MULTA
    ensures DevueltoTarde().prestamos[0].fechaDevolucion == Some(10)
  {
    var prestado := BibliotecaService.AfterPrestar(Inicial(), 1, "ana", 0).tables;
    assert FindByUsername(Inicial().usuarios, "ana").Some?;
    assert prestado.libros[1].cantidadDisponible == 0;
    assert FindPrestamo(prestado.prestamos, 1) == Some(0);
  }

  /**
    As written, paying the fine of a loan returned late puts the copy back a
    second time: the one-copy book then shows two copies available.
  */
  lemma PagarMultaDevueltoRepone()
    ensures var t := BibliotecaService.AfterPrestar(Inicial(), 1, "ana", 0).tables;
            var u := AdminController.AfterPagarMulta(BibliotecaService.AfterDevolver(t, 1, 10).tables, 1, 11).tables;
            1 in u.libros && u.libros[1].cantidadDisponible == 2 && u.libros[1].cantidadTotal == 1 && !Cuadra(u)
  {
    DevueltoTardeCuadra();
    var u := AdminController.AfterPagarMulta(DevueltoTarde(), 1, 11).tables;
    assert FindPrestamo(DevueltoTarde().prestamos, 1) == Some(0);
    assert Existencias(u, 1) == 2;
  }

  /**
    As written, returning a loan that was returned late again puts the copy
    back again, because only DEVUELTO loans are short-circuited.
  */
  lemma DevolverDosVecesRepone()
    ensures var t := BibliotecaService.AfterPrestar(Inicial(), 1, "ana", 0).tables;
            var u := BibliotecaService.AfterDevolver(BibliotecaService.AfterDevolver(t, 1, 10).tables, 1, 12).tables;
            1 in u.libros && u.libros[1].cantidadDisponible == 2 && u.libros[1].cantidadTotal == 1 && !Cuadra(u)
  {
    DevueltoTardeCuadra();
    var u := BibliotecaService.AfterDevolver(DevueltoTarde(), 1, 12).tables;
    assert FindPrestamo(DevueltoTarde().prestamos, 1) == Some(0);
    assert Existencias(u, 1) == 2;
  }
}
