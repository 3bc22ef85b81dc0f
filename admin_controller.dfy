/**
  `AdminController`: the administrator's endpoints over categories, books,
  loans and users. As in the service, each endpoint that changes the database
  is a function on the tables (`After*`) and a method of the controller
  proved to agree with it. A `PasswordEncoder` is the function `encode`.
*/
module AdminController {
  import opened Optional
  import opened Text
  import opened Seqs
  import opened Entities
  import opened Exceptions
  import opened Repositories
  import PrestamoRepository
  import BibliotecaService
  import ExceptionHandler

  // ----- Categories and books -----

  /** The message of the exception `eliminarCategoria` throws for a category still in use. */
  function MensajeCategoriaEnUso(n: nat): string {
    "No se puede eliminar la categoría porque tiene " + NatToString(n) + " libro(s) asociado(s)"
  }

  /** `eliminarCategoria(id)` */
  function AfterEliminarCategoria(t: Tables, id: int): Outcome<()>
  {
    if id !in t.categorias then Outcome(t, Err(IllegalArgument(Some("Categoría no encontrada"))))
    else
      var librosConCategoria := CountByCategoriaId(t.libros, id);
      if librosConCategoria > 0 then Outcome(t, Err(IllegalState(Some(MensajeCategoriaEnUso(librosConCategoria)))))
      else Outcome(t.(categorias := t.categorias - {id}), Ok(()))
  }

  lemma EliminarCategoriaSpec(t: Tables, id: int)
    ensures var r := AfterEliminarCategoria(t, id);
            id !in t.categorias ==> r == Outcome(t, Err(IllegalArgument(Some("Categoría no encontrada"))))
    ensures var r := AfterEliminarCategoria(t, id);
            id in t.categorias && (exists b :: b in t.libros && t.libros[b].categoria == Some(id)) ==>
              r.tables == t && r.result.Err? && r.result.error.IllegalState?
    ensures var r := AfterEliminarCategoria(t, id);
            r.result.Ok? <==> id in t.categorias && forall b :: b in t.libros ==> t.libros[b].categoria != Some(id)
    ensures var r := AfterEliminarCategoria(t, id);
            r.result.Ok? ==> r.tables == t.(categorias := t.categorias - {id})
  {
  }

  /** Removing a category no book is filed under keeps the database consistent. */
  lemma EliminarCategoriaKeepsConsistent(t: Tables, id: int)
    requires Consistent(t)
    ensures Consistent(AfterEliminarCategoria(t, id).tables)
  {
  }

  /** The category a request refers to: the stored one, none, or an error for an unknown id. */
  function ResolverCategoria(t: Tables, categoria: Option<int>): (r: Result<Option<int>>)
    ensures categoria.None? ==> r == Ok(None)
    ensures categoria.Some? && categoria.value in t.categorias ==> r == Ok(categoria)
    ensures categoria.Some? && categoria.value !in t.categorias ==> r.Err? && r.error.IllegalArgument?
  {
    match categoria
    case None => Ok(None)
    case Some(c) =>
      if c in t.categorias then Ok(Some(c))
      else Err(IllegalArgument(Some("Categoría no encontrada con ID: " + IdToString(c))))
  }

  /** A category id as Java prints a `Long`. */
  function IdToString(n: int): string {
    if n < 0 then "-" + NatToString(-n) else NatToString(n)
  }

  /** The fields of a book in a create or update request; `categoria` is the id of its category, if any. */
  datatype LibroRequest = LibroRequest(
    titulo: string,
    autor: string,
    descripcion: string,
    imagenUrl: string,
    cantidadTotal: int,
    cantidadDisponible: int,
    categoria: Option<int>)

  /** `crearLibro(libro)`: a zero `cantidadDisponible` means "all copies available". */
  function AfterCrearLibro(t: Tables, req: LibroRequest): Outcome<Libro>
  {
    var disponible := if req.cantidadDisponible == 0 then req.cantidadTotal else req.cantidadDisponible;
    match ResolverCategoria(t, req.categoria)
    case Err(e) => Outcome(t, Err(e))
    case Ok(categoria) =>
      var l := Libro(t.nextLibroId, req.titulo, req.autor, req.descripcion, req.imagenUrl,
                     req.cantidadTotal, disponible, categoria);
      Outcome(t.(libros := t.libros[l.id := l], nextLibroId := t.nextLibroId + 1), Ok(l))
  }

  lemma CrearLibroSpec(t: Tables, req: LibroRequest)
    ensures var r := AfterCrearLibro(t, req);
            req.categoria.Some? && req.categoria.value !in t.categorias ==>
              r.tables == t && r.result.Err? && r.result.error.IllegalArgument?
    ensures var r := AfterCrearLibro(t, req);
            r.result.Ok? <==> req.categoria.None? || req.categoria.value in t.categorias
    ensures var r := AfterCrearLibro(t, req);
            r.result.Ok? ==>
              var l := r.result.value;
              && l.id == t.nextLibroId
              && l.titulo == req.titulo && l.autor == req.autor && l.descripcion == req.descripcion
              && l.imagenUrl == req.imagenUrl && l.cantidadTotal == req.cantidadTotal
              && (req.cantidadDisponible == 0 ==> l.cantidadDisponible == req.cantidadTotal)
              && (req.cantidadDisponible != 0 ==> l.cantidadDisponible == req.cantidadDisponible)
              && l.categoria == req.categoria
              && r.tables == t.(libros := t.libros[l.id := l], nextLibroId := t.nextLibroId + 1)
  {
  }

  /** A new book, filed under an existing category or none, keeps the database consistent. */
  lemma CrearLibroKeepsConsistent(t: Tables, req: LibroRequest)
    requires Consistent(t)
    ensures Consistent(AfterCrearLibro(t, req).tables)
  {
  }

  /** `actualizarLibro(id, libro)`: every field is overwritten, the counts included. */
  function AfterActualizarLibro(t: Tables, id: int, req: LibroRequest): Outcome<Libro>
  {
    if id !in t.libros then Outcome(t, Err(IllegalArgument(Some("Libro no encontrado"))))
    else
      match ResolverCategoria(t, req.categoria)
      case Err(e) => Outcome(t, Err(e))
      case Ok(categoria) =>
        var existente := t.libros[id];
        var l := existente.(titulo := req.titulo, autor := req.autor, descripcion := req.descripcion,
                            imagenUrl := req.imagenUrl, cantidadTotal := req.cantidadTotal,
                            cantidadDisponible := req.cantidadDisponible, categoria := categoria);
        Outcome(t.(libros := t.libros[id := l]), Ok(l))
  }

  lemma ActualizarLibroSpec(t: Tables, id: int, req: LibroRequest)
    ensures var r := AfterActualizarLibro(t, id, req);
            id !in t.libros ==> r == Outcome(t, Err(IllegalArgument(Some("Libro no encontrado"))))
    ensures var r := AfterActualizarLibro(t, id, req);
            r.result.Ok? <==> id in t.libros && (req.categoria.None? || req.categoria.value in t.categorias)
    ensures var r := AfterActualizarLibro(t, id, req);
            r.result.Err? ==> r.tables == t
    ensures var r := AfterActualizarLibro(t, id, req);
            r.result.Ok? ==>
              var l := r.result.value;
              && l.id == t.libros[id].id
              && l.titulo == req.titulo && l.autor == req.autor && l.descripcion == req.descripcion
              && l.imagenUrl == req.imagenUrl && l.cantidadTotal == req.cantidadTotal
              && l.cantidadDisponible == req.cantidadDisponible && l.categoria == req.categoria
              && r.tables == t.(libros := t.libros[id := l])
  {
  }

  /** Updating a book keeps the database consistent. */
  lemma ActualizarLibroKeepsConsistent(t: Tables, id: int, req: LibroRequest)
    requires Consistent(t)
    ensures Consistent(AfterActualizarLibro(t, id, req).tables)
  {
  }

  /** The sentence of that message for `n` copies out, after the code and a colon. */
  function FraseLibroConPrestamos(n: nat): string {
    "El libro no puede " + "ser eliminado " + "porque aún se " + "encuentran "
    + NatToString(n) + " ejemplar(es) en " + "préstamo con " + "algunos usuarios."
  }

  /**
    The message of the exception `eliminarLibro` throws while `n` copies are
    out: the active-loans code the exception handler looks for, a colon, a
    space and the sentence.
  */
  function MensajeLibroConPrestamos(n: nat): (m: string)
    ensures StartsWith(m, ExceptionHandler.CODIGO_LIBRO_CON_PRESTAMOS)
  {
    var code := ExceptionHandler.CODIGO_LIBRO_CON_PRESTAMOS;
    var m := code + ":" + " " + FraseLibroConPrestamos(n);
    assert m[..|code|] == code;
    m
  }

  /** `eliminarLibro(id)` */
  function AfterEliminarLibro(t: Tables, id: int): Outcome<()>
  {
    if id !in t.libros then Outcome(t, Err(IllegalArgument(Some("Libro no encontrado"))))
    else
      var prestamosActivos := PrestamoRepository.CountPrestamosActivosByLibroId(t.prestamos, id);
      if prestamosActivos > 0 then Outcome(t, Err(IllegalState(Some(MensajeLibroConPrestamos(prestamosActivos)))))
      else Outcome(t.(libros := t.libros - {id}), Ok(()))
  }

  lemma EliminarLibroSpec(t: Tables, id: int)
    ensures var r := AfterEliminarLibro(t, id);
            id !in t.libros ==> r == Outcome(t, Err(IllegalArgument(Some("Libro no encontrado"))))
    ensures var r := AfterEliminarLibro(t, id);
            var n := PrestamoRepository.CountPrestamosActivosByLibroId(t.prestamos, id);
            id in t.libros && n > 0 ==> r == Outcome(t, Err(IllegalState(Some(MensajeLibroConPrestamos(n)))))
    ensures var r := AfterEliminarLibro(t, id);
            r.result.Ok? <==>
              id in t.libros && forall i :: 0 <= i < |t.prestamos| ==> !(t.prestamos[i].libro == id && IsActive(t.prestamos[i]))
    ensures var r := AfterEliminarLibro(t, id);
            r.result.Ok? ==> r.tables == t.(libros := t.libros - {id})
  {
  }

  /** Deleting a book no active loan refers to keeps the database consistent. */
  lemma EliminarLibroKeepsConsistent(t: Tables, id: int)
    requires Consistent(t)
    ensures Consistent(AfterEliminarLibro(t, id).tables)
  {
  }

  // ----- Loans -----

  /** The filter of `listarPrestamosActivos`. */
  predicate NoDevuelto(p: Prestamo) {
    p.estado != DEVUELTO
  }

  /** `listarPrestamosActivos()`: every loan not yet DEVUELTO, in table order. */
  function ListarPrestamosActivos(t: Tables): (r: seq<Prestamo>)
    ensures forall i :: 0 <= i < |r| ==> r[i] in t.prestamos && IsActive(r[i])
    ensures forall i :: 0 <= i < |t.prestamos| && IsActive(t.prestamos[i]) ==> t.prestamos[i] in r
  {
    Filter(t.prestamos, NoDevuelto)
  }

  /** The active loans of a book in that list are the ones the delete guard counts. */
  lemma {:induction false} ActivosDelLibro(ps: seq<Prestamo>, b: int)
    ensures Count(Filter(ps, NoDevuelto), (p: Prestamo) => p.libro == b)
         == PrestamoRepository.CountPrestamosActivosByLibroId(ps, b)
  {
    if ps != [] {
      ActivosDelLibro(ps[1..], b);
      var rest := Filter(ps[1..], NoDevuelto);
      if NoDevuelto(ps[0]) {
        assert Filter(ps, NoDevuelto) == [ps[0]] + rest;
        assert ([ps[0]] + rest)[1..] == rest;
      } else {
        assert Filter(ps, NoDevuelto) == rest;
      }
    }
  }

  /** The loans `actualizarMultas` fines: still PRESTADO and past their due date. */
  predicate Vencido(p: Prestamo, today: int) {
    p.estado == PRESTADO && today > p.fechaLimite
  }

  /** A loan as `actualizarMultas` fines it: days late, the fine, and MULTA. Nothing else changes. */
  function Multado(p: Prestamo, today: int): (q: Prestamo)
    ensures q.estado == MULTA && q.diasRetraso.Some? && q.valorMulta.Some?
    ensures q == p.(diasRetraso := q.diasRetraso, valorMulta := q.valorMulta, estado := MULTA)
    ensures 0 < today - p.fechaLimite <= 429496 ==>
              q.diasRetraso == Some(today - p.fechaLimite) && q.valorMulta == Some(MULTA_POR_DIA * (today - p.fechaLimite))
  {
    var dias := today - p.fechaLimite;
    var diasRetrasoInt := DiasRetraso(dias);
    var multaTotal := Int32(diasRetrasoInt * MULTA_POR_DIA);
    assert 0 < dias <= 429496 ==> diasRetrasoInt == dias && multaTotal == MULTA_POR_DIA * dias by {
      if 0 < dias <= 429496 {
        ValorMultaExact(dias);
      }
    }
    p.(diasRetraso := Some(diasRetrasoInt), valorMulta := Some(multaTotal), estado := MULTA)
  }

  /** One row after `actualizarMultas`: fined when overdue, untouched otherwise. */
  function Actualizado(p: Prestamo, today: int): Prestamo {
    if Vencido(p, today) then Multado(p, today) else p
  }

  /** The loan table after `actualizarMultas`. */
  function MultarVencidos(ps: seq<Prestamo>, today: int): (r: seq<Prestamo>)
    ensures |r| == |ps|
    ensures forall i :: 0 <= i < |ps| ==> r[i] == Actualizado(ps[i], today)
  {
    seq(|ps|, i requires 0 <= i < |ps| => Actualizado(ps[i], today))
  }

  /** A table whose every row is the updated row of `ps` is the table after `actualizarMultas`. */
  lemma MultarVencidosRows(ps: seq<Prestamo>, qs: seq<Prestamo>, today: int)
    requires |qs| == |ps|
    requires forall k :: 0 <= k < |ps| ==> qs[k] == Actualizado(ps[k], today)
    ensures qs == MultarVencidos(ps, today)
  {
  }

  /** Writing the updated row `i` extends the prefix of updated rows by one. */
  lemma ActualizadoPrefix(ps: seq<Prestamo>, qs: seq<Prestamo>, i: nat, q: Prestamo, today: int)
    requires i < |ps| == |qs|
    requires forall k :: 0 <= k < i ==> qs[k] == Actualizado(ps[k], today)
    requires q == Actualizado(ps[i], today)
    ensures forall k :: 0 <= k <= i ==> qs[i := q][k] == Actualizado(ps[k], today)
  {
  }

  /** A row that is not overdue is already its updated row. */
  lemma ActualizadoKept(ps: seq<Prestamo>, qs: seq<Prestamo>, i: nat, today: int)
    requires i < |ps| == |qs| && qs[i] == ps[i] && !Vencido(ps[i], today)
    requires forall k :: 0 <= k < i ==> qs[k] == Actualizado(ps[k], today)
    ensures forall k :: 0 <= k <= i ==> qs[k] == Actualizado(ps[k], today)
  {
  }

  /** How many loans `actualizarMultas` updates, counted over the table from the front. */
  function Actualizados(ps: seq<Prestamo>, today: int): (n: nat)
    ensures n <= |ps|
  {
    if ps == [] then 0
    else
      var front := ps[..|ps| - 1];
      Actualizados(front, today) + (if Vencido(ps[|ps| - 1], today) then 1 else 0)
  }

  /** The count is zero exactly when no loan of the table is overdue and PRESTADO. */
  lemma {:induction false} ActualizadosZero(ps: seq<Prestamo>, today: int)
    ensures Actualizados(ps, today) == 0 <==> forall i :: 0 <= i < |ps| ==> !Vencido(ps[i], today)
  {
    if ps != [] {
      var front := ps[..|ps| - 1];
      ActualizadosZero(front, today);
      assert forall i :: 0 <= i < |front| ==> front[i] == ps[i];
    }
  }

  /** The loans it selects are the ones `findByEstadoAndFechaLimiteBefore(PRESTADO, today)` returns. */
  lemma VencidosSonLosDelRepositorio(ps: seq<Prestamo>, today: int)
    ensures Filter(ps, (p: Prestamo) => Vencido(p, today))
         == PrestamoRepository.FindByEstadoAndFechaLimiteBefore(ps, PRESTADO, today)
  {
    FilterEquivalent(ps, (p: Prestamo) => Vencido(p, today),
                     (p: Prestamo) => p.estado == PRESTADO && p.fechaLimite < today);
  }

  /**
    The loop of `actualizarMultas()` over the loan table: every overdue
    PRESTADO loan is fined and counted, the others are left as they are.
    `actualizarMultas()` first selects the overdue loans and then fines
    them; fining one loan never changes whether another is selected, so
    selecting and fining row by row gives the same table.
  */
  method MultarFilas(ps: seq<Prestamo>, today: int) returns (prestamos: seq<Prestamo>, actualizados: nat)
    ensures prestamos == MultarVencidos(ps, today)
    ensures actualizados == Actualizados(ps, today)
  {
    prestamos := ps;
    actualizados := 0;
    var i := 0;
    while i < |prestamos|
      invariant 0 <= i <= |prestamos| == |ps|
      invariant forall k :: 0 <= k < i ==> prestamos[k] == Actualizado(ps[k], today)
      invariant forall k :: i <= k < |ps| ==> prestamos[k] == ps[k]
      invariant actualizados == Actualizados(ps[..i], today)
    {
      var prestamo := prestamos[i];
      ActualizadosStep(ps, i, today);
      if prestamo.estado == PRESTADO && today > prestamo.fechaLimite {
        prestamo := Multado(prestamo, today);
        ActualizadoPrefix(ps, prestamos, i, prestamo, today);
        prestamos := prestamos[i := prestamo];
        actualizados := actualizados + 1;
      } else {
        ActualizadoKept(ps, prestamos, i, today);
      }
      i := i + 1;
    }
    assert ps[..i] == ps;
    MultarVencidosRows(ps, prestamos, today);
  }

  /** The count is the number of overdue PRESTADO loans. */
  lemma {:induction false} ActualizadosCuentaVencidos(ps: seq<Prestamo>, today: int)
    ensures Actualizados(ps, today) == Count(ps, (p: Prestamo) => Vencido(p, today))
  {
    if ps != [] {
      var front := ps[..|ps| - 1];
      ActualizadosCuentaVencidos(front, today);
      assert ps == front + [ps[|ps| - 1]];
      CountAppend(front, ps[|ps| - 1], (p: Prestamo) => Vencido(p, today));
    }
  }

  /** The count `actualizarMultas()` reports is the size of `findByEstadoAndFechaLimiteBefore(PRESTADO, today)`. */
  lemma ActualizadosEsLaConsulta(ps: seq<Prestamo>, today: int)
    ensures Actualizados(ps, today) == |PrestamoRepository.FindByEstadoAndFechaLimiteBefore(ps, PRESTADO, today)|
  {
    ActualizadosCuentaVencidos(ps, today);
    VencidosSonLosDelRepositorio(ps, today);
  }

  /** `actualizarMultas()` on the tables: only the loan table changes. */
  function AfterActualizarMultas(t: Tables, today: int): Tables
  {
    t.(prestamos := MultarVencidos(t.prestamos, today))
  }

  /** The answer of `actualizarMultas()`. */
  function MensajeMultas(actualizados: nat): string {
    "Se actualizaron " + NatToString(actualizados) + " préstamo(s) con multa"
  }

  /** Counting one more row of the table. */
  lemma ActualizadosStep(ps: seq<Prestamo>, i: nat, today: int)
    requires i < |ps|
    ensures Actualizados(ps[..i + 1], today) == Actualizados(ps[..i], today) + (if Vencido(ps[i], today) then 1 else 0)
  {
    assert ps[..i + 1][..i] == ps[..i];
  }

  /** A second run on the same day finds nothing to fine and changes nothing. */
  lemma ActualizarMultasTwice(t: Tables, today: int)
    ensures Actualizados(AfterActualizarMultas(t, today).prestamos, today) == 0
    ensures AfterActualizarMultas(AfterActualizarMultas(t, today), today) == AfterActualizarMultas(t, today)
  {
    var ps := AfterActualizarMultas(t, today).prestamos;
    assert forall i :: 0 <= i < |ps| ==> !Vencido(ps[i], today);
    ActualizadosZero(ps, today);
    assert MultarVencidos(ps, today) == ps;
  }

  /** Fining keeps the database consistent. */
  lemma ActualizarMultasKeepsConsistent(t: Tables, today: int)
    requires Consistent(t)
    ensures Consistent(AfterActualizarMultas(t, today))
  {
    var ps := AfterActualizarMultas(t, today).prestamos;
    assert forall i :: 0 <= i < |ps| ==>
             ps[i].id == t.prestamos[i].id && ps[i].libro == t.prestamos[i].libro && (IsActive(ps[i]) ==> IsActive(t.prestamos[i]));
  }

  /** `pagarMulta(id)` */
  function AfterPagarMulta(t: Tables, prestamoId: int, today: int): Outcome<Prestamo>
  {
    match FindPrestamo(t.prestamos, prestamoId)
    case None => Outcome(t, Err(IllegalArgument(Some("Préstamo no encontrado"))))
    case Some(i) =>
      var p := t.prestamos[i];
      if p.estado != MULTA then Outcome(t, Err(IllegalState(Some("Este préstamo no tiene multa pendiente"))))
      else
        var q := p.(fechaDevolucion := Some(today), estado := DEVUELTO);
        Outcome(t.(prestamos := t.prestamos[i := q], libros := BibliotecaService.Restock(t.libros, p.libro)), Ok(q))
  }

  lemma PagarMultaSpec(t: Tables, prestamoId: int, today: int)
    ensures var r := AfterPagarMulta(t, prestamoId, today);
            FindPrestamo(t.prestamos, prestamoId).None? ==>
              r == Outcome(t, Err(IllegalArgument(Some("Préstamo no encontrado"))))
    ensures var r := AfterPagarMulta(t, prestamoId, today);
            r.result.Ok? <==>
              FindPrestamo(t.prestamos, prestamoId).Some? && t.prestamos[FindPrestamo(t.prestamos, prestamoId).value].estado == MULTA
    ensures var r := AfterPagarMulta(t, prestamoId, today);
            FindPrestamo(t.prestamos, prestamoId).Some? && r.result.Err? ==>
              r == Outcome(t, Err(IllegalState(Some("Este préstamo no tiene multa pendiente"))))
    ensures var r := AfterPagarMulta(t, prestamoId, today);
            r.result.Ok? ==>
              var i := FindPrestamo(t.prestamos, prestamoId).value;
              var p := t.prestamos[i];
              && r.result.value == p.(fechaDevolucion := Some(today), estado := DEVUELTO)
              && r.result.value.valorMulta == p.valorMulta
              && r.tables == t.(prestamos := t.prestamos[i := r.result.value], libros := BibliotecaService.Restock(t.libros, p.libro))
  {
  }

  /** Paying a fine keeps the database consistent. */
  lemma PagarMultaKeepsConsistent(t: Tables, prestamoId: int, today: int)
    requires Consistent(t)
    ensures Consistent(AfterPagarMulta(t, prestamoId, today).tables)
  {
    var r := AfterPagarMulta(t, prestamoId, today);
    if r.result.Ok? {
      var i := FindPrestamo(t.prestamos, prestamoId).value;
      var ps := r.tables.prestamos;
      assert forall k :: 0 <= k < |ps| && k != i ==> ps[k] == t.prestamos[k];
    }
  }

  // ----- Users -----

  /** The fields of a user in a create or update request. */
  datatype UsuarioRequest = UsuarioRequest(
    username: string,
    password: Option<string>,
    nombre: string,
    apellido: string,
    email: string,
    rol: Option<Rol>,
    bloqueado: bool)

  /** A password is re-encoded only when one is given and it is not empty. */
  predicate HasNewPassword(password: Option<string>) {
    password.Some? && password.value != ""
  }

  /** `crearUsuario(usuario)`: the answer hides the password. */
  function AfterCrearUsuario(t: Tables, req: UsuarioRequest, encode: string -> string): Outcome<Usuario>
  {
    if ExistsByUsername(t.usuarios, req.username) then
      Outcome(t, Err(IllegalArgument(Some("El username ya existe"))))
    else if ExistsByEmail(t.usuarios, req.email) then
      Outcome(t, Err(IllegalArgument(Some("El email ya está registrado"))))
    else
      var password := if HasNewPassword(req.password) then Some(encode(req.password.value)) else req.password;
      var u := Usuario(t.nextUsuarioId, req.username, password, req.nombre, req.apellido, req.email,
                       req.rol.GetOr(USUARIO), req.bloqueado);
      Outcome(t.(usuarios := t.usuarios + [u], nextUsuarioId := t.nextUsuarioId + 1), Ok(u.(password := None)))
  }

  lemma CrearUsuarioSpec(t: Tables, req: UsuarioRequest, encode: string -> string)
    ensures var r := AfterCrearUsuario(t, req, encode);
            ExistsByUsername(t.usuarios, req.username) ==>
              r == Outcome(t, Err(IllegalArgument(Some("El username ya existe"))))
    ensures var r := AfterCrearUsuario(t, req, encode);
            !ExistsByUsername(t.usuarios, req.username) && ExistsByEmail(t.usuarios, req.email) ==>
              r == Outcome(t, Err(IllegalArgument(Some("El email ya está registrado"))))
    ensures var r := AfterCrearUsuario(t, req, encode);
            r.result.Ok? <==> !ExistsByUsername(t.usuarios, req.username) && !ExistsByEmail(t.usuarios, req.email)
    ensures var r := AfterCrearUsuario(t, req, encode);
            r.result.Ok? ==> |r.tables.usuarios| == |t.usuarios| + 1
    ensures var r := AfterCrearUsuario(t, req, encode);
            r.result.Ok? ==>
              var u := r.tables.usuarios[|t.usuarios|];
              && r.tables == t.(usuarios := t.usuarios + [u], nextUsuarioId := t.nextUsuarioId + 1)
              && u.id == t.nextUsuarioId
              && u.username == req.username && u.email == req.email
              && u.nombre == req.nombre && u.apellido == req.apellido && u.bloqueado == req.bloqueado
              && u.rol == req.rol.GetOr(USUARIO)
              && (HasNewPassword(req.password) ==> u.password == Some(encode(req.password.value)))
              && (!HasNewPassword(req.password) ==> u.password == req.password)
              && r.result.value == u.(password := None)
  {
  }

  /** Creating a user keeps the database consistent. */
  lemma CrearUsuarioKeepsConsistent(t: Tables, req: UsuarioRequest, encode: string -> string)
    requires Consistent(t)
    ensures Consistent(AfterCrearUsuario(t, req, encode).tables)
  {
    var r := AfterCrearUsuario(t, req, encode);
    if r.result.Ok? {
      AddUsuarioKeepsConsistent(t, r.tables.usuarios[|t.usuarios|]);
    }
  }

  /** `actualizarUsuario(id, usuario)`: a username or email may be kept, or changed to one nobody holds. */
  function AfterActualizarUsuario(t: Tables, id: int, req: UsuarioRequest, rol: Rol, encode: string -> string): Outcome<Usuario>
  {
    match FindUsuario(t.usuarios, id)
    case None => Outcome(t, Err(IllegalArgument(Some("Usuario no encontrado"))))
    case Some(i) =>
      var existente := t.usuarios[i];
      if existente.username != req.username && ExistsByUsername(t.usuarios, req.username) then
        Outcome(t, Err(IllegalArgument(Some("El username ya existe"))))
      else if existente.email != req.email && ExistsByEmail(t.usuarios, req.email) then
        Outcome(t, Err(IllegalArgument(Some("El email ya está registrado"))))
      else
        var password := if HasNewPassword(req.password) then Some(encode(req.password.value)) else existente.password;
        var u := existente.(username := req.username, nombre := req.nombre, apellido := req.apellido,
                            email := req.email, rol := rol, bloqueado := req.bloqueado, password := password);
        Outcome(t.(usuarios := t.usuarios[i := u]), Ok(u.(password := None)))
  }

  lemma ActualizarUsuarioSpec(t: Tables, id: int, req: UsuarioRequest, rol: Rol, encode: string -> string)
    ensures var r := AfterActualizarUsuario(t, id, req, rol, encode);
            FindUsuario(t.usuarios, id).None? ==> r == Outcome(t, Err(IllegalArgument(Some("Usuario no encontrado"))))
    ensures var r := AfterActualizarUsuario(t, id, req, rol, encode);
            r.result.Err? ==> r.tables == t
    ensures var r := AfterActualizarUsuario(t, id, req, rol, encode);
            FindUsuario(t.usuarios, id).Some? ==>
              var e := t.usuarios[FindUsuario(t.usuarios, id).value];
              && (e.username != req.username && ExistsByUsername(t.usuarios, req.username) ==>
                    r.result == Err(IllegalArgument(Some("El username ya existe"))))
              && (r.result.Ok? <==>
                    (e.username == req.username || !ExistsByUsername(t.usuarios, req.username)) &&
                    (e.email == req.email || !ExistsByEmail(t.usuarios, req.email)))
    ensures var r := AfterActualizarUsuario(t, id, req, rol, encode);
            r.result.Ok? ==> |r.tables.usuarios| == |t.usuarios|
    ensures var r := AfterActualizarUsuario(t, id, req, rol, encode);
            r.result.Ok? ==>
              var i := FindUsuario(t.usuarios, id).value;
              var e := t.usuarios[i];
              var u := r.tables.usuarios[i];
              && r.tables == t.(usuarios := t.usuarios[i := u])
              && u == e.(username := req.username, nombre := req.nombre, apellido := req.apellido,
                         email := req.email, rol := rol, bloqueado := req.bloqueado,
                         password := if HasNewPassword(req.password) then Some(encode(req.password.value)) else e.password)
              && r.result.value == u.(password := None)
  {
  }

  /** Updating a user never creates a duplicate username or email. */
  lemma ActualizarUsuarioKeepsConsistent(t: Tables, id: int, req: UsuarioRequest, rol: Rol, encode: string -> string)
    requires Consistent(t)
    ensures Consistent(AfterActualizarUsuario(t, id, req, rol, encode).tables)
  {
    var r := AfterActualizarUsuario(t, id, req, rol, encode);
    if r.result.Ok? {
      var i := FindUsuario(t.usuarios, id).value;
      var us := r.tables.usuarios;
      assert forall k :: 0 <= k < |us| && k != i ==> us[k] == t.usuarios[k];
      forall j, k | 0 <= j < k < |us|
        ensures us[j].username != us[k].username && us[j].email != us[k].email
      {
        if j == i || k == i {
          var o := if j == i then k else j;
          assert us[o] == t.usuarios[o];
        }
      }
    }
  }

  /** `eliminarUsuario(id)`: the user's loans stay in the table. */
  function AfterEliminarUsuario(t: Tables, id: int): Outcome<()>
  {
    match FindUsuario(t.usuarios, id)
    case None => Outcome(t, Err(IllegalArgument(Some("Usuario no encontrado"))))
    case Some(i) =>
      Outcome(t.(usuarios := RemoveAt(t.usuarios, i)), Ok(()))
  }

  lemma EliminarUsuarioSpec(t: Tables, id: int)
    ensures var r := AfterEliminarUsuario(t, id);
            r.result.Err? <==> forall i :: 0 <= i < |t.usuarios| ==> t.usuarios[i].id != id
    ensures var r := AfterEliminarUsuario(t, id);
            r.result.Err? ==> r == Outcome(t, Err(IllegalArgument(Some("Usuario no encontrado"))))
    ensures var r := AfterEliminarUsuario(t, id);
            r.result.Ok? ==>
              && |r.tables.usuarios| == |t.usuarios| - 1
              && (forall i :: 0 <= i < |r.tables.usuarios| ==> r.tables.usuarios[i] in t.usuarios)
              && r.tables == t.(usuarios := r.tables.usuarios)
  {
    var r := AfterEliminarUsuario(t, id);
    if r.result.Ok? {
      var i := FindUsuario(t.usuarios, id).value;
      var us := r.tables.usuarios;
      assert forall k :: 0 <= k < |us| ==> us[k] == t.usuarios[if k < i then k else k + 1];
    }
  }

  /** Deleting a user keeps the database consistent, and with unique ids the account is gone. */
  lemma EliminarUsuarioKeepsConsistent(t: Tables, id: int)
    requires Consistent(t)
    ensures Consistent(AfterEliminarUsuario(t, id).tables)
    ensures forall i :: 0 <= i < |AfterEliminarUsuario(t, id).tables.usuarios| ==>
              AfterEliminarUsuario(t, id).tables.usuarios[i].id != id
  {
    var r := AfterEliminarUsuario(t, id);
    if r.result.Ok? {
      var i := FindUsuario(t.usuarios, id).value;
      RemoveAtKeepsAccounts(t.usuarios, i, t.nextUsuarioId);
    }
  }

  /** Removing one row keeps the ids increasing and the accounts unique, and the removed id is gone. */
  lemma RemoveAtKeepsAccounts(us: seq<Usuario>, i: nat, next: int)
    requires i < |us|
    requires UserIdsIncrease(us, next) && UniqueAccounts(us)
    ensures UserIdsIncrease(RemoveAt(us, i), next) && UniqueAccounts(RemoveAt(us, i))
    ensures forall k :: 0 <= k < |RemoveAt(us, i)| ==> RemoveAt(us, i)[k].id != us[i].id
  {
  }

  /** The controller, wired to the service and to the same database. */
  class AdminController {
    const db: Store
    const service: BibliotecaService.BibliotecaService
    const encode: string -> string

    constructor (service: BibliotecaService.BibliotecaService, encode: string -> string)
      ensures this.service == service && this.db == service.db && this.encode == encode
    {
      this.service := service;
      this.db := service.db;
      this.encode := encode;
    }

    /** `eliminarCategoria(id)` */
    method EliminarCategoria(id: int) returns (r: Result<()>)
      requires db.Valid()
      modifies db
      ensures Outcome(db.Snapshot(), r) == AfterEliminarCategoria(old(db.Snapshot()), id)
      ensures db.Valid()
    {
      if id !in db.categorias {
        return Err(IllegalArgument(Some("Categoría no encontrada")));
      }
      var librosConCategoria := CountByCategoriaId(db.libros, id);
      if librosConCategoria > 0 {
        return Err(IllegalState(Some(MensajeCategoriaEnUso(librosConCategoria))));
      }
      db.categorias := db.categorias - {id};
      r := Ok(());
      EliminarCategoriaKeepsConsistent(old(db.Snapshot()), id);
    }

    /** `crearLibro(libro)` */
    method CrearLibro(req: LibroRequest) returns (r: Result<Libro>)
      requires db.Valid()
      modifies db
      ensures Outcome(db.Snapshot(), r) == AfterCrearLibro(old(db.Snapshot()), req)
      ensures db.Valid()
    {
      var disponible := req.cantidadDisponible;
      if disponible == 0 {
        disponible := req.cantidadTotal;
      }
      var categoria := ResolverCategoria(db.Snapshot(), req.categoria);
      if categoria.Err? {
        return Err(categoria.error);
      }
      var libro := Libro(db.nextLibroId, req.titulo, req.autor, req.descripcion, req.imagenUrl,
                         req.cantidadTotal, disponible, categoria.value);
      db.libros := db.libros[libro.id := libro];
      db.nextLibroId := db.nextLibroId + 1;
      r := Ok(libro);
      CrearLibroKeepsConsistent(old(db.Snapshot()), req);
    }

    /** `actualizarLibro(id, libro)` */
    method ActualizarLibro(id: int, req: LibroRequest) returns (r: Result<Libro>)
      requires db.Valid()
      modifies db
      ensures Outcome(db.Snapshot(), r) == AfterActualizarLibro(old(db.Snapshot()), id, req)
      ensures db.Valid()
    {
      if id !in db.libros {
        return Err(IllegalArgument(Some("Libro no encontrado")));
      }
      var existente := db.libros[id];
      existente := existente.(titulo := req.titulo, autor := req.autor, descripcion := req.descripcion,
                              imagenUrl := req.imagenUrl, cantidadTotal := req.cantidadTotal,
                              cantidadDisponible := req.cantidadDisponible);
      var categoria := ResolverCategoria(db.Snapshot(), req.categoria);
      if categoria.Err? {
        return Err(categoria.error);
      }
      existente := existente.(categoria := categoria.value);
      db.libros := db.libros[id := existente];
      r := Ok(existente);
      ActualizarLibroKeepsConsistent(old(db.Snapshot()), id, req);
    }

    /** `eliminarLibro(id)` */
    method EliminarLibro(id: int) returns (r: Result<()>)
      requires db.Valid()
      modifies db
      ensures Outcome(db.Snapshot(), r) == AfterEliminarLibro(old(db.Snapshot()), id)
      ensures db.Valid()
    {
      if id !in db.libros {
        return Err(IllegalArgument(Some("Libro no encontrado")));
      }
      var prestamosActivos := PrestamoRepository.CountPrestamosActivosByLibroId(db.prestamos, id);
      if prestamosActivos > 0 {
        return Err(IllegalState(Some(MensajeLibroConPrestamos(prestamosActivos))));
      }
      db.libros := db.libros - {id};
      r := Ok(());
      EliminarLibroKeepsConsistent(old(db.Snapshot()), id);
    }

    /** `recibirLibro(id)`: the service's `devolverLibro`. */
    method RecibirLibro(id: int, today: int) returns (r: Result<Prestamo>)
      requires service.db == db
      requires db.Valid()
      modifies db
      ensures Outcome(db.Snapshot(), r) == BibliotecaService.AfterDevolver(old(db.Snapshot()), id, today)
      ensures db.Valid()
    {
      r := service.DevolverLibro(id, today);
    }

    /**
      `actualizarMultas()`: fines the loan table with `MultarFilas`, stores
      it and answers with the number of fined loans.
    */
    method ActualizarMultas(today: int) returns (mensaje: string, actualizados: nat)
      requires db.Valid()
      modifies db
      ensures db.Snapshot() == AfterActualizarMultas(old(db.Snapshot()), today)
      ensures actualizados == Actualizados(old(db.prestamos), today)
      ensures mensaje == MensajeMultas(actualizados)
      ensures db.Valid()
    {
      var prestamos;
      prestamos, actualizados := MultarFilas(db.prestamos, today);
      db.prestamos := prestamos;
      mensaje := MensajeMultas(actualizados);
      ActualizarMultasKeepsConsistent(old(db.Snapshot()), today);
    }

    /** `pagarMulta(id)` */
    method PagarMulta(prestamoId: int, today: int) returns (r: Result<Prestamo>)
      requires db.Valid()
      modifies db
      ensures Outcome(db.Snapshot(), r) == AfterPagarMulta(old(db.Snapshot()), prestamoId, today)
      ensures db.Valid()
    {
      var found := FindPrestamo(db.prestamos, prestamoId);
      if found.None? {
        return Err(IllegalArgument(Some("Préstamo no encontrado")));
      }
      var i := found.value;
      var prestamo := db.prestamos[i];
      if prestamo.estado != MULTA {
        return Err(IllegalState(Some("Este préstamo no tiene multa pendiente")));
      }
      prestamo := prestamo.(fechaDevolucion := Some(today), estado := DEVUELTO);
      ghost var libros := db.libros;
      if prestamo.libro in db.libros {
        var libro := db.libros[prestamo.libro];
        db.libros := db.libros[prestamo.libro := libro.(cantidadDisponible := libro.cantidadDisponible + 1)];
      }
      assert db.libros == BibliotecaService.Restock(libros, prestamo.libro);
      db.prestamos := db.prestamos[i := prestamo];
      r := Ok(prestamo);
      PagarMultaKeepsConsistent(old(db.Snapshot()), prestamoId, today);
    }

    /** `crearUsuario(usuario)` */
    method CrearUsuario(req: UsuarioRequest) returns (r: Result<Usuario>)
      requires db.Valid()
      modifies db
      ensures Outcome(db.Snapshot(), r) == AfterCrearUsuario(old(db.Snapshot()), req, encode)
      ensures db.Valid()
    {
      if ExistsByUsername(db.usuarios, req.username) {
        return Err(IllegalArgument(Some("El username ya existe")));
      }
      if ExistsByEmail(db.usuarios, req.email) {
        return Err(IllegalArgument(Some("El email ya está registrado")));
      }
      var usuario := Usuario(db.nextUsuarioId, req.username, req.password, req.nombre, req.apellido,
                             req.email, req.rol.GetOr(USUARIO), req.bloqueado);
      if HasNewPassword(req.password) {
        usuario := usuario.(password := Some(encode(req.password.value)));
      }
      db.usuarios := db.usuarios + [usuario];
      db.nextUsuarioId := db.nextUsuarioId + 1;
      r := Ok(usuario.(password := None));
      CrearUsuarioKeepsConsistent(old(db.Snapshot()), req, encode);
    }

    /** `actualizarUsuario(id, usuario)`; `rol` is the request's role. */
    method ActualizarUsuario(id: int, req: UsuarioRequest, rol: Rol) returns (r: Result<Usuario>)
      requires db.Valid()
      modifies db
      ensures Outcome(db.Snapshot(), r) == AfterActualizarUsuario(old(db.Snapshot()), id, req, rol, encode)
      ensures db.Valid()
    {
      var found := FindUsuario(db.usuarios, id);
      if found.None? {
        return Err(IllegalArgument(Some("Usuario no encontrado")));
      }
      var i := found.value;
      var existente := db.usuarios[i];
      if existente.username != req.username && ExistsByUsername(db.usuarios, req.username) {
        return Err(IllegalArgument(Some("El username ya existe")));
      }
      if existente.email != req.email && ExistsByEmail(db.usuarios, req.email) {
        return Err(IllegalArgument(Some("El email ya está registrado")));
      }
      existente := existente.(username := req.username, nombre := req.nombre, apellido := req.apellido,
                              email := req.email, rol := rol, bloqueado := req.bloqueado);
      if HasNewPassword(req.password) {
        existente := existente.(password := Some(encode(req.password.value)));
      }
      db.usuarios := db.usuarios[i := existente];
      r := Ok(existente.(password := None));
      ActualizarUsuarioKeepsConsistent(old(db.Snapshot()), id, req, rol, encode);
    }

    /** `eliminarUsuario(id)` */
    method EliminarUsuario(id: int) returns (r: Result<()>)
      requires db.Valid()
      modifies db
      ensures Outcome(db.Snapshot(), r) == AfterEliminarUsuario(old(db.Snapshot()), id)
      ensures db.Valid()
    {
      var found := FindUsuario(db.usuarios, id);
      if found.None? {
        return Err(IllegalArgument(Some("Usuario no encontrado")));
      }
      db.usuarios := RemoveAt(db.usuarios, found.value);
      r := Ok(());
      EliminarUsuarioKeepsConsistent(old(db.Snapshot()), id);
    }
  }
}
