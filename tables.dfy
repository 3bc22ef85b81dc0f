/**
  The database behind the backend: the tables of books, categories, users and
  loans, the repository lookups the services use on them, and the integrity
  the services keep. Ids are assigned by the database (`IDENTITY`), so each
  table carries the next id it will hand out.
*/
module Repositories {
  import opened Optional
  import opened Entities
  import opened Seqs
  import opened Exceptions

  /** One state of the database. Users and loans are kept in `findAll()` (id) order. */
  datatype Tables = Tables(
    libros: map<int, Libro>,
    categorias: map<int, Categoria>,
    usuarios: seq<Usuario>,
    prestamos: seq<Prestamo>,
    nextLibroId: int,
    nextUsuarioId: int,
    nextPrestamoId: int)

  /** The tables after an operation, and what the operation returned or threw. */
  datatype Outcome<+T> = Outcome(tables: Tables, result: Result<T>)

  /** `prestamoRepository.findById(id)`: the position of the loan with that id. */
  function FindPrestamo(ps: seq<Prestamo>, id: int): (r: Option<nat>)
    ensures r.None? <==> forall i :: 0 <= i < |ps| ==> ps[i].id != id
    ensures r.Some? ==> r.value < |ps| && ps[r.value].id == id
  {
    IndexWhere(ps, (p: Prestamo) => p.id == id)
  }

  /** `usuarioRepository.findById(id)`: the position of the user with that id. */
  function FindUsuario(us: seq<Usuario>, id: int): (r: Option<nat>)
    ensures r.None? <==> forall i :: 0 <= i < |us| ==> us[i].id != id
    ensures r.Some? ==> r.value < |us| && us[r.value].id == id
  {
    IndexWhere(us, (u: Usuario) => u.id == id)
  }

  /** `usuarioRepository.findByUsername(username)` */
  function FindByUsername(us: seq<Usuario>, username: string): (r: Option<Usuario>)
    ensures r.None? <==> forall i :: 0 <= i < |us| ==> us[i].username != username
    ensures r.Some? ==> r.value in us && r.value.username == username
  {
    match IndexWhere(us, (u: Usuario) => u.username == username)
    case None => None
    case Some(i) => Some(us[i])
  }

  /** `usuarioRepository.existsByUsername(username)` */
  predicate ExistsByUsername(us: seq<Usuario>, username: string) {
    exists i :: 0 <= i < |us| && us[i].username == username
  }

  /** `usuarioRepository.existsByEmail(email)` */
  predicate ExistsByEmail(us: seq<Usuario>, email: string) {
    exists i :: 0 <= i < |us| && us[i].email == email
  }

  /** `libroRepository.countByCategoriaId(id)`: the books filed under that category. */
  function CountByCategoriaId(libros: map<int, Libro>, categoriaId: int): (n: nat)
    ensures n == 0 <==> forall b :: b in libros ==> libros[b].categoria != Some(categoriaId)
  {
    var filed := set b | b in libros && libros[b].categoria == Some(categoriaId);
    assert (forall b :: b in libros ==> libros[b].categoria != Some(categoriaId)) ==> filed == {};
    assert forall b :: b in libros && libros[b].categoria == Some(categoriaId) ==> b in filed;
    |filed|
  }

  /** No two rows of the table share an id, and the ids grow in table order. */
  predicate LoanIdsIncrease(ps: seq<Prestamo>, next: int) {
    && (forall i, j :: 0 <= i < j < |ps| ==> ps[i].id < ps[j].id)
    && (forall i :: 0 <= i < |ps| ==> ps[i].id < next)
  }

  predicate UserIdsIncrease(us: seq<Usuario>, next: int) {
    && (forall i, j :: 0 <= i < j < |us| ==> us[i].id < us[j].id)
    && (forall i :: 0 <= i < |us| ==> us[i].id < next)
  }

  /** No two accounts share a username, and none share an email. */
  predicate UniqueAccounts(us: seq<Usuario>) {
    && (forall i, j :: 0 <= i < j < |us| ==> us[i].username != us[j].username)
    && (forall i, j :: 0 <= i < j < |us| ==> us[i].email != us[j].email)
  }

  /** Every book row is stored under its own id, and its category exists. */
  predicate BooksWellFiled(t: Tables) {
    && (forall b :: b in t.libros ==> t.libros[b].id == b && b < t.nextLibroId)
    && (forall b :: b in t.libros && t.libros[b].categoria.Some? ==> t.libros[b].categoria.value in t.categorias)
    && (forall c :: c in t.categorias ==> t.categorias[c].id == c)
  }

  /** Every loan in PRESTADO or MULTA refers to a book that still exists. */
  predicate ActiveLoansHaveBooks(t: Tables) {
    forall i :: 0 <= i < |t.prestamos| && IsActive(t.prestamos[i]) ==> t.prestamos[i].libro in t.libros
  }

  /** The integrity the backend's operations keep. */
  predicate Consistent(t: Tables) {
    && BooksWellFiled(t)
    && LoanIdsIncrease(t.prestamos, t.nextPrestamoId)
    && UserIdsIncrease(t.usuarios, t.nextUsuarioId)
    && UniqueAccounts(t.usuarios)
    && ActiveLoansHaveBooks(t)
  }

  /** With unique usernames, `findByUsername` finds the one account holding it. */
  lemma FindByUsernameUnique(us: seq<Usuario>, username: string, i: nat)
    requires UniqueAccounts(us)
    requires i < |us| && us[i].username == username
    ensures FindByUsername(us, username) == Some(us[i])
  {
  }

  /** Adding an account that clashes with none keeps the database consistent. */
  lemma AddUsuarioKeepsConsistent(t: Tables, u: Usuario)
    requires Consistent(t)
    requires !ExistsByUsername(t.usuarios, u.username) && !ExistsByEmail(t.usuarios, u.email)
    requires u.id == t.nextUsuarioId
    ensures Consistent(t.(usuarios := t.usuarios + [u], nextUsuarioId := t.nextUsuarioId + 1))
  {
    var us := t.usuarios + [u];
    assert forall i :: 0 <= i < |t.usuarios| ==> us[i] == t.usuarios[i];
  }

  /** The database, as the repositories see it. */
  class Store {
    var libros: map<int, Libro>
    var categorias: map<int, Categoria>
    var usuarios: seq<Usuario>
    var prestamos: seq<Prestamo>
    var nextLibroId: int
    var nextUsuarioId: int
    var nextPrestamoId: int

    /** The current contents of every table. */
    function Snapshot(): Tables
      reads this
    {
      Tables(libros, categorias, usuarios, prestamos, nextLibroId, nextUsuarioId, nextPrestamoId)
    }

    predicate Valid()
      reads this
    {
      Consistent(Snapshot())
    }

    /** An empty database whose identity columns start at 1. */
    constructor ()
      ensures Valid()
      ensures Snapshot() == Tables(map[], map[], [], [], 1, 1, 1)
    {
      libros := map[];
      categorias := map[];
      usuarios := [];
      prestamos := [];
      nextLibroId := 1;
      nextUsuarioId := 1;
      nextPrestamoId := 1;
    }
  }
}
