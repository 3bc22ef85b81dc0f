/**
  The derived and JPQL queries of the loan repository, as functions over the
  loan table (`findAll()` order). A query parameter that is an entity is
  compared by id, as JPA does.
*/
module PrestamoRepository {
  import opened Entities
  import opened Seqs

  /** `findByUsuario(usuario)` */
  function FindByUsuario(ps: seq<Prestamo>, usuario: int): (r: seq<Prestamo>)
    ensures forall i :: 0 <= i < |r| ==> r[i] in ps && r[i].usuario == usuario
    ensures forall i :: 0 <= i < |ps| && ps[i].usuario == usuario ==> ps[i] in r
  {
    Filter(ps, (p: Prestamo) => p.usuario == usuario)
  }

  /** `findByEstado(estado)` */
  function FindByEstado(ps: seq<Prestamo>, estado: EstadoPrestamo): (r: seq<Prestamo>)
    ensures forall i :: 0 <= i < |r| ==> r[i] in ps && r[i].estado == estado
    ensures forall i :: 0 <= i < |ps| && ps[i].estado == estado ==> ps[i] in r
  {
    Filter(ps, (p: Prestamo) => p.estado == estado)
  }

  /** `findByEstadoAndFechaLimiteBefore(estado, fecha)`: "before" is strict. */
  function FindByEstadoAndFechaLimiteBefore(ps: seq<Prestamo>, estado: EstadoPrestamo, fecha: int): (r: seq<Prestamo>)
    ensures forall i :: 0 <= i < |r| ==> r[i] in ps && r[i].estado == estado && r[i].fechaLimite < fecha
    ensures forall i :: 0 <= i < |ps| && ps[i].estado == estado && ps[i].fechaLimite < fecha ==> ps[i] in r
  {
    Filter(ps, (p: Prestamo) => p.estado == estado && p.fechaLimite < fecha)
  }

  /** The loans are in descending order of `fechaPrestamo`. */
  predicate SortedByFechaPrestamoDesc(s: seq<Prestamo>) {
    forall i, j :: 0 <= i < j < |s| ==> s[i].fechaPrestamo >= s[j].fechaPrestamo
  }

  /** Inserts `p` before the first loan that is not more recent than it. */
  function InsertByFechaPrestamoDesc(p: Prestamo, s: seq<Prestamo>): (r: seq<Prestamo>)
    requires SortedByFechaPrestamoDesc(s)
    ensures |r| == |s| + 1
    ensures SortedByFechaPrestamoDesc(r)
    ensures multiset(r) == multiset(s) + multiset{p}
  {
    if s == [] then [p]
    else if p.fechaPrestamo >= s[0].fechaPrestamo then [p] + s
    else
      var rest := InsertByFechaPrestamoDesc(p, s[1..]);
      InsertBehindHead(p, s, rest);
      [s[0]] + rest
  }

  /** Putting the head of `s` back in front of `p` inserted into the tail. */
  lemma InsertBehindHead(p: Prestamo, s: seq<Prestamo>, rest: seq<Prestamo>)
    requires SortedByFechaPrestamoDesc(s) && s != [] && p.fechaPrestamo < s[0].fechaPrestamo
    requires SortedByFechaPrestamoDesc(rest) && multiset(rest) == multiset(s[1..]) + multiset{p}
    ensures SortedByFechaPrestamoDesc([s[0]] + rest)
    ensures multiset([s[0]] + rest) == multiset(s) + multiset{p}
  {
    assert s == [s[0]] + s[1..];
    forall k | 0 <= k < |rest|
      ensures s[0].fechaPrestamo >= rest[k].fechaPrestamo
    {
      assert rest[k] in multiset(rest);
      if rest[k] != p {
        assert rest[k] in multiset(s[1..]);
      }
    }
    var r := [s[0]] + rest;
    forall i, j | 0 <= i < j < |r|
      ensures r[i].fechaPrestamo >= r[j].fechaPrestamo
    {
      if i > 0 {
        assert r[i] == rest[i - 1] && r[j] == rest[j - 1];
      } else {
        assert r[j] == rest[j - 1];
      }
    }
  }

  /** `ORDER BY p.fechaPrestamo DESC`; loans on the same day keep their table order. */
  function SortByFechaPrestamoDesc(s: seq<Prestamo>): (r: seq<Prestamo>)
    ensures SortedByFechaPrestamoDesc(r)
    ensures multiset(r) == multiset(s)
  {
    if s == [] then []
    else
      assert s == [s[0]] + s[1..];
      InsertByFechaPrestamoDesc(s[0], SortByFechaPrestamoDesc(s[1..]))
  }

  /** `findByUsuarioWithRelations(usuario)`: the user's loans, most recent first. */
  function FindByUsuarioWithRelations(ps: seq<Prestamo>, usuario: int): (r: seq<Prestamo>)
    ensures SortedByFechaPrestamoDesc(r)
    ensures multiset(r) == multiset(FindByUsuario(ps, usuario))
    ensures forall i :: 0 <= i < |r| ==> r[i] in ps && r[i].usuario == usuario
    ensures forall i :: 0 <= i < |ps| && ps[i].usuario == usuario ==> ps[i] in r
  {
    var mine := FindByUsuario(ps, usuario);
    var r := SortByFechaPrestamoDesc(mine);
    SameElements(mine, r);
    r
  }

  /** Sequences with the same multiset have the same elements. */
  lemma SameElements(a: seq<Prestamo>, b: seq<Prestamo>)
    requires multiset(a) == multiset(b)
    ensures forall i :: 0 <= i < |a| ==> a[i] in b
    ensures forall i :: 0 <= i < |b| ==> b[i] in a
  {
    forall i | 0 <= i < |a| ensures a[i] in b {
      assert a[i] in multiset(a);
    }
    forall i | 0 <= i < |b| ensures b[i] in a {
      assert b[i] in multiset(b);
    }
  }

  /** The loans that `countPrestamosActivosByLibroId(libroId)` counts. */
  predicate ActiveFor(libroId: int, p: Prestamo) {
    p.libro == libroId && (p.estado == PRESTADO || p.estado == MULTA)
  }

  /** `countPrestamosActivosByLibroId(libroId)`: loans of that book in PRESTADO or MULTA. */
  function CountPrestamosActivosByLibroId(ps: seq<Prestamo>, libroId: int): (n: nat)
    ensures n <= |ps|
    ensures n == 0 <==> forall i :: 0 <= i < |ps| ==> !(ps[i].libro == libroId && IsActive(ps[i]))
  {
    Count(ps, (p: Prestamo) => ActiveFor(libroId, p))
  }

  /** Each query returns the table's loans in table order. */
  lemma QueriesKeepTableOrder(ps: seq<Prestamo>, usuario: int, estado: EstadoPrestamo, fecha: int)
    ensures IsSubsequence(FindByUsuario(ps, usuario), ps)
    ensures IsSubsequence(FindByEstado(ps, estado), ps)
    ensures IsSubsequence(FindByEstadoAndFechaLimiteBefore(ps, estado, fecha), ps)
  {
    FilterIsSubsequence(ps, (p: Prestamo) => p.usuario == usuario);
    FilterIsSubsequence(ps, (p: Prestamo) => p.estado == estado);
    FilterIsSubsequence(ps, (p: Prestamo) => p.estado == estado && p.fechaLimite < fecha);
  }

  /** The loans of one user in one state are the same whichever query is filtered first. */
  lemma {:induction false} UsuarioThenEstado(ps: seq<Prestamo>, usuario: int, estado: EstadoPrestamo)
    ensures FindByEstado(FindByUsuario(ps, usuario), estado) == FindByUsuario(FindByEstado(ps, estado), usuario)
  {
    if ps != [] {
      UsuarioThenEstado(ps[1..], usuario, estado);
      var byU := FindByUsuario(ps[1..], usuario);
      var byE := FindByEstado(ps[1..], estado);
      if ps[0].usuario == usuario {
        assert FindByUsuario(ps, usuario) == [ps[0]] + byU;
        assert ([ps[0]] + byU)[1..] == byU;
      } else {
        assert FindByUsuario(ps, usuario) == byU;
      }
      if ps[0].estado == estado {
        assert FindByEstado(ps, estado) == [ps[0]] + byE;
        assert ([ps[0]] + byE)[1..] == byE;
      } else {
        assert FindByEstado(ps, estado) == byE;
      }
    }
  }
}
