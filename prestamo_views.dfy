/**
  The loan-list helpers that the administration page (`admin-prestamos`)
  and the reader's history page (`historial-prestamos`) write out
  identically: the state filter, the per-state counters, the badge and label
  of a state, the fine and delay predicates, and the zero case of the
  currency format. "Days remaining" comes from the browser clock and is
  passed in as an integer.
*/
module PrestamoViews {
  import opened Optional
  import opened Seqs
  import opened Entities
  import opened ApiTypes

  const TODOS := "TODOS"

  predicate TieneEstado(estado: string, p: PrestamoJson) {
    p.estado == estado
  }

  function ConEstado(estado: string): PrestamoJson -> bool {
    (p: PrestamoJson) => TieneEstado(estado, p)
  }

  /** `filtrarPrestamos()` */
  function FiltrarPrestamos(prestamos: seq<PrestamoJson>, filtroEstado: string): seq<PrestamoJson> {
    if filtroEstado == TODOS then prestamos else Filter(prestamos, ConEstado(filtroEstado))
  }

  /** `getPrestadosCount()`, `getMultasCount()`, `getDevueltosCount()` for the state `estado`. */
  function CountEstado(prestamos: seq<PrestamoJson>, estado: string): nat {
    Count(prestamos, ConEstado(estado))
  }

  /**
    "TODOS" shows every loan; any other value shows, in order, exactly the
    loans in that state, and the counter of a state is the length of the
    list filtered by it.
  */
  lemma FiltrarPrestamosSpec(prestamos: seq<PrestamoJson>, filtroEstado: string)
    ensures filtroEstado == TODOS ==> FiltrarPrestamos(prestamos, filtroEstado) == prestamos
    ensures filtroEstado != TODOS ==>
              && IsSubsequence(FiltrarPrestamos(prestamos, filtroEstado), prestamos)
              && (forall i :: 0 <= i < |FiltrarPrestamos(prestamos, filtroEstado)| ==>
                    FiltrarPrestamos(prestamos, filtroEstado)[i].estado == filtroEstado)
              && (forall i :: 0 <= i < |prestamos| && prestamos[i].estado == filtroEstado ==>
                    prestamos[i] in FiltrarPrestamos(prestamos, filtroEstado))
              && |FiltrarPrestamos(prestamos, filtroEstado)| == CountEstado(prestamos, filtroEstado)
  {
    if filtroEstado != TODOS {
      FilterIsSubsequence(prestamos, ConEstado(filtroEstado));
    }
  }

  /** Every loan is in one of the three states the server uses. */
  predicate EstadosValidos(prestamos: seq<PrestamoJson>) {
    forall i :: 0 <= i < |prestamos| ==>
      prestamos[i].estado in {PRESTADO_NAME, MULTA_NAME, DEVUELTO_NAME}
  }

  /**
    When every loan is in one of the three states, the three counters add up
    to `getTotalPrestamos()`.
  */
  lemma {:induction false} CountsSumTotal(prestamos: seq<PrestamoJson>)
    requires EstadosValidos(prestamos)
    ensures CountEstado(prestamos, PRESTADO_NAME) + CountEstado(prestamos, MULTA_NAME)
            + CountEstado(prestamos, DEVUELTO_NAME) == |prestamos|
  {
    if prestamos != [] {
      CountsSumTotal(prestamos[1..]);
      assert prestamos == [prestamos[0]] + prestamos[1..];
      CountFirst(prestamos, ConEstado(PRESTADO_NAME));
      CountFirst(prestamos, ConEstado(MULTA_NAME));
      CountFirst(prestamos, ConEstado(DEVUELTO_NAME));
    }
  }

  /** The count of a non-empty list: its first element, then the rest. */
  lemma CountFirst(s: seq<PrestamoJson>, f: PrestamoJson -> bool)
    requires s != []
    ensures Count(s, f) == (if f(s[0]) then 1 else 0) + Count(s[1..], f)
  {
    assert s == [s[0]] + s[1..];
  }

  /** The loans the server sends always have one of the three state names. */
  lemma ServerLoansValid(ps: seq<Prestamo>)
    ensures EstadosValidos(seq(|ps|, i requires 0 <= i < |ps| => PrestamoToJson(ps[i])))
  {
  }

  /** `getEstadoBadgeClass(estado)` */
  function EstadoBadgeClass(estado: string): string {
    if estado == PRESTADO_NAME then "bg-primary"
    else if estado == MULTA_NAME then "bg-danger"
    else if estado == DEVUELTO_NAME then "bg-success"
    else "bg-secondary"
  }

  /** `getEstadoTexto(estado)` */
  function EstadoTexto(estado: string): string {
    if estado == PRESTADO_NAME then "Prestado"
    else if estado == MULTA_NAME then "En Multa"
    else if estado == DEVUELTO_NAME then "Devuelto"
    else estado
  }

  /**
    The three states get their own badge and label; any other value gets the
    neutral badge and is shown as it came. No two states share a badge or a
    label.
  */
  lemma EstadoMappers(estado: string)
    ensures estado !in {PRESTADO_NAME, MULTA_NAME, DEVUELTO_NAME} ==>
              EstadoBadgeClass(estado) == "bg-secondary" && EstadoTexto(estado) == estado
    ensures forall e, f :: e in {PRESTADO, MULTA, DEVUELTO} && f in {PRESTADO, MULTA, DEVUELTO} && e != f ==>
              EstadoBadgeClass(EstadoName(e)) != EstadoBadgeClass(EstadoName(f))
              && EstadoTexto(EstadoName(e)) != EstadoTexto(EstadoName(f))
    ensures forall e :: EstadoBadgeClass(EstadoName(e)) != "bg-secondary"
  {
  }

  /** `tieneMulta(prestamo)`: the fine is defined, not null, and positive. */
  predicate TieneMulta(p: PrestamoJson) {
    p.valorMulta.Some? && p.valorMulta.value > 0
  }

  /** `tieneDiasRetraso(prestamo)` */
  predicate TieneDiasRetraso(p: PrestamoJson) {
    p.diasRetraso.Some? && p.diasRetraso.value > 0
  }

  /** `estaEnMultaConValor(prestamo)` */
  predicate EstaEnMultaConValor(p: PrestamoJson) {
    p.estado == MULTA_NAME && TieneMulta(p)
  }

  /** `estaVencido(fechaLimite)`, given the days remaining. */
  predicate EstaVencido(diasRestantes: int) {
    diasRestantes < 0
  }

  /** `estaVencidoYEnPrestamo(prestamo)`, given the days remaining to its due date. */
  predicate EstaVencidoYEnPrestamo(p: PrestamoJson, diasRestantes: int) {
    EstaVencido(diasRestantes) && p.estado == PRESTADO_NAME
  }

  /**
    `formatearMoneda(valor)`: an undefined or zero amount is "$0" without
    calling the locale; any other is "$" and the locale's rendering.
  */
  function FormatearMoneda(valor: Option<int>, toLocaleString: int -> string): (r: string)
    ensures valor.None? || valor == Some(0) ==> r == "$0"
    ensures valor.Some? && valor.value != 0 ==> r == "$" + toLocaleString(valor.value)
    ensures |r| > 0 && r[0] == '$'
  {
    if valor.None? || valor.value == 0 then "$0" else "$" + toLocaleString(valor.value)
  }

  /**
    A fine the server computed without wrapping around (see
    `Entities.ValorMultaWraps` for one that does) is shown with its amount
    exactly when the loan is in MULTA and the return was at least a day
    late, and such a loan shows its delay.
  */
  lemma FinedLoanShowsFine(p: Prestamo)
    requires p.estado == MULTA && p.diasRetraso.Some? && p.valorMulta == Some(p.diasRetraso.value * MULTA_POR_DIA)
    ensures EstaEnMultaConValor(PrestamoToJson(p)) <==> p.diasRetraso.value > 0
    ensures TieneDiasRetraso(PrestamoToJson(p)) <==> TieneMulta(PrestamoToJson(p))
  {
  }
}
