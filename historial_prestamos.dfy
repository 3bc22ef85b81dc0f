/** The reader's own loan history. */
module HistorialPrestamos {
  import opened PrestamoViews
  import opened ApiTypes
  import AdminPrestamos

  /** `getDiasRestantesClass(fechaLimite)`: three colours, amber for the last two days. */
  function DiasRestantesClass(diasRestantes: int): (r: string)
    ensures r == "bg-danger" <==> EstaVencido(diasRestantes)
    ensures r == "bg-warning" <==> 0 <= diasRestantes <= 2
    ensures r == "bg-success" <==> diasRestantes >= 3
  {
    if diasRestantes < 0 then "bg-danger"
    else if diasRestantes <= 2 then "bg-warning"
    else "bg-success"
  }

  /** The history page is red exactly where the administration page is. */
  lemma SameOverdueColour(diasRestantes: int)
    ensures DiasRestantesClass(diasRestantes) == "bg-danger"
        <==> AdminPrestamos.DiasRestantesClass(diasRestantes) == "bg-danger"
  {
  }

  class HistorialPage {
    var prestamos: seq<PrestamoJson>
    var loading: bool
    var filtroEstado: string

    constructor ()
      ensures prestamos == [] && !loading && filtroEstado == TODOS
    {
      prestamos := [];
      loading := false;
      filtroEstado := TODOS;
    }

    /** `cargarPrestamos()`: the request goes out. */
    method CargarPrestamos()
      modifies this
      ensures loading && prestamos == old(prestamos) && filtroEstado == old(filtroEstado)
    {
      loading := true;
    }

    /** The success callback of `cargarPrestamos()`. */
    method PrestamosCargados(ps: seq<PrestamoJson>)
      modifies this
      ensures prestamos == ps && !loading && filtroEstado == old(filtroEstado)
    {
      prestamos := ps;
      loading := false;
    }

    /** The error callback of `cargarPrestamos()`: unlike the administration page, the list stays. */
    method ErrorAlCargar(status: int)
      modifies this
      ensures prestamos == old(prestamos) && !loading && filtroEstado == old(filtroEstado)
    {
      loading := false;
    }
  }
}
