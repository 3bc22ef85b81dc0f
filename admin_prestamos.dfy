/** The loans page of the administration area. */
module AdminPrestamos {
  import opened PrestamoViews
  import opened ApiTypes

  /** `getDiasRestantesClass(fechaLimite)`: two colours, red once overdue. */
  function DiasRestantesClass(diasRestantes: int): (r: string)
    ensures r == "bg-danger" <==> EstaVencido(diasRestantes)
    ensures r == "bg-danger" || r == "bg-success"
  {
    if diasRestantes < 0 then "bg-danger" else "bg-success"
  }

  /** An overdue loan still out is one whose badge is PRESTADO and whose due date is red. */
  lemma VencidoYEnPrestamoSpec(p: PrestamoJson, diasRestantes: int)
    ensures EstaVencidoYEnPrestamo(p, diasRestantes)
        <==> EstadoBadgeClass(p.estado) == "bg-primary" && DiasRestantesClass(diasRestantes) == "bg-danger"
  {
  }

  class PrestamosPage {
    var prestamos: seq<PrestamoJson>
    var loading: bool
    var filtroEstado: string

    constructor ()
      ensures prestamos == [] && !loading && filtroEstado == TODOS
    {
      prestamos := [];
      loading := false;
      filtroEstado := TODOS;
    }

    /** `cargarPrestamos()` once the session checks pass: the request goes out. */
    method CargarPrestamos()
      modifies this
      ensures loading && prestamos == old(prestamos) && filtroEstado == old(filtroEstado)
    {
      loading := true;
    }

    /** The success callback of `cargarPrestamos()`. */
    method PrestamosCargados(ps: seq<PrestamoJson>)
      modifies this
      ensures prestamos == ps && !loading && filtroEstado == old(filtroEstado)
    {
      prestamos := ps;
      loading := false;
    }

    /** The error callback of `cargarPrestamos()`: the list is emptied whatever the status. */
    method ErrorAlCargar(status: int)
      modifies this
      ensures prestamos == [] && !loading && filtroEstado == old(filtroEstado)
    {
      loading := false;
      prestamos := [];
    }
  }
}
