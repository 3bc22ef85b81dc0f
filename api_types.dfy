/**
  The records the page receives from and sends to the REST API (the
  interfaces of `api.service.ts`). A field the JSON may leave out or set to
  null is an `Option`; the loan state travels as its name.
*/
module ApiTypes {
  import opened Optional
  import opened Entities

  datatype LibroJson = LibroJson(
    id: int,
    titulo: string,
    autor: string,
    descripcion: string,
    imagenUrl: Option<string>,
    cantidadTotal: int,
    cantidadDisponible: int,
    categoria: Option<Categoria>)

  datatype UsuarioJson = UsuarioJson(
    id: int,
    username: string,
    password: Option<string>,
    nombre: string,
    apellido: string,
    email: string,
    rol: string,
    bloqueado: bool)

  /** The fields of a loan the views read; dates are reduced to the days left, passed separately. */
  datatype PrestamoJson = PrestamoJson(
    id: int,
    estado: string,
    diasRetraso: Option<int>,
    valorMulta: Option<int>)

  /** The three state names the server sends. */
  const PRESTADO_NAME := "PRESTADO"
  const MULTA_NAME := "MULTA"
  const DEVUELTO_NAME := "DEVUELTO"

  /** `EstadoPrestamo.name()`, as Jackson writes an enum. */
  function EstadoName(e: EstadoPrestamo): string {
    match e
    case PRESTADO => PRESTADO_NAME
    case MULTA => MULTA_NAME
    case DEVUELTO => DEVUELTO_NAME
  }

  /** The view of a server loan. */
  function PrestamoToJson(p: Prestamo): PrestamoJson {
    PrestamoJson(p.id, EstadoName(p.estado), p.diasRetraso, p.valorMulta)
  }
}
