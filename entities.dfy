/**
  The backend's persistent entities (`Libro`, `Prestamo`, `Usuario`,
  `Categoria`) as plain values. An entity that points at another one holds
  that entity's id. Dates are day numbers.
*/
module Entities {
  import opened Optional

  datatype EstadoPrestamo = PRESTADO | MULTA | DEVUELTO

  datatype Rol = ADMIN | USUARIO

  /** `Rol.name()` */
  function RolName(rol: Rol): string {
    match rol
    case ADMIN => "ADMIN"
    case USUARIO => "USUARIO"
  }

  datatype Categoria = Categoria(id: int, nombre: string)

  datatype Libro = Libro(
    id: int,
    titulo: string,
    autor: string,
    descripcion: string,
    imagenUrl: string,
    cantidadTotal: int,
    cantidadDisponible: int,
    categoria: Option<int>)

  datatype Usuario = Usuario(
    id: int,
    username: string,
    password: Option<string>,
    nombre: string,
    apellido: string,
    email: string,
    rol: Rol,
    bloqueado: bool)

  datatype Prestamo = Prestamo(
    id: int,
    usuario: int,
    libro: int,
    fechaPrestamo: int,
    fechaLimite: int,
    fechaDevolucion: Option<int>,
    estado: EstadoPrestamo,
    diasRetraso: Option<int>,
    valorMulta: Option<int>)

  /** Length of a loan in days (`hoy.plusDays(7)`). */
  const DIAS_PRESTAMO := 7

  /** Fine per day late, in pesos. */
  const MULTA_POR_DIA := 5000

  /** A loan still holds a copy of its book: PRESTADO or MULTA. */
  predicate IsActive(p: Prestamo) {
    p.estado == PRESTADO || p.estado == MULTA
  }

  /** Java's narrowing to `int`: the low 32 bits, read as two's complement. */
  function Int32(x: int): (r: int)
    ensures -0x8000_0000 <= r < 0x8000_0000
  {
    var m := x % 0x1_0000_0000;
    if m >= 0x8000_0000 then m - 0x1_0000_0000 else m
  }

  /** The narrowing differs from its argument by a multiple of 2^32, and leaves `int` values alone. */
  lemma Int32Wraps(x: int)
    ensures (Int32(x) - x) % 0x1_0000_0000 == 0
    ensures -0x8000_0000 <= x < 0x8000_0000 ==> Int32(x) == x
  {
  }

  /** The `diasRetraso` stored for a loan `dias` days late: `(int) dias`. */
  function DiasRetraso(dias: int): int {
    Int32(dias)
  }

  /** The `valorMulta` stored for a loan `dias` days late: `diasRetraso * 5000` in `int` arithmetic. */
  function ValorMulta(dias: int): int {
    Int32(DiasRetraso(dias) * MULTA_POR_DIA)
  }

  /** Up to 429496 days late the fine is exactly 5000 per day and positive; beyond that `int` wraps. */
  lemma ValorMultaExact(dias: int)
    requires 0 < dias <= 429496
    ensures DiasRetraso(dias) == dias
    ensures ValorMulta(dias) == MULTA_POR_DIA * dias > 0
  {
    assert dias % 0x1_0000_0000 == dias;
    assert (dias * MULTA_POR_DIA) % 0x1_0000_0000 == dias * MULTA_POR_DIA;
  }

  /** One more day late and the fine wraps to a negative amount. */
  lemma ValorMultaWraps()
    ensures ValorMulta(429497) < 0
  {
    assert (429497 * MULTA_POR_DIA) % 0x1_0000_0000 == 2147485000;
  }
}

/** The exceptions the backend throws, and the result of an operation that may throw one. */
module Exceptions {
  import opened Optional

  /** Exception classes, each with its (possibly null) message. */
  datatype Exception =
    | Disabled(message: Option<string>)
    | BadCredentials(message: Option<string>)
    | UsernameNotFound(message: Option<string>)
    | AccessDenied(message: Option<string>)
    | IllegalState(message: Option<string>)
    | IllegalArgument(message: Option<string>)
    | DataIntegrityViolation(message: Option<string>)
  {
    /** DisabledException, BadCredentialsException and UsernameNotFoundException extend AuthenticationException. */
    predicate IsAuthentication() {
      Disabled? || BadCredentials? || UsernameNotFound?
    }
  }

  datatype Result<+T> = Ok(value: T) | Err(error: Exception)
}
