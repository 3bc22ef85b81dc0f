/**
  `GlobalExceptionHandler`: how an exception escaping a controller becomes
  an HTTP status and a JSON body `{ "error": code, "message": text }`.
  Spring picks the handler of the most specific exception class, so a
  `DisabledException` reaches its own handler and not the one for
  `AuthenticationException`.
*/
module ExceptionHandler {
  import opened Optional
  import opened Text
  import opened Exceptions

  const UNAUTHORIZED := 401
  const FORBIDDEN := 403
  const BAD_REQUEST := 400

  datatype ErrorResponse = ErrorResponse(status: nat, error: string, message: string)

  const CODIGO_LIBRO_CON_PRESTAMOS := "LIBRO_CON_PRESTAMOS_ACTIVOS"

  /** The sentence sent for a foreign-key violation on the loan table. */
  const MENSAJE_LIBRO_CON_PRESTAMOS :=
    "El libro no puede " + "ser eliminado " + "porque aún se " + "encuentran "
    + "ejemplares en " + "préstamo con " + "algunos usuarios."

  /** The message test of `handleDataIntegrityViolationException`. */
  predicate ViolaPrestamos(message: Option<string>) {
    message.Some? &&
    (Contains(message.value, "prestamos") || Contains(message.value, "foreign key") || Contains(message.value, "constraint"))
  }

  /** The response the handlers build for `e`. */
  function Handle(e: Exception): ErrorResponse {
    match e
    case Disabled(_) =>
      ErrorResponse(FORBIDDEN, "USUARIO_BLOQUEADO",
                    "El usuario ha sido bloqueado. Por favor, comuníquese con el administrador.")
    case BadCredentials(_) => ErrorResponse(UNAUTHORIZED, "CREDENCIALES_INVALIDAS", "Credenciales inválidas.")
    case UsernameNotFound(_) => ErrorResponse(UNAUTHORIZED, "CREDENCIALES_INVALIDAS", "Credenciales inválidas.")
    case AccessDenied(_) =>
      ErrorResponse(FORBIDDEN, "SIN_PERMISOS", "No tienes permisos para realizar esta acción. Debes ser ADMIN.")
    case IllegalState(message) =>
      if message.Some? && Contains(message.value, CODIGO_LIBRO_CON_PRESTAMOS) then
        ErrorResponse(BAD_REQUEST, CODIGO_LIBRO_CON_PRESTAMOS, message.value)
      else
        ErrorResponse(BAD_REQUEST, "ESTADO_INVALIDO", message.GetOr("Operación no permitida en el estado actual"))
    case IllegalArgument(message) =>
      ErrorResponse(BAD_REQUEST, "ARGUMENTO_INVALIDO", message.GetOr("Argumento inválido"))
    case DataIntegrityViolation(message) =>
      if ViolaPrestamos(message) then
        ErrorResponse(BAD_REQUEST, CODIGO_LIBRO_CON_PRESTAMOS, MENSAJE_LIBRO_CON_PRESTAMOS)
      else
        ErrorResponse(BAD_REQUEST, "VIOLACION_INTEGRIDAD",
                      "No se puede realizar la operación debido a restricciones de integridad de datos.")
  }

  /**
    The status classes: 403 exactly for a blocked account or a missing role,
    401 exactly for the other authentication failures, 400 for everything else.
  */
  lemma HandleStatus(e: Exception)
    ensures Handle(e).status == FORBIDDEN <==> e.Disabled? || e.AccessDenied?
    ensures Handle(e).status == UNAUTHORIZED <==> e.IsAuthentication() && !e.Disabled?
    ensures Handle(e).status == BAD_REQUEST <==> !e.IsAuthentication() && !e.AccessDenied?
  {
  }

  /**
    A failed login answers the same whatever the exception says, so it does
    not reveal whether the username or the password was wrong.
  */
  lemma CredencialesSinDetalle(e: Exception, f: Exception)
    requires e.IsAuthentication() && !e.Disabled?
    requires f.IsAuthentication() && !f.Disabled?
    ensures Handle(e) == Handle(f)
    ensures Handle(e).error == "CREDENCIALES_INVALIDAS"
  {
  }

  /**
    An `IllegalStateException` keeps its message (a default when it has
    none), and is reported as LIBRO_CON_PRESTAMOS_ACTIVOS exactly when that
    message carries the code.
  */
  lemma IllegalStateKeepsMessage(message: Option<string>)
    ensures Handle(IllegalState(message)).status == BAD_REQUEST
    ensures message.Some? ==> Handle(IllegalState(message)).message == message.value
    ensures message.None? ==> Handle(IllegalState(message)).message == "Operación no permitida en el estado actual"
    ensures Handle(IllegalState(message)).error == CODIGO_LIBRO_CON_PRESTAMOS
            <==> message.Some? && Contains(message.value, CODIGO_LIBRO_CON_PRESTAMOS)
    ensures Handle(IllegalState(message)).error != CODIGO_LIBRO_CON_PRESTAMOS ==>
              Handle(IllegalState(message)).error == "ESTADO_INVALIDO"
  {
  }

  /** An `IllegalArgumentException` is a 400 that carries its message through. */
  lemma IllegalArgumentKeepsMessage(message: string)
    ensures Handle(IllegalArgument(Some(message))) == ErrorResponse(BAD_REQUEST, "ARGUMENTO_INVALIDO", message)
  {
  }

  /**
    A database integrity violation mentioning loans, a foreign key or a
    constraint is reported as a book with active loans; any other as a
    generic integrity error. The database's own text never reaches the client.
  */
  lemma IntegrityViolationHidesMessage(message: Option<string>)
    ensures Handle(DataIntegrityViolation(message)).error == CODIGO_LIBRO_CON_PRESTAMOS <==> ViolaPrestamos(message)
    ensures Handle(DataIntegrityViolation(message)).error != CODIGO_LIBRO_CON_PRESTAMOS ==>
              Handle(DataIntegrityViolation(message)).error == "VIOLACION_INTEGRIDAD"
    ensures Handle(DataIntegrityViolation(message)).message == MENSAJE_LIBRO_CON_PRESTAMOS
            || Handle(DataIntegrityViolation(message)).message
               == "No se puede realizar la operación debido a restricciones de integridad de datos."
  {
    var r := Handle(DataIntegrityViolation(message));
    if !ViolaPrestamos(message) {
      assert r.error[0] == 'V' != CODIGO_LIBRO_CON_PRESTAMOS[0];
    }
  }

  /** The code is recognised anywhere in the message, for example after other text. */
  lemma CodeFoundAfterPrefix(prefix: string, rest: string)
    ensures Handle(IllegalState(Some(prefix + CODIGO_LIBRO_CON_PRESTAMOS + rest))).error == CODIGO_LIBRO_CON_PRESTAMOS
  {
    ContainsAt(CODIGO_LIBRO_CON_PRESTAMOS, CODIGO_LIBRO_CON_PRESTAMOS, 0);
    ContainsWithin(prefix, CODIGO_LIBRO_CON_PRESTAMOS, rest, CODIGO_LIBRO_CON_PRESTAMOS);
  }
}
