/**
  `AuthService`: self-registration, the creation of the first administrator,
  and login. Password hashing, the authentication manager and the JWT
  generator are collaborators whose code is not part of this model; they are
  passed in as functions.
*/
module AuthService {
  import opened Optional
  import opened Entities
  import opened Exceptions
  import opened Repositories

  datatype RegistroRequest = RegistroRequest(
    username: string,
    password: string,
    nombre: string,
    apellido: string,
    email: string)

  datatype LoginRequest = LoginRequest(username: string, password: string)

  datatype LoginResponse = LoginResponse(token: string, username: string, rol: string)

  /** The account both registration paths save: encoded password, not blocked. */
  function NuevaCuenta(id: int, req: RegistroRequest, rol: Rol, encode: string -> string): Usuario {
    Usuario(id, req.username, Some(encode(req.password)), req.nombre, req.apellido, req.email, rol, false)
  }

  /** The duplicate checks shared by both registration paths. */
  function Duplicado(us: seq<Usuario>, req: RegistroRequest): Option<Exception> {
    if ExistsByUsername(us, req.username) then Some(IllegalArgument(Some("El username ya existe")))
    else if ExistsByEmail(us, req.email) then Some(IllegalArgument(Some("El email ya está registrado")))
    else None
  }

  /** Saving the account `u` under the next user id. */
  function Guardar(t: Tables, u: Usuario): Tables {
    t.(usuarios := t.usuarios + [u], nextUsuarioId := t.nextUsuarioId + 1)
  }

  /** `registrarUsuario(request)` on the tables `t`. */
  function AfterRegistrar(t: Tables, req: RegistroRequest, encode: string -> string): Outcome<Usuario> {
    match Duplicado(t.usuarios, req)
    case Some(e) => Outcome(t, Err(e))
    case None =>
      var u := NuevaCuenta(t.nextUsuarioId, req, USUARIO, encode);
      Outcome(Guardar(t, u), Ok(u))
  }

  /** Some account holds the ADMIN role. */
  predicate ExisteAdmin(us: seq<Usuario>) {
    exists i :: 0 <= i < |us| && us[i].rol == ADMIN
  }

  /** `crearPrimerAdmin(request)` on the tables `t`. */
  function AfterCrearPrimerAdmin(t: Tables, req: RegistroRequest, encode: string -> string): Outcome<Usuario> {
    if ExisteAdmin(t.usuarios) then
      Outcome(t, Err(IllegalArgument(Some("Ya existe un administrador en el sistema"))))
    else
      match Duplicado(t.usuarios, req)
      case Some(e) => Outcome(t, Err(e))
      case None =>
        var u := NuevaCuenta(t.nextUsuarioId, req, ADMIN, encode);
        Outcome(Guardar(t, u), Ok(u))
  }

  /**
    Registration fails, changing nothing, when the username is taken and
    otherwise when the email is taken; else it saves a new, unblocked
    USUARIO account with the request's fields and the encoded password
    under the next user id, changes no other table, and returns it.
  */
  lemma RegistrarSpec(t: Tables, req: RegistroRequest, encode: string -> string)
    ensures var r := AfterRegistrar(t, req, encode);
            ExistsByUsername(t.usuarios, req.username) ==>
              r == Outcome(t, Err(IllegalArgument(Some("El username ya existe"))))
    ensures var r := AfterRegistrar(t, req, encode);
            !ExistsByUsername(t.usuarios, req.username) && ExistsByEmail(t.usuarios, req.email) ==>
              r == Outcome(t, Err(IllegalArgument(Some("El email ya está registrado"))))
    ensures var r := AfterRegistrar(t, req, encode);
            r.result.Ok? <==> !ExistsByUsername(t.usuarios, req.username) && !ExistsByEmail(t.usuarios, req.email)
    ensures var r := AfterRegistrar(t, req, encode);
            r.result.Ok? ==>
              var u := r.result.value;
              && r.tables == Guardar(t, u)
              && u.id == t.nextUsuarioId && u.username == req.username
              && u.nombre == req.nombre && u.apellido == req.apellido && u.email == req.email
              && u.password == Some(encode(req.password)) && u.rol == USUARIO && !u.bloqueado
  {
  }

  /** Self-registration never creates an administrator. */
  lemma RegistrarNoCreaAdmin(t: Tables, req: RegistroRequest, encode: string -> string)
    ensures ExisteAdmin(AfterRegistrar(t, req, encode).tables.usuarios) == ExisteAdmin(t.usuarios)
  {
    var r := AfterRegistrar(t, req, encode);
    if r.result.Ok? {
      var us := r.tables.usuarios;
      assert forall i :: 0 <= i < |t.usuarios| ==> us[i] == t.usuarios[i];
      if ExisteAdmin(us) {
        var i :| 0 <= i < |us| && us[i].rol == ADMIN;
        assert i < |t.usuarios|;
      }
    }
  }

  /**
    The first administrator is created only while there is none; then the
    same checks as registration apply, and the account saved is an
    unblocked ADMIN holding the request's fields and the encoded password.
  */
  lemma CrearPrimerAdminSpec(t: Tables, req: RegistroRequest, encode: string -> string)
    ensures var r := AfterCrearPrimerAdmin(t, req, encode);
            ExisteAdmin(t.usuarios) ==>
              r == Outcome(t, Err(IllegalArgument(Some("Ya existe un administrador en el sistema"))))
    ensures var r := AfterCrearPrimerAdmin(t, req, encode);
            !ExisteAdmin(t.usuarios) && ExistsByUsername(t.usuarios, req.username) ==>
              r == Outcome(t, Err(IllegalArgument(Some("El username ya existe"))))
    ensures var r := AfterCrearPrimerAdmin(t, req, encode);
            !ExisteAdmin(t.usuarios) && !ExistsByUsername(t.usuarios, req.username) && ExistsByEmail(t.usuarios, req.email) ==>
              r == Outcome(t, Err(IllegalArgument(Some("El email ya está registrado"))))
    ensures var r := AfterCrearPrimerAdmin(t, req, encode);
            r.result.Ok? <==>
              !ExisteAdmin(t.usuarios) && !ExistsByUsername(t.usuarios, req.username) && !ExistsByEmail(t.usuarios, req.email)
    ensures var r := AfterCrearPrimerAdmin(t, req, encode);
            r.result.Ok? ==>
              var u := r.result.value;
              && r.tables == Guardar(t, u)
              && u.id == t.nextUsuarioId && u.username == req.username
              && u.nombre == req.nombre && u.apellido == req.apellido && u.email == req.email
              && u.password == Some(encode(req.password)) && u.rol == ADMIN && !u.bloqueado
  {
  }

  /** Once it has succeeded, a second `crearPrimerAdmin` is refused whatever it asks for. */
  lemma PrimerAdminUnaVez(t: Tables, req: RegistroRequest, otra: RegistroRequest, encode: string -> string)
    requires AfterCrearPrimerAdmin(t, req, encode).result.Ok?
    ensures AfterCrearPrimerAdmin(AfterCrearPrimerAdmin(t, req, encode).tables, otra, encode).result
         == Err(IllegalArgument(Some("Ya existe un administrador en el sistema")))
  {
    var us := AfterCrearPrimerAdmin(t, req, encode).tables.usuarios;
    assert us[|us| - 1].rol == ADMIN;
  }

  /** Registration keeps the database consistent. */
  lemma RegistrarKeepsConsistent(t: Tables, req: RegistroRequest, encode: string -> string)
    requires Consistent(t)
    ensures Consistent(AfterRegistrar(t, req, encode).tables)
  {
    if Duplicado(t.usuarios, req).None? {
      AddUsuarioKeepsConsistent(t, NuevaCuenta(t.nextUsuarioId, req, USUARIO, encode));
    }
  }

  /** Creating the first administrator keeps the database consistent. */
  lemma CrearPrimerAdminKeepsConsistent(t: Tables, req: RegistroRequest, encode: string -> string)
    requires Consistent(t)
    ensures Consistent(AfterCrearPrimerAdmin(t, req, encode).tables)
  {
    if !ExisteAdmin(t.usuarios) && Duplicado(t.usuarios, req).None? {
      AddUsuarioKeepsConsistent(t, NuevaCuenta(t.nextUsuarioId, req, ADMIN, encode));
    }
  }

  /**
    `login(request)`. `authenticate` stands for the authentication manager:
    `None` when the credentials are accepted, else the exception it throws.
    `token` stands for `jwtUtil.generateToken(username, rol)`.
  */
  function Login(us: seq<Usuario>, req: LoginRequest,
                 authenticate: (string, string) -> Option<Exception>,
                 token: (string, string) -> string): Result<LoginResponse>
  {
    match FindByUsername(us, req.username)
    case None => Err(IllegalArgument(Some("Usuario no encontrado")))
    case Some(u) =>
      if u.bloqueado then Err(Disabled(Some("Usuario bloqueado")))
      else
        match authenticate(req.username, req.password)
        case Some(e) => Err(e)
        case None => Ok(LoginResponse(token(u.username, RolName(u.rol)), u.username, RolName(u.rol)))
  }

  /**
    An unknown username and a blocked account are refused before the
    credentials are checked, so a blocked user learns that the account is
    blocked whatever password was given; otherwise login succeeds exactly
    when authentication does, and answers with the account's name and role
    and the token issued for them.
  */
  lemma LoginSpec(us: seq<Usuario>, req: LoginRequest,
                  authenticate: (string, string) -> Option<Exception>,
                  token: (string, string) -> string)
    requires UniqueAccounts(us)
    ensures !ExistsByUsername(us, req.username) ==>
              Login(us, req, authenticate, token) == Err(IllegalArgument(Some("Usuario no encontrado")))
    ensures forall i :: 0 <= i < |us| && us[i].username == req.username && us[i].bloqueado ==>
              Login(us, req, authenticate, token) == Err(Disabled(Some("Usuario bloqueado")))
    ensures forall i :: 0 <= i < |us| && us[i].username == req.username && !us[i].bloqueado ==>
              && (authenticate(req.username, req.password).Some? ==>
                    Login(us, req, authenticate, token) == Err(authenticate(req.username, req.password).value))
              && (authenticate(req.username, req.password).None? ==>
                    Login(us, req, authenticate, token)
                    == Ok(LoginResponse(token(req.username, RolName(us[i].rol)), req.username, RolName(us[i].rol))))
  {
    forall i | 0 <= i < |us| && us[i].username == req.username {
      FindByUsernameUnique(us, req.username, i);
    }
  }

  /** The service over the shared database. */
  class AuthService {
    const db: Store
    const encode: string -> string

    constructor (db: Store, encode: string -> string)
      ensures this.db == db && this.encode == encode
    {
      this.db := db;
      this.encode := encode;
    }

    /** `registrarUsuario(request)` */
    method RegistrarUsuario(req: RegistroRequest) returns (r: Result<Usuario>)
      requires db.Valid()
      modifies db
      ensures Outcome(db.Snapshot(), r) == AfterRegistrar(old(db.Snapshot()), req, encode)
      ensures db.Valid()
    {
      if ExistsByUsername(db.usuarios, req.username) {
        return Err(IllegalArgument(Some("El username ya existe")));
      }
      if ExistsByEmail(db.usuarios, req.email) {
        return Err(IllegalArgument(Some("El email ya está registrado")));
      }
      var usuario := Usuario(db.nextUsuarioId, req.username, Some(encode(req.password)),
                             req.nombre, req.apellido, req.email, USUARIO, false);
      db.usuarios := db.usuarios + [usuario];
      db.nextUsuarioId := db.nextUsuarioId + 1;
      r := Ok(usuario);
      RegistrarKeepsConsistent(old(db.Snapshot()), req, encode);
    }

    /** `crearPrimerAdmin(request)` */
    method CrearPrimerAdmin(req: RegistroRequest) returns (r: Result<Usuario>)
      requires db.Valid()
      modifies db
      ensures Outcome(db.Snapshot(), r) == AfterCrearPrimerAdmin(old(db.Snapshot()), req, encode)
      ensures db.Valid()
    {
      var existeAdmin := exists i :: 0 <= i < |db.usuarios| && db.usuarios[i].rol == ADMIN;
      if existeAdmin {
        return Err(IllegalArgument(Some("Ya existe un administrador en el sistema")));
      }
      if ExistsByUsername(db.usuarios, req.username) {
        return Err(IllegalArgument(Some("El username ya existe")));
      }
      if ExistsByEmail(db.usuarios, req.email) {
        return Err(IllegalArgument(Some("El email ya está registrado")));
      }
      var usuario := Usuario(db.nextUsuarioId, req.username, Some(encode(req.password)),
                             req.nombre, req.apellido, req.email, ADMIN, false);
      db.usuarios := db.usuarios + [usuario];
      db.nextUsuarioId := db.nextUsuarioId + 1;
      r := Ok(usuario);
      CrearPrimerAdminKeepsConsistent(old(db.Snapshot()), req, encode);
    }
  }
}
