/**
  The browser side of a session (`auth.service.ts`): the login response is
  kept in the page's key/value storage under three keys, and every check of
  who is signed in reads those keys back.
*/
module AuthSession {
  import opened Optional
  import opened Entities
  import Exceptions
  import Repositories
  import AuthService

  const TOKEN_KEY := "jwt"
  const USERNAME_KEY := "username"
  const ROL_KEY := "rol"

  type Storage = map<string, string>

  /** `localStorage.getItem(key)`: null when the key is absent. */
  function GetItem(s: Storage, key: string): Option<string> {
    if key in s then Some(s[key]) else None
  }

  /** The storage after the `tap` of a successful `login`. */
  function AfterLogin(s: Storage, res: AuthService.LoginResponse): Storage {
    s[TOKEN_KEY := res.token][USERNAME_KEY := res.username][ROL_KEY := res.rol]
  }

  /** The storage after `logout`. */
  function AfterLogout(s: Storage): Storage {
    s - {TOKEN_KEY, USERNAME_KEY, ROL_KEY}
  }

  function Token(s: Storage): Option<string> { GetItem(s, TOKEN_KEY) }

  function Username(s: Storage): Option<string> { GetItem(s, USERNAME_KEY) }

  function Rol(s: Storage): Option<string> { GetItem(s, ROL_KEY) }

  /** `isLoggedIn()`: `!!` of the token, so null and the empty string are both false. */
  predicate IsLoggedIn(s: Storage) {
    match Token(s)
    case None => false
    case Some(t) => t != ""
  }

  /** `isAdmin()`: the stored role is exactly "ADMIN". */
  predicate IsAdmin(s: Storage) {
    Rol(s) == Some("ADMIN")
  }

  /**
    After login the getters give back the response's token, username and
    role; the session is open exactly when the token is not empty, and is an
    administrator's exactly when the role is "ADMIN". No other key changes.
  */
  lemma LoginStores(s: Storage, res: AuthService.LoginResponse)
    ensures Token(AfterLogin(s, res)) == Some(res.token)
    ensures Username(AfterLogin(s, res)) == Some(res.username)
    ensures Rol(AfterLogin(s, res)) == Some(res.rol)
    ensures IsLoggedIn(AfterLogin(s, res)) <==> res.token != ""
    ensures IsAdmin(AfterLogin(s, res)) <==> res.rol == "ADMIN"
    ensures forall k :: k != TOKEN_KEY && k != USERNAME_KEY && k != ROL_KEY ==>
              GetItem(AfterLogin(s, res), k) == GetItem(s, k)
  {
  }

  /**
    Logout removes the three session keys and nothing else: afterwards there
    is no session and no administrator.
  */
  lemma LogoutClears(s: Storage)
    ensures Token(AfterLogout(s)).None? && Username(AfterLogout(s)).None? && Rol(AfterLogout(s)).None?
    ensures !IsLoggedIn(AfterLogout(s)) && !IsAdmin(AfterLogout(s))
    ensures forall k :: k != TOKEN_KEY && k != USERNAME_KEY && k != ROL_KEY ==>
              GetItem(AfterLogout(s), k) == GetItem(s, k)
  {
  }

  /** Logging out twice is logging out once. */
  lemma LogoutIdempotent(s: Storage)
    ensures AfterLogout(AfterLogout(s)) == AfterLogout(s)
  {
  }

  /** Logging out undoes a login: it leaves what logging out before the login would have left. */
  lemma LogoutUndoesLogin(s: Storage, res: AuthService.LoginResponse)
    ensures AfterLogout(AfterLogin(s, res)) == AfterLogout(s)
  {
    var a := AfterLogout(AfterLogin(s, res));
    var b := AfterLogout(s);
    assert forall k :: k in a <==> k in b;
  }

  /**
    Across the two layers: when the server accepts the login of an ADMIN
    account, the page that stores its response treats the session as an
    administrator's; for any other account it does not.
  */
  lemma ServerAdminIsPageAdmin(us: seq<Usuario>, req: AuthService.LoginRequest,
                               authenticate: (string, string) -> Option<Exceptions.Exception>,
                               token: (string, string) -> string, s: Storage)
    requires AuthService.Login(us, req, authenticate, token).Ok?
    ensures var u := Repositories.FindByUsername(us, req.username).value;
            IsAdmin(AfterLogin(s, AuthService.Login(us, req, authenticate, token).value)) <==> u.rol == ADMIN
  {
    var u := Repositories.FindByUsername(us, req.username).value;
    assert RolName(ADMIN) == "ADMIN";
    assert u.rol != ADMIN ==> RolName(u.rol) != "ADMIN";
  }

  /** The page's session, held in the browser's storage. */
  class Session {
    var storage: Storage

    constructor (storage: Storage)
      ensures this.storage == storage
    {
      this.storage := storage;
    }

    /** The `tap` of `login(username, password)` on the response `res`. */
    method Login(res: AuthService.LoginResponse)
      modifies this
      ensures storage == AfterLogin(old(storage), res)
    {
      storage := storage[TOKEN_KEY := res.token];
      storage := storage[USERNAME_KEY := res.username];
      storage := storage[ROL_KEY := res.rol];
    }

    /** `logout()` */
    method Logout()
      modifies this
      ensures storage == AfterLogout(old(storage))
    {
      storage := storage - {TOKEN_KEY};
      storage := storage - {USERNAME_KEY};
      storage := storage - {ROL_KEY};
    }
  }
}
