/**
  `AuthInterceptor`: every HTTP request the page sends passes through it,
  and it decides whether the request carries the stored JWT as a bearer
  header.
*/
module Interceptor {
  import opened Optional
  import opened Text
  import AuthSession
  import AuthService

  const API_ORIGIN := "http://localhost:8080"
  const AUTHORIZATION := "Authorization"

  datatype Request = Request(url: string, headers: map<string, string>)

  /** What reading `localStorage.getItem('jwt')` gave: a value, or an exception. */
  datatype StorageRead = Unavailable | Read(token: Option<string>)

  /** JavaScript truthiness of a stored string: present and not empty. */
  predicate Truthy(token: Option<string>) {
    token.Some? && token.value != ""
  }

  /** `req.clone({ setHeaders: { Authorization: ... } })` */
  function WithBearer(req: Request, token: string): Request {
    req.(headers := req.headers[AUTHORIZATION := "Bearer " + token])
  }

  /**
    The requests `intercept` hands to `next.handle`, in order. The `try`
    returns the clone when there is a token for the API; every other path,
    the `catch` included, falls through to forward the original.
  */
  function Handled(req: Request, read: StorageRead): seq<Request> {
    match read
    case Unavailable => [req]
    case Read(token) =>
      if Truthy(token) && StartsWith(req.url, API_ORIGIN) then [WithBearer(req, token.value)]
      else [req]
  }

  /**
    Each request is forwarded exactly once. It gets the header
    "Authorization: Bearer <token>" exactly when storage could be read, held
    a non-empty token, and the URL is on the API's origin; the clone differs
    from the original in that header only. Otherwise the original goes out
    unchanged, also when reading storage threw.
  */
  lemma InterceptSpec(req: Request, read: StorageRead)
    ensures |Handled(req, read)| == 1
    ensures var out := Handled(req, read)[0];
            out != req <==> read.Read? && Truthy(read.token) && StartsWith(req.url, API_ORIGIN)
                            && !(AUTHORIZATION in req.headers && req.headers[AUTHORIZATION] == "Bearer " + read.token.value)
    ensures var out := Handled(req, read)[0];
            read.Read? && Truthy(read.token) && StartsWith(req.url, API_ORIGIN) ==>
              && out.url == req.url
              && AUTHORIZATION in out.headers && out.headers[AUTHORIZATION] == "Bearer " + read.token.value
              && (forall h :: h != AUTHORIZATION ==> (h in out.headers <==> h in req.headers))
              && (forall h :: h != AUTHORIZATION && h in req.headers ==> out.headers[h] == req.headers[h])
    ensures !(read.Read? && Truthy(read.token) && StartsWith(req.url, API_ORIGIN)) ==> Handled(req, read) == [req]
  {
    if read.Read? && Truthy(read.token) && StartsWith(req.url, API_ORIGIN) {
      var out := WithBearer(req, read.token.value);
      if out == req {
        assert out.headers[AUTHORIZATION] == req.headers[AUTHORIZATION];
      }
    }
  }

  /** The API origin is a prefix of every API address the services call. */
  lemma ApiPathOnOrigin(path: string)
    ensures StartsWith(API_ORIGIN + "/api" + path, API_ORIGIN)
  {
    assert (API_ORIGIN + "/api" + path)[..|API_ORIGIN|] == API_ORIGIN;
  }

  /**
    Across the session store and the interceptor: once a login with a
    non-empty token has been stored, a call to the API carries that token;
    after logout, it carries no new one.
  */
  lemma SessionTokenReachesApi(s: AuthSession.Storage, res: AuthService.LoginResponse, path: string,
                               headers: map<string, string>)
    requires res.token != ""
    ensures var req := Request(API_ORIGIN + "/api" + path, headers);
            var out := Handled(req, Read(AuthSession.Token(AuthSession.AfterLogin(s, res))))[0];
            AUTHORIZATION in out.headers && out.headers[AUTHORIZATION] == "Bearer " + res.token
    ensures var req := Request(API_ORIGIN + "/api" + path, headers);
            Handled(req, Read(AuthSession.Token(AuthSession.AfterLogout(s)))) == [req]
  {
    ApiPathOnOrigin(path);
    AuthSession.LoginStores(s, res);
    AuthSession.LogoutClears(s);
  }
}
