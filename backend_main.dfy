/** backend/app/main.py: the same gate with a shorter list of public paths. */
module BackendMain {
  import opened Wrappers
  import opened Middleware
  import AppMain

  /** Only login, signup and the status probe. */
  const PublicPaths: seq<string> := ["/api/auth/login", "/api/auth/signup", "/api/status"]

  /** `access_token_middleware` */
  function AccessTokenMiddleware(path: string, cookie: Option<string>, decode: string -> Decoded): (v: Verdict)
    ensures v.Bypass? <==> path == "/api/auth/login" || path == "/api/auth/signup" || path == "/api/status"
    ensures v.Reject? ==> v.status == 401
    ensures !v.Bypass? && (cookie.None? || cookie.value == "") ==> v == Reject(401, MissingToken)
    ensures !v.Bypass? && cookie.Some? && cookie.value != "" ==>
      match decode(cookie.value)
      case Raised => v == Reject(401, InvalidToken)
      case Returned(payload) => v == Forward(payload)
  {
    Gate(PublicPaths, path, cookie, decode)
  }

  /**
   * The two applications treat a request alike unless its path is one the
   * main app publishes beyond the backend's list (the documentation pages):
   * there the main app lets it through and the backend asks for a token.
   */
  lemma SameGateOffDocs(path: string, cookie: Option<string>, decode: string -> Decoded)
    ensures path !in AppMain.PublicPaths || path in PublicPaths ==>
      AccessTokenMiddleware(path, cookie, decode) == AppMain.AccessTokenMiddleware(path, cookie, decode)
    ensures path in AppMain.PublicPaths && path !in PublicPaths ==>
      AppMain.AccessTokenMiddleware(path, cookie, decode) == Bypass && !AccessTokenMiddleware(path, cookie, decode).Bypass?
  {
    AppMain.BackendListIsPrefix();
  }

  /** Unlike app/main.py, the documentation needs a token here. */
  lemma DocsNeedToken(decode: string -> Decoded)
    ensures AccessTokenMiddleware("/docs", None, decode) == Reject(401, MissingToken)
    ensures AccessTokenMiddleware("/redoc", None, decode) == Reject(401, MissingToken)
  {
    assert "/docs" !in PublicPaths && "/redoc" !in PublicPaths;
  }
}
