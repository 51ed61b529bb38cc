/** app/main.py: the access-token gate with this application's public paths. */
module AppMain {
  import opened Wrappers
  import opened Middleware

  /** Login, signup, the status probe and the API documentation. */
  const PublicPaths: seq<string> := ["/api/auth/login", "/api/auth/signup", "/api/status", "/docs", "/redoc", "/api/openapi.json"]

  /** `access_token_middleware` */
  function AccessTokenMiddleware(path: string, cookie: Option<string>, decode: string -> Decoded): (v: Verdict)
    ensures v.Bypass? <==> path in PublicPaths
    ensures !v.Bypass? ==> v == Gate(["/api/auth/login", "/api/auth/signup", "/api/status"], path, cookie, decode)
  {
    BackendListIsPrefix();
    Gate(PublicPaths, path, cookie, decode)
  }

  lemma BackendListIsPrefix()
    ensures forall p :: p in ["/api/auth/login", "/api/auth/signup", "/api/status"] ==> p in PublicPaths
  {
    assert PublicPaths[..3] == ["/api/auth/login", "/api/auth/signup", "/api/status"];
  }

  /** The documentation pages are served without a token. */
  lemma DocsArePublic(cookie: Option<string>, decode: string -> Decoded)
    ensures AccessTokenMiddleware("/docs", cookie, decode) == Bypass
    ensures AccessTokenMiddleware("/redoc", cookie, decode) == Bypass
  {
    assert PublicPaths[3] == "/docs" && PublicPaths[4] == "/redoc";
  }
}
