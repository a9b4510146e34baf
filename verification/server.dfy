/**
  The server gateway: a request to the root path gets a fixed welcome body;
  any other request must carry `Authorization: Bearer <jwt>` whose signature
  verifies and which has not expired, and is then forwarded to the target
  with the configured Basic credentials; otherwise it gets the fixed
  unauthorized body, with status 200.
 */
module Server {
  import opened Wrappers
  import opened GoStrings
  import opened Http
  import Jwt

  datatype ServerConfig = ServerConfig(port: string, user: string, pass: string, target: string)

  /**
    What one request is served against: the configuration, the already parsed
    target URL, the contents of the public key file (None when it cannot be
    read), the wall clock in nanoseconds, and the library primitives.
   */
  datatype Env = Env(
    cfg: ServerConfig,
    target: Url,
    keyFile: Option<string>,
    nowNs: int,
    prims: Jwt.Primitives,
    basic: BasicScheme)

  const BearerPrefix := "Bearer "

  /** The JSON `ProxyUnauthorized` writes. */
  const UnauthorizedBody :=
    "{\"error\":\"unauthorized\",\"reason\":\"You are not authorized to access this db. Please check the client request.\"}"

  /** The JSON `ProxyRootPath` writes. */
  const WelcomeBody := "{\"msg\":\"Welcome\",\"name\":\"The Couch-SSO service.\"}"

  /**
    `IsRootPath`, applied to the raw request URI (query included): at most one
    character, and that one a slash.
   */
  function IsRootPath(path: string): (root: bool)
    ensures root <==> |path| <= 1 && (|path| == 1 ==> path[0] == '/')
  {
    path == "/" || path == ""
  }

  datatype Extracted = Found(token: string) | NotFound

  /**
    `GetJWTFormHeader`: the `Authorization` value must start with the
    case-sensitive "Bearer "; the token is then that value with EVERY
    occurrence of "Bearer " removed, which is the text after the prefix
    whenever that text has no further occurrence.
   */
  function GetJWTFormHeader(req: Request): (r: Extracted)
    ensures var auth := Get(req.header, Authorization);
      && (r.NotFound? <==> !HasPrefix(auth, BearerPrefix))
      && (r.Found? ==> |r.token| <= |auth| - |BearerPrefix|)
      && (r.Found? && !Contains(auth[|BearerPrefix|..], BearerPrefix) ==> r.token == auth[|BearerPrefix|..])
  {
    var auth := Get(req.header, Authorization);
    if !HasPrefix(auth, BearerPrefix) then NotFound
    else
      var token := RemoveAll(auth, BearerPrefix);
      assert token == RemoveAll(auth[|BearerPrefix|..], BearerPrefix);
      assert !Contains(auth[|BearerPrefix|..], BearerPrefix) ==> token == auth[|BearerPrefix|..] by {
        if !Contains(auth[|BearerPrefix|..], BearerPrefix) {
          RemoveAllAbsent(auth[|BearerPrefix|..], BearerPrefix);
        }
      }
      Found(token)
  }

  datatype AuthError = TokenNotFound | Signature(verifyError: Jwt.VerifyError) | Claims(decodeError: Jwt.DecodeError)

  datatype Check = Allow | Deny(error: AuthError) | Panic | Exit

  /**
    `CheckJWT`: extraction, then the signature (`VerifyToken`), then the
    structural decode and expiry (`DecodeJWT`); the first failure is the result.
   */
  function CheckJWT(env: Env, req: Request): (r: Check)
    ensures r == Deny(TokenNotFound) <==> GetJWTFormHeader(req).NotFound?
    ensures r == Exit <==> GetJWTFormHeader(req).Found? && env.keyFile.None?
    ensures r == Panic <==>
      && GetJWTFormHeader(req).Found? && env.keyFile.Some?
      && var token := GetJWTFormHeader(req).token;
         var key := env.prims.parsePublicKey(env.keyFile.value);
         || key.None?
         || (&& Jwt.Verify(env.prims, token, key.value).None?
             && |Split(token, '.')| == 3
             && !Jwt.HasNumericExp(Jwt.PayloadClaims(env.prims, Split(token, '.')[1])))
    ensures r.Allow? ==>
      var token := GetJWTFormHeader(req).token;
      && Jwt.VerifyToken(env.prims, env.keyFile, token) == Jwt.Checked(None)
      && Jwt.DecodeJWT(env.prims, token, env.nowNs).Accepted?
  {
    match GetJWTFormHeader(req)
    case NotFound => Deny(TokenNotFound)
    case Found(token) =>
      match Jwt.VerifyToken(env.prims, env.keyFile, token)
      case KeyFileMissing => Exit
      case KeyPanic => Panic
      case Checked(Some(e)) => Deny(Signature(e))
      case Checked(None) =>
        match Jwt.DecodeJWT(env.prims, token, env.nowNs)
        case Accepted(_) => Allow
        case Rejected(e) => Deny(Claims(e))
        case Panicked => Panic
  }

  /**
    The director of `ProxyServer`: Basic credentials (User, Pass) replace the
    `Authorization` header and scheme and host come from the target; method,
    request URI, path, query, body and every other header are untouched.
   */
  function ServerDirector(env: Env, req: Request): (r: Request)
    ensures Get(r.header, Authorization) == env.basic.encode(Credentials(env.cfg.user, env.cfg.pass))
    ensures r.url == Url(env.target.scheme, env.target.host, req.url.path, req.url.rawQuery)
    ensures r.host == env.target.host
    ensures r.verb == req.verb && r.requestURI == req.requestURI && r.body == req.body
    ensures r.header.Keys == req.header.Keys + {Authorization}
    ensures forall k :: k in req.header && k != Authorization ==> r.header[k] == req.header[k]
  {
    var withAuth := req.(header := Set(req.header, Authorization, env.basic.encode(Credentials(env.cfg.user, env.cfg.pass))));
    Retarget(withAuth, env.target)
  }

  /** `Proxy`: the handler of every request the server gateway receives. */
  function Proxy(env: Env, req: Request): (r: Outcome)
    ensures IsRootPath(req.requestURI) ==> r == Reply(StatusOK, WelcomeBody)
    ensures !IsRootPath(req.requestURI) ==>
      && (r.Forward? <==> CheckJWT(env, req) == Allow)
      && (r == Reply(StatusOK, UnauthorizedBody) <==> CheckJWT(env, req).Deny?)
      && (r.Forward? ==> r.request == ServerDirector(env, req))
    ensures !IsRootPath(req.requestURI) ==>
      && (r == HandlerPanic <==> CheckJWT(env, req) == Panic)
      && (r == ProcessExit <==> CheckJWT(env, req) == Exit)
    ensures r == ProcessExit ==> env.keyFile.None?
  {
    if IsRootPath(req.requestURI) then Reply(StatusOK, WelcomeBody)
    else
      match CheckJWT(env, req)
      case Allow => Forward(ServerDirector(env, req))
      case Deny(_) => Reply(StatusOK, UnauthorizedBody)
      case Panic => HandlerPanic
      case Exit => ProcessExit
  }

  // ---- Properties ----

  /** The root path is answered with the welcome body whatever the headers, key or clock. */
  lemma RootPathBypass(env: Env, req: Request, h: Header, keyFile: Option<string>, nowNs: int)
    requires req.requestURI == "/" || req.requestURI == ""
    ensures Proxy(env.(keyFile := keyFile, nowNs := nowNs), req.(header := h)) == Reply(StatusOK, WelcomeBody)
  {
  }

  /** Any other request URI, "/?q" included, never gets the welcome body. */
  lemma OnlyRootWelcomed(env: Env, req: Request)
    requires !IsRootPath(req.requestURI)
    ensures Proxy(env, req) != Reply(StatusOK, WelcomeBody)
  {
    assert |UnauthorizedBody| != |WelcomeBody|;
  }

  /** A non-root request without an `Authorization` header gets the unauthorized body. */
  lemma MissingHeaderUnauthorized(env: Env, req: Request)
    requires !IsRootPath(req.requestURI)
    requires Authorization !in req.header
    ensures Proxy(env, req) == Reply(StatusOK, UnauthorizedBody)
  {
  }

  /** "Bearer " occurrences after the prefix are stripped as well: "Bearer Bearer abc" yields "abc". */
  lemma RepeatedPrefixStripped(req: Request)
    requires Get(req.header, Authorization) == "Bearer Bearer abc"
    ensures GetJWTFormHeader(req) == Found("abc")
  {
    var auth := Get(req.header, Authorization);
    assert HasPrefix(auth, BearerPrefix);
    assert auth[7..] == "Bearer abc";
    assert HasPrefix(auth[7..], BearerPrefix);
    assert auth[7..][7..] == "abc";
    assert RemoveAll(auth, BearerPrefix) == RemoveAll("Bearer abc", BearerPrefix);
    assert RemoveAll("Bearer abc", BearerPrefix) == RemoveAll("abc", BearerPrefix);
    assert !Contains("abc", BearerPrefix) by {
      assert "abc"[1..] == "bc" && "bc"[1..] == "c" && "c"[1..] == "";
      assert !Contains("", BearerPrefix);
      assert !Contains("c", BearerPrefix);
      assert !Contains("bc", BearerPrefix);
    }
    RemoveAllAbsent("abc", BearerPrefix);
  }

  /**
    Every "Bearer " is removed, not just the prefix: for a value
    "Bearer " + a + "Bearer " + b with no "Bearer " in `a`, the token is `a`
    followed by `b` with all its occurrences removed in turn.
   */
  lemma EveryPrefixRemoved(req: Request, a: string, b: string)
    requires Get(req.header, Authorization) == BearerPrefix + a + BearerPrefix + b
    requires !Contains(a, BearerPrefix)
    ensures GetJWTFormHeader(req) == Found(a + RemoveAll(b, BearerPrefix))
  {
    var auth := Get(req.header, Authorization);
    assert HasPrefix(auth, BearerPrefix);
    assert auth[|BearerPrefix|..] == a + BearerPrefix + b;
    RemoveAllStep(a, BearerPrefix, b);
  }

  /**
    The signature is judged before expiry: when the extracted token fails
    `Verify`, the result is that failure at every clock reading, even for a
    payload that is expired or has no `exp` at all.
   */
  lemma SignatureBeforeExpiry(env: Env, req: Request, pem: string, key: Jwt.PublicKey, nowNs: int)
    requires GetJWTFormHeader(req).Found?
    requires env.keyFile == Some(pem) && env.prims.parsePublicKey(pem) == Some(key)
    requires Jwt.Verify(env.prims, GetJWTFormHeader(req).token, key).Some?
    ensures CheckJWT(env.(nowNs := nowNs), req)
      == Deny(Signature(Jwt.Verify(env.prims, GetJWTFormHeader(req).token, key).value))
  {
  }

  /**
    With the key in place and a verifying signature, the request is allowed iff
    the payload has a numeric `exp` whose second (plus 9 ns) has not passed.
   */
  lemma AllowedIffUnexpired(env: Env, req: Request, pem: string, key: Jwt.PublicKey)
    requires GetJWTFormHeader(req).Found?
    requires env.keyFile == Some(pem) && env.prims.parsePublicKey(pem) == Some(key)
    requires Jwt.Verify(env.prims, GetJWTFormHeader(req).token, key).None?
    ensures var token := GetJWTFormHeader(req).token;
      var claims := Jwt.PayloadClaims(env.prims, Split(token, '.')[1]);
      && Count(token, '.') == 2
      && (CheckJWT(env, req) == Allow <==>
            Jwt.HasNumericExp(claims) && !Jwt.IsExpired(env.nowNs, claims.value["exp"].value))
  {
    var token := GetJWTFormHeader(req).token;
    assert Count(token, '.') == 2;
  }

  /**
    A token whose signature verifies but whose payload has no numeric `exp`
    aborts the handler: the type assertion on `exp` panics, and the request
    gets no reply at all.
   */
  lemma NoExpAborts(env: Env, req: Request, pem: string, key: Jwt.PublicKey)
    requires !IsRootPath(req.requestURI)
    requires GetJWTFormHeader(req).Found?
    requires env.keyFile == Some(pem) && env.prims.parsePublicKey(pem) == Some(key)
    requires Jwt.Verify(env.prims, GetJWTFormHeader(req).token, key).None?
    ensures var token := GetJWTFormHeader(req).token;
      && Count(token, '.') == 2
      && (!Jwt.HasNumericExp(Jwt.PayloadClaims(env.prims, Split(token, '.')[1])) ==> Proxy(env, req) == HandlerPanic)
  {
    var token := GetJWTFormHeader(req).token;
    assert Count(token, '.') == 2;
  }

  /** A key file that does not parse as an RSA public key aborts the handler for every bearer request. */
  lemma BadKeyAborts(env: Env, req: Request, pem: string)
    requires !IsRootPath(req.requestURI)
    requires GetJWTFormHeader(req).Found?
    requires env.keyFile == Some(pem) && env.prims.parsePublicKey(pem).None?
    ensures Proxy(env, req) == HandlerPanic
  {
  }

  /** `DecodeJWT`'s own structure error never surfaces: `Verify` has already rejected such tokens. */
  lemma StructureJudgedBySignature(env: Env, req: Request)
    ensures CheckJWT(env, req) != Deny(Claims(Jwt.InvalidStructure))
  {
    match GetJWTFormHeader(req)
    case NotFound =>
    case Found(token) =>
      if Count(token, '.') != 2 {
        match env.keyFile
        case None =>
        case Some(pem) =>
          match env.prims.parsePublicKey(pem)
          case None =>
          case Some(key) =>
            assert Jwt.Verify(env.prims, token, key) == Some(Jwt.WrongPartCount);
      }
  }
}
