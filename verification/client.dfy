/**
  The client gateway: it holds an OAuth2 token obtained from the token
  endpoint, refreshes it on a timer, and forwards every request that carries
  the configured Basic credentials with `Authorization: Bearer <access token>`.
  The token endpoint's responses are inputs: one `Reply` per attempt.
 */
module Client {
  import opened Wrappers
  import opened Http

  datatype ClientConfig = ClientConfig(
    proxyPort: string,
    username: string,
    password: string,
    tokenHost: string,
    clientId: string,
    clientSecret: string,
    grantType: string,
    remote: string)

  const Int64Modulus: int := 0x1_0000_0000_0000_0000
  const Int64Min: int := -0x8000_0000_0000_0000

  type int64 = x: int | Int64Min <= x < -Int64Min

  /** The most whole seconds a 64-bit `time.Duration` of nanoseconds can hold either way. */
  const MaxWholeSeconds: int := 9_223_372_036

  /** The token record the endpoint's JSON is decoded into. */
  datatype Token = Token(accessToken: string, refreshToken: string, tokenType: string, expiresIn: int64)

  const ZeroToken := Token("", "", "", 0)

  /** The package-level `Token` pointer; a JSON `null` response sets it to nil. */
  datatype Store = Nil | Held(token: Token)

  /** The pointer's value at start-up: a zero token. */
  const InitialStore := Held(ZeroToken)

  /** `url.Values` in which every key has one value. */
  type Form = map<string, string>

  const FormContentType := "application/x-www-form-urlencoded"

  /** One POST to the token endpoint. */
  datatype Post = Post(url: string, contentType: string, form: Form)

  /** The form of `RetrieveToken`: the configured grant type, client and user credentials. */
  function AcquireForm(cfg: ClientConfig): (f: Form)
    ensures f.Keys == {"grant_type", "client_id", "client_secret", "username", "password"}
    ensures f["grant_type"] == cfg.grantType && f["username"] == cfg.username && f["password"] == cfg.password
    ensures f["client_id"] == cfg.clientId && f["client_secret"] == cfg.clientSecret
  {
    map["grant_type" := cfg.grantType, "client_id" := cfg.clientId, "client_secret" := cfg.clientSecret,
        "username" := cfg.username, "password" := cfg.password]
  }

  /** The form of `RefreshToken`: the fixed `refresh_token` grant and the held refresh token, no user credentials. */
  function RefreshForm(cfg: ClientConfig, refreshToken: string): (f: Form)
    ensures f.Keys == {"grant_type", "client_id", "client_secret", "refresh_token"}
    ensures f["grant_type"] == "refresh_token" && f["refresh_token"] == refreshToken
    ensures f["client_id"] == cfg.clientId && f["client_secret"] == cfg.clientSecret
    ensures "password" !in f && "username" !in f
  {
    map["grant_type" := "refresh_token", "client_id" := cfg.clientId, "client_secret" := cfg.clientSecret,
        "refresh_token" := refreshToken]
  }

  function AcquirePost(cfg: ClientConfig): Post {
    Post(cfg.tokenHost, FormContentType, AcquireForm(cfg))
  }

  /**
    How `json.Unmarshal` treats one member of the response object: absent (or
    null), a value of the right type, or a value of the wrong type, which is
    skipped while the rest of the object is still decoded.
   */
  datatype Field<T> = Absent | Value(value: T) | Mismatch

  datatype TokenFields = TokenFields(
    accessToken: Field<string>,
    refreshToken: Field<string>,
    tokenType: Field<string>,
    expiresIn: Field<int64>)

  /** The response body as JSON: not decodable at all, `null`, or an object. */
  datatype JsonBody = Invalid | Null | Object(fields: TokenFields)

  /** One attempt's response: `http.Post` failed, reading the body failed, or a body. */
  datatype Reply = PostFailed | ReadFailed | Body(json: JsonBody)

  function Pick<T>(f: Field<T>, current: T): T {
    if f.Value? then f.value else current
  }

  /**
    The JSON merge into an existing token: a field present with the right type
    replaces the held value, every other field keeps it.
   */
  function Merge(t: Token, f: TokenFields): (r: Token)
    ensures f.accessToken.Value? ==> r.accessToken == f.accessToken.value
    ensures !f.accessToken.Value? ==> r.accessToken == t.accessToken
    ensures f.refreshToken.Value? ==> r.refreshToken == f.refreshToken.value
    ensures !f.refreshToken.Value? ==> r.refreshToken == t.refreshToken
    ensures f.tokenType.Value? ==> r.tokenType == f.tokenType.value
    ensures !f.tokenType.Value? ==> r.tokenType == t.tokenType
    ensures f.expiresIn.Value? ==> r.expiresIn == f.expiresIn.value
    ensures !f.expiresIn.Value? ==> r.expiresIn == t.expiresIn
  {
    Token(Pick(f.accessToken, t.accessToken), Pick(f.refreshToken, t.refreshToken),
          Pick(f.tokenType, t.tokenType), Pick(f.expiresIn, t.expiresIn))
  }

  predicate HasMismatch(f: TokenFields) {
    f.accessToken.Mismatch? || f.refreshToken.Mismatch? || f.tokenType.Mismatch? || f.expiresIn.Mismatch?
  }

  /**
    Whether an attempt gets through `wwwFormRequest` without `checkErr`
    panicking: the POST and the read must succeed, and the JSON decode must
    report no error, which `null` and an object with only well-typed fields do.
   */
  function Succeeds(reply: Reply): (ok: bool)
    ensures reply == PostFailed || reply == ReadFailed || reply == Body(Invalid) ==> !ok
    ensures reply == Body(Null) ==> ok
    ensures reply.Body? && reply.json.Object? ==> (ok <==> !HasMismatch(reply.json.fields))
  {
    reply.Body? && (reply.json.Null? || (reply.json.Object? && !HasMismatch(reply.json.fields)))
  }

  /**
    The store after one attempt, whether or not it then panics: `null` clears
    the token pointer, an object is merged into the held token (into a fresh zero
    token when the token pointer is nil), anything else leaves the store alone.
   */
  function Absorb(store: Store, reply: Reply): (next: Store)
    ensures reply == PostFailed || reply == ReadFailed || reply == Body(Invalid) ==> next == store
    ensures reply == Body(Null) ==> next == Nil
    ensures reply.Body? && reply.json.Object? && store.Held? ==>
      next == Held(Merge(store.token, reply.json.fields))
    ensures reply.Body? && reply.json.Object? && store.Nil? ==>
      next == Held(Merge(ZeroToken, reply.json.fields))
  {
    if !reply.Body? then store
    else match reply.json
      case Invalid => store
      case Null => Nil
      case Object(f) => Held(Merge(if store.Held? then store.token else ZeroToken, f))
  }

  /** The store after a run of attempts, one `Absorb` each. */
  function AbsorbAll(store: Store, replies: seq<Reply>): Store
    decreases |replies|
  {
    if |replies| == 0 then store else AbsorbAll(Absorb(store, replies[0]), replies[1..])
  }

  datatype Exchange = Returned(store: Store) | Panicked(store: Store)

  /**
    `wwwFormRequest`: every error (the POST, reading the body, decoding the
    JSON) goes through `checkErr` and panics, so it returns only when all three
    succeed, and never with an error. A failed POST, a failed read or
    undecodable JSON panics with the token untouched; `null` returns with the
    token pointer nil; an object is merged into the token (a zero token when the
    pointer is nil) and returns iff no field has the wrong type; with one, the
    panic comes after the other fields were stored.
   */
  function WwwFormRequest(store: Store, reply: Reply): (r: Exchange)
    ensures reply == PostFailed || reply == ReadFailed || reply == Body(Invalid) ==> r == Panicked(store)
    ensures reply == Body(Null) ==> r == Returned(Nil)
    ensures reply.Body? && reply.json.Object? ==>
      && r.store == Held(Merge(if store.Held? then store.token else ZeroToken, reply.json.fields))
      && (r.Returned? <==> !HasMismatch(reply.json.fields))
  {
    var next := Absorb(store, reply);
    if Succeeds(reply) then Returned(next) else Panicked(next)
  }

  /**
    Outcome of an acquisition or refresh: finished, still retrying when the
    given replies run out, or the process crashed on an unrecovered panic.
    `posts` lists the requests sent to the token endpoint, in order.
   */
  datatype Acquisition =
    | Completed(store: Store, posts: seq<Post>)
    | Pending(store: Store, posts: seq<Post>)
    | Crashed(posts: seq<Post>)

  /**
    `RetrieveToken`: post the acquisition form; a panic is recovered and the
    whole call repeated (after 5 s), so it never fails, only keeps trying.
    `replies[i]` is the response to the i-th attempt. It completes at the
    first successful reply, after exactly that many identical posts, leaving
    the store every attempt up to it has written.
   */
  function Retrieve(cfg: ClientConfig, store: Store, replies: seq<Reply>): (r: Acquisition)
    ensures !r.Crashed?
    ensures r.Completed? <==> exists i :: 0 <= i < |replies| && Succeeds(replies[i])
    ensures r.Completed? ==>
      && 1 <= |r.posts| <= |replies|
      && Succeeds(replies[|r.posts| - 1])
      && (forall i :: 0 <= i < |r.posts| - 1 ==> !Succeeds(replies[i]))
      && r.store == AbsorbAll(store, replies[..|r.posts|])
    ensures r.Pending? ==> |r.posts| == |replies| && r.store == AbsorbAll(store, replies)
    ensures forall i :: 0 <= i < |r.posts| ==> r.posts[i] == AcquirePost(cfg)
    decreases |replies|
  {
    if |replies| == 0 then Pending(store, [])
    else
      match WwwFormRequest(store, replies[0])
      case Returned(s) =>
        assert replies[..1] == [replies[0]] && [replies[0]][1..] == [];
        Completed(s, [AcquirePost(cfg)])
      case Panicked(s) =>
        var rest := Retrieve(cfg, s, replies[1..]);
        assert forall i :: 1 <= i < |replies| ==> replies[i] == replies[1..][i - 1];
        match rest
        case Completed(s', posts) =>
          assert replies[..|posts| + 1][1..] == replies[1..][..|posts|];
          Completed(s', [AcquirePost(cfg)] + posts)
        case Pending(s', posts) =>
          Pending(s', [AcquirePost(cfg)] + posts)
  }

  /**
    `RefreshToken`: a nil token pointer crashes the refresh goroutine; an empty
    refresh token falls back to `RetrieveToken`; otherwise the refresh form is
    posted once, and a failure panics in the timer's goroutine, where nothing
    recovers it, so the process dies.
   */
  function RefreshToken(cfg: ClientConfig, store: Store, replies: seq<Reply>): (r: Acquisition)
    ensures store.Held? && store.token.refreshToken == "" ==> r == Retrieve(cfg, store, replies)
    ensures store.Held? && store.token.refreshToken != "" && |replies| > 0 ==>
      && r.posts == [Post(cfg.tokenHost, FormContentType, RefreshForm(cfg, store.token.refreshToken))]
      && (r.Crashed? <==> !Succeeds(replies[0]))
      && (Succeeds(replies[0]) ==> r == Completed(Absorb(store, replies[0]), r.posts))
    ensures store.Nil? ==> r == Crashed([])
  {
    match store
    case Nil => Crashed([])
    case Held(t) =>
      if t.refreshToken == "" then Retrieve(cfg, store, replies)
      else if |replies| == 0 then Pending(store, [])
      else
        var post := Post(cfg.tokenHost, FormContentType, RefreshForm(cfg, t.refreshToken));
        match WwwFormRequest(store, replies[0])
        case Returned(s) => Completed(s, [post])
        case Panicked(_) => Crashed([post])
  }

  /** Two's-complement wrap-around of Go's 64-bit integer arithmetic. */
  function Wrap64(x: int): (r: int64)
    ensures Int64Min <= x < -Int64Min ==> r == x
    ensures (r - x) % Int64Modulus == 0
  {
    var m := (x - Int64Min) % Int64Modulus;
    m + Int64Min
  }

  /**
    The delay `TimerRefreshToken` waits, in nanoseconds: `ExpiresIn - 180`
    seconds as a 64-bit `time.Duration`. `time.Tick` gives a nil channel for a
    non-positive duration, and receiving from it blocks forever: None.
   */
  function RefreshDelayNs(expiresIn: int64): (r: Option<nat>)
    ensures r.Some? ==> r.value > 0
    ensures 180 < expiresIn <= 180 + MaxWholeSeconds ==> r == Some((expiresIn - 180) * 1_000_000_000)
    ensures 180 - MaxWholeSeconds <= expiresIn <= 180 ==> r.None?
  {
    var task := Wrap64(expiresIn - 180);
    assert -MaxWholeSeconds <= expiresIn - 180 <= MaxWholeSeconds ==>
      Wrap64(task * 1_000_000_000) == task * 1_000_000_000;
    var d := Wrap64(task * 1_000_000_000);
    if d <= 0 then None else Some(d)
  }

  datatype Cycle = TimerCrash | NeverFires | Fired(delayNs: nat, refresh: Acquisition)

  /**
    One round of `TimerRefreshToken`: read the held token's `ExpiresIn`
    (a nil pointer crashes), wait the delay, then refresh; the next round
    starts from the store the refresh leaves.
   */
  function TimerCycle(cfg: ClientConfig, store: Store, replies: seq<Reply>): (r: Cycle)
    ensures r == TimerCrash <==> store.Nil?
    ensures r == NeverFires <==> store.Held? && RefreshDelayNs(store.token.expiresIn).None?
    ensures r.Fired? ==>
      && r.delayNs == RefreshDelayNs(store.token.expiresIn).value
      && r.refresh == RefreshToken(cfg, store, replies)
  {
    match store
    case Nil => TimerCrash
    case Held(t) =>
      match RefreshDelayNs(t.expiresIn)
      case None => NeverFires
      case Some(d) => Fired(d, RefreshToken(cfg, store, replies))
  }

  /** `CheckAuth`: Basic credentials are present and both equal the configured ones. */
  function CheckAuth(basic: BasicScheme, cfg: ClientConfig, req: Request): (ok: bool)
    ensures ok <==> basic.parse(Get(req.header, Authorization)) == Some(Credentials(cfg.username, cfg.password))
  {
    match basic.parse(Get(req.header, Authorization))
    case None => false
    case Some(c) => c.user == cfg.username && c.pass == cfg.password
  }

  /**
    For credentials the Basic scheme carries faithfully, a request presenting
    them passes iff they are exactly the configured username and password.
   */
  lemma PresentedCredentials(basic: BasicScheme, cfg: ClientConfig, req: Request, c: Credentials)
    requires basic.parse(basic.encode(c)) == Some(c)
    requires Get(req.header, Authorization) == basic.encode(c)
    ensures CheckAuth(basic, cfg, req) <==> c.user == cfg.username && c.pass == cfg.password
  {
  }

  /** The JSON `ProxyUnauthorized` writes. */
  const UnauthorizedBody := "{\"error\":\"unauthorized\",\"reason\":\"You are not authorized to access this db.\"}"

  /**
    The director of `Proxy`: `Authorization` becomes "Bearer " and the held
    access token, scheme and host come from the remote; everything else of the
    request passes through.
   */
  function ClientDirector(remote: Url, token: Token, req: Request): (r: Request)
    ensures Get(r.header, Authorization) == "Bearer " + token.accessToken
    ensures r.url == Url(remote.scheme, remote.host, req.url.path, req.url.rawQuery)
    ensures r.host == remote.host
    ensures r.verb == req.verb && r.requestURI == req.requestURI && r.body == req.body
    ensures r.header.Keys == req.header.Keys + {Authorization}
    ensures forall k :: k in req.header && k != Authorization ==> r.header[k] == req.header[k]
  {
    Retarget(req.(header := Set(req.header, Authorization, "Bearer " + token.accessToken)), remote)
  }

  /**
    `Proxy`: a request failing `CheckAuth` gets status 200 and the fixed
    unauthorized body; one passing it is forwarded with the token held at that
    moment (a nil token pointer makes the director panic).
   */
  function Proxy(basic: BasicScheme, cfg: ClientConfig, remote: Url, store: Store, req: Request): (r: Outcome)
    ensures !CheckAuth(basic, cfg, req) <==> r == Reply(StatusOK, UnauthorizedBody)
    ensures r.Forward? <==> CheckAuth(basic, cfg, req) && store.Held?
    ensures r.Forward? ==> r.request == ClientDirector(remote, store.token, req)
    ensures r != ProcessExit
  {
    if !CheckAuth(basic, cfg, req) then Reply(StatusOK, UnauthorizedBody)
    else match store
      case Nil => HandlerPanic
      case Held(t) => Forward(ClientDirector(remote, t, req))
  }

  // ---- Properties ----

  /** `RefreshToken` without a held refresh token is exactly `RetrieveToken`. */
  lemma RefreshFallsBackToRetrieve(cfg: ClientConfig, t: Token, replies: seq<Reply>)
    requires t.refreshToken == ""
    ensures RefreshToken(cfg, Held(t), replies) == Retrieve(cfg, Held(t), replies)
  {
  }

  /**
    A refresh whose single attempt fails crashes the process: the 10-second
    retry branch after `RefreshToken` is never taken, because
    `wwwFormRequest` panics instead of returning an error.
   */
  lemma FailedRefreshCrashes(cfg: ClientConfig, t: Token, reply: Reply)
    requires t.refreshToken != "" && !Succeeds(reply)
    ensures RefreshToken(cfg, Held(t), [reply]).Crashed?
  {
  }

  /** Fields missing from a response keep their values; an empty object changes nothing. */
  lemma {:induction false} EmptyObjectKeepsToken(store: Store, t: Token)
    requires store == Held(t)
    ensures Absorb(store, Body(Object(TokenFields(Absent, Absent, Absent, Absent)))) == store
  {
    assert Merge(t, TokenFields(Absent, Absent, Absent, Absent)) == t;
  }

  /** Merging the same response twice is merging it once. */
  lemma MergeIdempotent(t: Token, f: TokenFields)
    ensures Merge(Merge(t, f), f) == Merge(t, f)
  {
  }

  /** With `expires_in` 300 the refresh fires after 120 seconds. */
  lemma DelayExample()
    ensures RefreshDelayNs(300) == Some(120 * 1_000_000_000)
  {
  }

  /**
    A token living 180 seconds or less is never refreshed: the timer's
    channel is nil. (Only below -9223372036 seconds does the 64-bit product
    wrap round to a positive delay.)
   */
  lemma ShortTokenNeverRefreshed(cfg: ClientConfig, t: Token, replies: seq<Reply>)
    requires 180 - MaxWholeSeconds <= t.expiresIn <= 180
    ensures TimerCycle(cfg, Held(t), replies) == NeverFires
  {
  }

  /**
    With a stored token, correct credentials forward the request carrying that
    token's access token as a bearer token; wrong ones get the unauthorized body.
   */
  lemma ForwardCarriesCurrentToken(basic: BasicScheme, cfg: ClientConfig, remote: Url, t: Token, req: Request)
    requires basic.parse(Get(req.header, Authorization)) == Some(Credentials(cfg.username, cfg.password))
    ensures Proxy(basic, cfg, remote, Held(t), req).Forward?
    ensures Get(Proxy(basic, cfg, remote, Held(t), req).request.header, Authorization) == "Bearer " + t.accessToken
  {
  }
}
