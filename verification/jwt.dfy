/**
  The server gateway's JSON Web Token handling: the structural decode with
  expiry check (`DecodeJWT`) and the RS256 signature check (`Verify`) over the
  JWS Compact Serialization of section 7.1 of RFC 7515. SHA-256, RSASSA
  PKCS#1 v1.5, PEM/PKIX key parsing and JSON parsing are parameters.
 */
module Jwt {
  import opened Wrappers
  import opened GoStrings
  import Base64

  type byte = Base64.byte

  /** A payload claim value: a JSON number (taken as whole seconds) or any other JSON value. */
  datatype Claim = Number(value: int) | Other(json: string)

  type Claims = map<string, Claim>

  datatype PublicKey = PublicKey(modulus: nat, exponent: nat)

  /**
    The library code the verifier calls: `sha256` hashes the bytes of a
    string, `rsaVerify` is `rsa.VerifyPKCS1v15` with SHA-256,
    `parseClaims` is `json.Unmarshal` into a `map[string]interface{}` (None
    when the map stays nil), `parsePublicKey` is `pem.Decode` followed by
    `x509.ParsePKIXPublicKey` (None unless it yields an RSA key).
   */
  datatype Primitives = Primitives(
    sha256: string -> seq<byte>,
    rsaVerify: (PublicKey, seq<byte>, seq<byte>) -> bool,
    parseClaims: seq<byte> -> Option<Claims>,
    parsePublicKey: string -> Option<PublicKey>)

  const NanosPerSecond: int := 1_000_000_000

  /** `time.Unix(exp, 9)` in nanoseconds: nine nanoseconds past the `exp` second. */
  function ExpiryInstant(exp: int): (instant: int)
    ensures instant / NanosPerSecond == exp && instant % NanosPerSecond == 9
  {
    exp * NanosPerSecond + 9
  }

  /**
    `now.After(expTime)`, which compares whole seconds first and then the
    nanoseconds within the second.
   */
  function IsExpired(nowNs: int, exp: int): (after: bool)
    ensures after <==>
      nowNs / NanosPerSecond > exp || (nowNs / NanosPerSecond == exp && nowNs % NanosPerSecond > 9)
  {
    nowNs > ExpiryInstant(exp)
  }

  /** Whether parsed claims carry a numeric `exp`; without one the type assertion panics. */
  predicate HasNumericExp(claims: Option<Claims>) {
    claims.Some? && "exp" in claims.value && claims.value["exp"].Number?
  }

  datatype DecodeError = InvalidStructure | ExpiredToken

  datatype DecodeResult = Accepted(claims: Claims) | Rejected(error: DecodeError) | Panicked

  /** The payload claims of a three-segment token: standard-alphabet decode, then JSON. */
  function PayloadClaims(p: Primitives, payloadSegment: string): Option<Claims> {
    p.parseClaims(Base64.Decode(Base64.Std, payloadSegment).bytes)
  }

  /**
    `DecodeJWT`. A token that is not three dot-separated segments is rejected.
    Header and payload are decoded with the STANDARD alphabet and their errors
    ignored; the header is parsed only to be logged, so it is not computed
    here. Payload claims without a numeric `exp` panic; otherwise the token is
    rejected iff `now` is after `exp` seconds plus 9 ns, and accepted with the
    parsed claims unchanged.
   */
  function DecodeJWT(p: Primitives, token: string, nowNs: int): (r: DecodeResult)
    ensures Count(token, '.') != 2 <==> r == Rejected(InvalidStructure)
    ensures r.Accepted? ==>
      && HasNumericExp(Some(r.claims))
      && !IsExpired(nowNs, r.claims["exp"].value)
      && PayloadClaims(p, Split(token, '.')[1]) == Some(r.claims)
  {
    var parts := Split(token, '.');
    if |parts| != 3 then Rejected(InvalidStructure)
    else
      var claims := PayloadClaims(p, parts[1]);
      if !HasNumericExp(claims) then Panicked
      else if IsExpired(nowNs, claims.value["exp"].value) then Rejected(ExpiredToken)
      else Accepted(claims.value)
  }

  /**
    The signing input of a three-segment token: its first two segments joined
    by a dot, as they appear in the token. It is exactly the token up to its
    last dot.
   */
  function SigningInput(token: string): (r: string)
    requires Count(token, '.') == 2
    ensures token == r + "." + Split(token, '.')[2]
    ensures Count(r, '.') == 1
  {
    var parts := Split(token, '.');
    var r := parts[0] + "." + parts[1];
    assert parts[1..][1..] == [parts[2]];
    assert Join(parts[1..], '.') == parts[1] + ['.'] + parts[2];
    assert token == parts[0] + ['.'] + (parts[1] + ['.'] + parts[2]);
    SplitJoin([parts[0], parts[1]], '.');
    assert Join([parts[0], parts[1]], '.') == r;
    r
  }

  datatype VerifyError = WrongPartCount | IllegalSignatureEncoding | VerificationFailed

  /**
    `Verify`: None is Go's nil error. The part count is checked first, then the
    signature segment is decoded with the URL-safe alphabet, and only then is
    the RSA check run on the SHA-256 of the signing input.
   */
  function Verify(p: Primitives, token: string, key: PublicKey): (r: Option<VerifyError>)
    ensures Count(token, '.') != 2 <==> r == Some(WrongPartCount)
    ensures r == Some(IllegalSignatureEncoding) <==>
      Count(token, '.') == 2 && !Base64.Decode(Base64.Url, Split(token, '.')[2]).ok
  {
    var parts := Split(token, '.');
    if |parts| != 3 then Some(WrongPartCount)
    else
      var signed := SigningInput(token);
      var signature := Base64.Decode(Base64.Url, parts[2]);
      if !signature.ok then Some(IllegalSignatureEncoding)
      else if p.rsaVerify(key, p.sha256(signed), signature.bytes) then None
      else Some(VerificationFailed)
  }

  datatype TokenCheck = Checked(error: Option<VerifyError>) | KeyPanic | KeyFileMissing

  /**
    `VerifyToken`: the key file is read on every call (a missing file exits
    the process), a key that does not parse as an RSA key panics, and
    otherwise the token is `Verify`-ed against it.
   */
  function VerifyToken(p: Primitives, keyFile: Option<string>, token: string): (r: TokenCheck)
    ensures keyFile.None? <==> r == KeyFileMissing
    ensures r.Checked? <==> keyFile.Some? && p.parsePublicKey(keyFile.value).Some?
    ensures r.Checked? ==> r.error == Verify(p, token, p.parsePublicKey(keyFile.value).value)
  {
    match keyFile
    case None => KeyFileMissing
    case Some(pem) =>
      match p.parsePublicKey(pem)
      case None => KeyPanic
      case Some(key) => Checked(Verify(p, token, key))
  }

  // ---- Properties ----

  /** A token built from three dot-free segments splits back into them. */
  lemma {:induction false} SplitSegments(h: string, pl: string, sig: string)
    requires '.' !in h && '.' !in pl && '.' !in sig
    ensures Split(h + "." + pl + "." + sig, '.') == [h, pl, sig]
  {
    var parts := [h, pl, sig];
    assert Join(parts, '.') == h + "." + pl + "." + sig by {
      assert Join(parts[1..], '.') == pl + "." + sig;
    }
    SplitJoin(parts, '.');
  }

  /**
    `Verify` on a token given by its segments: it succeeds iff the signature
    segment decodes under the URL-safe alphabet and the RSA check accepts it
    for the SHA-256 of the raw `header.payload` text.
   */
  lemma {:induction false} VerifySegments(p: Primitives, key: PublicKey, h: string, pl: string, sig: string)
    requires '.' !in h && '.' !in pl && '.' !in sig
    ensures var d := Base64.Decode(Base64.Url, sig);
      Verify(p, h + "." + pl + "." + sig, key) == None <==>
        d.ok && p.rsaVerify(key, p.sha256(h + "." + pl), d.bytes)
  {
    SplitSegments(h, pl, sig);
  }

  /**
    `DecodeJWT` on a token given by its segments: the header segment plays no
    part, a payload without a numeric `exp` panics, and otherwise the token is
    rejected as expired iff `now` is past `exp` seconds plus 9 ns, and accepted
    with exactly the parsed payload claims.
   */
  lemma DecodeSegments(p: Primitives, h: string, pl: string, sig: string, nowNs: int)
    requires '.' !in h && '.' !in pl && '.' !in sig
    ensures var claims := PayloadClaims(p, pl);
      var r := DecodeJWT(p, h + "." + pl + "." + sig, nowNs);
      && (!HasNumericExp(claims) <==> r == Panicked)
      && (HasNumericExp(claims) ==>
            (r == Rejected(ExpiredToken) <==> nowNs > claims.value["exp"].value * NanosPerSecond + 9)
            && (r.Accepted? ==> r.claims == claims.value))
  {
    SplitSegments(h, pl, sig);
  }

  /** The header segment never decides the outcome: swapping it leaves the result unchanged. */
  lemma HeaderIgnored(p: Primitives, h1: string, h2: string, pl: string, sig: string, nowNs: int)
    requires '.' !in h1 && '.' !in h2 && '.' !in pl && '.' !in sig
    ensures DecodeJWT(p, h1 + "." + pl + "." + sig, nowNs) == DecodeJWT(p, h2 + "." + pl + "." + sig, nowNs)
  {
    SplitSegments(h1, pl, sig);
    SplitSegments(h2, pl, sig);
  }

  /** A token is still accepted up to and including 9 ns past its `exp` second. */
  lemma AcceptedThroughExpirySecond(p: Primitives, token: string, nowNs: int)
    requires Count(token, '.') == 2
    requires HasNumericExp(PayloadClaims(p, Split(token, '.')[1]))
    requires nowNs <= PayloadClaims(p, Split(token, '.')[1]).value["exp"].value * NanosPerSecond + 9
    ensures DecodeJWT(p, token, nowNs) == Accepted(PayloadClaims(p, Split(token, '.')[1]).value)
  {
  }

  /** Expiry is monotone in time: once rejected as expired, a token stays rejected. */
  lemma ExpiryMonotone(p: Primitives, token: string, nowNs: int, laterNs: int)
    requires nowNs <= laterNs
    requires DecodeJWT(p, token, nowNs) == Rejected(ExpiredToken)
    ensures DecodeJWT(p, token, laterNs) == Rejected(ExpiredToken)
  {
  }

  /**
    A payload segment written with the URL-safe alphabet's own characters
    (`-` or `_`) fails standard-alphabet decoding, so its claims come from a
    truncated byte string.
   */
  lemma UrlSafePayloadNotDecoded(pl: string, i: nat)
    requires i < |pl| && (pl[i] == '-' || pl[i] == '_')
    ensures !Base64.Decode(Base64.Std, pl).ok
  {
    assert !Base64.InAlphabet(Base64.Std, pl[i]);
  }

  /**
    The claims of such a payload are parsed from the bytes of its whole
    quanta before the first one holding a character the standard alphabet
    lacks; the decoding error itself is ignored.
   */
  lemma TruncatedPayloadClaims(p: Primitives, v: string, w: string)
    requires |v| % 4 == 0 && Base64.AllInAlphabet(Base64.Std, v)
    requires Base64.BadFirstQuantum(Base64.Std, w)
    ensures PayloadClaims(p, v + w) == p.parseClaims(Base64.Decode(Base64.Std, v).bytes)
  {
    Base64.DecodeStopsAtBadQuantum(Base64.Std, v, w);
  }

  /** A signature segment in the standard alphabet's `+` or `/` is an encoding error for `Verify`. */
  lemma StdSignatureRejected(p: Primitives, key: PublicKey, h: string, pl: string, sig: string, i: nat)
    requires '.' !in h && '.' !in pl && '.' !in sig
    requires i < |sig| && (sig[i] == '+' || sig[i] == '/')
    ensures Verify(p, h + "." + pl + "." + sig, key) == Some(IllegalSignatureEncoding)
  {
    SplitSegments(h, pl, sig);
    assert !Base64.InAlphabet(Base64.Url, sig[i]);
  }
}
