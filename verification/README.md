# couch-sso authentication core, modelled in Dafny

couch-sso is a pair of reverse-proxy gateways written in Go that put authentication in front of an unauthenticated upstream service.

- The **client gateway** obtains an OAuth2 token from a token endpoint and refreshes it on a timer. It accepts requests that carry the configured HTTP Basic credentials and forwards them to the remote with `Authorization: Bearer <access token>`, unless the token pointer is nil (after a JSON `null` reply), in which case the director panics. Requests without those credentials get a fixed "unauthorized" JSON body with status 200.
- The **server gateway** answers the root path with a fixed welcome body. Every other request must carry a Bearer JSON Web Token (RS256, JWS Compact Serialization, section 7.1 of RFC 7515) whose signature verifies and whose `exp` has not passed. Such a request is forwarded to the target with fixed Basic credentials. A request that fails a check gets a fixed "unauthorized" JSON body with status 200, with these exceptions: a token whose signature verifies but whose payload has no numeric `exp` makes the handler panic; a key file that does not parse as an RSA key also makes it panic; an unreadable key file exits the process.
- `main` starts one of the two gateways, depending on the configuration.

The model is a set of pure functions over immutable records:

| file | module | what |
|---|---|---|
| `wrappers.dfy` | `Wrappers` | `Option` |
| `go_strings.dfy` | `GoStrings` | `strings.Split` on one character, `HasPrefix`, `Replace(s, old, "", -1)` |
| `base64.dfy` | `Base64` | unpadded base64 decoding: the standard alphabet (section 4 of RFC 4648) and the URL-safe alphabet (section 5), with Go's non-strict decoding and its partial output on error; an encoder as its partner |
| `http.dfy` | `Http` | request, URL, header map, handler outcome, and the Basic-auth scheme as a parameter |
| `jwt.dfy` | `Jwt` | `DecodeJWT`, `Verify`, `VerifyToken` |
| `server.dfy` | `Server` | `IsRootPath`, `GetJWTFormHeader`, `CheckJWT`, the director, `Proxy`, the fixed bodies |
| `client.dfy` | `Client` | grant forms, `wwwFormRequest` with its JSON merge, `RetrieveToken` with retry, `RefreshToken`, the refresh delay, one timer round, `CheckAuth`, the director, `Proxy` |
| `app.dfy` | `App` | the mode branch of `main` |

Library code the gateways call is passed in as records of functions, and the model says nothing about what those functions compute:

- SHA-256, RSASSA-PKCS1-v1_5 verification, PEM/PKIX key parsing and JSON decoding of the claims: `Jwt.Primitives`.
- The Basic-auth header codec of `net/http`: `Http.BasicScheme`.

These inputs are also parameters:

- the wall clock, as integer nanoseconds;
- the contents of the key file (`None` when it cannot be read);
- the parsed target and remote URLs;
- the token endpoint's reply to each attempt.

Crashes are part of each function's result:

- A Go panic inside a request handler is `HandlerPanic`. `net/http` recovers it and drops the connection.
- `os.Exit` is `ProcessExit`.
- A panic in the refresh goroutine, which nothing recovers, is `Crashed` or `TimerCrash`.

Some behaviours of the code are easy to misread. The model states each one as the code has it:

- The acquisition grant type is the configured `GrantType`; no grant type is fixed in the code.
- JWT header and payload are decoded with the standard base64 alphabet, while the signature uses base64url. A payload segment containing `-` or `_` is therefore cut short (`Jwt.UrlSafePayloadNotDecoded`).
- A payload without a numeric `exp` makes the handler panic, even when the payload did not decode or parse at all.
- Expiry compares against `exp` seconds plus 9 ns.
- A failed refresh (with a refresh token held) crashes the process. The retry branch in the timer cannot be reached, because `wwwFormRequest` panics instead of returning an error.
- Line 34 of `main.go` assigns `app.Client.Port`, but the client type has only a `ProxyPort` field, so that line does not compile. The model leaves the client configuration as it is: the client listens on its configured `proxy_port`, which is what `Client.Run` uses.

## Model

| member | source | states |
|---|---|---|
| GoStrings.Split | server/jwt.go:34-35 | splitting a token on "." gives one more piece than it has dots; no piece contains a dot; re-joining the pieces with dots gives the token back |
| GoStrings.SplitJoin | server/jwt.go:34 | splitting dot-free segments joined by dots gives exactly those segments back, so "three parts" means "exactly two dots" |
| GoStrings.RemoveAll | server/server.go:103 | removing every "Bearer " never lengthens the header, and shortens it by at least the prefix when it starts with one |
| GoStrings.RemoveAllStep | server/server.go:103 | for a pattern whose first character does not recur in it, as "Bearer ": a pattern-free stretch is kept, the next occurrence is dropped, and removal goes on in the rest |
| GoStrings.RemoveAllAbsent | server/server.go:103 | when the pattern does not occur, the replace-all leaves the string unchanged |
| Base64.Decode | server/jwt.go:39-40 | raw decoding succeeds iff every character is in the alphabet and the length is not 1 mod 4, and then yields `len*6/8` bytes; on failure it still yields whole 3-byte groups, and the caller ignores the error |
| Base64.DecodeStopsAtBadQuantum | server/jwt.go:39-40 | after whole valid quanta, a lone character or a quantum with a character outside the alphabet stops decoding: the result is exactly the bytes decoded so far, with the error flag |
| Base64.DecodeEncode | server/jwt.go:84 | decoding an unpadded encoding in the same alphabet succeeds and returns the original bytes |
| Jwt.SplitSegments | server/jwt.go:34-37 | a token built from three dot-free segments passes the three-part check with exactly those segments |
| Jwt.DecodeJWT | server/jwt.go:33-63 | rejected as malformed iff the token does not have exactly two dots; when accepted, the claims are exactly the parsed payload, with a numeric `exp` whose instant has not passed |
| Jwt.ExpiryInstant | server/jwt.go:55 | the expiry instant lies in the `exp` second, at its ninth nanosecond |
| Jwt.IsExpired | server/jwt.go:56-58 | now is after the expiry iff its second is later than `exp`, or it is the `exp` second and more than 9 ns into it |
| Jwt.TruncatedPayloadClaims | server/jwt.go:40-53 | a payload with a quantum the standard alphabet rejects has its claims parsed from the bytes of the whole quanta before that quantum |
| Jwt.DecodeSegments | server/jwt.go:39-62 | for a three-segment token: no numeric `exp` in the standard-decoded payload gives a panic, never acceptance; otherwise expired iff now > exp·10⁹+9 ns, and accepted with the payload claims unchanged |
| Jwt.HeaderIgnored | server/jwt.go:39-47 | the header segment never affects the outcome: a header that fails to decode or parse is only logged |
| Jwt.AcceptedThroughExpirySecond | server/jwt.go:55-62 | a token is still accepted at its `exp` second and up to 9 ns after it |
| Jwt.ExpiryMonotone | server/jwt.go:55-60 | once a token is rejected as expired, it stays rejected at every later time |
| Jwt.UrlSafePayloadNotDecoded | server/jwt.go:40 | a payload segment containing the URL-safe characters `-` or `_` fails standard-alphabet decoding |
| Jwt.SigningInput | server/jwt.go:83 | the signing input is the raw token up to its last dot, and contains exactly one dot |
| Jwt.Verify | server/jwt.go:77-92 | a token without exactly two dots fails the part count whatever the key and primitives; an encoding error is reported iff the third segment does not base64url-decode |
| Jwt.VerifySegments | server/jwt.go:83-91 | verification succeeds iff the signature segment base64url-decodes and RSA PKCS#1 v1.5 accepts it for the SHA-256 of the raw `header.payload` text |
| Jwt.StdSignatureRejected | server/jwt.go:84-87 | a signature segment containing `+` or `/` gives a decoding error, and no RSA check is made |
| Jwt.VerifyToken | server/jwt.go:65-73 | a missing key file exits the process; a key that does not parse as an RSA key panics; otherwise the result is `Verify` under the parsed key |
| Server.GetJWTFormHeader | server/server.go:97-106 | fails iff the `Authorization` value does not start with the case-sensitive "Bearer "; otherwise the token is the rest of the value after the prefix, whenever that rest contains no further "Bearer " |
| Server.EveryPrefixRemoved | server/server.go:103 | for "Bearer " + a + "Bearer " + b with a free of "Bearer ", the token is a followed by b with every "Bearer " removed |
| Server.IsRootPath | server/server.go:108-113 | a request URI is the root iff it has at most one character and that character is "/"; "/?q" is not the root |
| Server.RepeatedPrefixStripped | server/server.go:103 | "Bearer Bearer abc" yields the token "abc", because every occurrence of the prefix is removed |
| Server.CheckJWT | server/server.go:81-95 | a missing Bearer prefix is denied; with a prefix, a missing key file exits; it aborts iff the key does not parse, or the signature verifies but the payload has no numeric `exp`; a request is allowed only when both the signature and the expiry checks pass |
| Server.SignatureBeforeExpiry | server/server.go:86-93 | a bad signature is the reported failure at every clock reading, even when the token is also expired or has no `exp` |
| Server.AllowedIffUnexpired | server/server.go:86-94 | with a good key and signature, the request is allowed iff the payload's numeric `exp` instant has not passed |
| Server.NoExpAborts | server/jwt.go:50-55 | a token that passes the signature check but whose payload has no numeric `exp` aborts the handler instead of getting the unauthorized body |
| Server.BadKeyAborts | server/jwt.go:66-69 | a key file that does not parse as an RSA public key aborts the handler for every non-root request carrying a Bearer token |
| Server.StructureJudgedBySignature | server/server.go:86-92 | `DecodeJWT`'s malformed-token error never reaches the gate, because `Verify` rejects such tokens first |
| Server.ServerDirector | server/server.go:46-51 | `Authorization` becomes Basic (User, Pass); scheme and host come from the target; path, query, method, body and every other header are unchanged |
| Server.Proxy | server/server.go:31-41 | a root request URI gets the welcome body; any other request is forwarded through the director iff the token check allows it, gets status 200 with the unauthorized body iff it is denied, aborts the handler iff the check panics, and exits the process iff the check exits |
| Server.RootPathBypass | server/server.go:32-33 | a request to "/" or "" gets the welcome body, whatever its headers, the key file or the clock |
| Server.OnlyRootWelcomed | server/server.go:108-113 | any other request URI, "/?q" included, never gets the welcome body |
| Server.MissingHeaderUnauthorized | server/server.go:56-63 | a non-root request without an `Authorization` header gets status 200 and the unauthorized body |
| Client.AcquireForm | client/client.go:75-80 | the acquisition form has exactly the keys grant_type (the configured grant type), client_id, client_secret, username and password |
| Client.RefreshForm | client/client.go:91-95 | the refresh form has exactly grant_type=refresh_token, client_id, client_secret and the held refresh token, and never carries the user's password |
| Client.Succeeds | client/client.go:100-111 | an attempt gets past `checkErr` iff the POST and read succeed and the JSON is `null` or an object with no mistyped field; a failed POST, a failed read or undecodable JSON never does |
| Client.Absorb | client/client.go:108 | the store after one attempt: unchanged after a failed POST, a failed read or undecodable JSON; nil after `null`; after an object, the held token (or a zero token when nil) merged with its fields |
| Client.Merge | client/client.go:108 | a response field with a value of the right type replaces the held field; an absent or mistyped field keeps its old value |
| Client.MergeIdempotent | client/client.go:108 | merging the same response twice gives the same token as merging it once |
| Client.EmptyObjectKeepsToken | client/client.go:108 | an object response with none of the fields leaves the held token as it was |
| Client.WwwFormRequest | client/client.go:100-111 | a failed POST, a failed read or undecodable JSON panics with the store untouched; `null` returns with a nil token pointer; an object merges into the held token (a zero token when nil) and returns iff no field is mistyped, otherwise panics after the merge; it never returns an error |
| Client.Retrieve | client/client.go:65-83 | never gives up; it completes iff some attempt succeeds, at the first success, after that many identical acquisition posts; it leaves the store that all attempts up to that one wrote |
| Client.RefreshToken | client/client.go:85-98 | with no refresh token held, it is the acquisition; otherwise one refresh post: if that attempt succeeds the refresh completes with the store it leaves, and if it fails the process crashes; a nil token pointer crashes it |
| Client.RefreshFallsBackToRetrieve | client/client.go:87-89 | with an empty held refresh token, a refresh behaves exactly like an acquisition |
| Client.FailedRefreshCrashes | client/client.go:128-133 | a failed refresh with a held refresh token crashes the process; the 10-second retry is never reached |
| Client.Wrap64 | client/client.go:125-126 | the result is the 64-bit two's-complement value congruent to the input, and equals it when it fits |
| Client.RefreshDelayNs | client/client.go:125-127 | whenever the duration does not overflow, the delay is `expires_in − 180` whole seconds; `expires_in` ≤ 180 (down to the overflow bound) gives no delay, i.e. the timer never fires; any delay is positive |
| Client.DelayExample | client/client.go:125-126 | `expires_in` 300 gives a delay of 120 s |
| Client.ShortTokenNeverRefreshed | client/client.go:125-127 | a token living 180 s or less (down to the overflow bound) is never refreshed |
| Client.TimerCycle | client/client.go:124-137 | a nil token crashes the timer; it never fires iff the delay is not positive; otherwise it fires after that delay and refreshes from the current store |
| Client.CheckAuth | client/client.go:139-145 | true iff Basic credentials are present and both username and password equal the configured ones |
| Client.PresentedCredentials | client/client.go:140-141 | credentials that survive the Basic encoding pass iff both the username and the password equal the configured ones |
| Client.ClientDirector | client/client.go:49-54 | `Authorization` becomes "Bearer " plus the held access token; scheme and host come from the remote; everything else is unchanged |
| Client.Proxy | client/client.go:47-62 | a request failing `CheckAuth` gets status 200 and the unauthorized body, and nothing else does; it is forwarded iff it passes and a token is held |
| Client.ForwardCarriesCurrentToken | client/client.go:48-56 | with correct credentials, the forwarded request carries the currently held access token as its bearer token |
| App.SelectMode | main.go:27-37 | server mode iff the target is set, whatever the remote; client mode iff only the remote is set; nothing runs iff both are empty; the server gets the top-level port, and the client keeps its configured one |
| App.ServerModeIgnoresRemote | main.go:30-32 | when a target is set, changing the remote does not change the mode |
| App.BearerHandoff | client/client.go:50 | the server gateway extracts exactly the access token from the header the client gateway sets, if the token contains no "Bearer " |

## Left out

- Listening, the `ReverseProxy` streaming of bodies, its hop-by-hop header removal and its `X-Forwarded-For`: these are network plumbing. A forwarded request is the request as the director leaves it.
- `http.Post` to the token endpoint: this is network I/O. Each attempt's reply is an input, already classified: the POST failed, the read failed, invalid JSON, `null`, or an object whose fields are absent, well-typed or mistyped.
- Goroutines, `time.Sleep`, `time.Tick` and the unsynchronised global token, which request handlers read while a refresh writes it: these are concurrency and timing. The model has a single-threaded store transition and the computed delay.
- SHA-256, RSA, PEM/PKIX parsing and reading the key file: these are foreign crypto and file I/O. They are parameters. The key file's contents are a per-request input, because `VerifyToken` reads the file on every call.
- JSON decoding of the claims and of the token response: these are parameters or pre-classified inputs. Go's case-insensitive key matching is among what they abstract.
- Decoding and parsing the JWT header: it only feeds a log line, so it is not computed. `Jwt.HeaderIgnored` shows that its outcome does not matter.
- Go strings are byte strings, while the model's `string` is a sequence of Unicode characters. The two agree on every valid UTF-8 value for `Split` on ".", `HasPrefix` and replace-all of "Bearer ", and base64 decoding. A header value that is not valid UTF-8 cannot be represented.
- Go's base64 decoder skips `\r` and `\n`: this is not modelled, because an HTTP header value cannot contain them.
- `url.Parse` of the target and remote: the parsed URL is an input. A failed parse leaves a nil URL that the director would dereference; this is not modelled.
- `ResponseJson` sets `Content-Type` after `WriteHeader`, so that header is never sent. Only the status and the body are modelled.
- Reading `config.json`, `os.Exit` at start-up, and all printing and logging.
- The return values of `RetrieveToken` and `RefreshToken`: they are only printed. This includes the local `Token` that shadows the global at line 129 of `client/client.go`.
- Client start-up is not a separate member. It is `Client.Retrieve` from `Client.InitialStore`, followed by the first `Client.TimerCycle`.
- A well-formed non-object JSON reply is folded into `Invalid`. Go would first allocate a zero token if the token pointer were nil.
- Jwt.DecodeJWT: a numeric `exp` is whole seconds. The float64 JSON number and its truncation to int64 are not modelled, and neither are instants outside `time.Time`'s range.
- Client.Retrieve: the endless retry is modelled over a finite sequence of replies. When they run out without a success, the result is `Pending`, not a promise about later attempts. The 5-second pause is not modelled.
- App.SelectMode: does not model line 34 of `main.go`, which assigns the top-level port to a `Port` field the client type lacks and so does not compile; client mode keeps the configured `proxy_port`.
- Client.TimerCycle: models one round. The self-rescheduling chain of rounds is that function applied again to the store the round leaves.
- model/token.go is not part of this model. The token's four fields are access token, refresh token, token type and `expires_in`, the keys of the OAuth2 token response, and `expires_in` is taken as a 64-bit integer.
- Any cryptographic property, such as "changing a signature byte makes verification fail", is outside the model, because RSA is a parameter.
