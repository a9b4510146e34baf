/**
  The parts of Go's `net/http` request and response handling the gateways
  touch: a request's target URL, host, header map and body, and the outcome of
  one handler call. Encoding and parsing of the HTTP Basic authentication
  header belong to `net/http` and are supplied as a parameter.
 */
module Http {
  import opened Wrappers

  /** The fields of `url.URL` that matter here: scheme and host are rewritten, path and query pass through. */
  datatype Url = Url(scheme: string, host: string, path: string, rawQuery: string)

  /** Canonical header name to its values, as in `http.Header`. */
  type Header = map<string, seq<string>>

  datatype Request = Request(
    verb: string,         // the HTTP method
    requestURI: string,   // the raw request target of the request line
    url: Url,
    host: string,
    header: Header,
    body: seq<int>)

  const Authorization := "Authorization"

  /** `Header.Get`: the first value for `key`, or "" when there is none. */
  function Get(h: Header, key: string): string {
    if key in h && |h[key]| > 0 then h[key][0] else ""
  }

  /** `Header.Set`: `key` now has exactly one value. */
  function Set(h: Header, key: string, value: string): Header {
    h[key := [value]]
  }

  datatype Credentials = Credentials(user: string, pass: string)

  /**
    The Basic authentication scheme as `net/http` implements it:
    `encode` is the header value `Request.SetBasicAuth` writes and `parse` is
    what `Request.BasicAuth` reads back from an `Authorization` value.
   */
  datatype BasicScheme = BasicScheme(
    encode: Credentials -> string,
    parse: string -> Option<Credentials>)

  const StatusOK := 200

  /**
    What serving one request comes to: a reply written by the gateway itself,
    the rewritten request handed to the reverse proxy, a panic inside the
    handler (`net/http` recovers it and drops the connection), or the whole
    process exiting.
   */
  datatype Outcome =
    | Reply(status: int, body: string)
    | Forward(request: Request)
    | HandlerPanic
    | ProcessExit

  /** The request as the reverse proxy's director leaves it: scheme and host taken from `target`. */
  function Retarget(req: Request, target: Url): Request {
    req.(url := req.url.(scheme := target.scheme, host := target.host), host := target.host)
  }
}
