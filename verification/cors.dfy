/**
 * The CORS middleware of middleware/cors.js, after the CORS protocol of the
 * WHATWG Fetch Standard (section 3.2): an allowlisted origin is echoed back in
 * `Access-Control-Allow-Origin`, three fixed headers are always set, and an
 * `OPTIONS` preflight is answered with 200 instead of being passed on.
 */
module Cors {
  import opened Wrappers

  const ALLOWED_ORIGINS: seq<string> := ["http://localhost:3000", "https://dataviz-platform.vercel.app"]

  const ALLOW_ORIGIN := "Access-Control-Allow-Origin"
  const ALLOW_METHODS := "Access-Control-Allow-Methods"
  const ALLOW_HEADERS := "Access-Control-Allow-Headers"
  const ALLOW_CREDENTIALS := "Access-Control-Allow-Credentials"

  const METHODS_VALUE := "GET, POST, OPTIONS, PUT, PATCH, DELETE"
  const HEADERS_VALUE := "X-Requested-With,content-type,Authorization"
  /** The boolean `true` the middleware sets, as it appears on the wire. */
  const CREDENTIALS_VALUE := "true"

  const PREFLIGHT_METHOD := "OPTIONS"
  const PREFLIGHT_STATUS: nat := 200

  /** The parts of the request the middleware reads; `Origin` may be absent. */
  datatype CorsRequest = CorsRequest(origin: Option<string>, verb: string)

  /** Either the middleware ends the request with a status, or it calls `next` once. */
  datatype Continuation = SentStatus(status: nat) | CalledNext

  datatype CorsResult = CorsResult(headers: map<string, string>, continuation: Continuation)

  /** `allowedOrigins.includes(origin)`: an absent origin is never included. */
  predicate IsAllowed(origin: Option<string>) {
    origin.Some? && origin.value in ALLOWED_ORIGINS
  }

  /**
   * The middleware applied to a request whose response already carries the
   * headers `prior`. `headers` holds what the middleware's own `setHeader`
   * calls leave behind; the headers `sendStatus` adds while ending a preflight
   * are not part of it.
   */
  function CorsMiddleware(req: CorsRequest, prior: map<string, string>): (r: CorsResult)
    ensures IsAllowed(req.origin) ==> ALLOW_ORIGIN in r.headers && r.headers[ALLOW_ORIGIN] == req.origin.value
    ensures !IsAllowed(req.origin) ==>
      (ALLOW_ORIGIN in r.headers <==> ALLOW_ORIGIN in prior) &&
      (ALLOW_ORIGIN in prior ==> r.headers[ALLOW_ORIGIN] == prior[ALLOW_ORIGIN])
    ensures ALLOW_METHODS in r.headers && r.headers[ALLOW_METHODS] == METHODS_VALUE
    ensures ALLOW_HEADERS in r.headers && r.headers[ALLOW_HEADERS] == HEADERS_VALUE
    ensures ALLOW_CREDENTIALS in r.headers && r.headers[ALLOW_CREDENTIALS] == CREDENTIALS_VALUE
    ensures forall name | name in prior && name !in {ALLOW_ORIGIN, ALLOW_METHODS, ALLOW_HEADERS, ALLOW_CREDENTIALS} ::
      name in r.headers && r.headers[name] == prior[name]
    ensures forall name | name in r.headers ::
      name in prior || name in {ALLOW_ORIGIN, ALLOW_METHODS, ALLOW_HEADERS, ALLOW_CREDENTIALS}
    ensures r.continuation.SentStatus? <==> req.verb == PREFLIGHT_METHOD
    ensures r.continuation.SentStatus? ==> r.continuation.status == PREFLIGHT_STATUS
  {
    var withOrigin := if IsAllowed(req.origin) then prior[ALLOW_ORIGIN := req.origin.value] else prior;
    var headers := withOrigin[ALLOW_METHODS := METHODS_VALUE][ALLOW_HEADERS := HEADERS_VALUE][ALLOW_CREDENTIALS := CREDENTIALS_VALUE];
    if req.verb == PREFLIGHT_METHOD then CorsResult(headers, SentStatus(PREFLIGHT_STATUS))
    else CorsResult(headers, CalledNext)
  }

  /**
   * The CORS check of the Fetch Standard, run by a browser on a response to a
   * request from `origin`: the allowed origin must be present and, unless it is
   * `*` on a request without credentials, equal to `origin`; a credentialed
   * request also needs `Access-Control-Allow-Credentials: true`.
   */
  predicate CorsCheck(origin: string, credentialed: bool, headers: map<string, string>) {
    && ALLOW_ORIGIN in headers
    && (if !credentialed && headers[ALLOW_ORIGIN] == "*" then true
        else
          && headers[ALLOW_ORIGIN] == origin
          && (!credentialed || (ALLOW_CREDENTIALS in headers && headers[ALLOW_CREDENTIALS] == CREDENTIALS_VALUE)))
  }

  /**
   * On a response that had no allowed origin before, a browser's CORS check
   * passes, with or without credentials, exactly for the allowlisted origins.
   */
  lemma CorsCheckPassesExactlyForAllowlist(origin: string, verb: string, credentialed: bool, prior: map<string, string>)
    requires ALLOW_ORIGIN !in prior
    ensures CorsCheck(origin, credentialed, CorsMiddleware(CorsRequest(Some(origin), verb), prior).headers)
      <==> origin in ALLOWED_ORIGINS
  {
    var headers := CorsMiddleware(CorsRequest(Some(origin), verb), prior).headers;
    if origin in ALLOWED_ORIGINS {
      assert headers[ALLOW_ORIGIN] == origin;
    } else {
      assert ALLOW_ORIGIN !in headers;
    }
  }

  /** A preflight ends with 200 and is not passed on, whatever its origin. */
  lemma PreflightAnswered(origin: Option<string>, prior: map<string, string>)
    ensures CorsMiddleware(CorsRequest(origin, PREFLIGHT_METHOD), prior).continuation == SentStatus(PREFLIGHT_STATUS)
  {
  }

  /** Any other method is passed on to `next` and no status is sent. */
  lemma OtherMethodsPassedOn(origin: Option<string>, verb: string, prior: map<string, string>)
    requires verb != PREFLIGHT_METHOD
    ensures CorsMiddleware(CorsRequest(origin, verb), prior).continuation == CalledNext
  {
  }
}
