/**
 * JWTAuthenticationMiddleware (app/cloudunderroof/middleware.py): before the rest of
 * the stack sees a request, it marks requests that carry a Bearer token as exempt from
 * CSRF checks and copies an access_token cookie into the Authorization header when the
 * request has no such header.
 */
module Middleware {
  import opened Text

  /** The key under which the framework stores the Authorization header. */
  const AuthorizationKey := "HTTP_AUTHORIZATION"
  const AccessTokenCookie := "access_token"
  const BearerPrefix := "Bearer "

  /** request.META.get(key, '') */
  function HeaderOrEmpty(meta: map<string, string>, key: string): string {
    if key in meta then meta[key] else ""
  }

  /** The part of a request the middleware reads and writes: headers, cookies, the CSRF flag. */
  datatype RequestState = RequestState(
    meta: map<string, string>,
    cookies: map<string, string>,
    csrfExempt: bool)

  /**
   * The request as the middleware leaves it. A header starting with "Bearer " makes the
   * request exempt; a non-empty access_token cookie, when the header is absent or empty,
   * becomes the header "Bearer <cookie>" and makes the request exempt. Nothing is ever
   * cleared.
   */
  function Authenticate(req: RequestState): (r: RequestState)
    ensures r.cookies == req.cookies
    ensures req.csrfExempt ==> r.csrfExempt
    ensures forall k | k in req.meta && k != AuthorizationKey :: k in r.meta && r.meta[k] == req.meta[k]
    ensures forall k | k in r.meta && k != AuthorizationKey :: k in req.meta
  {
    var header := HeaderOrEmpty(req.meta, AuthorizationKey);
    var exempt := req.csrfExempt || StartsWith(header, BearerPrefix);
    var cookie := if AccessTokenCookie in req.cookies then req.cookies[AccessTokenCookie] else "";
    if cookie != "" && header == "" then
      RequestState(req.meta[AuthorizationKey := BearerPrefix + cookie], req.cookies, true)
    else
      RequestState(req.meta, req.cookies, exempt)
  }

  /** A header with the literal prefix "Bearer " marks the request exempt and is kept as it is. */
  lemma BearerHeaderIsExempt(req: RequestState)
    requires StartsWith(HeaderOrEmpty(req.meta, AuthorizationKey), BearerPrefix)
    ensures Authenticate(req).csrfExempt
    ensures Authenticate(req).meta == req.meta
  {
  }

  /** A non-empty cookie and an absent or empty header: the header becomes "Bearer " + cookie. */
  lemma CookiePromoted(req: RequestState)
    requires AccessTokenCookie in req.cookies && req.cookies[AccessTokenCookie] != ""
    requires HeaderOrEmpty(req.meta, AuthorizationKey) == ""
    ensures Authenticate(req).meta == req.meta[AuthorizationKey := BearerPrefix + req.cookies[AccessTokenCookie]]
    ensures Authenticate(req).csrfExempt
  {
  }

  /** A non-empty header, whatever its scheme, is never overwritten. */
  lemma HeaderNeverOverwritten(req: RequestState)
    requires HeaderOrEmpty(req.meta, AuthorizationKey) != ""
    ensures Authenticate(req).meta == req.meta
  {
  }

  /** An empty or absent access_token cookie promotes nothing. */
  lemma EmptyCookieNotPromoted(req: RequestState)
    requires AccessTokenCookie !in req.cookies || req.cookies[AccessTokenCookie] == ""
    ensures Authenticate(req).meta == req.meta
    ensures Authenticate(req).csrfExempt == (req.csrfExempt || StartsWith(HeaderOrEmpty(req.meta, AuthorizationKey), BearerPrefix))
  {
  }

  /** A non-Bearer header together with a cookie: no header change and no exemption. */
  lemma OtherSchemeNotExempt(req: RequestState)
    requires !req.csrfExempt
    requires HeaderOrEmpty(req.meta, AuthorizationKey) != ""
    requires !StartsWith(HeaderOrEmpty(req.meta, AuthorizationKey), BearerPrefix)
    ensures Authenticate(req) == req
  {
  }

  /** A request is exempt afterwards exactly when it was, had a Bearer header, or had its cookie promoted. */
  lemma ExemptExactly(req: RequestState)
    ensures Authenticate(req).csrfExempt <==>
      || req.csrfExempt
      || StartsWith(HeaderOrEmpty(req.meta, AuthorizationKey), BearerPrefix)
      || (AccessTokenCookie in req.cookies && req.cookies[AccessTokenCookie] != ""
          && HeaderOrEmpty(req.meta, AuthorizationKey) == "")
  {
  }

  /** Running the middleware twice is running it once. */
  lemma AuthenticateIdempotent(req: RequestState)
    ensures Authenticate(Authenticate(req)) == Authenticate(req)
  {
    var once := Authenticate(req);
    var header := HeaderOrEmpty(req.meta, AuthorizationKey);
    if AccessTokenCookie in req.cookies && req.cookies[AccessTokenCookie] != "" && header == "" {
      var promoted := BearerPrefix + req.cookies[AccessTokenCookie];
      assert HeaderOrEmpty(once.meta, AuthorizationKey) == promoted;
      assert promoted[..|BearerPrefix|] == BearerPrefix;
    }
  }

  /** A request object whose headers and CSRF flag the middleware updates in place. */
  class Request {
    var meta: map<string, string>
    var cookies: map<string, string>
    var dontEnforceCsrfChecks: bool

    constructor (meta: map<string, string>, cookies: map<string, string>)
      ensures this.meta == meta && this.cookies == cookies && !dontEnforceCsrfChecks
    {
      this.meta := meta;
      this.cookies := cookies;
      dontEnforceCsrfChecks := false;
    }

    function State(): RequestState
      reads this
    {
      RequestState(meta, cookies, dontEnforceCsrfChecks)
    }
  }

  /**
   * The middleware object; getResponse is the rest of the stack, which sees the request
   * as the middleware left it.
   */
  class JwtAuthenticationMiddleware<Response> {
    const getResponse: RequestState -> Response

    constructor (getResponse: RequestState -> Response)
      ensures this.getResponse == getResponse
    {
      this.getResponse := getResponse;
    }

    /** __call__: updates the request in place, then returns the downstream response unchanged. */
    method Call(request: Request) returns (response: Response)
      modifies request
      ensures request.State() == Authenticate(old(request.State()))
      ensures response == getResponse(request.State())
    {
      var header := if AuthorizationKey in request.meta then request.meta[AuthorizationKey] else "";
      if StartsWith(header, BearerPrefix) {
        request.dontEnforceCsrfChecks := true;
      }
      var accessToken := if AccessTokenCookie in request.cookies then request.cookies[AccessTokenCookie] else "";
      if accessToken != "" && header == "" {
        request.meta := request.meta[AuthorizationKey := BearerPrefix + accessToken];
        request.dontEnforceCsrfChecks := true;
      }
      response := getResponse(request.State());
    }
  }
}
