/**
 * The API gateway's authentication filter: preflight requests and public
 * endpoints pass; every other request needs an "Authorization: Bearer <token>"
 * header whose token validates, and is then forwarded with the token's user
 * name in X-User-Id.  Anything else is answered 401.  Token validation and
 * user-name extraction are parameters that may throw (an `Err` message).
 */
module GatewayAuthentication {
  import opened Wrappers
  import opened JavaText

  /** Header names are case-insensitive, so the map is keyed by the lower-cased name. */
  type Headers = map<string, seq<string>>

  datatype Request = Request(httpMethod: string, path: string, headers: Headers)

  /** The exchange's response: only a status and whether it was completed. */
  datatype Response = Response(status: Option<int>, completed: bool, body: string)

  datatype Exchange = Exchange(request: Request, response: Response)

  /** What the filter hands back: the exchange passed down the chain, or the answered response. */
  datatype Outcome = Forwarded(exchange: Exchange) | Answered(response: Response)

  datatype JwtUtil = JwtUtil(
    validateToken: string -> Result<bool, string>,
    extractUsername: string -> Result<string, string>)

  const Unauthorized := 401
  const BearerPrefix := "Bearer "
  const PublicEndpoints := ["/api/auth/login", "/api/auth/register", "/api/auth/oauth2", "/actuator/health"]

  function HeaderKey(name: string): string {
    Lower(name)
  }

  /** `getFirst`: the first value of the header, null when it has none. */
  function FirstHeader(headers: Headers, name: string): Option<string> {
    var key := HeaderKey(name);
    if key in headers && |headers[key]| > 0 then Some(headers[key][0]) else None
  }

  /** `isPublicEndpoint`: some public endpoint is a prefix of the path. */
  predicate IsPublicEndpoint(path: string) {
    exists k :: 0 <= k < |PublicEndpoints| && StartsWith(path, PublicEndpoints[k])
  }

  /** `onError`: set the status and complete the response; the message is not written anywhere. */
  function OnError(exchange: Exchange, message: string, status: int): (r: Response)
    ensures r.status == Some(status) && r.completed
    ensures r.body == exchange.response.body
  {
    exchange.response.(status := Some(status), completed := true)
  }

  /** `request.mutate().header("X-User-Id", username)`: the header's values become just the user name. */
  function WithUserId(request: Request, username: string): Request {
    request.(headers := request.headers[HeaderKey("X-User-Id") := [username]])
  }

  /** The token: the header after its first seven characters. */
  function Token(authHeader: string): string
    requires StartsWith(authHeader, BearerPrefix)
  {
    authHeader[7..]
  }

  /** `filter` */
  function Filter(exchange: Exchange, jwt: JwtUtil): Outcome {
    var request := exchange.request;
    if request.httpMethod == "OPTIONS" then Forwarded(exchange)
    else if IsPublicEndpoint(request.path) then Forwarded(exchange)
    else if HeaderKey("Authorization") !in request.headers then
      Answered(OnError(exchange, "Missing Authorization header", Unauthorized))
    else
      var authHeader := FirstHeader(request.headers, "Authorization");
      if authHeader.None? || !StartsWith(authHeader.value, BearerPrefix) then
        Answered(OnError(exchange, "Invalid Authorization header", Unauthorized))
      else
        var token := Token(authHeader.value);
        match jwt.validateToken(token)
        case Err(m) => Answered(OnError(exchange, "Authentication failed: " + m, Unauthorized))
        case Ok(false) => Answered(OnError(exchange, "Invalid or expired token", Unauthorized))
        case Ok(true) =>
          match jwt.extractUsername(token)
          case Err(m) => Answered(OnError(exchange, "Authentication failed: " + m, Unauthorized))
          case Ok(username) => Forwarded(exchange.(request := WithUserId(request, username)))
  }

  // ----- properties -----

  /** The bearer token of a request, when its first Authorization value has the prefix. */
  function BearerToken(request: Request): Option<string> {
    var h := FirstHeader(request.headers, "Authorization");
    if h.Some? && StartsWith(h.value, BearerPrefix) then Some(h.value[7..]) else None
  }

  /** A token the filter accepts: it validates, and its user name can be read. */
  predicate Accepted(jwt: JwtUtil, token: string) {
    jwt.validateToken(token) == Ok(true) && jwt.extractUsername(token).Ok?
  }

  /**
   * A request is forwarded exactly when it is a preflight, targets a public
   * endpoint, or carries a bearer token that is accepted; otherwise the
   * answer is a completed 401 whose body is untouched.
   */
  lemma ForwardedExactly(exchange: Exchange, jwt: JwtUtil)
    ensures var request := exchange.request;
      var token := BearerToken(request);
      Filter(exchange, jwt).Forwarded? <==>
        request.httpMethod == "OPTIONS" || IsPublicEndpoint(request.path) || (token.Some? && Accepted(jwt, token.value))
    ensures Filter(exchange, jwt).Answered? ==>
      var r := Filter(exchange, jwt).response;
      r.status == Some(401) && r.completed && r.body == exchange.response.body
  {
    var request := exchange.request;
    if HeaderKey("Authorization") !in request.headers {
      assert FirstHeader(request.headers, "Authorization").None?;
    }
  }

  /** Preflight and public requests go down the chain exactly as they came, with or without a header. */
  lemma OpenRequestsUntouched(exchange: Exchange, jwt: JwtUtil)
    requires exchange.request.httpMethod == "OPTIONS" || IsPublicEndpoint(exchange.request.path)
    ensures Filter(exchange, jwt) == Forwarded(exchange)
  {}

  /** An accepted token forwards the request with X-User-Id set to the token's user name and nothing else changed. */
  lemma AcceptedTokenForwards(exchange: Exchange, jwt: JwtUtil)
    requires exchange.request.httpMethod != "OPTIONS" && !IsPublicEndpoint(exchange.request.path)
    requires BearerToken(exchange.request).Some? && Accepted(jwt, BearerToken(exchange.request).value)
    ensures var token := BearerToken(exchange.request).value;
      var forwarded := Filter(exchange, jwt);
      && forwarded.Forwarded?
      && forwarded.exchange.response == exchange.response
      && forwarded.exchange.request.httpMethod == exchange.request.httpMethod
      && forwarded.exchange.request.path == exchange.request.path
      && forwarded.exchange.request.headers ==
           exchange.request.headers["x-user-id" := [jwt.extractUsername(token).value]]
  {
    assert HeaderKey("X-User-Id") == "x-user-id";
    assert HeaderKey("Authorization") in exchange.request.headers;
  }

  /** Matching is by prefix: a path that extends a public endpoint is public too. */
  lemma PublicByPrefix(suffix: string)
    ensures IsPublicEndpoint("/api/auth/login" + suffix)
    ensures !IsPublicEndpoint("/api/employees")
  {
    assert StartsWith("/api/auth/login" + suffix, PublicEndpoints[0]);
    var p := "/api/employees";
    assert p[5] != PublicEndpoints[0][5] && p[5] != PublicEndpoints[1][5] && p[5] != PublicEndpoints[2][5];
    assert p[2] != PublicEndpoints[3][2];
  }

  /** The token is what follows "Bearer ": putting the prefix back gives the header. */
  lemma TokenRestoresHeader(authHeader: string)
    requires StartsWith(authHeader, BearerPrefix)
    ensures BearerPrefix + Token(authHeader) == authHeader
    ensures |Token(authHeader)| == |authHeader| - 7
  {
    assert authHeader == authHeader[..7] + authHeader[7..];
  }
}
