/**
 * Turning the session into a result: `exchange_code_for_token` checks the
 * error first and the code second, and only then posts the code to the
 * token endpoint and normalises the reply; the HTTP endpoint wraps that
 * result in a status code.
 */
module TokenExchange {
  import opened Wrappers
  import opened SessionState
  import opened AuthUrl

  /** A JSON value as the token endpoint's reply holds it; arrays and objects are not looked into. */
  datatype Value = Str(s: string) | Num(n: int) | Flag(b: bool) | Null | Structured

  /** The decoded JSON object of the reply. */
  type Body = map<string, Value>

  /** What the POST gives: a decoded body, or the text of the exception the request or the decoding raised. */
  datatype Response = Delivered(body: Body) | Raised(reason: string)

  /** The form the source posts to the token endpoint. */
  datatype TokenRequest = TokenRequest(
    endpoint: string, clientId: string, scope: string, code: string, redirectUri: string, grantType: string)

  /** The `error` codes of the source: INVALID_REQUEST, MISSING_CREDENTIALS, AUTOMATION_FAILED, AUTH_CODE_MISSING, TOKEN_EXCHANGE_FAILED, REQUEST_FAILED. */
  datatype ErrorKind =
    | InvalidRequest | MissingCredentials               // rejected by the HTTP endpoint before any automation
    | AutomationFailed | AuthCodeMissing | TokenExchangeFailed | RequestFailed

  /** The `message` of an error result: a text, or the whole reply body. */
  datatype Message = Text(text: string) | RawBody(body: Body)

  datatype TokenResult =
    | Tokens(refreshToken: Value, accessToken: Value, expiresIn: Value, scope: Value, tokenType: Value,
             obtainedAt: string)
    | Failure(kind: ErrorKind, message: Message)

  /** The request made, if any, and the result returned. */
  datatype Exchange = Exchange(request: Option<TokenRequest>, result: TokenResult)

  const MissingCodeMessage: string := "Unable to obtain authorization code."

  /** `token_data.get(key)`: a missing key reads as null. */
  function Get(body: Body, key: string): Value {
    if key in body then body[key] else Null
  }

  /** `token_data.get(key, default)`: the default only for a missing key, not for a null value. */
  function GetOr(body: Body, key: string, default: Value): Value {
    if key in body then body[key] else default
  }

  /** The reply mapped to a result: tokens when it carries `refresh_token`, the raw body otherwise. */
  function Interpret(response: Response, obtainedAt: string): (r: TokenResult)
    ensures r.Tokens? <==> response.Delivered? && "refresh_token" in response.body
    ensures r.Tokens? ==> r.refreshToken == response.body["refresh_token"] && r.obtainedAt == obtainedAt
    ensures r.Tokens? ==> ("token_type" !in response.body ==> r.tokenType == Str("Bearer"))
    ensures r.Tokens? ==> r.accessToken == Get(response.body, "access_token") && r.expiresIn == Get(response.body, "expires_in")
                          && r.scope == Get(response.body, "scope")
    ensures r.Tokens? && "token_type" in response.body ==> r.tokenType == response.body["token_type"]
    ensures r.Failure? && response.Delivered? ==> r == Failure(TokenExchangeFailed, RawBody(response.body))
    ensures response.Raised? ==> r == Failure(RequestFailed, Text(response.reason))
  {
    match response
    case Raised(reason) => Failure(RequestFailed, Text(reason))
    case Delivered(body) =>
      if "refresh_token" in body then
        Tokens(Get(body, "refresh_token"), Get(body, "access_token"), Get(body, "expires_in"),
               Get(body, "scope"), GetOr(body, "token_type", Str("Bearer")), obtainedAt)
      else Failure(TokenExchangeFailed, RawBody(body))
  }

  /**
   * `exchange_code_for_token`: an error set in the session wins, then a
   * missing code; in both cases nothing is posted and the reply plays no
   * part. Otherwise exactly the session's code and the configuration are
   * posted with grant type `authorization_code`.
   */
  function ExchangeCodeForToken(cfg: Config, s: Session, response: Response, obtainedAt: string): (x: Exchange)
    ensures Truthy(s.error) ==> x == Exchange(None, Failure(AutomationFailed, Text(s.error.value)))
    ensures !Truthy(s.error) && !Truthy(s.authCode) ==> x == Exchange(None, Failure(AuthCodeMissing, Text(MissingCodeMessage)))
    ensures x.request.Some? <==> !Truthy(s.error) && Truthy(s.authCode)
    ensures x.request.Some? ==>
      x.request.value == TokenRequest(TokenEndpoint, cfg.clientId, cfg.scopes, s.authCode.value, cfg.redirectUri, "authorization_code")
      && x.result == Interpret(response, obtainedAt)
  {
    if Truthy(s.error) then Exchange(None, Failure(AutomationFailed, Text(s.error.value)))
    else if !Truthy(s.authCode) then Exchange(None, Failure(AuthCodeMissing, Text(MissingCodeMessage)))
    else
      var request := TokenRequest(TokenEndpoint, cfg.clientId, cfg.scopes, s.authCode.value, cfg.redirectUri, "authorization_code");
      Exchange(Some(request), Interpret(response, obtainedAt))
  }

  /** The JSON body posted to the HTTP endpoint: not JSON at all, or its `email` and `password` members. */
  datatype HttpRequest = NotJson | Json(email: Option<string>, password: Option<string>)

  datatype Reply = Reply(status: int, result: TokenResult)

  /**
   * The `POST /` endpoint, given the session the automation left behind
   * (`after`): 400 for a malformed request, 500 for any error result, 200
   * for tokens.
   */
  function Respond(request: HttpRequest, cfg: Config, after: Session, response: Response, obtainedAt: string): (reply: Reply)
    ensures reply.status in {200, 400, 500}
    ensures reply.status == 200 <==> reply.result.Tokens?
    ensures reply.status == 400 <==> !request.Json? || !Truthy(request.email) || !Truthy(request.password)
  {
    if !request.Json? then Reply(400, Failure(InvalidRequest, Text("Request must be in JSON format.")))
    else if !Truthy(request.email) || !Truthy(request.password) then
      Reply(400, Failure(MissingCredentials, Text("Email and password are required.")))
    else if Truthy(after.error) then Reply(500, Failure(AutomationFailed, Text(after.error.value)))
    else
      var result := ExchangeCodeForToken(cfg, after, response, obtainedAt).result;
      if result.Failure? then Reply(500, result) else Reply(200, result)
  }

  /**
   * The endpoint's own check of the automation error is redundant: for a
   * well-formed request the reply carries exactly what the exchange returns.
   */
  lemma EndpointErrorCheckRedundant(request: HttpRequest, cfg: Config, after: Session, response: Response, obtainedAt: string)
    requires request.Json? && Truthy(request.email) && Truthy(request.password)
    ensures Respond(request, cfg, after, response, obtainedAt).result == ExchangeCodeForToken(cfg, after, response, obtainedAt).result
  {
  }
}
