/**
 * The authorize-endpoint URL the automator opens first: the Microsoft
 * identity platform's `/oauth2/v2.0/authorize` with the client id as given,
 * `response_type=code`, the percent-encoded redirect URI,
 * `response_mode=query`, the percent-encoded scopes and the fixed state.
 */
module AuthUrl {
  import opened Wrappers
  import opened Text
  import opened UrlCodec

  const Authority: string := "https://login.microsoftonline.com/common"
  const AuthPath: string := "/oauth2/v2.0/authorize"
  const AuthEndpoint: string := Authority + AuthPath
  const TokenEndpoint: string := Authority + "/oauth2/v2.0/token"
  /** The anti-CSRF state value; it is never checked on the way back. */
  const FixedState: string := "12345"

  /** The six parameters of the authorization request, in the order the source writes them. */
  function AuthorizationParams(clientId: string, redirectUri: string, scopes: string): seq<Param> {
    [ Param("client_id", clientId), Param("response_type", "code"),
      Param("redirect_uri", Quote(redirectUri)), Param("response_mode", "query"),
      Param("scope", Quote(scopes)), Param("state", FixedState) ]
  }

  /**
   * `generate_auth_url`: the endpoint, `?`, and the six `name=value` fields
   * joined by `&` (the same characters as the source's f-string). The
   * result is a function of the three arguments alone, so two calls with
   * the same arguments give the same URL.
   */
  function GenerateAuthUrl(clientId: string, redirectUri: string, scopes: string): (url: string)
    ensures AuthEndpoint + "?" + Field("client_id", clientId) + "&" <= url
  {
    AuthEndpoint + "?" + Encode(AuthorizationParams(clientId, redirectUri, scopes))
  }

  lemma DistinctNames()
    ensures "client_id" != "redirect_uri" && "response_type" != "redirect_uri"
  {
    assert "client_id"[0] != "redirect_uri"[0];
    assert "response_type"[2] != "redirect_uri"[2];
  }

  lemma EndpointHasNoDelimiters()
    ensures '?' !in AuthEndpoint && '#' !in AuthEndpoint
  {
    AuthorityHasNoDelimiters();
    AuthPathHasNoDelimiters();
  }

  lemma AuthorityHasNoDelimiters()
    ensures '?' !in Authority && '#' !in Authority
  {
  }

  lemma AuthPathHasNoDelimiters()
    ensures '?' !in AuthPath && '#' !in AuthPath
  {
  }

  /**
   * Reading the generated URL back as a query string (the way the callback
   * side reads it) gives the six parameters in order, the redirect URI and
   * the scopes in their quoted form, which hold no space, `:`, `&`, `=`,
   * `?` or `#`. The client id is inserted without encoding, so this needs
   * it free of `&` and `#`; blank values would be dropped by the parser.
   */
  lemma AuthUrlParsesBack(clientId: string, redirectUri: string, scopes: string)
    requires clientId != [] && redirectUri != [] && scopes != []
    requires '&' !in clientId && '#' !in clientId
    ensures QueryParams(QueryOf(GenerateAuthUrl(clientId, redirectUri, scopes))) ==
      AuthorizationParams(clientId, redirectUri, scopes)
  {
    var ps := AuthorizationParams(clientId, redirectUri, scopes);
    ParamsArePlain(clientId, redirectUri, scopes);
    EncodeRoundTrip(ps);
    QueryOfAuthUrl(Encode(ps));
  }

  lemma ParamsArePlain(clientId: string, redirectUri: string, scopes: string)
    requires clientId != [] && redirectUri != [] && scopes != []
    requires '&' !in clientId && '#' !in clientId
    ensures var ps := AuthorizationParams(clientId, redirectUri, scopes);
            ps != [] && forall k :: 0 <= k < |ps| ==> PlainParam(ps[k])
  {
    PlainName("client_id", clientId);
    PlainName("response_type", "code");
    PlainName("redirect_uri", Quote(redirectUri));
    PlainName("response_mode", "query");
    PlainName("scope", Quote(scopes));
    PlainName("state", FixedState);
  }

  /** A parameter with one of the source's literal names is plain when its value is. */
  lemma PlainName(name: string, value: string)
    requires name in {"client_id", "response_type", "redirect_uri", "response_mode", "scope", "state"}
    requires '&' !in value && '#' !in value && value != []
    ensures PlainParam(Param(name, value))
  {
  }

  lemma QueryOfAuthUrl(query: string)
    requires '#' !in query
    ensures QueryOf(AuthEndpoint + "?" + query) == query
  {
    EndpointHasNoDelimiters();
    QueryOfJoin(AuthEndpoint, query);
  }

  /** The redirect URI read back from the URL decodes to the UTF-8 bytes of the one passed in. */
  lemma RedirectUriRoundTrip(clientId: string, redirectUri: string, scopes: string)
    requires clientId != [] && redirectUri != [] && scopes != []
    requires '&' !in clientId && '#' !in clientId
    ensures var v := QueryValue(QueryOf(GenerateAuthUrl(clientId, redirectUri, scopes)), "redirect_uri");
            v == Some(Quote(redirectUri)) && Unquote(v.value) == Some(Utf8(redirectUri))
  {
    AuthUrlParsesBack(clientId, redirectUri, scopes);
    var ps := AuthorizationParams(clientId, redirectUri, scopes);
    RedirectUriIsThirdName(ps);
    FirstValueAt(ps, 2, "redirect_uri");
    QuoteRoundTrip(redirectUri);
  }

  lemma RedirectUriIsThirdName(ps: seq<Param>)
    requires |ps| >= 3 && ps[0].name == "client_id" && ps[1].name == "response_type" && ps[2].name == "redirect_uri"
    ensures forall j :: 0 <= j < 2 ==> ps[j].name != "redirect_uri"
  {
    DistinctNames();
  }
}
