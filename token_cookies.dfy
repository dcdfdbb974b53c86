/**
 * frontend/src/lib/api/token.ts: keeping the token pair in browser cookies,
 * reading it back, clearing it, and the checks refresh and validate make
 * before they send any request. The cookie store is a map from name to
 * value; a cookie whose lifetime has run out is simply absent.
 */
module TokenCookies {
  import opened Outcomes

  const AccessTokenName: string := "access_token"
  const RefreshTokenName: string := "refresh_token"

  /** The placeholder getTokens puts where the access cookie is missing. */
  const ExpiredCookie: string := "expired_cookie"

  datatype TokenPair = TokenPair(accessToken: string, refreshToken: string)

  /** `Cookies.get(name)`: the value, or undefined. */
  function Lookup(cookies: map<string, string>, name: string): Option<string>
  {
    if name in cookies then Some(cookies[name]) else None
  }

  /** JavaScript truthiness of a cookie value: undefined and the empty string are falsy. */
  predicate Truthy(v: Option<string>)
  {
    v.Some? && v.value != ""
  }

  /**
   * getTokens: null without a (non-empty) refresh cookie; with one but
   * without an access cookie, the placeholder "expired_cookie" as access
   * token; otherwise both cookies as they are.
   */
  function GetTokens(cookies: map<string, string>): (r: Option<TokenPair>)
    ensures !Truthy(Lookup(cookies, RefreshTokenName)) ==> r == None
    ensures Truthy(Lookup(cookies, RefreshTokenName)) && !Truthy(Lookup(cookies, AccessTokenName)) ==>
              r == Some(TokenPair(ExpiredCookie, cookies[RefreshTokenName]))
    ensures Truthy(Lookup(cookies, RefreshTokenName)) && Truthy(Lookup(cookies, AccessTokenName)) ==>
              r == Some(TokenPair(cookies[AccessTokenName], cookies[RefreshTokenName]))
  {
    var accessToken := Lookup(cookies, AccessTokenName);
    var refreshToken := Lookup(cookies, RefreshTokenName);
    if !Truthy(refreshToken) then None
    else if !Truthy(accessToken) then Some(TokenPair(ExpiredCookie, refreshToken.value))
    else Some(TokenPair(accessToken.value, refreshToken.value))
  }

  /** The browser's cookie store as js-cookie sees it. */
  class CookieJar {
    var cookies: map<string, string>

    constructor ()
      ensures cookies == map[]
    {
      cookies := map[];
    }

    /** getTokens on the current cookies. */
    function Tokens(): Option<TokenPair>
      reads this
    {
      GetTokens(cookies)
    }

    /** setTokens: both cookies set, every other cookie kept. */
    method SetTokens(tokens: TokenPair)
      modifies this
      ensures cookies == old(cookies)[AccessTokenName := tokens.accessToken][RefreshTokenName := tokens.refreshToken]
      ensures tokens.accessToken != "" && tokens.refreshToken != "" ==> Tokens() == Some(tokens)
    {
      cookies := cookies[AccessTokenName := tokens.accessToken];
      cookies := cookies[RefreshTokenName := tokens.refreshToken];
      SetThenGet(old(cookies), tokens);
    }

    /** logout: both cookies removed, every other cookie kept. */
    method Logout()
      modifies this
      ensures cookies == old(cookies) - {AccessTokenName, RefreshTokenName}
      ensures Tokens() == None
    {
      cookies := cookies - {AccessTokenName};
      cookies := cookies - {RefreshTokenName};
    }

    /** The browser dropping the cookie `name` once its lifetime is over. */
    method Expire(name: string)
      modifies this
      ensures cookies == old(cookies) - {name}
    {
      cookies := cookies - {name};
    }
  }

  /**
   * Reading back what setTokens stored gives the pair itself while both
   * tokens are non-empty; an empty refresh token reads back as null and an
   * empty access token as the placeholder.
   */
  lemma SetThenGet(cookies: map<string, string>, p: TokenPair)
    ensures GetTokens(cookies[AccessTokenName := p.accessToken][RefreshTokenName := p.refreshToken])
            == if p.refreshToken == "" then None
               else if p.accessToken == "" then Some(TokenPair(ExpiredCookie, p.refreshToken))
               else Some(p)
  {
  }

  /** After logout nothing is returned, whatever else the store holds. */
  lemma LogoutThenGet(cookies: map<string, string>)
    ensures GetTokens(cookies - {AccessTokenName, RefreshTokenName}) == None
  {
  }

  /** Once the access cookie has expired, the stored refresh token comes back with the placeholder. */
  lemma AccessExpiredThenGet(cookies: map<string, string>, p: TokenPair)
    requires p.refreshToken != ""
    ensures GetTokens(cookies[AccessTokenName := p.accessToken][RefreshTokenName := p.refreshToken] - {AccessTokenName})
            == Some(TokenPair(ExpiredCookie, p.refreshToken))
  {
    var stored := cookies[AccessTokenName := p.accessToken][RefreshTokenName := p.refreshToken] - {AccessTokenName};
    assert Lookup(stored, RefreshTokenName) == Some(p.refreshToken);
  }

  /** Where refresh goes after reading the cookies: an Error at once, or the request with the tokens as its body. */
  datatype RefreshStep = RefreshRefused(message: string) | SendRefresh(body: TokenPair)

  /** The early exit of refresh: without tokens, an Error and no request. */
  function RefreshStart(cookies: map<string, string>): (r: RefreshStep)
    ensures r.RefreshRefused? <==> GetTokens(cookies).None?
    ensures r.RefreshRefused? ==> r.message == "Cannot refresh tokens. No refresh token is set."
    ensures r.SendRefresh? ==> Some(r.body) == GetTokens(cookies)
  {
    match GetTokens(cookies)
    case None => RefreshRefused("Cannot refresh tokens. No refresh token is set.")
    case Some(tokens) => SendRefresh(tokens)
  }

  /** Where validate goes after reading the cookies: false at once, or the request bearing the access token. */
  datatype ValidateStep = NotValid | SendValidate(bearer: string)

  /** The early exit of validate: without tokens, false and no request. */
  function ValidateStart(cookies: map<string, string>): (r: ValidateStep)
    ensures r.NotValid? <==> GetTokens(cookies).None?
    ensures r.SendValidate? ==> r.bearer == GetTokens(cookies).value.accessToken
  {
    match GetTokens(cookies)
    case None => NotValid
    case Some(tokens) => SendValidate(tokens.accessToken)
  }

  /** No refresh cookie, no request: both refresh and validate stop before the network. */
  lemma NoRefreshCookieNoRequest(cookies: map<string, string>)
    requires RefreshTokenName !in cookies
    ensures RefreshStart(cookies) == RefreshRefused("Cannot refresh tokens. No refresh token is set.")
    ensures ValidateStart(cookies) == NotValid
  {
  }
}
