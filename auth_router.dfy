/**
 * backend/routers/auth.py: the register, login, refresh and admin handlers.
 * Each HTTPException is an Err value; the settings are their defaults from
 * backend/settings.py.
 */
module AuthRouter {
  import opened Outcomes
  import opened ObjectIds
  import opened Tables
  import opened UserModels
  import opened UserCrud
  import opened Primitives
  import opened Auth

  /** ACCESS_TOKEN_EXPIRE_MINUTES, default 30, as a lifetime in seconds. */
  const AccessSeconds: int := 30 * 60

  /**
   * REFRESH_TOKEN_EXPIRE_DAYS, default 1, as a lifetime in seconds. The
   * setting reads the ACCESS_TOKEN_EXPIRE_MINUTES variable, so it is one day
   * only while that variable is unset.
   */
  const RefreshSeconds: int := 24 * 60 * 60

  datatype TokenPair = TokenPair(accessToken: string, refreshToken: string)

  datatype AdminReply = AdminReply(ok: bool)

  /** The claims of an access token for `email`. */
  function AccessClaims(email: string): Claims
  {
    map["sub" := Text(email), "type" := Text("access")]
  }

  /** The claims of a refresh token for `email`. */
  function RefreshClaims(email: string): Claims
  {
    map["sub" := Text(email), "type" := Text("refresh")]
  }

  /** The pair of tokens login and refresh hand out for `email` at time `now`. */
  function IssuedPair(codec: JwtCodec, email: string, now: int): TokenPair
  {
    TokenPair(
      codec.encode(EncodedClaims(AccessClaims(email), Some(AccessSeconds), now)),
      codec.encode(EncodedClaims(RefreshClaims(email), Some(RefreshSeconds), now)))
  }

  /**
   * Both create_token calls of login and refresh, as evidently intended: a
   * dict with `sub` and `type` and a lifetime in seconds. As written they pass
   * the email string itself and the setting as a bare number, read from the
   * Settings class rather than an instance, and never set `type`.
   */
  method IssueTokens(codec: JwtCodec, email: string, now: int) returns (pair: TokenPair)
    ensures pair == IssuedPair(codec, email, now)
  {
    var accessData := new ClaimDict(AccessClaims(email));
    var access := CreateToken(codec, accessData, Some(AccessSeconds), now);
    var refreshData := new ClaimDict(RefreshClaims(email));
    var refresh := CreateToken(codec, refreshData, Some(RefreshSeconds), now);
    pair := TokenPair(access, refresh);
  }

  /**
   * The checks register makes before creating the user: 409 "Email already
   * taken" when a stored user has the email, checked first, then 409
   * "Username already taken" when one has the username. As written both
   * lookups are not awaited, so the coroutine objects are always truthy and
   * line 24 would refuse every registration; the model awaits them.
   */
  function RegisterCheck(users: Table<UserDoc>, user: User): (r: Option<Failure>)
    reads users
    requires users.Valid()
    ensures r == Some(HttpError(409, "Email already taken")) <==>
              GetUserByEmail(users, user.email).Ok? && GetUserByEmail(users, user.email).value.Some?
    ensures r == Some(HttpError(409, "Username already taken")) <==>
              GetUserByEmail(users, user.email) == Ok(None)
              && GetUserByUsername(users, user.username).Ok? && GetUserByUsername(users, user.username).value.Some?
    ensures r.None? <==>
              forall id :: id in users.docs ==> users.docs[id].email != user.email && users.docs[id].username != user.username
    ensures r.Some? && r.value.ValidationError? ==>
              exists id :: id in users.docs && (users.docs[id].email == user.email || users.docs[id].username == user.username)
  {
    match GetUserByEmail(users, user.email)
    case Err(e) => Some(e)
    case Ok(Some(_)) => Some(HttpError(409, "Email already taken"))
    case Ok(None) =>
      match GetUserByUsername(users, user.username)
      case Err(e) => Some(e)
      case Ok(Some(_)) => Some(HttpError(409, "Username already taken"))
      case Ok(None) => None
  }

  /**
   * register as evidently intended: a user is created only when both
   * duplicate checks pass, and then logs in with the password given at
   * registration. As written, line 29 does not await create_user, so no user
   * is stored and the handler returns the coroutine object.
   */
  method Register(users: Table<UserDoc>, hasher: Hasher, salt: Salt, user: User, newId: ObjectId) returns (r: Result<UserGet>)
    requires users.Valid() && ValidUser(user) && newId !in users.docs
    modifies users
    ensures users.Valid()
    ensures old(RegisterCheck(users, user)).Some? ==>
              r == Err(old(RegisterCheck(users, user)).value)
              && users.docs == old(users.docs) && users.order == old(users.order)
    ensures old(RegisterCheck(users, user)).None? ==>
              r == Ok(UserGet(newId, user.username, user.email, user.name, user.surename, user.isAdmin))
              && users.docs == old(users.docs)[newId := DumpUser(user, hasher.hash(user.password, salt))]
              && users.order == old(users.order) + [newId]
    ensures r.Ok? && hasher.Sound() ==>
              AuthenticateUser(users, hasher, UserLogin(user.email, user.password)) == Ok(Some(r.value))
  {
    var check := RegisterCheck(users, user);
    if check.Some? {
      return Err(check.value);
    }
    var created := CreateUser(users, hasher, salt, user, newId);
    r := Ok(created);
    assert GetUserByEmail(users, user.email) == Ok(Some(created));
  }

  /**
   * The decision of login as evidently intended: the authenticated user, or
   * 401 "Incorrect email or password". As written, line 43 tests the login
   * argument, which is always truthy, instead of authenticate_user's result.
   */
  function LoginUser(users: Table<UserDoc>, hasher: Hasher, login: UserLogin): (r: Result<UserGet>)
    reads users
    requires users.Valid()
    ensures r == Err(HttpError(401, "Incorrect email or password")) <==>
              AuthenticateUser(users, hasher, login) == Ok(None)
    ensures r.Ok? <==> AuthenticateUser(users, hasher, login).Ok? && AuthenticateUser(users, hasher, login).value.Some?
    ensures r.Ok? ==> r.value.email == login.email && r.value.id in users.docs
                      && hasher.verify(login.password, users.docs[r.value.id].password)
  {
    match AuthenticateUser(users, hasher, login)
    case Err(e) => Err(e)
    case Ok(None) => Err(HttpError(401, "Incorrect email or password"))
    case Ok(Some(u)) => Ok(u)
  }

  /** login: a new access/refresh pair for the authenticated user's email. */
  method Login(users: Table<UserDoc>, hasher: Hasher, codec: JwtCodec, login: UserLogin, now: int)
    returns (r: Result<TokenPair>)
    requires users.Valid()
    ensures LoginUser(users, hasher, login).Err? ==> r == Err(LoginUser(users, hasher, login).error)
    ensures LoginUser(users, hasher, login).Ok? ==> r == Ok(IssuedPair(codec, login.email, now))
  {
    var user := LoginUser(users, hasher, login);
    if user.Err? {
      return Err(user.error);
    }
    var pair := IssueTokens(codec, user.value.email, now);
    r := Ok(pair);
  }

  /**
   * The decision of refresh: 401 "Invalid refresh token" unless the decoded
   * claims have `type` "refresh", 401 "User does not exist" unless `sub` is a
   * stored user's email, otherwise that user. As written, decode_token is not
   * imported into this file (line 59), and the lookup at line 65 is not
   * awaited, so the coroutine object is always truthy and the "User does not
   * exist" branch at line 67 never fires; the model awaits it.
   */
  function ResolveRefresh(users: Table<UserDoc>, codec: JwtCodec, token: string, now: int): (r: Result<UserGet>)
    reads users
    requires users.Valid()
    ensures DecodeToken(codec, token, now).Err? ==> r == Err(DecodeToken(codec, token, now).error)
    ensures r == Err(HttpError(401, "Invalid refresh token")) <==>
              DecodeToken(codec, token, now).Ok? && !HasType(DecodeToken(codec, token, now).value, "refresh")
    ensures r == Err(HttpError(401, "User does not exist")) <==>
              && DecodeToken(codec, token, now).Ok? && HasType(DecodeToken(codec, token, now).value, "refresh")
              && var sub := Subject(DecodeToken(codec, token, now).value);
                 sub.None? || forall id :: id in users.docs ==> users.docs[id].email != sub.value
    ensures r.Ok? ==>
              && DecodeToken(codec, token, now).Ok? && HasType(DecodeToken(codec, token, now).value, "refresh")
              && Subject(DecodeToken(codec, token, now).value) == Some(r.value.email)
              && r.value.id in users.docs && users.docs[r.value.id].email == r.value.email
  {
    Bearer(users, codec, token, now, "refresh", "Invalid refresh token", "User does not exist")
  }

  /**
   * refresh: a new pair for the user the refresh token names. As written,
   * lines 71-72 read an undefined `auth_user`; the model uses the user found
   * at line 65.
   */
  method Refresh(users: Table<UserDoc>, codec: JwtCodec, refreshToken: string, now: int) returns (r: Result<TokenPair>)
    requires users.Valid()
    ensures ResolveRefresh(users, codec, refreshToken, now).Err? ==>
              r == Err(ResolveRefresh(users, codec, refreshToken, now).error)
    ensures ResolveRefresh(users, codec, refreshToken, now).Ok? ==>
              r == Ok(IssuedPair(codec, ResolveRefresh(users, codec, refreshToken, now).value.email, now))
  {
    var user := ResolveRefresh(users, codec, refreshToken, now);
    if user.Err? {
      return Err(user.error);
    }
    var pair := IssueTokens(codec, user.value.email, now);
    r := Ok(pair);
  }

  /**
   * admin: `{"ok": True}` exactly when the current user is an admin. As
   * written, line 89 reads `isAdmin`, a name UserGet does not have (its field
   * is `is_admin`).
   */
  function Admin(user: UserGet): (reply: AdminReply)
    ensures reply.ok <==> user.isAdmin
  {
    AdminReply(user.isAdmin)
  }

  /** The admin reply is `ok` exactly for a token whose subject is stored with `is_admin` set. */
  lemma AdminOnlyForStoredAdmins(users: Table<UserDoc>, codec: JwtCodec, token: string, now: int)
    requires users.Valid() && GetCurrentUser(users, codec, token, now).Ok?
    ensures var u := GetCurrentUser(users, codec, token, now).value;
            && u.id in users.docs && users.docs[u.id].email == u.email
            && (Admin(u).ok <==> users.docs[u.id].isAdmin)
  {
    var u := GetCurrentUser(users, codec, token, now).value;
    assert ValidateUserGet(u.id, users.docs[u.id]) == Some(u);
  }

  /** An issued access token names its user to get_current_user until it expires, and is refused as expired after. */
  lemma {:induction false} AccessTokenAccepted(users: Table<UserDoc>, codec: JwtCodec, email: string, now: int, t: int)
    requires users.Valid() && codec.RoundTrips()
    requires GetUserByEmail(users, email).Ok? && GetUserByEmail(users, email).value.Some?
    ensures t < now + AccessSeconds ==>
              GetCurrentUser(users, codec, IssuedPair(codec, email, now).accessToken, t)
              == Ok(GetUserByEmail(users, email).value.value)
    ensures t >= now + AccessSeconds ==>
              GetCurrentUser(users, codec, IssuedPair(codec, email, now).accessToken, t)
              == Err(JwtFailure(ExpiredSignature))
  {
    DecodeCreatedToken(codec, AccessClaims(email), Some(AccessSeconds), now, t);
    var c := EncodedClaims(AccessClaims(email), Some(AccessSeconds), now);
    assert c["type"] == Text("access") && c["sub"] == Text(email);
  }

  /** An issued refresh token is refreshed until it expires, and is refused as expired after. */
  lemma {:induction false} RefreshTokenAccepted(users: Table<UserDoc>, codec: JwtCodec, email: string, now: int, t: int)
    requires users.Valid() && codec.RoundTrips()
    requires GetUserByEmail(users, email).Ok? && GetUserByEmail(users, email).value.Some?
    ensures t < now + RefreshSeconds ==>
              ResolveRefresh(users, codec, IssuedPair(codec, email, now).refreshToken, t)
              == Ok(GetUserByEmail(users, email).value.value)
    ensures t >= now + RefreshSeconds ==>
              ResolveRefresh(users, codec, IssuedPair(codec, email, now).refreshToken, t)
              == Err(JwtFailure(ExpiredSignature))
  {
    DecodeCreatedToken(codec, RefreshClaims(email), Some(RefreshSeconds), now, t);
    var c := EncodedClaims(RefreshClaims(email), Some(RefreshSeconds), now);
    assert c["type"] == Text("refresh") && c["sub"] == Text(email);
  }

  /** Neither token of a pair passes for the other: a refresh token is not an access token and vice versa. */
  lemma {:induction false} TokenKindsAreNotInterchangeable(users: Table<UserDoc>, codec: JwtCodec, email: string, now: int, t: int)
    requires users.Valid() && codec.RoundTrips()
    ensures GetCurrentUser(users, codec, IssuedPair(codec, email, now).refreshToken, t).Err?
    ensures t < now + RefreshSeconds ==>
              GetCurrentUser(users, codec, IssuedPair(codec, email, now).refreshToken, t)
              == Err(HttpError(401, "Invalid token"))
    ensures ResolveRefresh(users, codec, IssuedPair(codec, email, now).accessToken, t).Err?
    ensures t < now + AccessSeconds ==>
              ResolveRefresh(users, codec, IssuedPair(codec, email, now).accessToken, t)
              == Err(HttpError(401, "Invalid refresh token"))
  {
    DecodeCreatedToken(codec, RefreshClaims(email), Some(RefreshSeconds), now, t);
    DecodeCreatedToken(codec, AccessClaims(email), Some(AccessSeconds), now, t);
    var refreshClaims := EncodedClaims(RefreshClaims(email), Some(RefreshSeconds), now);
    var accessClaims := EncodedClaims(AccessClaims(email), Some(AccessSeconds), now);
    assert refreshClaims["type"] == Text("refresh");
    assert accessClaims["type"] == Text("access");
  }

  /** The claims login and refresh pass to create_token as written: the subject, and no `type`. */
  function WrittenClaims(email: string): Claims
  {
    map["sub" := Text(email)]
  }

  /** login's tokens as written: create_token never adds `type`, and the callers do not pass one. */
  method LoginAsWritten(users: Table<UserDoc>, hasher: Hasher, codec: JwtCodec, login: UserLogin, now: int)
    returns (r: Result<TokenPair>)
    requires users.Valid()
    ensures LoginUser(users, hasher, login).Err? ==> r == Err(LoginUser(users, hasher, login).error)
    ensures LoginUser(users, hasher, login).Ok? ==>
              r == Ok(TokenPair(
                     codec.encode(EncodedClaims(WrittenClaims(login.email), Some(AccessSeconds), now)),
                     codec.encode(EncodedClaims(WrittenClaims(login.email), Some(RefreshSeconds), now))))
  {
    var user := LoginUser(users, hasher, login);
    if user.Err? {
      return Err(user.error);
    }
    var accessData := new ClaimDict(WrittenClaims(user.value.email));
    var access := CreateToken(codec, accessData, Some(AccessSeconds), now);
    var refreshData := new ClaimDict(WrittenClaims(user.value.email));
    var refresh := CreateToken(codec, refreshData, Some(RefreshSeconds), now);
    r := Ok(TokenPair(access, refresh));
  }

  /** No token create_token issues for claims without `type` is ever accepted, by get_current_user or by refresh. */
  lemma {:induction false} WrittenTokensNeverAccepted(users: Table<UserDoc>, codec: JwtCodec, email: string,
                                                      delta: Option<int>, now: int, t: int)
    requires users.Valid() && codec.RoundTrips()
    ensures GetCurrentUser(users, codec, codec.encode(EncodedClaims(WrittenClaims(email), delta, now)), t).Err?
    ensures ResolveRefresh(users, codec, codec.encode(EncodedClaims(WrittenClaims(email), delta, now)), t).Err?
  {
    DecodeCreatedToken(codec, WrittenClaims(email), delta, now, t);
    assert "type" !in EncodedClaims(WrittenClaims(email), delta, now);
  }
}
