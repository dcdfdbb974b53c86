/**
 * backend/internals/auth.py: issuing JWTs, checking passwords, and resolving
 * the bearer of a token to a stored user. The JWT codec, the password hasher
 * and the clock are parameters (see Primitives); times are whole seconds.
 */
module Auth {
  import opened Outcomes
  import opened ObjectIds
  import opened Tables
  import opened UserModels
  import opened UserCrud
  import opened Primitives

  /** `timedelta(minutes=30)`, the expiry create_token falls back to. */
  const DefaultExpirySeconds: int := 30 * 60

  /** A claims dict the code copies and updates in place. */
  class ClaimDict {
    var entries: Claims

    constructor (entries: Claims)
      ensures this.entries == entries
    {
      this.entries := entries;
    }

    /** `dict.copy()`: a new dict with the same entries. */
    method Copy() returns (c: ClaimDict)
      ensures fresh(c) && c.entries == entries
    {
      c := new ClaimDict(entries);
    }

    /** `dict.update(other)`: every entry of `other` added, replacing one with the same key. */
    method Update(other: Claims)
      modifies this
      ensures entries == old(entries) + other
    {
      entries := entries + other;
    }
  }

  /** The `exp` create_token sets at time `now`; `delta` is expires_delta in seconds, None when not given. */
  function ExpiryFor(delta: Option<int>, now: int): int
  {
    if delta.Some? && delta.value != 0 then now + delta.value else now + DefaultExpirySeconds
  }

  /**
   * The claims create_token encodes: the caller's claims with `exp` added
   * (replacing any `exp` they had), every other claim kept as it was.
   */
  function EncodedClaims(data: Claims, delta: Option<int>, now: int): (c: Claims)
    ensures "exp" in c && c["exp"] == Instant(ExpiryFor(delta, now))
    ensures forall k :: k != "exp" ==> (k in c <==> k in data)
    ensures forall k :: k != "exp" && k in data ==> c[k] == data[k]
  {
    data + map["exp" := Instant(ExpiryFor(delta, now))]
  }

  /** The expiry is `now + delta` for a non-zero delta and thirty minutes from `now` for a missing or zero one. */
  lemma ExpiryDefaults(delta: Option<int>, now: int)
    ensures delta.Some? && delta.value != 0 ==> EncodedClaims(map[], delta, now)["exp"] == Instant(now + delta.value)
    ensures delta.None? || delta == Some(0) ==> EncodedClaims(map[], delta, now)["exp"] == Instant(now + 30 * 60)
  {
  }

  /**
   * create_token: copy the claims, add `exp`, encode. The caller's dict is
   * only read (the method has no modifies clause); the copy is changed.
   */
  method CreateToken(codec: JwtCodec, data: ClaimDict, delta: Option<int>, now: int) returns (token: string)
    ensures token == codec.encode(EncodedClaims(data.entries, delta, now))
  {
    var toEncode := data.Copy();
    var expire: int;
    if delta.Some? && delta.value != 0 {
      expire := now + delta.value;
    } else {
      expire := now + DefaultExpirySeconds;
    }
    toEncode.Update(map["exp" := Instant(expire)]);
    token := codec.encode(toEncode.entries);
  }

  /** decode_token: PyJWT's decode at time `now`; its exceptions are the Err values. */
  function DecodeToken(codec: JwtCodec, token: string, now: int): (r: Result<Claims>)
    ensures r.Err? ==> r.error.JwtFailure?
  {
    match codec.decode(token, now)
    case Rejected(reason) => Err(JwtFailure(reason))
    case Decoded(claims) => Ok(claims)
  }

  /**
   * A token create_token issued for plain claims (any `exp` among them is
   * replaced) decodes, while the current time is before its expiry, to the
   * caller's claims plus `exp`, and from then on fails as expired.
   */
  lemma DecodeCreatedToken(codec: JwtCodec, data: Claims, delta: Option<int>, now: int, t: int)
    requires codec.RoundTrips() && Plain(data - {"exp"})
    ensures DecodeToken(codec, codec.encode(EncodedClaims(data, delta, now)), t)
            == if t < ExpiryFor(delta, now) then Ok(EncodedClaims(data, delta, now))
               else Err(JwtFailure(ExpiredSignature))
  {
    var c := EncodedClaims(data, delta, now);
    assert c == (data - {"exp"})[("exp") := Instant(ExpiryFor(delta, now))];
    assert Plain(c);
    assert codec.decode(codec.encode(c), t)
           == if "exp" in c && c["exp"].seconds <= t
              then Rejected(ExpiredSignature) else Decoded(c);
  }

  /**
   * authenticate_user as evidently intended: the first user with the login's
   * email, provided the password verifies against the hash stored for that
   * user; None otherwise. As written, the lookup at line 64 is not awaited,
   * line 66 tests the argument instead of the lookup's result, and line 69
   * reads the hash from a UserGet, which has no password field.
   */
  function AuthenticateUser(users: Table<UserDoc>, hasher: Hasher, login: UserLogin): (r: Result<Option<UserGet>>)
    reads users
    requires users.Valid()
    ensures GetUserByEmail(users, login.email).Err? ==> r == GetUserByEmail(users, login.email)
    ensures GetUserByEmail(users, login.email) == Ok(None) ==> r == Ok(None)
    ensures GetUserByEmail(users, login.email).Ok? && GetUserByEmail(users, login.email).value.Some? ==>
              var u := GetUserByEmail(users, login.email).value.value;
              r == if hasher.verify(login.password, users.docs[u.id].password) then Ok(Some(u)) else Ok(None)
    ensures r.Ok? && r.value.Some? ==>
              r.value.value.email == login.email && r.value.value.id in users.docs
              && hasher.verify(login.password, users.docs[r.value.value.id].password)
  {
    match GetUserByEmail(users, login.email)
    case Err(e) => Err(e)
    case Ok(None) => Ok(None)
    case Ok(Some(u)) =>
      if hasher.verify(login.password, users.docs[u.id].password) then Ok(Some(u)) else Ok(None)
  }

  /** With a discriminating hasher, a password other than the one whose hash is stored is refused. */
  lemma WrongPasswordRejected(users: Table<UserDoc>, hasher: Hasher, email: string, stored: string, given: string)
    requires users.Valid() && hasher.Discriminating() && stored != given
    requires forall id :: id in users.docs && users.docs[id].email == email ==>
               exists s :: users.docs[id].password == hasher.hash(stored, s)
    ensures AuthenticateUser(users, hasher, UserLogin(email, given)).Ok? ==>
              AuthenticateUser(users, hasher, UserLogin(email, given)) == Ok(None)
  {
    var r := GetUserByEmail(users, email);
    if r.Ok? && r.value.Some? {
      var s :| users.docs[r.value.value.id].password == hasher.hash(stored, s);
      assert !hasher.verify(given, hasher.hash(stored, s));
    }
  }

  /** The claim holds the string `kind` under the key "type". */
  predicate HasType(c: Claims, kind: string)
  {
    "type" in c && c["type"] == Text(kind)
  }

  /** The string under the key "sub", if there is one. */
  function Subject(c: Claims): Option<string>
  {
    if "sub" in c && c["sub"].Text? then Some(c["sub"].text) else None
  }

  /**
   * The bearer of a token, shared by get_current_user and the refresh
   * handler: decode errors propagate; claims whose `type` is not `kind` fail
   * with 401 `invalid`; a `sub` that is missing, not a string, or no stored
   * user's email fails with 401 `missing`.
   */
  function Bearer(users: Table<UserDoc>, codec: JwtCodec, token: string, now: int,
                  kind: string, invalid: string, missing: string): (r: Result<UserGet>)
    reads users
    requires users.Valid()
    ensures DecodeToken(codec, token, now).Err? ==> r == Err(DecodeToken(codec, token, now).error)
    ensures DecodeToken(codec, token, now).Ok? && !HasType(DecodeToken(codec, token, now).value, kind) ==>
              r == Err(HttpError(401, invalid))
    ensures DecodeToken(codec, token, now).Ok? && HasType(DecodeToken(codec, token, now).value, kind) ==>
              var sub := Subject(DecodeToken(codec, token, now).value);
              if sub.None? then r == Err(HttpError(401, missing))
              else if GetUserByEmail(users, sub.value) == Ok(None) then r == Err(HttpError(401, missing))
              else if GetUserByEmail(users, sub.value).Err? then r == Err(ValidationError)
              else r == Ok(GetUserByEmail(users, sub.value).value.value)
  {
    match DecodeToken(codec, token, now)
    case Err(e) => Err(e)
    case Ok(data) =>
      if data == map[] || !HasType(data, kind) then Err(HttpError(401, invalid))
      else
        match Subject(data)
        case None => Err(HttpError(401, missing))
        case Some(email) =>
          match GetUserByEmail(users, email)
          case Err(e) => Err(e)
          case Ok(None) => Err(HttpError(401, missing))
          case Ok(Some(u)) => Ok(u)
  }

  /**
   * get_current_user: 401 "Invalid token" unless the decoded claims have
   * `type` "access"; 401 "User not found" unless `sub` is some stored user's
   * email; otherwise that user. The lookup at line 85 is not awaited as
   * written; the model awaits it.
   */
  function GetCurrentUser(users: Table<UserDoc>, codec: JwtCodec, token: string, now: int): (r: Result<UserGet>)
    reads users
    requires users.Valid()
    ensures DecodeToken(codec, token, now).Err? ==> r == Err(DecodeToken(codec, token, now).error)
    ensures r == Err(HttpError(401, "Invalid token")) <==>
              DecodeToken(codec, token, now).Ok? && !HasType(DecodeToken(codec, token, now).value, "access")
    ensures r == Err(HttpError(401, "User not found")) <==>
              && DecodeToken(codec, token, now).Ok? && HasType(DecodeToken(codec, token, now).value, "access")
              && var sub := Subject(DecodeToken(codec, token, now).value);
                 sub.None? || forall id :: id in users.docs ==> users.docs[id].email != sub.value
    ensures r.Ok? ==>
              && DecodeToken(codec, token, now).Ok? && HasType(DecodeToken(codec, token, now).value, "access")
              && Subject(DecodeToken(codec, token, now).value) == Some(r.value.email)
              && r.value.id in users.docs && users.docs[r.value.id].email == r.value.email
              && ValidateUserGet(r.value.id, users.docs[r.value.id]) == Some(r.value)
  {
    Bearer(users, codec, token, now, "access", "Invalid token", "User not found")
  }
}
