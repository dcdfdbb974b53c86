/**
 * The two foreign libraries backend/internals/auth.py relies on, as values
 * passed in by the caller: PyJWT's encode/decode under the fixed SECRET_KEY
 * and ALGORITHM, and pwdlib's recommended password hasher. What the model
 * needs of them is stated as predicates that callers assume as hypotheses.
 */
module Primitives {
  import opened Outcomes

  /** A JWT claim value: a string, or a point in time in whole seconds since the epoch. */
  datatype Claim = Text(text: string) | Instant(seconds: int)

  type Claims = map<string, Claim>

  /** What `jwt.decode` gives: the claims, or the exception it raises. */
  datatype Decoded = Decoded(claims: Claims) | Rejected(reason: JwtError)

  /**
   * Claims PyJWT's default decode accepts as they are: no `aud` (decode is
   * called without an audience, so one raises InvalidAudienceError), no
   * `nbf` or `iat` (which it checks against the clock), an integer `exp`,
   * and a string `sub` and `jti` (PyJWT 2.10 checks both).
   */
  predicate Plain(c: Claims)
  {
    && "aud" !in c && "nbf" !in c && "iat" !in c
    && ("exp" in c ==> c["exp"].Instant?)
    && ("sub" in c ==> c["sub"].Text?)
    && ("jti" in c ==> c["jti"].Text?)
  }

  /** `jwt.encode(claims, SECRET_KEY, algorithm)` and `jwt.decode(token, SECRET_KEY, algorithms)` at time `now`. */
  datatype JwtCodec = JwtCodec(encode: Claims -> string, decode: (string, int) -> Decoded)
  {
    /**
     * What PyJWT guarantees for plain claims it signed itself: a token
     * without `exp` decodes to its claims; one with an `exp` decodes to its
     * claims while the current time is before `exp`, and raises
     * ExpiredSignatureError from `exp` on.
     */
    ghost predicate RoundTrips()
    {
      forall c: Claims, now: int {:trigger decode(encode(c), now)} ::
        Plain(c) ==>
          decode(encode(c), now)
          == if "exp" in c && c["exp"].seconds <= now
             then Rejected(ExpiredSignature)
             else Decoded(c)
    }
  }

  /** The random salt `PASSWORD_HASH.hash` draws afresh on every call. */
  type Salt = nat

  /**
   * `PASSWORD_HASH.hash(plain)` under the salt it drew, `PASSWORD_HASH.verify(plain, hashed)`,
   * and the salt an encoded hash carries (an Argon2 hash string holds its salt).
   */
  datatype Hasher = Hasher(hash: (string, Salt) -> string, verify: (string, string) -> bool, saltOf: string -> Salt)
  {
    /** A password verifies against each of its hashes. */
    ghost predicate Sound()
    {
      forall p, s {:trigger hash(p, s)} :: verify(p, hash(p, s))
    }

    /** No other password verifies against a password's hash. */
    ghost predicate Discriminating()
    {
      forall p, q, s {:trigger verify(q, hash(p, s))} :: p != q ==> !verify(q, hash(p, s))
    }

    /** A hash carries the salt it was made with, so hashes under different salts differ. */
    ghost predicate EmbedsSalt()
    {
      forall p, s {:trigger hash(p, s)} :: saltOf(hash(p, s)) == s
    }
  }
}
