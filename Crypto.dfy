/** The two foreign libraries the token lifecycle rests on, jsonwebtoken and
    bcrypt, as function-valued parameters together with the laws the rest of
    the model relies on. Times inside tokens are in seconds. */
module Crypto {
  import opened Wrappers

  /** The fields this code puts into a token: `userId`, an optional
      `username` and the `type` discriminator. */
  datatype Payload = Payload(userId: string, username: Option<string>, kind: string)

  /** A payload together with the `iat` and `exp` instants the library adds. */
  datatype Claims = Claims(payload: Payload, iat: int, exp: int)

  /** What `jwt.verify` yields: the claims, a `TokenExpiredError`, or another
      `JsonWebTokenError` with its message. */
  datatype Verification = Verified(claims: Claims) | Expired | Malformed(message: string)

  /** `sign(claims, secret)` and `verify(token, secret, clockSeconds)`. */
  datatype Jwt = Jwt(sign: (Claims, string) -> string, verify: (string, string, int) -> Verification)

  /** `hash(password, salt)` and `compare(password, hash)`. */
  datatype Hasher = Hasher(hash: (string, string) -> string, compare: (string, string) -> bool)

  /** The laws of a signed compact token: it verifies under the secret that
      signed it until its expiry and is reported expired from then on; under
      any other secret the signature check fails; the serialised token is a
      non-empty string without spaces; and the empty string is refused with
      "jwt must be provided". */
  ghost predicate LawfulJwt(j: Jwt)
  {
    && (forall c, secret, clock ::
          j.verify(j.sign(c, secret), secret, clock) == if clock < c.exp then Verified(c) else Expired)
    && (forall c, secret, other, clock ::
          other != secret ==> j.verify(j.sign(c, secret), other, clock).Malformed?)
    && (forall c, secret :: j.sign(c, secret) != [] && ' ' !in j.sign(c, secret))
    && (forall secret, clock :: j.verify("", secret, clock) == Malformed("jwt must be provided"))
  }

  /** The laws of a password hash: a hash matches the password it was made
      from and no other, and is never the password itself. */
  ghost predicate LawfulHasher(h: Hasher)
  {
    && (forall password, salt :: h.compare(password, h.hash(password, salt)))
    && (forall password, salt :: h.hash(password, salt) != password)
    && (forall password, other, salt :: other != password ==> !h.compare(other, h.hash(password, salt)))
  }
}
