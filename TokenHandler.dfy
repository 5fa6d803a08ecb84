/** `TokenHandler`: issuing access and refresh tokens and validating access
    tokens. The secret and the two lifetimes are passed in as a `Config`;
    `now` is the current time in milliseconds, and the signing library sees
    it in whole seconds. */
module TokenHandler {
  import opened Wrappers
  import opened Failures
  import opened Crypto
  import opened Users
  import opened RefreshTokens

  /** The signing secret and the lifetimes (in seconds) given to the library
      as `expiresIn` for access and refresh tokens. */
  datatype Config = Config(secret: string, accessTtl: int, refreshTtl: int)

  /** What `validateToken` hands back: `{userId, username}`. */
  datatype Principal = Principal(userId: string, username: Option<string>)

  /** A refresh token together with the token table after it was saved. */
  datatype Issued = Issued(token: string, rows: map<string, TokenRow>)

  const DAY_MS: int := 86_400_000

  /** The stored expiry of a refresh row: seven days after issuance, fixed
      here and independent of `Config.refreshTtl`. */
  const REFRESH_ROW_LIFETIME_MS: int := 7 * DAY_MS

  /** The library's clock: whole seconds (floor division, as `/` on `int`
      is Euclidean and the divisor is positive). */
  function Seconds(nowMs: int): int
  {
    nowMs / 1000
  }

  function AccessClaims(cfg: Config, user: User, now: int): Claims
  {
    Claims(Payload(user.id, Some(user.username), "access"), Seconds(now), Seconds(now) + cfg.accessTtl)
  }

  function RefreshClaims(cfg: Config, userId: string, now: int): Claims
  {
    Claims(Payload(userId, None, "refresh"), Seconds(now), Seconds(now) + cfg.refreshTtl)
  }

  /** `generateAccessToken`: under lawful signing, a space-free string that
      verifies, until `accessTtl` seconds after now, to an access payload
      carrying the user's id and username. */
  function GenerateAccessToken(cfg: Config, jwt: Jwt, user: User, now: int): (t: string)
    ensures LawfulJwt(jwt) ==> t != [] && ' ' !in t
    ensures LawfulJwt(jwt) ==>
              forall clock :: clock < Seconds(now) + cfg.accessTtl ==>
                jwt.verify(t, cfg.secret, clock) ==
                Verified(Claims(Payload(user.id, Some(user.username), "access"), Seconds(now), Seconds(now) + cfg.accessTtl))
  {
    jwt.sign(AccessClaims(cfg, user, now), cfg.secret)
  }

  /** What `generateRefreshToken` does to the token table: sign, then save one
      row `(token, userId, now + 7 days)`; a failed save is passed on. */
  function IssueRefreshToken(cfg: Config, jwt: Jwt, rows: map<string, TokenRow>, userId: string, now: int)
    : (r: Result<Issued, Failure>)
    ensures var token := jwt.sign(RefreshClaims(cfg, userId, now), cfg.secret);
            && (r.Ok? <==> token !in rows)
            && (r.Ok? ==> r.value.token == token
                          && r.value.rows == rows[token := TokenRow(userId, now + REFRESH_ROW_LIFETIME_MS)])
            && (r.Err? ==> r.error == UniqueViolation("token"))
  {
    var token := jwt.sign(RefreshClaims(cfg, userId, now), cfg.secret);
    match Saved(rows, token, userId, now + REFRESH_ROW_LIFETIME_MS)
    case Ok(rows') => Ok(Issued(token, rows'))
    case Err(e) => Err(e)
  }

  /** `generateRefreshToken`: signs the token, computes the row's expiry by
      moving the current date seven days on, saves the row and returns the
      saved token. */
  method GenerateRefreshToken(cfg: Config, jwt: Jwt, user: User, repo: RefreshTokenRepository, now: int)
    returns (r: Result<string, Failure>)
    modifies repo
    ensures match IssueRefreshToken(cfg, jwt, old(repo.rows), user.id, now)
            case Ok(issued) => r == Ok(issued.token) && repo.rows == issued.rows
            case Err(e) => r == Err(e) && repo.rows == old(repo.rows)
  {
    var token := jwt.sign(RefreshClaims(cfg, user.id, now), cfg.secret);
    var expiresAt := now;
    expiresAt := expiresAt + 7 * DAY_MS;
    var saved := repo.Save(token, user.id, expiresAt);
    if saved.Ok? {
      r := Ok(token);
    } else {
      r := Err(saved.error);
    }
  }

  /** `validateToken`: the token must verify and carry type "access"; any
      failure (no token, bad signature, expired, malformed, wrong type)
      becomes the one error "Invalid token". An absent token is what
      `split(' ')[1]` yields for a header without a second field. */
  function ValidateToken(cfg: Config, jwt: Jwt, now: int, token: Option<string>): (r: Result<Principal, Failure>)
    ensures r.Err? ==> r.error == Unauthorized("Invalid token")
    ensures r.Ok? <==> token.Some? && jwt.verify(token.value, cfg.secret, Seconds(now)).Verified?
                       && jwt.verify(token.value, cfg.secret, Seconds(now)).claims.payload.kind == "access"
    ensures r.Ok? ==> var p := jwt.verify(token.value, cfg.secret, Seconds(now)).claims.payload;
                      r.value == Principal(p.userId, p.username)
  {
    if token.None? then Err(Unauthorized("Invalid token"))
    else
      match jwt.verify(token.value, cfg.secret, Seconds(now))
      case Verified(c) =>
        if c.payload.kind != "access" then Err(Unauthorized("Invalid token"))
        else Ok(Principal(c.payload.userId, c.payload.username))
      case Expired => Err(Unauthorized("Invalid token"))
      case Malformed(_) => Err(Unauthorized("Invalid token"))
  }

  /** An access token validates, until it expires, to exactly the id and
      username it was issued for. */
  lemma AccessTokenRoundTrip(cfg: Config, jwt: Jwt, user: User, issuedAt: int, now: int)
    requires LawfulJwt(jwt)
    requires Seconds(now) < Seconds(issuedAt) + cfg.accessTtl
    ensures ValidateToken(cfg, jwt, now, Some(GenerateAccessToken(cfg, jwt, user, issuedAt)))
            == Ok(Principal(user.id, Some(user.username)))
  {
    var c := AccessClaims(cfg, user, issuedAt);
    assert jwt.verify(jwt.sign(c, cfg.secret), cfg.secret, Seconds(now)) == Verified(c);
  }

  /** From its expiry on, an access token is refused. */
  lemma ExpiredAccessTokenRejected(cfg: Config, jwt: Jwt, user: User, issuedAt: int, now: int)
    requires LawfulJwt(jwt)
    requires Seconds(now) >= Seconds(issuedAt) + cfg.accessTtl
    ensures ValidateToken(cfg, jwt, now, Some(GenerateAccessToken(cfg, jwt, user, issuedAt)))
            == Err(Unauthorized("Invalid token"))
  {
    var c := AccessClaims(cfg, user, issuedAt);
    assert jwt.verify(jwt.sign(c, cfg.secret), cfg.secret, Seconds(now)) == Expired;
  }

  /** A refresh token is never accepted where an access token is needed. */
  lemma RefreshTokenRejected(cfg: Config, jwt: Jwt, userId: string, issuedAt: int, now: int)
    requires LawfulJwt(jwt)
    ensures ValidateToken(cfg, jwt, now, Some(jwt.sign(RefreshClaims(cfg, userId, issuedAt), cfg.secret)))
            == Err(Unauthorized("Invalid token"))
  {
    var c := RefreshClaims(cfg, userId, issuedAt);
    assert jwt.verify(jwt.sign(c, cfg.secret), cfg.secret, Seconds(now)) ==
           if Seconds(now) < c.exp then Verified(c) else Expired;
  }

  /** A token signed under another secret is refused. */
  lemma ForeignSecretRejected(cfg: Config, jwt: Jwt, c: Claims, otherSecret: string, now: int)
    requires LawfulJwt(jwt)
    requires otherSecret != cfg.secret
    ensures ValidateToken(cfg, jwt, now, Some(jwt.sign(c, otherSecret))) == Err(Unauthorized("Invalid token"))
  {
    assert jwt.verify(jwt.sign(c, otherSecret), cfg.secret, Seconds(now)).Malformed?;
  }
}
