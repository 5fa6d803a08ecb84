/** `AuthService`: registration, login and refresh-token rotation. Each
    operation is specified by a function from the stores' contents before the
    call to their contents after it and the result (`RegisterStep`,
    `LoginStep`, `RefreshStep`); the class methods perform the same reads and
    writes on the two repositories and are proved to match. */
module Auth {
  import opened Wrappers
  import opened Failures
  import opened Crypto
  import opened Users
  import opened RefreshTokens
  import opened TokenHandler
  import opened AuthDto

  /** The two tables the service drives. */
  datatype Db = Db(users: map<string, User>, tokens: map<string, TokenRow>)

  /** The tables after an operation, and what it returned or threw. */
  datatype Step<T> = Step(db: Db, result: Result<T, Failure>)

  const USERNAME_TAKEN := "Username already exists"
  const REGISTERED := "User registered successfully"
  const INVALID_CREDENTIALS := "Invalid credentials"
  const INVALID_TOKEN_TYPE := "Invalid token type"
  const TOKEN_NOT_FOUND := "Refresh token not found"
  const ROW_EXPIRED := "Refresh token expired"
  const USER_NOT_FOUND := "User not found"
  const JWT_EXPIRED := "Refresh token has expired"
  const JWT_INVALID_PREFIX := "Invalid refresh token: "

  /** `register`: a taken username is a conflict; otherwise the password is
      hashed and one user row is created under the fresh id. */
  function RegisterStep(h: Hasher, db: Db, username: string, password: string, freshId: string, salt: string, now: int)
    : (s: Step<RegisterResponse>)
    requires WellFormed(db.users)
    ensures s.db.tokens == db.tokens
    ensures s.result.Err? ==> s.db == db
    ensures s.result.Ok? ==> s.result.value == RegisterResponse(REGISTERED) && freshId in s.db.users
  {
    if FindByUsername(db.users, username).Some? then Step(db, Err(Conflict(USERNAME_TAKEN)))
    else
      match Created(db.users, freshId, username, h.hash(password, salt), now)
      case Err(e) => Step(db, Err(e))
      case Ok(users') => Step(db.(users := users'), Ok(RegisterResponse(REGISTERED)))
  }

  /** `login`: an unknown user and a wrong password fail alike; otherwise an
      access token and a saved refresh token are issued. */
  function LoginStep(cfg: Config, jwt: Jwt, h: Hasher, db: Db, username: string, password: string, now: int)
    : (s: Step<LoginResponse>)
    requires WellFormed(db.users)
    ensures s.db.users == db.users
    ensures s.result.Err? ==> s.db == db
    ensures s.result.Ok? ==> s.result.value.refreshToken !in db.tokens
                             && s.db.tokens.Keys == db.tokens.Keys + {s.result.value.refreshToken}
  {
    var found := FindByUsername(db.users, username);
    if found.None? then Step(db, Err(Unauthorized(INVALID_CREDENTIALS)))
    else if !h.compare(password, found.value.passwordHash) then Step(db, Err(Unauthorized(INVALID_CREDENTIALS)))
    else
      var accessToken := GenerateAccessToken(cfg, jwt, found.value, now);
      match IssueRefreshToken(cfg, jwt, db.tokens, found.value.id, now)
      case Err(e) => Step(db, Err(e))
      case Ok(issued) =>
        Step(db.(tokens := issued.rows), Ok(LoginResponseFromModel(found.value, accessToken, issued.token)))
  }

  /** `refreshToken`, including its `catch` block: the library's expiry error
      and its other errors are rewritten, every other error passes through. */
  function RefreshStep(cfg: Config, jwt: Jwt, db: Db, presented: string, now: int): (s: Step<RefreshTokenResponse>)
    ensures s.db.users == db.users
    ensures s.result.Err? ==> s.db.tokens.Keys <= db.tokens.Keys
    ensures s.result.Ok? ==> presented in db.tokens
                             && s.db.tokens.Keys == db.tokens.Keys - {presented} + {s.result.value.refreshToken}
  {
    match jwt.verify(presented, cfg.secret, Seconds(now))
    case Expired => Step(db, Err(Unauthorized(JWT_EXPIRED)))
    case Malformed(m) => Step(db, Err(Unauthorized(JWT_INVALID_PREFIX + m)))
    case Verified(c) =>
      if c.payload.kind != "refresh" then Step(db, Err(Unauthorized(INVALID_TOKEN_TYPE)))
      else
        match FindByToken(db.tokens, presented)
        case None => Step(db, Err(Unauthorized(TOKEN_NOT_FOUND)))
        case Some(row) =>
          if row.expiresAt < now then Step(db.(tokens := db.tokens - {presented}), Err(Unauthorized(ROW_EXPIRED)))
          else
            match FindById(db.users, c.payload.userId)
            case None => Step(db, Err(Unauthorized(USER_NOT_FOUND)))
            case Some(user) =>
              var rest := db.tokens - {presented};
              var accessToken := GenerateAccessToken(cfg, jwt, user, now);
              match IssueRefreshToken(cfg, jwt, rest, user.id, now)
              case Err(e) => Step(db.(tokens := rest), Err(e))
              case Ok(issued) => Step(db.(tokens := issued.rows), Ok(RefreshTokenResponse(accessToken, issued.token)))
  }

  // ---------------------------------------------------------------------------
  // register

  /** A taken username is refused with a conflict and creates nothing; a free
      one (under an unused id) creates exactly one row holding the hash, and
      the table stays well formed. */
  lemma RegisterOutcome(h: Hasher, db: Db, username: string, password: string, freshId: string, salt: string, now: int)
    requires WellFormed(db.users)
    ensures var s := RegisterStep(h, db, username, password, freshId, salt, now);
            && (FindByUsername(db.users, username).Some? ==> s == Step(db, Err(Conflict(USERNAME_TAKEN))))
            && (s.result.Ok? <==> FindByUsername(db.users, username).None? && freshId !in db.users)
            && (s.result.Err? ==> s.db == db)
            && (s.result.Ok? ==>
                  && s.result.value == RegisterResponse(REGISTERED)
                  && s.db.tokens == db.tokens
                  && s.db.users == db.users[freshId := User(freshId, username, h.hash(password, salt), now, now)]
                  && WellFormed(s.db.users)
                  && Count(s.db.users) == Count(db.users) + 1
                  && FindByUsername(s.db.users, username).Some?)
  {
    CreatedAddsOneUser(db.users, freshId, username, h.hash(password, salt), now);
  }

  /** The stored hash is never the password and matches it. */
  lemma RegisterStoresHash(h: Hasher, db: Db, username: string, password: string, freshId: string, salt: string, now: int)
    requires WellFormed(db.users) && LawfulHasher(h)
    requires RegisterStep(h, db, username, password, freshId, salt, now).result.Ok?
    ensures var stored := RegisterStep(h, db, username, password, freshId, salt, now).db.users[freshId];
            stored.username == username && stored.passwordHash != password && h.compare(password, stored.passwordHash)
  {
    CreatedAddsOneUser(db.users, freshId, username, h.hash(password, salt), now);
  }

  /** Registering one username twice: the second attempt is a conflict and
      the table holds one user with that name. */
  lemma RegisterTwiceConflicts(h: Hasher, db: Db, username: string, p1: string, p2: string,
                               id1: string, id2: string, salt1: string, salt2: string, t1: int, t2: int)
    requires WellFormed(db.users)
    requires RegisterStep(h, db, username, p1, id1, salt1, t1).result.Ok?
    ensures var s1 := RegisterStep(h, db, username, p1, id1, salt1, t1);
            WellFormed(s1.db.users) &&
            var s2 := RegisterStep(h, s1.db, username, p2, id2, salt2, t2);
            && s2 == Step(s1.db, Err(Conflict(USERNAME_TAKEN)))
            && IdsNamed(s2.db.users, username) == {id1}
  {
    RegisterOutcome(h, db, username, p1, id1, salt1, t1);
    var s1 := RegisterStep(h, db, username, p1, id1, salt1, t1);
    assert s1.db.users[id1].username == username;
    forall id | id in IdsNamed(s1.db.users, username) ensures id == id1 { }
  }

  // ---------------------------------------------------------------------------
  // login

  /** An unknown user and a wrong password give the same error and change
      nothing; a successful login adds exactly one refresh row, for the user,
      expiring seven days on, and returns that token, an access token for the
      user and the user view. */
  lemma LoginOutcome(cfg: Config, jwt: Jwt, h: Hasher, db: Db, username: string, password: string, now: int)
    requires WellFormed(db.users)
    ensures var s := LoginStep(cfg, jwt, h, db, username, password, now);
            var found := FindByUsername(db.users, username);
            && (found.None? || !h.compare(password, found.value.passwordHash) ==>
                  s == Step(db, Err(Unauthorized(INVALID_CREDENTIALS))))
            && (s.result.Err? ==> s.db == db)
            && (s.result.Ok? <==>
                  found.Some? && h.compare(password, found.value.passwordHash)
                  && jwt.sign(RefreshClaims(cfg, found.value.id, now), cfg.secret) !in db.tokens)
            && (s.result.Ok? ==>
                  var r := s.result.value;
                  && s.db.users == db.users
                  && s.db.tokens == db.tokens[r.refreshToken := TokenRow(found.value.id, now + REFRESH_ROW_LIFETIME_MS)]
                  && r.refreshToken !in db.tokens
                  && |s.db.tokens| == |db.tokens| + 1
                  && r.accessToken == GenerateAccessToken(cfg, jwt, found.value, now)
                  && r.user == UserView(username, found.value.createdAt, found.value.updatedAt))
  {
  }

  /** With the password it was registered with, a new user logs in (unless
      the refresh token's string is already taken) and the access token
      carries the user's id and username; with any other password the login
      is refused. */
  lemma RegisterThenLogin(cfg: Config, jwt: Jwt, h: Hasher, db: Db, username: string, password: string,
                          freshId: string, salt: string, registeredAt: int, now: int, wrong: string)
    requires WellFormed(db.users) && LawfulJwt(jwt) && LawfulHasher(h)
    requires RegisterStep(h, db, username, password, freshId, salt, registeredAt).result.Ok?
    requires cfg.accessTtl > 0
    requires wrong != password
    ensures var db1 := RegisterStep(h, db, username, password, freshId, salt, registeredAt).db;
            WellFormed(db1.users) &&
            var s := LoginStep(cfg, jwt, h, db1, username, password, now);
            && (s.result.Ok? || s.result.error == UniqueViolation("token"))
            && (s.result.Ok? ==>
                  ValidateToken(cfg, jwt, now, Some(s.result.value.accessToken)) == Ok(Principal(freshId, Some(username))))
            && LoginStep(cfg, jwt, h, db1, username, wrong, now) == Step(db1, Err(Unauthorized(INVALID_CREDENTIALS)))
  {
    RegisterOutcome(h, db, username, password, freshId, salt, registeredAt);
    var db1 := RegisterStep(h, db, username, password, freshId, salt, registeredAt).db;
    var u := User(freshId, username, h.hash(password, salt), registeredAt, registeredAt);
    assert db1.users[freshId] == u;
    assert FindByUsername(db1.users, username) == Some(u);
    assert h.compare(password, u.passwordHash);
    assert !h.compare(wrong, u.passwordHash);
    AccessTokenRoundTrip(cfg, jwt, u, now, now);
  }

  /** Two logins of one user within the same second sign the same refresh
      token, so the second save hits the token key and the login fails. */
  lemma LoginTwiceInOneSecondCollides(cfg: Config, jwt: Jwt, h: Hasher, db: Db, username: string, password: string,
                                      t1: int, t2: int)
    requires WellFormed(db.users)
    requires LoginStep(cfg, jwt, h, db, username, password, t1).result.Ok?
    requires Seconds(t1) == Seconds(t2)
    ensures var db1 := LoginStep(cfg, jwt, h, db, username, password, t1).db;
            WellFormed(db1.users) &&
            LoginStep(cfg, jwt, h, db1, username, password, t2) == Step(db1, Err(UniqueViolation("token")))
  {
    var u := FindByUsername(db.users, username).value;
    assert RefreshClaims(cfg, u.id, t1) == RefreshClaims(cfg, u.id, t2);
  }

  // ---------------------------------------------------------------------------
  // refresh

  /** The library's errors: an expired token and any other verification
      failure are rewritten into two distinct messages; nothing changes. */
  lemma RefreshMapsLibraryErrors(cfg: Config, jwt: Jwt, db: Db, presented: string, now: int)
    ensures var v := jwt.verify(presented, cfg.secret, Seconds(now));
            && (v.Expired? ==> RefreshStep(cfg, jwt, db, presented, now) == Step(db, Err(Unauthorized(JWT_EXPIRED))))
            && (v.Malformed? ==>
                  RefreshStep(cfg, jwt, db, presented, now) == Step(db, Err(Unauthorized(JWT_INVALID_PREFIX + v.message))))
  {
  }

  /** A verified token of another type is refused before either table is
      consulted: the outcome is the same whatever the tables hold. */
  lemma RefreshChecksTypeFirst(cfg: Config, jwt: Jwt, db: Db, other: Db, presented: string, now: int)
    requires jwt.verify(presented, cfg.secret, Seconds(now)).Verified?
    requires jwt.verify(presented, cfg.secret, Seconds(now)).claims.payload.kind != "refresh"
    ensures RefreshStep(cfg, jwt, db, presented, now) == Step(db, Err(Unauthorized(INVALID_TOKEN_TYPE)))
    ensures RefreshStep(cfg, jwt, other, presented, now).result == RefreshStep(cfg, jwt, db, presented, now).result
  {
  }

  /** A verified refresh token that has no row is refused; one whose row
      expired strictly before `now` is refused and its row deleted; a row
      expiring exactly at `now` is still usable. */
  lemma RefreshChecksStoredRow(cfg: Config, jwt: Jwt, db: Db, presented: string, now: int)
    requires jwt.verify(presented, cfg.secret, Seconds(now)).Verified?
    requires jwt.verify(presented, cfg.secret, Seconds(now)).claims.payload.kind == "refresh"
    ensures presented !in db.tokens ==>
              RefreshStep(cfg, jwt, db, presented, now) == Step(db, Err(Unauthorized(TOKEN_NOT_FOUND)))
    ensures presented in db.tokens && db.tokens[presented].expiresAt < now ==>
              var s := RefreshStep(cfg, jwt, db, presented, now);
              && s.result == Err(Unauthorized(ROW_EXPIRED))
              && s.db == db.(tokens := db.tokens - {presented})
              && |s.db.tokens| == |db.tokens| - 1
    ensures presented in db.tokens && db.tokens[presented].expiresAt == now ==>
              RefreshStep(cfg, jwt, db, presented, now).result != Err(Unauthorized(ROW_EXPIRED))
  {
  }

  /** For a live row: a vanished user is refused and the row stays; otherwise
      the presented row is deleted and a new pair is issued, the new refresh
      token being the refresh claims signed now and the only row added. The
      rotation succeeds exactly when that string is not a key of the table
      left after the deletion. */
  lemma RefreshRotates(cfg: Config, jwt: Jwt, db: Db, presented: string, now: int)
    requires jwt.verify(presented, cfg.secret, Seconds(now)).Verified?
    requires jwt.verify(presented, cfg.secret, Seconds(now)).claims.payload.kind == "refresh"
    requires presented in db.tokens && db.tokens[presented].expiresAt >= now
    requires WellFormed(db.users)
    ensures var userId := jwt.verify(presented, cfg.secret, Seconds(now)).claims.payload.userId;
            var s := RefreshStep(cfg, jwt, db, presented, now);
            var reissued := jwt.sign(RefreshClaims(cfg, userId, now), cfg.secret);
            && (userId !in db.users ==> s == Step(db, Err(Unauthorized(USER_NOT_FOUND))) && presented in s.db.tokens)
            && (userId in db.users ==> (s.result.Ok? <==> reissued !in db.tokens - {presented}))
            && (userId in db.users && s.result.Ok? ==>
                  && s.result.value.refreshToken == reissued
                  && s.db.users == db.users
                  && s.db.tokens == (db.tokens - {presented})[s.result.value.refreshToken :=
                                                               TokenRow(userId, now + REFRESH_ROW_LIFETIME_MS)]
                  && s.result.value.accessToken == GenerateAccessToken(cfg, jwt, db.users[userId], now))
            && (userId in db.users && s.result.Err? ==>
                  s == Step(db.(tokens := db.tokens - {presented}), Err(UniqueViolation("token"))))
  {
  }

  /** One-time use: once a refresh has rotated the presented token into a
      different one, presenting it again fails, and with "Refresh token not
      found" whenever it still verifies as a refresh token. */
  lemma RefreshTwiceFails(cfg: Config, jwt: Jwt, db: Db, presented: string, now: int, later: int)
    requires RefreshStep(cfg, jwt, db, presented, now).result.Ok?
    requires RefreshStep(cfg, jwt, db, presented, now).result.value.refreshToken != presented
    ensures var db1 := RefreshStep(cfg, jwt, db, presented, now).db;
            var s2 := RefreshStep(cfg, jwt, db1, presented, later);
            && s2.result.Err?
            && (jwt.verify(presented, cfg.secret, Seconds(later)).Verified?
                && jwt.verify(presented, cfg.secret, Seconds(later)).claims.payload.kind == "refresh" ==>
                  s2 == Step(db1, Err(Unauthorized(TOKEN_NOT_FOUND))))
  {
    var db1 := RefreshStep(cfg, jwt, db, presented, now).db;
    assert presented !in db1.tokens;
  }

  /** The rotated token differs from the presented one exactly when the
      presented token was not issued in the current second for the same
      claims: a token issued in an earlier second is never handed back. */
  lemma RotatedTokenIsNew(cfg: Config, jwt: Jwt, db: Db, presented: string, now: int)
    requires LawfulJwt(jwt)
    requires RefreshStep(cfg, jwt, db, presented, now).result.Ok?
    requires jwt.verify(presented, cfg.secret, Seconds(now)).claims.iat != Seconds(now)
    ensures RefreshStep(cfg, jwt, db, presented, now).result.value.refreshToken != presented
  {
    var c := jwt.verify(presented, cfg.secret, Seconds(now)).claims;
    var user := FindById(db.users, c.payload.userId).value;
    var reissued := RefreshClaims(cfg, user.id, now);
    var token := RefreshStep(cfg, jwt, db, presented, now).result.value.refreshToken;
    assert token == jwt.sign(reissued, cfg.secret);
    assert jwt.verify(jwt.sign(reissued, cfg.secret), cfg.secret, Seconds(now)) ==
           if Seconds(now) < reissued.exp then Verified(reissued) else Expired;
  }

  /** A refresh within the second its token was issued in signs the same
      claims again, so it hands back the presented string and re-inserts its
      row; a second refresh with that string in that second succeeds too. */
  lemma SameSecondRefreshReplays(cfg: Config, jwt: Jwt, db: Db, presented: string, now: int)
    requires LawfulJwt(jwt) && WellFormed(db.users)
    requires RefreshStep(cfg, jwt, db, presented, now).result.Ok?
    requires var c := jwt.verify(presented, cfg.secret, Seconds(now)).claims;
             presented == jwt.sign(RefreshClaims(cfg, c.payload.userId, now), cfg.secret)
    ensures var s1 := RefreshStep(cfg, jwt, db, presented, now);
            && s1.result.value.refreshToken == presented
            && presented in s1.db.tokens
            && RefreshStep(cfg, jwt, s1.db, presented, now).result.Ok?
  {
  }

  // ---------------------------------------------------------------------------

  /** The service object over the two repositories. */
  class AuthService {
    const config: Config
    const jwt: Jwt
    const hasher: Hasher
    const users: UserRepository
    const tokens: RefreshTokenRepository

    constructor (config: Config, jwt: Jwt, hasher: Hasher, users: UserRepository, tokens: RefreshTokenRepository)
      requires users.Valid()
      ensures Valid()
      ensures this.config == config && this.jwt == jwt && this.hasher == hasher
      ensures this.users == users && this.tokens == tokens
    {
      this.config := config;
      this.jwt := jwt;
      this.hasher := hasher;
      this.users := users;
      this.tokens := tokens;
    }

    ghost predicate Valid()
      reads users
    {
      users.Valid()
    }

    /** The contents of both tables. */
    ghost function State(): Db
      reads users, tokens
    {
      Db(users.rows, tokens.rows)
    }

    method Register(username: string, password: string, freshId: string, salt: string, now: int)
      returns (r: Result<RegisterResponse, Failure>)
      requires Valid()
      modifies users
      ensures Valid()
      ensures Step(State(), r) == RegisterStep(hasher, old(State()), username, password, freshId, salt, now)
    {
      var existing := FindByUsername(users.rows, username);
      if existing.Some? {
        return Err(Conflict(USERNAME_TAKEN));
      }
      var passwordHash := hasher.hash(password, salt);
      var created := users.Create(freshId, username, passwordHash, now);
      if created.Err? {
        return Err(created.error);
      }
      r := Ok(RegisterResponse(REGISTERED));
    }

    method Login(username: string, password: string, now: int) returns (r: Result<LoginResponse, Failure>)
      requires Valid()
      modifies tokens
      ensures Valid()
      ensures Step(State(), r) == LoginStep(config, jwt, hasher, old(State()), username, password, now)
    {
      var user := FindByUsername(users.rows, username);
      if user.None? {
        return Err(Unauthorized(INVALID_CREDENTIALS));
      }
      var isPasswordValid := hasher.compare(password, user.value.passwordHash);
      if !isPasswordValid {
        return Err(Unauthorized(INVALID_CREDENTIALS));
      }
      var accessToken := GenerateAccessToken(config, jwt, user.value, now);
      var refreshToken := GenerateRefreshToken(config, jwt, user.value, tokens, now);
      if refreshToken.Err? {
        return Err(refreshToken.error);
      }
      r := Ok(LoginResponseFromModel(user.value, accessToken, refreshToken.value));
    }

    method RefreshToken(presented: string, now: int) returns (r: Result<RefreshTokenResponse, Failure>)
      requires Valid()
      modifies tokens
      ensures Valid()
      ensures Step(State(), r) == RefreshStep(config, jwt, old(State()), presented, now)
    {
      var verified := jwt.verify(presented, config.secret, Seconds(now));
      if verified.Expired? {
        return Err(Unauthorized(JWT_EXPIRED));
      } else if verified.Malformed? {
        return Err(Unauthorized(JWT_INVALID_PREFIX + verified.message));
      }
      var payload := verified.claims.payload;
      if payload.kind != "refresh" {
        return Err(Unauthorized(INVALID_TOKEN_TYPE));
      }
      var tokenData := FindByToken(tokens.rows, presented);
      if tokenData.None? {
        return Err(Unauthorized(TOKEN_NOT_FOUND));
      }
      if tokenData.value.expiresAt < now {
        tokens.Delete(presented);
        return Err(Unauthorized(ROW_EXPIRED));
      }
      var user := FindById(users.rows, payload.userId);
      if user.None? {
        return Err(Unauthorized(USER_NOT_FOUND));
      }
      tokens.Delete(presented);
      var accessToken := GenerateAccessToken(config, jwt, user.value, now);
      var newRefreshToken := GenerateRefreshToken(config, jwt, user.value, tokens, now);
      if newRefreshToken.Err? {
        return Err(newRefreshToken.error);
      }
      r := Ok(RefreshTokenResponse(accessToken, newRefreshToken.value));
    }
  }
}
