/** The two request guards: splitting the `Authorization` header, the strict
    `JwtAuthGuard` and the looser `AuthGuard`. Both take the token validator
    as a parameter (in the application it is `TokenHandler.ValidateToken`). */
module Guards {
  import opened Wrappers
  import opened Failures
  import opened Crypto
  import opened Users
  import opened TokenHandler

  /** JavaScript's `s.split(' ')`: the maximal space-free pieces between
      consecutive spaces, empty pieces included. */
  function Split(s: string): (fields: seq<string>)
    ensures |fields| >= 1
    ensures forall i :: 0 <= i < |fields| ==> ' ' !in fields[i]
    ensures Join(fields) == s
    decreases |s|
  {
    if |s| == 0 then [""]
    else if s[0] == ' ' then [""] + Split(s[1..])
    else
      var rest := Split(s[1..]);
      [[s[0]] + rest[0]] + rest[1..]
  }

  /** The pieces put back together with single spaces. */
  function Join(fields: seq<string>): string
  {
    if |fields| == 0 then "" else if |fields| == 1 then fields[0] else fields[0] + " " + Join(fields[1..])
  }

  /** Splitting `a + b` where `a` has no space and `b` is empty or starts with
      a space: the first piece is exactly `a`, the others are those of the
      rest of `b`. */
  lemma {:induction false} SplitAt(a: string, b: string)
    requires ' ' !in a
    requires b == [] || b[0] == ' '
    ensures Split(a + b)[0] == a
    ensures b == [] ==> |Split(a + b)| == 1
    ensures b != [] ==> Split(a + b)[1..] == Split(b[1..])
    decreases |a|
  {
    if a == [] {
      assert a + b == b;
    } else {
      assert (a + b)[1..] == a[1..] + b;
      SplitAt(a[1..], b);
    }
  }

  /** The first piece of any string is a prefix of it, followed by the end of
      the string or by a space after which the other pieces start. */
  lemma {:induction false} SplitHead(s: string)
    ensures var f := Split(s);
            && |f[0]| <= |s| && s[..|f[0]|] == f[0]
            && (|f| == 1 ==> f[0] == s)
            && (|f| > 1 ==> |f[0]| < |s| && s[|f[0]|] == ' ' && f[1..] == Split(s[|f[0]| + 1..]))
    decreases |s|
  {
    if |s| > 0 && s[0] != ' ' {
      SplitHead(s[1..]);
    }
  }

  /** `const [bearer, token] = header.split(' ')`: the second piece, if any. */
  function SecondField(header: string): Option<string>
  {
    var f := Split(header);
    if |f| >= 2 then Some(f[1]) else None
  }

  /** The JWT guard's decision: the payload to attach to the request, or the
      exception it throws. */
  function JwtGuardDecision(header: Option<string>, validate: Option<string> -> Result<Principal, Failure>)
    : (r: Result<Principal, Failure>)
    ensures r.Ok? ==> header.Some? && |Split(header.value)| >= 2 && Split(header.value)[0] == "Bearer"
                      && validate(Some(Split(header.value)[1])) == Ok(r.value)
    ensures r.Err? ==> r.error in {Unauthorized("No authorization header"),
                                   Unauthorized("Invalid authorization header format"),
                                   Unauthorized("Invalid or expired token")}
  {
    if header.None? || header.value == "" then Err(Unauthorized("No authorization header"))
    else
      var f := Split(header.value);
      if f[0] != "Bearer" || |f| < 2 || f[1] == "" then Err(Unauthorized("Invalid authorization header format"))
      else
        match validate(Some(f[1]))
        case Ok(p) => Ok(p)
        case Err(_) => Err(Unauthorized("Invalid or expired token"))
  }

  /** A missing or empty header is refused before the validator is asked:
      the decision is the same for every validator. */
  lemma JwtGuardNeedsHeader(header: Option<string>, v1: Option<string> -> Result<Principal, Failure>,
                            v2: Option<string> -> Result<Principal, Failure>)
    requires header.None? || header.value == ""
    ensures JwtGuardDecision(header, v1) == JwtGuardDecision(header, v2) == Err(Unauthorized("No authorization header"))
  {
  }

  /** The header formats the JWT guard accepts: exactly `"Bearer " + t + rest`
      with `t` non-empty and space-free and `rest` empty or starting with a
      space. The validator is then asked about `t` alone and its failures all
      become "Invalid or expired token"; every other non-empty header is
      refused as badly formatted. */
  lemma JwtGuardFormat(h: string, validate: Option<string> -> Result<Principal, Failure>)
    requires h != ""
    ensures var d := JwtGuardDecision(Some(h), validate);
            var f := Split(h);
            var wellFormed := f[0] == "Bearer" && |f| >= 2 && f[1] != "";
            && (!wellFormed ==> d == Err(Unauthorized("Invalid authorization header format")))
            && (wellFormed ==> (exists rest :: h == "Bearer " + f[1] + rest && (rest == [] || rest[0] == ' '))
                               && d == (if validate(Some(f[1])).Ok? then validate(Some(f[1]))
                                        else Err(Unauthorized("Invalid or expired token"))))
  {
    var f := Split(h);
    if f[0] == "Bearer" && |f| >= 2 {
      BearerShape(h);
    }
  }

  /** A header whose first piece is "Bearer", followed by more, is "Bearer "
      followed by its second piece and then nothing or a space. */
  lemma BearerShape(h: string)
    requires Split(h)[0] == "Bearer" && |Split(h)| >= 2
    ensures exists rest :: h == "Bearer " + Split(h)[1] + rest && (rest == [] || rest[0] == ' ')
  {
    BearerTail(h);
    var tail := h[7..];
    FirstPieceRest(tail);
    var rest :| tail == Split(tail)[0] + rest && (rest == [] || rest[0] == ' ');
    assert h == "Bearer " + Split(h)[1] + rest;
  }

  /** After a first piece "Bearer" and its space come the other pieces. */
  lemma BearerTail(h: string)
    requires Split(h)[0] == "Bearer" && |Split(h)| >= 2
    ensures |h| >= 7 && h == "Bearer " + h[7..] && Split(h[7..]) == Split(h)[1..]
  {
    SplitHead(h);
    assert h[..6] == "Bearer" && h[6] == ' ';
    assert h == h[..6] + [h[6]] + h[7..];
  }

  /** Any string is its first piece followed by nothing or by a space. */
  lemma FirstPieceRest(t: string)
    ensures exists rest :: t == Split(t)[0] + rest && (rest == [] || rest[0] == ' ')
  {
    SplitHead(t);
    var n := |Split(t)[0]|;
    assert t == t[..n] + t[n..];
    assert t[n..] == [] || t[n..][0] == ' ';
  }

  /** The converse: every header of that shape yields the token `t`. */
  lemma JwtGuardAcceptsBearer(t: string, rest: string, validate: Option<string> -> Result<Principal, Failure>)
    requires t != "" && ' ' !in t
    requires rest == [] || rest[0] == ' '
    ensures JwtGuardDecision(Some("Bearer " + t + rest), validate) ==
            if validate(Some(t)).Ok? then validate(Some(t)) else Err(Unauthorized("Invalid or expired token"))
  {
    assert "Bearer " + t + rest == "Bearer " + (t + rest);
    SplitBearer(t + rest);
    SplitAt(t, rest);
  }

  /** The pieces of "Bearer " + x are "Bearer" and then those of x. */
  lemma SplitBearer(x: string)
    ensures |Split("Bearer " + x)| >= 2
    ensures Split("Bearer " + x)[0] == "Bearer" && Split("Bearer " + x)[1..] == Split(x)
  {
    assert "Bearer " + x == "Bearer" + (" " + x);
    SplitAt("Bearer", " " + x);
    assert (" " + x)[1..] == x;
  }

  /** A header without the scheme is refused as badly formatted. */
  lemma JwtGuardRejectsBareToken(validate: Option<string> -> Result<Principal, Failure>)
    ensures JwtGuardDecision(Some("valid-token"), validate) == Err(Unauthorized("Invalid authorization header format"))
  {
    SplitHead("valid-token");
  }

  /** The scheme is compared case-sensitively. */
  lemma JwtGuardRejectsLowerCase(validate: Option<string> -> Result<Principal, Failure>)
    ensures JwtGuardDecision(Some("bearer valid-token"), validate) == Err(Unauthorized("Invalid authorization header format"))
  {
    assert "bearer valid-token" == "bearer" + " valid-token";
    SplitAt("bearer", " valid-token");
  }

  /** The scheme alone, or followed by one space, is refused as badly formatted. */
  lemma JwtGuardRejectsMissingToken(validate: Option<string> -> Result<Principal, Failure>)
    ensures JwtGuardDecision(Some("Bearer"), validate) == Err(Unauthorized("Invalid authorization header format"))
    ensures JwtGuardDecision(Some("Bearer "), validate) == Err(Unauthorized("Invalid authorization header format"))
  {
    assert "Bearer" + "" == "Bearer";
    SplitAt("Bearer", "");
    assert "Bearer " == "Bearer" + " ";
    SplitAt("Bearer", " ");
    assert " "[1..] == "";
  }

  /** End to end: a header carrying a freshly issued access token passes the
      JWT guard with the real validator, which attaches the user's id and
      username. */
  lemma IssuedAccessTokenPassesJwtGuard(cfg: Config, jwt: Jwt, user: User, issuedAt: int, now: int)
    requires LawfulJwt(jwt)
    requires Seconds(now) < Seconds(issuedAt) + cfg.accessTtl
    ensures JwtGuardDecision(Some("Bearer " + GenerateAccessToken(cfg, jwt, user, issuedAt)),
                             t => ValidateToken(cfg, jwt, now, t))
            == Ok(Principal(user.id, Some(user.username)))
  {
    var token := GenerateAccessToken(cfg, jwt, user, issuedAt);
    assert token != [] && ' ' !in token;
    JwtGuardAcceptsBearer(token, [], t => ValidateToken(cfg, jwt, now, t));
    assert "Bearer " + token + [] == "Bearer " + token;
    AccessTokenRoundTrip(cfg, jwt, user, issuedAt, now);
  }

  /** A request as the guards see it: the `Authorization` header, which they
      only read, and the `user` slot the JWT guard fills. */
  class Request {
    const authorization: Option<string>
    var user: Option<Principal>

    constructor (authorization: Option<string>)
      ensures this.authorization == authorization && user == None
    {
      this.authorization := authorization;
      user := None;
    }
  }

  /** `JwtAuthGuard.canActivate`: on success returns true and the request's
      `user` is the validator's result; on failure throws and leaves the
      request as it was. */
  method JwtAuthGuardCanActivate(request: Request, validate: Option<string> -> Result<Principal, Failure>)
    returns (r: Result<bool, Failure>)
    modifies request
    ensures match JwtGuardDecision(request.authorization, validate)
            case Ok(p) => r == Ok(true) && request.user == Some(p)
            case Err(e) => r == Err(e) && request.user == old(request.user)
  {
    var authHeader := request.authorization;
    if authHeader.None? || authHeader.value == "" {
      return Err(Unauthorized("No authorization header"));
    }
    var fields := Split(authHeader.value);
    if fields[0] != "Bearer" || |fields| < 2 || fields[1] == "" {
      return Err(Unauthorized("Invalid authorization header format"));
    }
    var payload := validate(Some(fields[1]));
    if payload.Err? {
      return Err(Unauthorized("Invalid or expired token"));
    }
    request.user := Some(payload.value);
    r := Ok(true);
  }

  /** `AuthGuard.canActivate`: a missing or empty header is refused; the
      second piece of the header, whatever the first, goes to the validator,
      whose errors pass through unchanged. The source's `!isValidToken`
      branch cannot be taken: the validator returns an object or throws. */
  function AuthGuardCanActivate(header: Option<string>, validate: Option<string> -> Result<Principal, Failure>)
    : (r: Result<bool, Failure>)
    ensures header.None? || header.value == "" ==> r == Err(Unauthorized("Unauthorized"))
    ensures header.Some? && header.value != "" ==>
              (r.Ok? <==> validate(SecondField(header.value)).Ok?)
              && (r.Ok? ==> r.value)
              && (r.Err? ==> r.error == validate(SecondField(header.value)).error)
  {
    if header.None? || header.value == "" then Err(Unauthorized("Unauthorized"))
    else
      match validate(SecondField(header.value))
      case Err(e) => Err(e)
      case Ok(_) => Ok(true)
  }

  /** The first piece is never examined: any space-free scheme, including
      none, in front of a space-free token gives the validator that token. */
  lemma AuthGuardIgnoresScheme(scheme: string, t: string, validate: Option<string> -> Result<Principal, Failure>)
    requires ' ' !in scheme && ' ' !in t
    ensures SecondField(scheme + " " + t) == Some(t)
    ensures AuthGuardCanActivate(Some(scheme + " " + t), validate) ==
            if validate(Some(t)).Ok? then Ok(true) else Err(validate(Some(t)).error)
  {
    assert scheme + " " + t == scheme + (" " + t);
    SplitAt(scheme, " " + t);
    assert (" " + t)[1..] == t;
    SplitAt(t, []);
    assert t + [] == t;
  }

  /** A `Bearer ` header with nothing after the space gives the validator the
      empty string, which jsonwebtoken refuses, so this guard refuses the
      request with "Invalid token". */
  lemma AuthGuardRefusesEmptyToken(cfg: Config, jwt: Jwt, now: int)
    requires LawfulJwt(jwt)
    ensures SecondField("Bearer ") == Some("")
    ensures AuthGuardCanActivate(Some("Bearer "), t => ValidateToken(cfg, jwt, now, t)) ==
            Err(Unauthorized("Invalid token"))
  {
    assert "Bearer " == "Bearer" + " " + "";
    AuthGuardIgnoresScheme("Bearer", "", t => ValidateToken(cfg, jwt, now, t));
  }
}
