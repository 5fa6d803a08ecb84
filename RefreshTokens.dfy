/** The refresh-token table behind `RefreshTokenRepository`: one row per
    issued token string, holding its owner and its stored expiry (ms). */
module RefreshTokens {
  import opened Wrappers
  import opened Failures

  datatype TokenRow = TokenRow(userId: string, expiresAt: int)

  /** The table after `save(token, userId, expiresAt)`; the token is the
      table's key, so a second row under the same string is refused. */
  function Saved(rows: map<string, TokenRow>, token: string, userId: string, expiresAt: int)
    : (r: Result<map<string, TokenRow>, Failure>)
    ensures r.Ok? <==> token !in rows
    ensures r.Ok? ==> r.value.Keys == rows.Keys + {token} && r.value[token] == TokenRow(userId, expiresAt)
    ensures r.Ok? ==> forall t :: t in rows ==> r.value[t] == rows[t]
  {
    if token in rows then Err(UniqueViolation("token")) else Ok(rows[token := TokenRow(userId, expiresAt)])
  }

  /** `findByToken`: the row for that token, or null. */
  function FindByToken(rows: map<string, TokenRow>, token: string): (r: Option<TokenRow>)
    ensures r.Some? <==> token in rows
    ensures r.Some? ==> r.value == rows[token]
  {
    if token in rows then Some(rows[token]) else None
  }

  /** The tokens of one user. */
  function TokensOf(rows: map<string, TokenRow>, userId: string): set<string>
  {
    set t | t in rows && rows[t].userId == userId
  }

  /** The tokens whose stored expiry lies strictly before `now`. */
  function ExpiredTokens(rows: map<string, TokenRow>, now: int): set<string>
  {
    set t | t in rows && rows[t].expiresAt < now
  }

  /** Removing a set of keys of a map shrinks it by the size of that set. */
  lemma RemovedCount(rows: map<string, TokenRow>, gone: set<string>)
    requires gone <= rows.Keys
    ensures |rows - gone| == |rows| - |gone|
  {
    assert (rows - gone).Keys == rows.Keys - gone;
    assert rows.Keys == (rows.Keys - gone) + gone;
  }

  /** `deleteExpired` keeps exactly the rows that have not expired, and the
      count it returns is the number of rows that went. */
  lemma DeleteExpiredPartition(rows: map<string, TokenRow>, now: int)
    ensures forall t :: t in rows - ExpiredTokens(rows, now) <==> t in rows && rows[t].expiresAt >= now
    ensures |rows - ExpiredTokens(rows, now)| + |ExpiredTokens(rows, now)| == |rows|
  {
    RemovedCount(rows, ExpiredTokens(rows, now));
  }

  /** `delete` twice is `delete` once. */
  lemma DeleteIdempotent(rows: map<string, TokenRow>, token: string)
    ensures (rows - {token}) - {token} == rows - {token}
    ensures token !in rows ==> rows - {token} == rows
  {
  }

  class RefreshTokenRepository {
    var rows: map<string, TokenRow>

    constructor ()
      ensures rows == map[]
    {
      rows := map[];
    }

    /** `save`: inserts one row, or fails and changes nothing. */
    method Save(token: string, userId: string, expiresAt: int) returns (r: Result<(), Failure>)
      modifies this
      ensures match Saved(old(rows), token, userId, expiresAt)
              case Ok(rows') => rows == rows' && r == Ok(())
              case Err(e) => rows == old(rows) && r == Err(e)
    {
      var next := Saved(rows, token, userId, expiresAt);
      if next.Ok? {
        rows := next.value;
        r := Ok(());
      } else {
        r := Err(next.error);
      }
    }

    /** `delete`: removes the row if there is one; an absent token is
        silently ignored. */
    method Delete(token: string)
      modifies this
      ensures rows == old(rows) - {token}
      ensures |rows| == if token in old(rows) then |old(rows)| - 1 else |old(rows)|
    {
      rows := rows - {token};
    }

    /** `deleteByUserId`: removes every row of that user and no other. */
    method DeleteByUserId(userId: string)
      modifies this
      ensures rows == old(rows) - TokensOf(old(rows), userId)
      ensures forall t :: t in rows <==> t in old(rows) && old(rows)[t].userId != userId
    {
      rows := rows - TokensOf(rows, userId);
    }

    /** `deleteExpired`: removes the rows with `expiresAt < now` and returns
        how many it removed. */
    method DeleteExpired(now: int) returns (removed: nat)
      modifies this
      ensures rows == old(rows) - ExpiredTokens(old(rows), now)
      ensures forall t :: t in rows <==> t in old(rows) && old(rows)[t].expiresAt >= now
      ensures removed == |ExpiredTokens(old(rows), now)| == |old(rows)| - |rows|
    {
      var expired := ExpiredTokens(rows, now);
      DeleteExpiredPartition(rows, now);
      rows := rows - expired;
      removed := |expired|;
    }

    /** `count`: the number of rows. */
    function Count(): (n: nat)
      reads this
      ensures n == |rows.Keys|
    {
      |rows|
    }
  }
}
