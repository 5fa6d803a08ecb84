/** The user table behind `UserRepository`: rows keyed by id, with usernames
    unique as the table's second unique key. */
module Users {
  import opened Wrappers
  import opened Failures

  datatype User = User(id: string, username: string, passwordHash: string, createdAt: int, updatedAt: int)

  /** Every row sits under its own id and no two rows share a username. */
  ghost predicate WellFormed(rows: map<string, User>)
  {
    && (forall id :: id in rows ==> rows[id].id == id)
    && (forall a, b :: a in rows && b in rows && rows[a].username == rows[b].username ==> a == b)
  }

  /** The ids of the rows with the given username. */
  function IdsNamed(rows: map<string, User>, username: string): set<string>
  {
    set id | id in rows && rows[id].username == username
  }

  /** `findByUsername`: the user with that username, or null. */
  function FindByUsername(rows: map<string, User>, username: string): (r: Option<User>)
    requires WellFormed(rows)
    ensures r.Some? <==> exists id :: id in rows && rows[id].username == username
    ensures r.Some? ==> r.value.id in rows && rows[r.value.id] == r.value && r.value.username == username
  {
    if exists id :: id in rows && rows[id].username == username then
      var id :| id in rows && rows[id].username == username;
      Some(rows[id])
    else
      None
  }

  /** `findById`: the user with that id, or null. */
  function FindById(rows: map<string, User>, id: string): (r: Option<User>)
    ensures r.Some? <==> id in rows
    ensures r.Some? ==> r.value == rows[id]
  {
    if id in rows then Some(rows[id]) else None
  }

  /** `existsByUsername`: whether the count of users with that username is positive. */
  function ExistsByUsername(rows: map<string, User>, username: string): (b: bool)
    ensures b <==> exists id :: id in rows && rows[id].username == username
  {
    assert forall id :: id in rows && rows[id].username == username ==> id in IdsNamed(rows, username);
    |IdsNamed(rows, username)| > 0
  }

  /** `count`: the number of users. */
  function Count(rows: map<string, User>): (n: nat)
    ensures n == |rows.Keys|
  {
    |rows|
  }

  /** The table after `create` of a row with the given fields; the store stamps
      both timestamps with the current time and refuses a duplicate id or
      username. */
  function Created(rows: map<string, User>, id: string, username: string, passwordHash: string, now: int)
    : (r: Result<map<string, User>, Failure>)
    ensures r.Ok? <==> id !in rows && forall k :: k in rows ==> rows[k].username != username
    ensures r.Err? ==> r.error == UniqueViolation("id") || r.error == UniqueViolation("username")
    ensures r.Ok? ==> r.value.Keys == rows.Keys + {id}
                      && r.value[id] == User(id, username, passwordHash, now, now)
                      && forall k :: k in rows ==> r.value[k] == rows[k]
  {
    if id in rows then Err(UniqueViolation("id"))
    else if exists k :: k in rows && rows[k].username == username then Err(UniqueViolation("username"))
    else Ok(rows[id := User(id, username, passwordHash, now, now)])
  }

  /** `existsByUsername` and `findByUsername` agree. */
  lemma ExistsIffFound(rows: map<string, User>, username: string)
    requires WellFormed(rows)
    ensures ExistsByUsername(rows, username) <==> FindByUsername(rows, username).Some?
  {
    var found := FindByUsername(rows, username);
    if found.Some? {
      assert found.value.id in IdsNamed(rows, username);
    } else {
      assert IdsNamed(rows, username) == {};
    }
  }

  /** A successful `create` adds exactly the new row, keeps the table well
      formed, and the new user is found under both keys. */
  lemma CreatedAddsOneUser(rows: map<string, User>, id: string, username: string, passwordHash: string, now: int)
    requires WellFormed(rows)
    ensures Created(rows, id, username, passwordHash, now).Ok? <==>
              id !in rows && FindByUsername(rows, username).None?
    ensures match Created(rows, id, username, passwordHash, now)
            case Ok(rows') =>
              && WellFormed(rows')
              && rows' == rows[id := User(id, username, passwordHash, now, now)]
              && Count(rows') == Count(rows) + 1
              && FindById(rows', id) == Some(User(id, username, passwordHash, now, now))
              && FindByUsername(rows', username) == Some(User(id, username, passwordHash, now, now))
            case Err(_) => true
  {
    match Created(rows, id, username, passwordHash, now)
    case Ok(rows') =>
      var u := User(id, username, passwordHash, now, now);
      assert rows'[id] == u;
      assert FindByUsername(rows', username).value.id == id;
    case Err(_) =>
  }

  /** The store object: `create` changes the table, the finders and `count`
      are the functions above applied to `rows`. */
  class UserRepository {
    var rows: map<string, User>

    ghost predicate Valid()
      reads this
    {
      WellFormed(rows)
    }

    constructor ()
      ensures Valid() && rows == map[]
    {
      rows := map[];
    }

    /** `create`: inserts the row and returns it, or fails and changes nothing. */
    method Create(id: string, username: string, passwordHash: string, now: int) returns (r: Result<User, Failure>)
      requires Valid()
      modifies this
      ensures Valid()
      ensures match Created(old(rows), id, username, passwordHash, now)
              case Ok(rows') => rows == rows' && r == Ok(User(id, username, passwordHash, now, now))
              case Err(e) => rows == old(rows) && r == Err(e)
    {
      CreatedAddsOneUser(rows, id, username, passwordHash, now);
      var next := Created(rows, id, username, passwordHash, now);
      if next.Ok? {
        rows := next.value;
        r := Ok(User(id, username, passwordHash, now, now));
      } else {
        r := Err(next.error);
      }
    }
  }
}
