/**
  The account table: rows keyed by id, each with a unique case-sensitive
  username, a password digest and a coffee counter. The digest function is a
  parameter (`hash`), about which nothing is assumed, injectivity included.
 */
module Database {
  import opened Wrappers

  datatype Account = Account(id: nat, username: string, passwordHash: string, coffeeCount: nat)

  /** What the application keeps in the session for a logged-in account. */
  datatype Identity = Identity(id: nat, username: string)

  /** The accounts created at first start, with their plaintext passwords. */
  const DefaultUsers: seq<(string, string)> := [("admin", "admin123"), ("barista", "coffee42")]

  /** No two rows share a username (the column's UNIQUE constraint). */
  ghost predicate UniqueUsernames(rows: map<nat, Account>)
  {
    forall i, j | i in rows && j in rows && rows[i].username == rows[j].username :: i == j
  }

  predicate UsernameTaken(rows: map<nat, Account>, username: string)
  {
    exists id | id in rows :: rows[id].username == username
  }

  /** The whole table: its rows and the id the next insert receives. */
  datatype Table = Table(rows: map<nat, Account>, nextId: nat)

  /** Ids start at 1, every row is stored under its own id below `nextId`, and usernames are unique. */
  ghost predicate WellFormed(t: Table)
  {
    && 1 <= t.nextId
    && (forall id | id in t.rows :: 1 <= id < t.nextId && t.rows[id].id == id)
    && UniqueUsernames(t.rows)
  }

  /** `get_user_by_username`: the account with exactly that username, if there is one. */
  function FindByUsername(rows: map<nat, Account>, username: string): (r: Option<Account>)
    requires UniqueUsernames(rows)
    ensures r.Some? <==> UsernameTaken(rows, username)
    ensures r.Some? ==> r.value.username == username
    ensures forall id | id in rows && rows[id].username == username :: r == Some(rows[id])
  {
    if UsernameTaken(rows, username) then
      var id :| id in rows && rows[id].username == username;
      Some(rows[id])
    else
      None
  }

  /**
    `authenticate_user`: the identity of the account with that username when
    the digest of `password` equals its stored digest; nothing otherwise, the
    same for an unknown username and for a wrong password.
   */
  function Authenticate(rows: map<nat, Account>, hash: string -> string, username: string, password: string)
    : (r: Option<Identity>)
    requires UniqueUsernames(rows) && forall id | id in rows :: rows[id].id == id
    ensures r.Some? <==> exists id | id in rows :: rows[id].username == username && rows[id].passwordHash == hash(password)
    ensures r.Some? ==> && r.value.id in rows
                        && r.value.username == username
                        && rows[r.value.id].username == username
                        && rows[r.value.id].passwordHash == hash(password)
  {
    match FindByUsername(rows, username)
    case None => None
    case Some(user) =>
      if hash(password) != user.passwordHash then None
      else Some(Identity(user.id, user.username))
  }

  /** Adding a fresh account under the next id keeps the table well formed and every existing row as it was. */
  function Insert(t: Table, username: string, passwordHash: string): (r: Table)
    requires WellFormed(t) && !UsernameTaken(t.rows, username)
    ensures WellFormed(r)
    ensures r.nextId == t.nextId + 1
    ensures r.rows.Keys == t.rows.Keys + {t.nextId} && t.nextId !in t.rows
    ensures r.rows[t.nextId] == Account(t.nextId, username, passwordHash, 0)
    ensures forall id | id in t.rows :: r.rows[id] == t.rows[id]
  {
    Table(t.rows[t.nextId := Account(t.nextId, username, passwordHash, 0)], t.nextId + 1)
  }

  /** One step of the seeding loop: insert the default user unless its username is already present. */
  function SeedOne(t: Table, user: (string, string), hash: string -> string): (r: Table)
    requires WellFormed(t)
    ensures WellFormed(r)
    ensures UsernameTaken(r.rows, user.0)
    ensures forall id | id in t.rows :: id in r.rows && r.rows[id] == t.rows[id]
    ensures forall id | id in r.rows && id !in t.rows :: r.rows[id] == Account(id, user.0, hash(user.1), 0)
  {
    if UsernameTaken(t.rows, user.0) then t
    else
      var r := Insert(t, user.0, hash(user.1));
      assert r.rows[t.nextId].username == user.0;
      r
  }

  /**
    The seeding loop of `init_db` over `users`, one SeedOne step per listed
    user in order; the lemmas below say what it adds and what it keeps.
   */
  function SeedDefaults(t: Table, users: seq<(string, string)>, hash: string -> string): (r: Table)
    requires WellFormed(t)
    ensures WellFormed(r)
    decreases |users|
  {
    if users == [] then t
    else SeedOne(SeedDefaults(t, users[..|users| - 1], hash), users[|users| - 1], hash)
  }

  /** Seeding never changes or removes an existing account. */
  lemma {:induction false} SeedingKeepsExistingRows(t: Table, users: seq<(string, string)>, hash: string -> string)
    requires WellFormed(t)
    ensures forall id | id in t.rows :: id in SeedDefaults(t, users, hash).rows && SeedDefaults(t, users, hash).rows[id] == t.rows[id]
    decreases |users|
  {
    if users != [] {
      SeedingKeepsExistingRows(t, users[..|users| - 1], hash);
    }
  }

  /** After seeding, every listed username is present. */
  lemma {:induction false} SeedingAddsEveryUser(t: Table, users: seq<(string, string)>, hash: string -> string)
    requires WellFormed(t)
    ensures forall k | 0 <= k < |users| :: UsernameTaken(SeedDefaults(t, users, hash).rows, users[k].0)
    decreases |users|
  {
    if users != [] {
      var init := users[..|users| - 1];
      var prev := SeedDefaults(t, init, hash);
      var r := SeedDefaults(t, users, hash);
      SeedingAddsEveryUser(t, init, hash);
      forall k | 0 <= k < |users| ensures UsernameTaken(r.rows, users[k].0) {
        if k < |init| {
          assert init[k] == users[k];
          var id :| id in prev.rows && prev.rows[id].username == users[k].0;
          assert r.rows[id] == prev.rows[id];
        }
      }
    }
  }

  /** Every account seeding adds is a listed user, with the digest of its password and a zero counter. */
  lemma {:induction false} SeedingAddsOnlyListedUsers(t: Table, users: seq<(string, string)>, hash: string -> string)
    requires WellFormed(t)
    ensures forall id | id in SeedDefaults(t, users, hash).rows && id !in t.rows ::
              && SeedDefaults(t, users, hash).rows[id].coffeeCount == 0
              && exists k | 0 <= k < |users| ::
                   && SeedDefaults(t, users, hash).rows[id].username == users[k].0
                   && SeedDefaults(t, users, hash).rows[id].passwordHash == hash(users[k].1)
    decreases |users|
  {
    if users != [] {
      var init := users[..|users| - 1];
      var prev := SeedDefaults(t, init, hash);
      var r := SeedDefaults(t, users, hash);
      SeedingAddsOnlyListedUsers(t, init, hash);
      SeedingKeepsExistingRows(t, init, hash);
      forall id | id in r.rows && id !in t.rows
        ensures r.rows[id].coffeeCount == 0
        ensures exists k | 0 <= k < |users| ::
                  r.rows[id].username == users[k].0 && r.rows[id].passwordHash == hash(users[k].1)
      {
        if id in prev.rows {
          var k :| 0 <= k < |init| && prev.rows[id].username == init[k].0 && prev.rows[id].passwordHash == hash(init[k].1);
          assert init[k] == users[k];
        } else {
          assert r.rows[id] == Account(id, users[|users| - 1].0, hash(users[|users| - 1].1), 0);
        }
      }
    }
  }

  /** Seeding a table that already holds every listed username changes nothing. */
  lemma {:induction false} SeedingPresentUsersIsNoop(t: Table, users: seq<(string, string)>, hash: string -> string)
    requires WellFormed(t)
    requires forall k | 0 <= k < |users| :: UsernameTaken(t.rows, users[k].0)
    ensures SeedDefaults(t, users, hash) == t
    decreases |users|
  {
    if users != [] {
      var init := users[..|users| - 1];
      assert forall k | 0 <= k < |init| :: init[k] == users[k];
      SeedingPresentUsersIsNoop(t, init, hash);
    }
  }

  /** Running the seeding twice gives the same table as running it once. */
  lemma SeedingIsIdempotent(t: Table, users: seq<(string, string)>, hash: string -> string)
    requires WellFormed(t)
    ensures SeedDefaults(SeedDefaults(t, users, hash), users, hash) == SeedDefaults(t, users, hash)
  {
    SeedingAddsEveryUser(t, users, hash);
    SeedingPresentUsersIsNoop(SeedDefaults(t, users, hash), users, hash);
  }

  /** Seeding an empty table gives the administrator id 1 and the barista id 2, both with a zero counter. */
  lemma SeedingEmptyTable(hash: string -> string)
    ensures SeedDefaults(Table(map[], 1), DefaultUsers, hash)
            == Table(map[1 := Account(1, "admin", hash("admin123"), 0),
                         2 := Account(2, "barista", hash("coffee42"), 0)], 3)
  {
  }

  /**
    The account table as the application holds it, mutated in place by
    seeding, account creation and counter increments.
   */
  class AccountStore {
    const hash: string -> string
    var accounts: map<nat, Account>
    var nextId: nat

    ghost predicate Valid()
      reads this
    {
      WellFormed(Snapshot())
    }

    function Snapshot(): Table
      reads this
    {
      Table(accounts, nextId)
    }

    /** An empty table whose passwords are digested with `hash`. */
    constructor (hash: string -> string)
      ensures Valid() && this.hash == hash
      ensures accounts == map[] && nextId == 1
    {
      this.hash := hash;
      accounts := map[];
      nextId := 1;
    }

    /** `init_db`'s seeding: each default user is inserted only when its username is missing. */
    method InitDb()
      requires Valid()
      modifies this
      ensures Valid()
      ensures Snapshot() == SeedDefaults(old(Snapshot()), DefaultUsers, hash)
    {
      for i := 0 to |DefaultUsers|
        invariant Valid()
        invariant Snapshot() == SeedDefaults(old(Snapshot()), DefaultUsers[..i], hash)
      {
        var (username, rawPassword) := DefaultUsers[i];
        assert DefaultUsers[..i + 1][..i] == DefaultUsers[..i];
        var existing := FindByUsername(accounts, username);
        if existing.None? {
          accounts := accounts[nextId := Account(nextId, username, hash(rawPassword), 0)];
          nextId := nextId + 1;
        }
      }
      assert DefaultUsers[..|DefaultUsers|] == DefaultUsers;
    }

    /**
      `create_user`: on a fresh username, one new account with the digest of
      the password and a zero counter, every existing account unchanged; on a
      taken username the uniqueness constraint fails the insert, the
      transaction is rolled back and the table is exactly as before.
     */
    method CreateUser(username: string, password: string) returns (r: Option<Account>)
      requires Valid()
      modifies this
      ensures Valid()
      ensures r.None? <==> UsernameTaken(old(accounts), username)
      ensures r.None? ==> accounts == old(accounts) && nextId == old(nextId)
      ensures r.Some? ==> && r.value == Account(old(nextId), username, hash(password), 0)
                          && Snapshot() == Insert(old(Snapshot()), username, hash(password))
    {
      if UsernameTaken(accounts, username) {
        r := None;
      } else {
        var user := Account(nextId, username, hash(password), 0);
        accounts := accounts[nextId := user];
        nextId := nextId + 1;
        r := Some(user);
      }
    }

    /**
      `increment_coffee_count`: nothing when no account has that id;
      otherwise that account's counter goes up by one, the new count is
      returned, and every other field and account is unchanged.
     */
    method IncrementCoffeeCount(id: nat) returns (r: Option<nat>)
      requires Valid()
      modifies this
      ensures Valid() && nextId == old(nextId)
      ensures r.None? <==> id !in old(accounts)
      ensures r.None? ==> accounts == old(accounts)
      ensures r.Some? ==> && r.value == old(accounts)[id].coffeeCount + 1
                          && accounts == old(accounts)[id := old(accounts)[id].(coffeeCount := r.value)]
    {
      if id !in accounts {
        r := None;
      } else {
        var user := accounts[id];
        accounts := accounts[id := user.(coffeeCount := user.coffeeCount + 1)];
        r := Some(user.coffeeCount + 1);
      }
    }
  }
}
