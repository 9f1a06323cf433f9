/** legacy-db/migrate-users-to-mysql.js: copy users.json into the `users`
    and `roles` tables over one pooled connection. A record whose id is
    already in `users` is skipped; otherwise its row is inserted, and the
    record at index 0 is made `admin`. The tables are maps keyed by
    `user_id`; `JSON.parse`, the clock and the database's error replies are
    parameters. */
module MysqlMigration {
  import opened Js
  import opened UserRecords

  /** A row of `users` (the key, `user_id`, is the map key). `username` is
      NULL when the record has no `user`. */
  datatype UserRow = UserRow(username: Option<string>, email: string, password: string, createdAt: string)

  /** The two tables. */
  datatype Tables = Tables(users: map<string, UserRow>, roles: map<string, string>)

  /** The three queries a record can issue. */
  datatype Query = Lookup | InsertUser | GrantAdmin

  /** Which query of which record the server answers with an error
      (`fails(i, q)`); lost connections and constraint violations alike. */
  type Failures = (nat, Query) -> bool

  /** The tables after some records, and whether every query so far
      succeeded. */
  datatype Progress = Progress(tables: Tables, ok: bool)

  /** The row inserted for record `u`: the name as is, email and password
      defaulting to `''`, the creation time to the clock. */
  function NewRow(u: UserRecord, now: string): (row: UserRow)
    ensures row.username == u.user
    ensures row.email == (if Truthy(u.email) then u.email.value else "")
    ensures row.password == (if Truthy(u.pass) then u.pass.value else "")
    ensures row.createdAt == (if Truthy(u.createdAt) then u.createdAt.value else now)
  {
    UserRow(u.user, OrDefault(u.email, ""), OrDefault(u.pass, ""), OrDefault(u.createdAt, now))
  }

  /** One iteration of the `for` loop for record `i`: the lookup, the skip
      when the id exists, the insert, and for index 0 the role upsert. A
      record without `userId` looks up NULL, which matches no row, and its
      insert is refused because `user_id` is the table's key. */
  function MigrateOne(t: Tables, i: nat, u: UserRecord, now: string, fails: Failures): (p: Progress)
    ensures p.ok ==> u.userId.Some? && u.userId.value in p.tables.users
    ensures t.users.Keys <= p.tables.users.Keys
    ensures p.tables.users.Keys <= t.users.Keys + (if u.userId.Some? then {u.userId.value} else {})
  {
    if fails(i, Lookup) then Progress(t, false)
    else if u.userId.Some? && u.userId.value in t.users then Progress(t, true)
    else if u.userId.None? || fails(i, InsertUser) then Progress(t, false)
    else
      var inserted := t.(users := t.users[u.userId.value := NewRow(u, now)]);
      if i != 0 then Progress(inserted, true)
      else if fails(i, GrantAdmin) then Progress(inserted, false)
      else Progress(inserted.(roles := inserted.roles[u.userId.value := "admin"]), true)
  }

  /** The loop over `users`, inside one `try`: the first error ends it.
      `now(i)` is the clock reading while record `i` is inserted. */
  function Migrated(t0: Tables, users: seq<UserRecord>, now: nat -> string, fails: Failures): (p: Progress)
    ensures t0.users.Keys <= p.tables.users.Keys
    ensures p.ok ==> forall j | 0 <= j < |users| :: users[j].userId.Some? && users[j].userId.value in p.tables.users
    decreases |users|
  {
    if |users| == 0 then Progress(t0, true)
    else
      var p := Migrated(t0, users[..|users| - 1], now, fails);
      if !p.ok then p
      else MigrateOne(p.tables, |users| - 1, users[|users| - 1], now(|users| - 1), fails)
  }

  /** `JSON.parse(content || '[]')`: an empty file is an empty list. */
  function ParseUsers(text: string, parse: string -> Option<seq<UserRecord>>): (r: Option<seq<UserRecord>>)
    ensures text == "" ==> r == Some([])
  {
    if text == "" then Some([]) else parse(text)
  }

  /** The database behind the pool. */
  class Database {
    var users: map<string, UserRow>
    var roles: map<string, string>

    constructor (initial: Tables)
      ensures users == initial.users && roles == initial.roles
    {
      users := initial.users;
      roles := initial.roles;
    }

    function Contents(): Tables
      reads this
    {
      Tables(users, roles)
    }

    /** `SELECT user_id FROM users WHERE user_id = ? LIMIT 1`; `found` when
        a row came back. NULL matches nothing. */
    method SelectUser(id: Option<string>, error: bool) returns (ok: bool, found: bool)
      ensures ok == !error
      ensures found <==> ok && id.Some? && id.value in users
    {
      ok := !error;
      found := ok && id.Some? && id.value in users;
    }

    /** `INSERT INTO users ...`; refused on a NULL or duplicate key. */
    method Insert(id: Option<string>, row: UserRow, error: bool) returns (ok: bool)
      modifies this
      ensures ok <==> !error && id.Some? && id.value !in old(users)
      ensures users == (if ok then old(users)[id.value := row] else old(users))
      ensures roles == old(roles)
    {
      ok := !error && id.Some? && id.value !in users;
      if ok {
        users := users[id.value := row];
      }
    }

    /** `INSERT INTO roles ... ON DUPLICATE KEY UPDATE role = VALUES(role)`. */
    method UpsertRole(id: string, role: string, error: bool) returns (ok: bool)
      modifies this
      ensures ok == !error
      ensures roles == (if ok then old(roles)[id := role] else old(roles))
      ensures users == old(users)
    {
      ok := !error;
      if ok {
        roles := roles[id := role];
      }
    }
  }

  /** The pool: how many connections are checked out. */
  class ConnectionPool {
    var leased: nat

    constructor ()
      ensures leased == 0
    {
      leased := 0;
    }

    /** `pool.getConnection()`; false when no connection can be made. */
    method GetConnection(available: bool) returns (ok: bool)
      modifies this
      ensures ok == available
      ensures leased == old(leased) + (if ok then 1 else 0)
    {
      ok := available;
      if ok {
        leased := leased + 1;
      }
    }

    /** `conn.release()`. */
    method Release()
      requires leased > 0
      modifies this
      ensures leased == old(leased) - 1
    {
      leased := leased - 1;
    }
  }

  /** The body of the `for` loop for record `i`. */
  method MigrateRecord(db: Database, i: nat, u: UserRecord, now: string, fails: Failures) returns (ok: bool)
    modifies db
    ensures MigrateOne(old(db.Contents()), i, u, now, fails) == Progress(db.Contents(), ok)
  {
    var found;
    ok, found := db.SelectUser(u.userId, fails(i, Lookup));
    if !ok || found {
      return;
    }
    ok := db.Insert(u.userId, NewRow(u, now), fails(i, InsertUser));
    if ok && i == 0 {
      ok := db.UpsertRole(u.userId.value, "admin", fails(i, GrantAdmin));
    }
  }

  /** The script. With no pool (null) or no users.json it exits with 1
      before touching the database; a file that does not parse, or a
      connection that cannot be made, rejects the promise before the `try`,
      and Node exits with 1. Otherwise the tables end as `Migrated` leaves
      them, the connection is released whether or not a query failed, and
      the exit code is 0. */
  method Migrate(db: Database, pool: ConnectionPool?, file: Option<string>,
                 parse: string -> Option<seq<UserRecord>>, connectionAvailable: bool,
                 now: nat -> string, fails: Failures)
    returns (exitCode: int)
    modifies db, pool
    ensures pool != null ==> pool.leased == old(pool.leased)
    ensures pool == null || file.None? || ParseUsers(file.value, parse).None? || !connectionAvailable ==>
      exitCode == 1 && db.Contents() == old(db.Contents())
    ensures pool != null && file.Some? && ParseUsers(file.value, parse).Some? && connectionAvailable ==>
      exitCode == 0 && db.Contents() == Migrated(old(db.Contents()), ParseUsers(file.value, parse).value, now, fails).tables
  {
    if pool == null || file.None? {
      return 1;
    }
    var parsed := ParseUsers(file.value, parse);
    if parsed.None? {
      return 1;
    }
    var users := parsed.value;
    var acquired := pool.GetConnection(connectionAvailable);
    if !acquired {
      return 1;
    }
    ghost var t0 := db.Contents();
    var ok := true;
    var i := 0;
    while i < |users| && ok
      invariant 0 <= i <= |users|
      invariant pool.leased == old(pool.leased) + 1
      invariant Migrated(t0, users[..i], now, fails) == Progress(db.Contents(), ok)
    {
      assert users[..i + 1][..i] == users[..i];
      ok := MigrateRecord(db, i, users[i], now(i), fails);
      i := i + 1;
    }
    FailureStopsMigration(t0, users, now, fails, i);
    pool.Release();
    exitCode := 0;
  }

  // ---------------------------------------------------------------------
  // Properties of a run

  /** After the first error the remaining records change nothing (the
      `catch` is outside the loop). */
  lemma {:induction false} FailureStopsMigration(t0: Tables, users: seq<UserRecord>, now: nat -> string, fails: Failures, i: nat)
    requires i <= |users|
    requires !Migrated(t0, users[..i], now, fails).ok || i == |users|
    ensures Migrated(t0, users, now, fails) == Migrated(t0, users[..i], now, fails)
    decreases |users| - i
  {
    if i == |users| {
      assert users[..i] == users;
    } else {
      assert users[..i + 1][..i] == users[..i];
      FailureStopsMigration(t0, users, now, fails, i + 1);
    }
  }

  /** A successful run has successful prefixes. */
  lemma {:induction false} SuccessfulPrefix(t0: Tables, users: seq<UserRecord>, now: nat -> string, fails: Failures, k: nat)
    requires k <= |users|
    requires Migrated(t0, users, now, fails).ok
    ensures Migrated(t0, users[..k], now, fails).ok
  {
    if !Migrated(t0, users[..k], now, fails).ok {
      FailureStopsMigration(t0, users, now, fails, k);
    }
  }

  /** One record never removes or changes a row or a role. */
  lemma MigrateOneKeeps(t: Tables, i: nat, u: UserRecord, now: string, fails: Failures)
    ensures var r := MigrateOne(t, i, u, now, fails).tables;
      && (forall id | id in t.users :: id in r.users && r.users[id] == t.users[id])
      && (forall id | id in t.roles :: id in r.roles && (r.roles[id] == t.roles[id] || r.roles[id] == "admin"))
  {
  }

  /** Rows present after the first `k` records stay as they are through the
      rest of the run, even when a later query fails; with `k == 0` this
      says existing rows are never overwritten. */
  lemma {:induction false} RowsPersist(t0: Tables, users: seq<UserRecord>, now: nat -> string, fails: Failures, k: nat)
    requires k <= |users|
    ensures var before := Migrated(t0, users[..k], now, fails).tables.users;
      var after := Migrated(t0, users, now, fails).tables.users;
      forall id | id in before :: id in after && after[id] == before[id]
    decreases |users|
  {
    if k == |users| {
      assert users[..k] == users;
    } else {
      var front := users[..|users| - 1];
      assert front[..k] == users[..k];
      RowsPersist(t0, front, now, fails, k);
      var p := Migrated(t0, front, now, fails);
      if p.ok {
        MigrateOneKeeps(p.tables, |users| - 1, users[|users| - 1], now(|users| - 1), fails);
      }
    }
  }

  /** Every row the run adds belongs to the id of some record. */
  lemma {:induction false} RowsComeFromRecords(t0: Tables, users: seq<UserRecord>, now: nat -> string, fails: Failures)
    ensures forall id | id in Migrated(t0, users, now, fails).tables.users ::
      id in t0.users || exists j | 0 <= j < |users| :: users[j].userId == Some(id)
    decreases |users|
  {
    if |users| > 0 {
      var front := users[..|users| - 1];
      RowsComeFromRecords(t0, front, now, fails);
      forall id | id in Migrated(t0, users, now, fails).tables.users
        ensures id in t0.users || exists j | 0 <= j < |users| :: users[j].userId == Some(id)
      {
        if id !in t0.users && id !in Migrated(t0, front, now, fails).tables.users {
          assert users[|users| - 1].userId == Some(id);
        } else if id !in t0.users {
          var j :| 0 <= j < |front| && front[j].userId == Some(id);
          assert users[j] == front[j];
        }
      }
    }
  }

  /** Within one file the first occurrence of an id wins: when the run gets
      through the record carrying it (whatever happens afterwards) and the
      id was not in the table before, its row is the one built from the
      first record carrying it. */
  lemma {:induction false} FirstOccurrenceWins(t0: Tables, users: seq<UserRecord>, now: nat -> string, fails: Failures, i: nat, id: string)
    requires i < |users| && users[i].userId == Some(id) && id !in t0.users
    requires forall j | 0 <= j < i :: users[j].userId != Some(id)
    requires Migrated(t0, users[..i + 1], now, fails).ok
    ensures var r := Migrated(t0, users, now, fails).tables.users;
      id in r && r[id] == NewRow(users[i], now(i))
  {
    var pre := users[..i + 1];
    assert pre[..i] == users[..i];
    assert pre[i] == users[i];
    RowsComeFromRecords(t0, users[..i], now, fails);
    SuccessfulPrefix(t0, pre, now, fails, i);
    RowsPersist(t0, users, now, fails, i + 1);
  }


  /** The roles table changes at most once, by making the id of record 0
      `admin`, and only when that record was newly inserted. */
  lemma {:induction false} AdminOnlyFirst(t0: Tables, users: seq<UserRecord>, now: nat -> string, fails: Failures)
    ensures var r := Migrated(t0, users, now, fails).tables.roles;
      r == t0.roles
      || (|users| > 0 && users[0].userId.Some? && users[0].userId.value !in t0.users
          && r == t0.roles[users[0].userId.value := "admin"])
    decreases |users|
  {
    if |users| > 1 {
      var front := users[..|users| - 1];
      AdminOnlyFirst(t0, front, now, fails);
      assert front[0] == users[0];
    } else if |users| == 1 {
      assert users[..0] == [];
    }
  }

  /** When record 0 is migrated without error and its id is new, that id
      ends `admin`, whatever happens to the later records. */
  lemma {:induction false} FirstNewUserIsAdmin(t0: Tables, users: seq<UserRecord>, now: nat -> string, fails: Failures)
    requires |users| > 0 && users[0].userId.Some? && users[0].userId.value !in t0.users
    requires Migrated(t0, users[..1], now, fails).ok
    ensures var r := Migrated(t0, users, now, fails).tables.roles;
      r == t0.roles[users[0].userId.value := "admin"]
  {
    assert users[..1][..0] == [];
    ghost var p1 := Migrated(t0, users[..1], now, fails);
    assert p1.tables.roles == t0.roles[users[0].userId.value := "admin"];
    AdminOnlyFirst(t0, users, now, fails);
    if Migrated(t0, users, now, fails).tables.roles == t0.roles {
      RolesPersistAdmin(t0, users, now, fails);
    }
  }

  /** Once record 0 has made its id `admin`, later records keep it. */
  lemma {:induction false} RolesPersistAdmin(t0: Tables, users: seq<UserRecord>, now: nat -> string, fails: Failures)
    requires |users| > 0 && users[0].userId.Some?
    requires var p1 := Migrated(t0, users[..1], now, fails).tables.roles;
      users[0].userId.value in p1 && p1[users[0].userId.value] == "admin"
    ensures var r := Migrated(t0, users, now, fails).tables.roles;
      users[0].userId.value in r && r[users[0].userId.value] == "admin"
    decreases |users|
  {
    if |users| == 1 {
      assert users[..1] == users;
    } else {
      var front := users[..|users| - 1];
      assert front[..1] == users[..1] && front[0] == users[0];
      RolesPersistAdmin(t0, front, now, fails);
      var p := Migrated(t0, front, now, fails);
      if p.ok {
        MigrateOneKeeps(p.tables, |users| - 1, users[|users| - 1], now(|users| - 1), fails);
      }
    }
  }
}
