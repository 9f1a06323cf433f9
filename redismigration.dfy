/** migrate-users-to-redis.js: copy users.json into the key-value store, one
    record after the other, as a hash `user:<id>`, a role key
    `user:<id>:role`, and the lookup keys `username:<name>` and
    `email:<email>`. The store is a map from keys to values; the clock and
    `JSON.parse` are parameters. */
module RedisMigration {
  import opened Js
  import opened UserRecords

  /** A stored value: a hash of fields, or a plain string. */
  datatype RedisValue = Hash(fields: map<string, string>) | Str(s: string)

  /** One store command the script issues. */
  datatype Write = HSet(key: string, fields: map<string, string>) | SetKey(key: string, value: string)

  /** The effect of one command: `HSET` merges the fields into the hash
      (creating it), `SET` replaces whatever the key held. `HSET` on a key
      that holds a string fails (Redis's WRONGTYPE reply): None. */
  function ApplyWrite(db: map<string, RedisValue>, w: Write): Option<map<string, RedisValue>> {
    match w
    case HSet(k, f) =>
      if k in db && db[k].Str? then None
      else Some(db[k := Hash((if k in db then db[k].fields else map[]) + f)])
    case SetKey(k, v) => Some(db[k := Str(v)])
  }

  /** The store after a sequence of commands, and whether all of them
      succeeded; the first failure stops the run (the `for` loop is inside
      one `try`). */
  datatype RunResult = RunResult(db: map<string, RedisValue>, ok: bool)

  function RunWrites(db: map<string, RedisValue>, ws: seq<Write>): RunResult {
    if |ws| == 0 then RunResult(db, true)
    else
      var r := RunWrites(db, ws[..|ws| - 1]);
      if !r.ok then r
      else match ApplyWrite(r.db, ws[|ws| - 1])
        case None => RunResult(r.db, false)
        case Some(d) => RunResult(d, true)
  }

  /** `u.userId || u.user_id`. */
  function UserIdOf(u: UserRecord): Option<string> {
    Or(u.userId, u.user_id)
  }

  function UserKey(u: UserRecord): string {
    "user:" + Interpolate(UserIdOf(u))
  }

  function RoleKey(u: UserRecord): string {
    "user:" + Interpolate(UserIdOf(u)) + ":role"
  }

  /** `username:${u.user || u.username}`, not lower-cased. */
  function UsernameKey(u: UserRecord): string {
    "username:" + Interpolate(Or(u.user, u.username))
  }

  function EmailKey(u: UserRecord): string {
    "email:" + Interpolate(u.email)
  }

  /** The hash written for a record: each field falls back along its
      aliases, then to `''` (or, for `created_at`, to the clock). */
  function HashFields(u: UserRecord, now: string): (f: map<string, string>)
    ensures f.Keys == {"user_id", "username", "email", "password", "created_at"}
    ensures f["user_id"] == Interpolate(UserIdOf(u))
    ensures f["username"] == if Truthy(u.user) then u.user.value else if Truthy(u.username) then u.username.value else ""
    ensures f["email"] == if Truthy(u.email) then u.email.value else ""
    ensures f["password"] == if Truthy(u.pass) then u.pass.value else if Truthy(u.password) then u.password.value else ""
    ensures f["created_at"] ==
      if Truthy(u.createdAt) then u.createdAt.value else if Truthy(u.created_at) then u.created_at.value else now
  {
    map[
      "user_id" := Interpolate(UserIdOf(u)),
      "username" := OrDefault(Or(u.user, u.username), ""),
      "email" := OrDefault(u.email, ""),
      "password" := OrDefault(Or(u.pass, u.password), ""),
      "created_at" := OrDefault(Or(u.createdAt, u.created_at), now)]
  }

  /** `i === 0 ? 'admin' : (u.role || 'user')`. */
  function RoleFor(i: nat, u: UserRecord): (role: string)
    ensures role != ""
    ensures i == 0 ==> role == "admin"
    ensures i > 0 && Truthy(u.role) ==> role == u.role.value
    ensures i > 0 && !Truthy(u.role) ==> role == "user"
  {
    if i == 0 then "admin" else OrDefault(u.role, "user")
  }

  /** The four commands issued for the record at index `i`. */
  function RecordWrites(i: nat, u: UserRecord, now: string): (ws: seq<Write>)
    ensures |ws| == 4 && ws[0].HSet? && ws[1].SetKey? && ws[2].SetKey? && ws[3].SetKey?
  {
    [ HSet(UserKey(u), HashFields(u, now)),
      SetKey(RoleKey(u), RoleFor(i, u)),
      SetKey(UsernameKey(u), Interpolate(UserIdOf(u))),
      SetKey(EmailKey(u), Interpolate(UserIdOf(u))) ]
  }

  /** A record's lookup keys point at the id its hash stores, and the hash
      lives under `user:` and that id. */
  lemma LookupsPointToHash(i: nat, u: UserRecord, now: string)
    ensures var ws := RecordWrites(i, u, now);
      && "user_id" in ws[0].fields && ws[0].key == "user:" + ws[0].fields["user_id"]
      && ws[1].key == ws[0].key + ":role"
      && ws[2].value == ws[0].fields["user_id"] && ws[3].value == ws[0].fields["user_id"]
  {
  }

  /** Every command the script issues for `users`, in file order; `now(i)`
      is the clock reading while record `i` is written. */
  function Plan(users: seq<UserRecord>, now: nat -> string): (ws: seq<Write>)
    ensures |ws| == 4 * |users|
    decreases |users|
  {
    if |users| == 0 then []
    else Plan(users[..|users| - 1], now) + RecordWrites(|users| - 1, users[|users| - 1], now(|users| - 1))
  }

  /** `JSON.parse(fs.readFileSync(USERS_FILE))`: an empty file does not
      parse. */
  function ParseUsers(text: string, parse: string -> Option<seq<UserRecord>>): (r: Option<seq<UserRecord>>)
    ensures text == "" ==> r == None
  {
    if text == "" then None else parse(text)
  }

  /** The key-value store the script writes to. */
  class RedisStore {
    var data: map<string, RedisValue>

    constructor (initial: map<string, RedisValue>)
      ensures data == initial
    {
      data := initial;
    }

    /** `hSet(key, fields)`; false when the store answers with an error. */
    method WriteHash(key: string, fields: map<string, string>) returns (ok: bool)
      modifies this
      ensures ok == ApplyWrite(old(data), HSet(key, fields)).Some?
      ensures ok ==> Some(data) == ApplyWrite(old(data), HSet(key, fields))
      ensures !ok ==> data == old(data)
    {
      if key in data && data[key].Str? {
        ok := false;
      } else {
        var existing := if key in data then data[key].fields else map[];
        data := data[key := Hash(existing + fields)];
        ok := true;
      }
    }

    /** `set(key, value)`. */
    method WriteString(key: string, value: string)
      modifies this
      ensures data == old(data)[key := Str(value)]
    {
      data := data[key := Str(value)];
    }
  }

  /** Once a run has failed, further commands change nothing. */
  lemma {:induction false} FailureIsFinal(db: map<string, RedisValue>, ws: seq<Write>, more: seq<Write>)
    requires !RunWrites(db, ws).ok
    ensures RunWrites(db, ws + more) == RunWrites(db, ws)
    decreases |more|
  {
    if |more| == 0 {
      assert ws + more == ws;
    } else {
      var front := more[..|more| - 1];
      assert (ws + more)[..|ws + more| - 1] == ws + front;
      FailureIsFinal(db, ws, front);
    }
  }

  /** One more command extends the run by one step. */
  lemma RunOneMore(db: map<string, RedisValue>, ws: seq<Write>, w: Write)
    ensures var r := RunWrites(db, ws);
      RunWrites(db, ws + [w]) ==
        if !r.ok then r
        else match ApplyWrite(r.db, w)
          case None => RunResult(r.db, false)
          case Some(d) => RunResult(d, true)
  {
    assert (ws + [w])[..|ws|] == ws;
  }

  /** The plan for one more record is the old plan plus its four commands. */
  lemma PlanOneMore(users: seq<UserRecord>, now: nat -> string, i: nat)
    requires i < |users|
    ensures Plan(users[..i + 1], now) == Plan(users[..i], now) + RecordWrites(i, users[i], now(i))
  {
    assert users[..i + 1][..i] == users[..i];
  }

  /** A failure on a record stops the script: the rest of users.json adds
      nothing. */
  lemma {:induction false} FailureStopsPlan(db: map<string, RedisValue>, users: seq<UserRecord>, now: nat -> string, i: nat)
    requires i <= |users|
    requires !RunWrites(db, Plan(users[..i], now)).ok
    ensures RunWrites(db, Plan(users, now)) == RunWrites(db, Plan(users[..i], now))
    decreases |users| - i
  {
    if i < |users| {
      PlanOneMore(users, now, i);
      FailureIsFinal(db, Plan(users[..i], now), RecordWrites(i, users[i], now(i)));
      FailureStopsPlan(db, users, now, i + 1);
    } else {
      assert users[..i] == users;
    }
  }

  /** A `set` after a successful run succeeds and replaces the key. */
  lemma SetStep(db0: map<string, RedisValue>, ws: seq<Write>, w: Write)
    requires w.SetKey? && RunWrites(db0, ws).ok
    ensures RunWrites(db0, ws + [w]) == RunResult(RunWrites(db0, ws).db[w.key := Str(w.value)], true)
  {
    RunOneMore(db0, ws, w);
  }

  /** The first `k + 1` commands of a block are its first `k` and then its
      `k`-th. */
  lemma TakeOneMore(before: seq<Write>, ws: seq<Write>, k: nat)
    requires k < |ws|
    ensures before + ws[..k + 1] == (before + ws[..k]) + [ws[k]]
  {
    assert ws[..k + 1] == ws[..k] + [ws[k]];
  }

  /** A block of one `hSet` and three `set`s after a successful run: a
      failing `hSet` stops it with the store unchanged, otherwise the three
      keys are replaced in order. */
  lemma {:induction false} HashThenSets(db0: map<string, RedisValue>, before: seq<Write>, ws: seq<Write>)
    requires |ws| == 4 && ws[0].HSet? && ws[1].SetKey? && ws[2].SetKey? && ws[3].SetKey?
    requires RunWrites(db0, before).ok
    ensures var db := RunWrites(db0, before).db;
      RunWrites(db0, before + ws) ==
        match ApplyWrite(db, ws[0])
        case None => RunResult(db, false)
        case Some(d) =>
          RunResult(d[ws[1].key := Str(ws[1].value)][ws[2].key := Str(ws[2].value)][ws[3].key := Str(ws[3].value)], true)
  {
    assert ws[..4] == ws;
    assert before + ws[..0] == before;
    TakeOneMore(before, ws, 0);
    RunOneMore(db0, before, ws[0]);
    if !RunWrites(db0, before + ws[..1]).ok {
      FailureIsFinal(db0, before + ws[..1], ws[1..]);
      assert before + ws[..1] + ws[1..] == before + ws;
    } else {
      var d0 := ApplyWrite(RunWrites(db0, before).db, ws[0]).value;
      assert RunWrites(db0, before + ws[..1]) == RunResult(d0, true);
      TakeOneMore(before, ws, 1);
      SetStep(db0, before + ws[..1], ws[1]);
      var d1 := d0[ws[1].key := Str(ws[1].value)];
      assert RunWrites(db0, before + ws[..2]) == RunResult(d1, true);
      TakeOneMore(before, ws, 2);
      SetStep(db0, before + ws[..2], ws[2]);
      var d2 := d1[ws[2].key := Str(ws[2].value)];
      assert RunWrites(db0, before + ws[..3]) == RunResult(d2, true);
      TakeOneMore(before, ws, 3);
      SetStep(db0, before + ws[..3], ws[3]);
    }
  }

  /** The body of the `for` loop: the four commands for record `i`. Only
      `hSet` can fail in this model (a `set` replaces any value), and a
      failure skips the remaining commands. */
  method WriteRecord(store: RedisStore, i: nat, u: UserRecord, now: string,
                     ghost db0: map<string, RedisValue>, ghost before: seq<Write>)
    returns (ok: bool)
    requires RunWrites(db0, before) == RunResult(store.data, true)
    modifies store
    ensures RunWrites(db0, before + RecordWrites(i, u, now)) == RunResult(store.data, ok)
  {
    HashThenSets(db0, before, RecordWrites(i, u, now));
    var id := Interpolate(UserIdOf(u));
    ok := store.WriteHash(UserKey(u), HashFields(u, now));
    if !ok {
      return;
    }
    store.WriteString(RoleKey(u), RoleFor(i, u));
    store.WriteString(UsernameKey(u), id);
    store.WriteString(EmailKey(u), id);
  }

  /** The script: nothing is written when users.json is missing (exit code
      0) or does not parse (exit code 1); otherwise the store ends as the
      plan's run leaves it, exit code 0 when every command succeeded and 1
      after the first failure. `file` is users.json's text, None when it
      does not exist. */
  method MigrateUsersToRedis(store: RedisStore, file: Option<string>, parse: string -> Option<seq<UserRecord>>, now: nat -> string)
    returns (exitCode: int)
    modifies store
    ensures file.None? ==> exitCode == 0 && store.data == old(store.data)
    ensures file.Some? && ParseUsers(file.value, parse).None? ==> exitCode == 1 && store.data == old(store.data)
    ensures file.Some? && ParseUsers(file.value, parse).Some? ==>
      var r := RunWrites(old(store.data), Plan(ParseUsers(file.value, parse).value, now));
      store.data == r.db && exitCode == (if r.ok then 0 else 1)
  {
    if file.None? {
      return 0;
    }
    var parsed := ParseUsers(file.value, parse);
    if parsed.None? {
      return 1;
    }
    var users := parsed.value;
    ghost var db0 := store.data;
    var ok := true;
    var i := 0;
    while i < |users| && ok
      invariant 0 <= i <= |users|
      invariant RunWrites(db0, Plan(users[..i], now)) == RunResult(store.data, ok)
    {
      PlanOneMore(users, now, i);
      ok := WriteRecord(store, i, users[i], now(i), db0, Plan(users[..i], now));
      i := i + 1;
    }
    if ok {
      assert users[..i] == users;
    } else {
      FailureStopsPlan(db0, users, now, i);
    }
    exitCode := if ok then 0 else 1;
  }

  // ---------------------------------------------------------------------
  // What the store holds after a run

  /** The last command in `ws` that addresses key `k`. */
  function LastWriteTo(ws: seq<Write>, k: string): (r: Option<Write>)
    ensures r.Some? ==> r.value.key == k
  {
    if |ws| == 0 then None
    else if ws[|ws| - 1].key == k then Some(ws[|ws| - 1])
    else LastWriteTo(ws[..|ws| - 1], k)
  }

  lemma {:induction false} LastWriteToAppend(a: seq<Write>, b: seq<Write>, k: string)
    ensures LastWriteTo(a + b, k) == if LastWriteTo(b, k).Some? then LastWriteTo(b, k) else LastWriteTo(a, k)
    decreases |b|
  {
    if |b| == 0 {
      assert a + b == a;
    } else {
      assert (a + b)[..|a + b| - 1] == a + b[..|b| - 1];
      LastWriteToAppend(a, b[..|b| - 1], k);
    }
  }

  /** After a successful run, a key holds what the last command addressing
      it put there: the string of a `SET`, or a hash containing the fields of
      an `HSET`; a key no command addressed is as it was. */
  lemma {:induction false} RunShowsLastWrite(db: map<string, RedisValue>, ws: seq<Write>, k: string)
    requires RunWrites(db, ws).ok
    ensures var r := RunWrites(db, ws).db; var lw := LastWriteTo(ws, k);
      && (lw.None? ==> (k in r <==> k in db) && (k in db ==> r[k] == db[k]))
      && (lw.Some? && lw.value.SetKey? ==> k in r && r[k] == Str(lw.value.value))
      && (lw.Some? && lw.value.HSet? ==>
            k in r && r[k].Hash? && forall f | f in lw.value.fields :: f in r[k].fields && r[k].fields[f] == lw.value.fields[f])
    decreases |ws|
  {
    if |ws| > 0 {
      var front := ws[..|ws| - 1];
      var prev := RunWrites(db, front);
      assert prev.ok;
      var last := ws[|ws| - 1];
      var d := ApplyWrite(prev.db, last).value;
      assert RunWrites(db, ws).db == d;
      if last.key != k {
        RunShowsLastWrite(db, front, k);
        assert k in d <==> k in prev.db;
        assert k in prev.db ==> d[k] == prev.db[k];
      }
    }
  }

  /** The keys a record's four commands address. */
  function RecordKeys(u: UserRecord): set<string> {
    {UserKey(u), RoleKey(u), UsernameKey(u), EmailKey(u)}
  }

  lemma PrefixChar(p: string, x: string, i: nat)
    requires i < |p|
    ensures |p + x| > i && (p + x)[i] == p[i]
  {
  }

  /** The key families never meet: `user:` keys, `username:` keys and
      `email:` keys differ within their first five characters, and a
      record's hash key is shorter than its own role key. */
  lemma KeyFamiliesDisjoint(u: UserRecord, v: UserRecord)
    ensures UsernameKey(u) != UserKey(v) && UsernameKey(u) != RoleKey(v) && UsernameKey(u) != EmailKey(v)
    ensures EmailKey(u) != UserKey(v) && EmailKey(u) != RoleKey(v) && EmailKey(u) != UsernameKey(v)
    ensures UserKey(u) != RoleKey(u)
  {
    var idu, idv := Interpolate(UserIdOf(u)), Interpolate(UserIdOf(v));
    PrefixChar("user:", idv, 4);
    PrefixChar("user:", idv, 0);
    PrefixChar("user:" + idv, ":role", 4);
    PrefixChar("user:" + idv, ":role", 0);
    PrefixChar("username:", Interpolate(Or(u.user, u.username)), 4);
    PrefixChar("username:", Interpolate(Or(v.user, v.username)), 0);
    PrefixChar("email:", Interpolate(u.email), 0);
    assert |RoleKey(u)| == |UserKey(u)| + 5;
  }

  /** The last of one record's commands addressing `k`. */
  lemma RecordLastWrite(i: nat, u: UserRecord, now: string, k: string)
    ensures var ws := RecordWrites(i, u, now);
      LastWriteTo(ws, k) ==
        if k == EmailKey(u) then Some(ws[3])
        else if k == UsernameKey(u) then Some(ws[2])
        else if k == RoleKey(u) then Some(ws[1])
        else if k == UserKey(u) then Some(ws[0])
        else None
  {
    var ws := RecordWrites(i, u, now);
    assert ws[..3][..2][..1][..0] == [];
    assert LastWriteTo(ws[..3][..2][..1], k) == if k == UserKey(u) then Some(ws[0]) else None;
    assert LastWriteTo(ws[..3][..2], k) == if k == RoleKey(u) then Some(ws[1]) else LastWriteTo(ws[..3][..2][..1], k);
    assert LastWriteTo(ws[..3], k) == if k == UsernameKey(u) then Some(ws[2]) else LastWriteTo(ws[..3][..2], k);
  }

  /** The commands of record `j`, as a total function of `j`. */
  function Blocks(users: seq<UserRecord>, now: nat -> string): nat -> seq<Write> {
    (j: nat) => if j < |users| then RecordWrites(j, users[j], now(j)) else []
  }

  /** The first `n` blocks, one after the other. */
  function Concat(blocks: nat -> seq<Write>, n: nat): seq<Write> {
    if n == 0 then [] else Concat(blocks, n - 1) + blocks(n - 1)
  }

  /** The plan of a prefix is the concatenation of its records' blocks. */
  lemma {:induction false} PlanIsConcat(users: seq<UserRecord>, now: nat -> string, m: nat)
    requires m <= |users|
    ensures Plan(users[..m], now) == Concat(Blocks(users, now), m)
  {
    if m > 0 {
      PlanIsConcat(users, now, m - 1);
      assert users[..m][..m - 1] == users[..m - 1];
      assert Blocks(users, now)(m - 1) == RecordWrites(m - 1, users[m - 1], now(m - 1));
    }
  }

  /** The last command on `k` in a concatenation comes from the last block
      addressing `k`. */
  lemma {:induction false} ConcatLastWrite(blocks: nat -> seq<Write>, n: nat, i: nat, k: string)
    requires i < n
    requires forall j | i < j < n :: LastWriteTo(blocks(j), k).None?
    ensures LastWriteTo(Concat(blocks, n), k) ==
      if LastWriteTo(blocks(i), k).Some? then LastWriteTo(blocks(i), k) else LastWriteTo(Concat(blocks, i), k)
  {
    LastWriteToAppend(Concat(blocks, n - 1), blocks(n - 1), k);
    if i < n - 1 {
      ConcatLastWrite(blocks, n - 1, i, k);
    }
  }

  /** The last command of the whole plan addressing `k` comes from the last
      record that addresses `k` at all. */
  lemma {:induction false} PlanLastWrite(users: seq<UserRecord>, now: nat -> string, i: nat, k: string)
    requires i < |users|
    requires forall j | i < j < |users| :: k !in RecordKeys(users[j])
    ensures LastWriteTo(Plan(users, now), k) ==
      if k in RecordKeys(users[i]) then LastWriteTo(RecordWrites(i, users[i], now(i)), k)
      else LastWriteTo(Plan(users[..i], now), k)
  {
    var blocks := Blocks(users, now);
    forall j | i <= j < |users|
      ensures blocks(j) == RecordWrites(j, users[j], now(j))
      ensures LastWriteTo(blocks(j), k).None? <==> k !in RecordKeys(users[j])
    {
      RecordLastWrite(j, users[j], now(j), k);
    }
    ConcatLastWrite(blocks, |users|, i, k);
    PlanIsConcat(users, now, |users|);
    PlanIsConcat(users, now, i);
    assert users[..|users|] == users;
  }

  /** After a successful run, a key of record `i` that no later record
      addresses holds what record `i`'s last command on it wrote. */
  lemma LastRecordDecides(db: map<string, RedisValue>, users: seq<UserRecord>, now: nat -> string, i: nat, k: string)
    requires RunWrites(db, Plan(users, now)).ok
    requires i < |users| && k in RecordKeys(users[i])
    requires forall j | i < j < |users| :: k !in RecordKeys(users[j])
    ensures var r := RunWrites(db, Plan(users, now)).db; var lw := LastWriteTo(RecordWrites(i, users[i], now(i)), k);
      && lw.Some?
      && (lw.value.SetKey? ==> k in r && r[k] == Str(lw.value.value))
      && (lw.value.HSet? ==>
            k in r && r[k].Hash? && forall f | f in lw.value.fields :: f in r[k].fields && r[k].fields[f] == lw.value.fields[f])
  {
    PlanLastWrite(users, now, i, k);
    RecordLastWrite(i, users[i], now(i), k);
    RunShowsLastWrite(db, Plan(users, now), k);
  }

  /** Records are applied in file order: when the run succeeds, the
      `username:` key of a record that no later record shares maps to that
      record's id — a later record with the same name overwrites an earlier
      one's mapping. */
  lemma {:induction false} LaterUsernameWins(db: map<string, RedisValue>, users: seq<UserRecord>, now: nat -> string, i: nat)
    requires RunWrites(db, Plan(users, now)).ok
    requires i < |users|
    requires forall j | i < j < |users| :: UsernameKey(users[j]) != UsernameKey(users[i])
    ensures var r := RunWrites(db, Plan(users, now)).db;
      UsernameKey(users[i]) in r && r[UsernameKey(users[i])] == Str(Interpolate(UserIdOf(users[i])))
  {
    var k := UsernameKey(users[i]);
    forall j | i < j < |users|
      ensures k !in RecordKeys(users[j])
    {
      KeyFamiliesDisjoint(users[i], users[j]);
    }
    KeyFamiliesDisjoint(users[i], users[i]);
    var ws := RecordWrites(i, users[i], now(i));
    RecordLastWrite(i, users[i], now(i), k);
    assert LastWriteTo(ws, k) == Some(ws[2]);
    LastRecordDecides(db, users, now, i, k);
  }

  /** The same for the `email:` keys. */
  lemma {:induction false} LaterEmailWins(db: map<string, RedisValue>, users: seq<UserRecord>, now: nat -> string, i: nat)
    requires RunWrites(db, Plan(users, now)).ok
    requires i < |users|
    requires forall j | i < j < |users| :: EmailKey(users[j]) != EmailKey(users[i])
    ensures var r := RunWrites(db, Plan(users, now)).db;
      EmailKey(users[i]) in r && r[EmailKey(users[i])] == Str(Interpolate(UserIdOf(users[i])))
  {
    var k := EmailKey(users[i]);
    forall j | i < j < |users|
      ensures k !in RecordKeys(users[j])
    {
      KeyFamiliesDisjoint(users[i], users[j]);
    }
    var ws := RecordWrites(i, users[i], now(i));
    RecordLastWrite(i, users[i], now(i), k);
    assert LastWriteTo(ws, k) == Some(ws[3]);
    LastRecordDecides(db, users, now, i, k);
  }

  /** When the run succeeds, the role key of a record that no later record
      addresses holds `RoleFor(i, ...)`: `admin` for the record at index 0
      whatever its own `role`, `u.role || 'user'` for every other. */
  lemma {:induction false} RoleStored(db: map<string, RedisValue>, users: seq<UserRecord>, now: nat -> string, i: nat)
    requires RunWrites(db, Plan(users, now)).ok
    requires i < |users|
    requires forall j | i < j < |users| :: RoleKey(users[j]) != RoleKey(users[i]) && UserKey(users[j]) != RoleKey(users[i])
    ensures var r := RunWrites(db, Plan(users, now)).db;
      RoleKey(users[i]) in r && r[RoleKey(users[i])] == Str(RoleFor(i, users[i]))
    ensures i == 0 ==> RunWrites(db, Plan(users, now)).db[RoleKey(users[0])] == Str("admin")
  {
    var k := RoleKey(users[i]);
    forall j | i < j < |users|
      ensures k !in RecordKeys(users[j])
    {
      KeyFamiliesDisjoint(users[j], users[i]);
    }
    KeyFamiliesDisjoint(users[i], users[i]);
    var ws := RecordWrites(i, users[i], now(i));
    RecordLastWrite(i, users[i], now(i), k);
    assert LastWriteTo(ws, k) == Some(ws[1]);
    LastRecordDecides(db, users, now, i, k);
  }

  /** When the run succeeds, the hash of a record that no later record
      addresses holds that record's fields with their fallbacks. */
  lemma {:induction false} HashStored(db: map<string, RedisValue>, users: seq<UserRecord>, now: nat -> string, i: nat)
    requires RunWrites(db, Plan(users, now)).ok
    requires i < |users|
    requires forall j | i < j < |users| :: UserKey(users[j]) != UserKey(users[i]) && RoleKey(users[j]) != UserKey(users[i])
    ensures var r := RunWrites(db, Plan(users, now)).db; var f := HashFields(users[i], now(i));
      UserKey(users[i]) in r && r[UserKey(users[i])].Hash?
      && forall name | name in f :: name in r[UserKey(users[i])].fields && r[UserKey(users[i])].fields[name] == f[name]
  {
    var k := UserKey(users[i]);
    forall j | i < j < |users|
      ensures k !in RecordKeys(users[j])
    {
      KeyFamiliesDisjoint(users[j], users[i]);
    }
    KeyFamiliesDisjoint(users[i], users[i]);
    var ws := RecordWrites(i, users[i], now(i));
    RecordLastWrite(i, users[i], now(i), k);
    assert LastWriteTo(ws, k) == Some(ws[0]);
    LastRecordDecides(db, users, now, i, k);
  }

  /** An error aborts the remaining commands but keeps the earlier ones: a
      failed run leaves the store exactly as the successful prefix before
      the failing command left it. */
  lemma {:induction false} FailureKeepsEarlierWrites(db: map<string, RedisValue>, ws: seq<Write>)
    requires !RunWrites(db, ws).ok
    ensures exists k | 0 <= k < |ws| ::
      && RunWrites(db, ws[..k]).ok
      && ApplyWrite(RunWrites(db, ws[..k]).db, ws[k]).None?
      && RunWrites(db, ws).db == RunWrites(db, ws[..k]).db
    decreases |ws|
  {
    var n := |ws|;
    var front := ws[..n - 1];
    if RunWrites(db, front).ok {
      assert ws[..n - 1] == front;
    } else {
      FailureKeepsEarlierWrites(db, front);
      var k :| 0 <= k < |front| && RunWrites(db, front[..k]).ok
        && ApplyWrite(RunWrites(db, front[..k]).db, front[k]).None?
        && RunWrites(db, front).db == RunWrites(db, front[..k]).db;
      assert front[..k] == ws[..k];
    }
  }
}
