/** The user-id backfill that logger.js and init-users.js both run in the
    browser: every user in localStorage's 'usersList' that has no truthy
    `userId` gets a generated `USER_...` id (and a creation time when it
    has none), and the list is written back when anything changed.
    `Math.random().toString(36)`, the clock and JSON are parameters. */
module ClientUsers {
  import opened Js
  import opened UserRecords

  /** `'USER_' + r.substr(2, 9).toUpperCase()`, where `r` is the base-36
      text of a random number ("0." and then digits). */
  function NewId(r: string): (id: string)
    ensures |id| >= 5 && id[..5] == "USER_"
    ensures |id| <= 14
    ensures |r| >= 11 ==> |id| == 14
    ensures forall k | 5 <= k < |id| :: !('a' <= id[k] <= 'z')
    ensures Truthy(Some(id))
  {
    var suffix := Substr(r, 2, 9);
    assert |r| >= 11 ==> |suffix| == 9;
    "USER_" + ToUpperAscii(suffix)
  }

  /** The `forEach` callback for one user: untouched when it has a truthy
      `userId`, otherwise given a new id and, if it has no truthy
      `createdAt`, the current time. */
  function Fill(u: UserRecord, random: string, now: string): (v: UserRecord)
    ensures Truthy(v.userId)
    ensures Truthy(u.userId) ==> v == u
    ensures !Truthy(u.userId) ==> v == u.(userId := Some(NewId(random)), createdAt := v.createdAt)
    ensures Truthy(u.createdAt) ==> v.createdAt == u.createdAt
    ensures !Truthy(u.userId) && !Truthy(u.createdAt) ==> v.createdAt == Some(now)
  {
    if Truthy(u.userId) then u
    else u.(userId := Some(NewId(random)), createdAt := Some(OrDefault(u.createdAt, now)))
  }

  /** The list after the `forEach`: user `i` is filled with the `i`-th
      random draw and clock reading. */
  function Backfilled(users: seq<UserRecord>, random: nat -> string, now: nat -> string): (r: seq<UserRecord>)
    ensures |r| == |users|
    ensures forall i | 0 <= i < |r| :: r[i] == Fill(users[i], random(i), now(i))
  {
    seq(|users|, (i: nat) requires i < |users| => Fill(users[i], random(i), now(i)))
  }

  /** Whether the `forEach` changed anything (`needsSave`). */
  predicate NeedsSave(users: seq<UserRecord>): (needed: bool)
    ensures needed <==> exists i | 0 <= i < |users| :: users[i].userId == None || users[i].userId == Some("")
  {
    assert forall i | 0 <= i < |users| ::
      !Truthy(users[i].userId) <==> users[i].userId == None || users[i].userId == Some("");
    exists i | 0 <= i < |users| :: !Truthy(users[i].userId)
  }

  /** The `forEach` over the parsed list, mutating the users in place. */
  method BackfillUserIds(users: array<UserRecord>, random: nat -> string, now: nat -> string)
    returns (needsSave: bool)
    modifies users
    ensures users[..] == Backfilled(old(users[..]), random, now)
    ensures needsSave == NeedsSave(old(users[..]))
  {
    ghost var original := users[..];
    needsSave := false;
    var i := 0;
    while i < users.Length
      invariant 0 <= i <= users.Length
      invariant users[..i] == Backfilled(original[..i], random, now)
      invariant users[i..] == original[i..]
      invariant needsSave <==> NeedsSave(original[..i])
    {
      var user := users[i];
      assert user == original[i];
      if !Truthy(user.userId) {
        users[i] := user.(userId := Some(NewId(random(i))), createdAt := Some(OrDefault(user.createdAt, now(i))));
        needsSave := true;
      }
      assert users[..i + 1] == users[..i] + [users[i]];
      assert original[..i + 1] == original[..i] + [original[i]];
      assert users[i + 1..] == original[i + 1..] by {
        assert forall k | i + 1 <= k < users.Length :: users[k] == old(users[k]);
      }
      i := i + 1;
    }
    assert original[..i] == original;
    assert users[..i] == users[..];
  }

  /** localStorage, reduced to the one item the scripts use. */
  class LocalStorage {
    var usersList: Option<string>

    constructor (initial: Option<string>)
      ensures usersList == initial
    {
      usersList := initial;
    }
  }

  /** `JSON.parse(localStorage.getItem('usersList') || '[]')`: a missing or
      empty item is an empty list; None when the text does not parse (the
      script throws before changing anything). */
  function StoredUsers(item: Option<string>, parse: string -> Option<seq<UserRecord>>): (r: Option<seq<UserRecord>>)
    ensures !Truthy(item) ==> r == Some([])
  {
    if Truthy(item) then parse(item.value) else Some([])
  }

  /** The whole initialisation: parse the list, backfill it, and write it
      back with `JSON.stringify` only when some user got a new id. */
  method InitUserIds(storage: LocalStorage, parse: string -> Option<seq<UserRecord>>,
                     stringify: seq<UserRecord> -> string, random: nat -> string, now: nat -> string)
    modifies storage
    ensures var users := StoredUsers(old(storage.usersList), parse);
      storage.usersList ==
        if users.Some? && NeedsSave(users.value) then Some(stringify(Backfilled(users.value, random, now)))
        else old(storage.usersList)
  {
    var parsed := StoredUsers(storage.usersList, parse);
    if parsed.None? {
      return;
    }
    var users := new UserRecord[|parsed.value|](i requires 0 <= i < |parsed.value| => parsed.value[i]);
    assert users[..] == parsed.value;
    var needsSave := BackfillUserIds(users, random, now);
    if needsSave {
      storage.usersList := Some(stringify(users[..]));
    }
  }

  // ---------------------------------------------------------------------
  // Properties of the backfill

  /** Afterwards every user has a truthy id; users that had one are
      unchanged, and new ids start with `USER_`. */
  lemma BackfillGivesEveryoneAnId(users: seq<UserRecord>, random: nat -> string, now: nat -> string)
    ensures var r := Backfilled(users, random, now);
      && (forall i | 0 <= i < |r| :: Truthy(r[i].userId))
      && (forall i | 0 <= i < |r| && Truthy(users[i].userId) :: r[i] == users[i])
      && (forall i | 0 <= i < |r| && !Truthy(users[i].userId) :: r[i].userId.value[..5] == "USER_")
  {
  }

  /** Only `userId` and `createdAt` ever change, and a truthy `createdAt`
      is kept. */
  lemma BackfillKeepsOtherFields(users: seq<UserRecord>, random: nat -> string, now: nat -> string, i: nat)
    requires i < |users|
    ensures var v := Backfilled(users, random, now)[i];
      && v.(userId := users[i].userId, createdAt := users[i].createdAt) == users[i]
      && (Truthy(users[i].createdAt) ==> v.createdAt == users[i].createdAt)
  {
  }

  /** Running the backfill twice changes nothing the second time, and
      nothing needs saving then. */
  lemma {:induction false} BackfillIdempotent(users: seq<UserRecord>, random: nat -> string, now: nat -> string,
                                              random2: nat -> string, now2: nat -> string)
    ensures Backfilled(Backfilled(users, random, now), random2, now2) == Backfilled(users, random, now)
    ensures !NeedsSave(Backfilled(users, random, now))
  {
    var once := Backfilled(users, random, now);
    var twice := Backfilled(once, random2, now2);
    forall i | 0 <= i < |once|
      ensures twice[i] == once[i]
    {
      assert Truthy(once[i].userId);
    }
  }

  /** A list where everyone has an id is left as it is and not saved. */
  lemma NothingToBackfill(users: seq<UserRecord>, random: nat -> string, now: nat -> string)
    requires !NeedsSave(users)
    ensures Backfilled(users, random, now) == users
  {
  }
}
