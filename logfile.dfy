/** The log file of server.js: `POST /log` appends one JSON line per event
    to logs/app.log after rotating the file away once it grows past 5 MiB,
    `POST /clear-logs` deletes it, and `GET /logs` reads it. The directory is
    modelled as the live file's text plus the rotated files by name; the
    clock, `JSON.stringify` and the outcome of the file system calls are
    parameters. */
module LogFile {
  import opened Js
  import opened BasicAuth
  import LogQuery

  /** `MAX_LOG_SIZE`: 5 MiB. */
  const MaxLogSize: int := 5 * 1024 * 1024

  /** The number of bytes UTF-8 needs for one character. */
  function Utf8Width(c: char): nat {
    if c as int < 0x80 then 1
    else if c as int < 0x800 then 2
    else if c as int < 0x10000 then 3
    else 4
  }

  /** The file's size as `fs.statSync` reports it: its UTF-8 byte count. */
  function Utf8Length(s: string): nat {
    if |s| == 0 then 0 else Utf8Length(s[..|s| - 1]) + Utf8Width(s[|s| - 1])
  }

  /** Every character takes one to four bytes. */
  lemma {:induction false} Utf8Bounds(s: string)
    ensures |s| <= Utf8Length(s) <= 4 * |s|
  {
    if |s| > 0 {
      Utf8Bounds(s[..|s| - 1]);
    }
  }

  /** Appending to a file adds the byte count of what was appended. */
  lemma {:induction false} Utf8LengthAppend(a: string, b: string)
    ensures Utf8Length(a + b) == Utf8Length(a) + Utf8Length(b)
    decreases |b|
  {
    if |b| == 0 {
      assert a + b == a;
    } else {
      var b' := b[..|b| - 1];
      assert (a + b)[..|a + b| - 1] == a + b';
      assert (a + b)[|a + b| - 1] == b[|b| - 1];
      Utf8LengthAppend(a, b');
    }
  }

  /** The rotation rule: the live file exists and is strictly larger than
      `MaxLogSize` bytes. */
  predicate ShouldRotate(file: Option<string>): (rotate: bool)
    ensures rotate ==> file.Some? && 4 * |file.value| > MaxLogSize
    ensures file.Some? && |file.value| > MaxLogSize ==> rotate
  {
    file.Some? && (Utf8Bounds(file.value); Utf8Length(file.value) > MaxLogSize)
  }

  /** `new Date().toISOString().replace(/:/g, '-').split('.')[0]`. */
  function RotationSuffix(iso: string): (r: string)
    ensures ':' !in r && '.' !in r
    ensures |r| <= |iso| && r == ReplaceAll(iso, ':', '-')[..|r|]
  {
    var replaced := ReplaceAll(iso, ':', '-');
    var parts := Split(replaced, '.');
    assert parts[0] in parts;
    SplitHead(replaced, '.');
    parts[0]
  }

  /** The rotated file's name, `app.log.<suffix>`. */
  function RotatedName(iso: string): (name: string)
    ensures |name| > 8 || name == "app.log."
    ensures name[..8] == "app.log." && ':' !in name && '.' !in name[8..]
  {
    assert "app.log."[..8] == "app.log.";
    "app.log." + RotationSuffix(iso)
  }

  /** For a timestamp `d.rest` whose date-and-time part `d` has no dot, the
      suffix is `d` with its colons turned into dashes: the fraction of a
      second and the zone letter are dropped. */
  lemma {:induction false} RotationSuffixOfTimestamp(d: string, rest: string)
    requires '.' !in d
    ensures RotationSuffix(d + "." + rest) == ReplaceAll(d, ':', '-')
  {
    var iso := d + "." + rest;
    var replaced := ReplaceAll(iso, ':', '-');
    ReplaceAllConcat(d, "." + rest, ':', '-');
    ReplaceAllConcat(".", rest, ':', '-');
    assert ReplaceAll(".", ':', '-') == ".";
    assert replaced == ReplaceAll(d, ':', '-') + "." + ReplaceAll(rest, ':', '-');
    assert '.' !in ReplaceAll(d, ':', '-');
    SplitAfterPrefix(ReplaceAll(d, ':', '-'), '.', ReplaceAll(rest, ':', '-'));
  }

  /** Two rotations within the same second get the same name, so the second
      rename replaces the file the first one produced. */
  lemma SameSecondSameName(d: string, ms1: string, ms2: string)
    requires '.' !in d
    ensures RotatedName(d + "." + ms1) == RotatedName(d + "." + ms2)
  {
    RotationSuffixOfTimestamp(d, ms1);
    RotationSuffixOfTimestamp(d, ms2);
  }

  /** The record `POST /log` writes: `{timestamp, body}`. */
  function Entry(timestamp: string, body: Json): (e: Json)
    ensures Property(e, "body") == Some(body)
    ensures Property(e, "timestamp") == Some(JString(timestamp))
  {
    var e := JObject([("timestamp", JString(timestamp)), ("body", body)]);
    assert e.members[..1] == [("timestamp", JString(timestamp))];
    assert "timestamp" != "body";
    assert Member(e.members, "timestamp") == Member(e.members[..1], "timestamp");
    e
  }

  /** The answer of `POST /clear-logs`. */
  datatype ClearResponse = ClearDenied(denial: AuthDecision) | Cleared | ClearFailed

  /** The answer of `GET /logs` including the guard in front of it. */
  datatype GuardedLogs = LogsDenied(denial: AuthDecision) | LogsServed(response: LogQuery.LogsResponse)

  class LogDirectory {
    /** logs/app.log, None when it does not exist. */
    var current: Option<string>
    /** The files rotation left in logs/, by name. */
    var rotated: map<string, string>

    constructor ()
      ensures current == None && rotated == map[]
    {
      current := None;
      rotated := map[];
    }

    /** `rotateLogIfNeeded()`: rename the live file to its timestamped name
        once it is larger than `MaxLogSize`. Renaming moves the whole
        content, and replaces a rotated file of the same name. */
    method RotateIfNeeded(now: string)
      modifies this
      ensures ShouldRotate(old(current)) ==>
        current == None && rotated == old(rotated)[RotatedName(now) := old(current).value]
      ensures !ShouldRotate(old(current)) ==> current == old(current) && rotated == old(rotated)
      ensures current.None? || Utf8Length(current.value) <= MaxLogSize
    {
      if current.Some? {
        var size := Utf8Length(current.value);
        if size > MaxLogSize {
          var name := RotatedName(now);
          rotated := rotated[name := current.value];
          current := None;
        }
      }
    }

    /** `POST /log`: rotate if needed, then append the entry's JSON text and
        a newline (`fs.appendFile` creates the file when it is missing).
        `rotationTime` and `entryTime` are the two readings of the clock;
        `appendFails` is whether the append reports an error (answer 500). */
    method PostLog(rotationTime: string, entryTime: string, body: Json, stringify: Json -> string, appendFails: bool)
      returns (ok: bool)
      modifies this
      ensures ok == !appendFails
      ensures ShouldRotate(old(current)) ==>
        rotated == old(rotated)[RotatedName(rotationTime) := old(current).value]
      ensures !ShouldRotate(old(current)) ==> rotated == old(rotated)
      ensures var kept := if ShouldRotate(old(current)) then "" else if old(current).Some? then old(current).value else "";
        var line := stringify(Entry(entryTime, body)) + "\n";
        if ok then current == Some(kept + line)
        else current == if ShouldRotate(old(current)) then None else old(current)
      ensures ok ==> current.Some? && Utf8Length(current.value) <= MaxLogSize + Utf8Length(stringify(Entry(entryTime, body)) + "\n")
    {
      RotateIfNeeded(rotationTime);
      ok := !appendFails;
      if ok {
        var line := stringify(Entry(entryTime, body)) + "\n";
        var before := if current.Some? then current.value else "";
        Utf8LengthAppend(before, line);
        current := Some(before + line);
      }
    }

    /** `POST /clear-logs` behind the guard: `requireAuth` decides on the
        request's Authorization header; a granted request deletes the live
        file if there is one, and rotated files stay. `unlinkFails` is
        whether `unlinkSync` throws (answer 500). */
    method ClearLogs(authorization: Option<string>, decodeBase64: string -> seq<CodeUnit>, admin: AdminCredentials,
                     unlinkFails: bool) returns (r: ClearResponse)
      modifies this
      ensures var auth := RequireAuth(authorization, decodeBase64, admin);
        && (auth.Deny? ==> r == ClearDenied(auth) && current == old(current))
        && (auth.Grant? && old(current).Some? && unlinkFails ==> r == ClearFailed && current == old(current))
        && (auth.Grant? && !(old(current).Some? && unlinkFails) ==> r == Cleared && current == None)
      ensures rotated == old(rotated)
    {
      var auth := RequireAuth(authorization, decodeBase64, admin);
      if auth.Deny? {
        return ClearDenied(auth);
      }
      if current.Some? {
        if unlinkFails {
          return ClearFailed;
        }
        current := None;
      }
      r := Cleared;
    }

    /** `GET /logs` behind the guard, on the live file. */
    method GetLogs(authorization: Option<string>, decodeBase64: string -> seq<CodeUnit>, admin: AdminCredentials,
                   typeQuery: string, parsedLimit: Option<int>, parse: string -> Option<Json>)
      returns (r: GuardedLogs)
      ensures var auth := RequireAuth(authorization, decodeBase64, admin);
        && (auth.Deny? ==> r == LogsDenied(auth))
        && (auth.Grant? ==> r == LogsServed(LogQuery.GetLogs(typeQuery, parsedLimit, current, parse)))
    {
      var auth := RequireAuth(authorization, decodeBase64, admin);
      if auth.Deny? {
        r := LogsDenied(auth);
      } else {
        r := LogsServed(LogQuery.GetLogs(typeQuery, parsedLimit, current, parse));
      }
    }
  }
}
