/** The `GET /logs` route of server.js: read the log file, keep the lines
    that parse as JSON, optionally keep only the entries whose `body.type` is
    the requested type, and answer the newest `limit` of them first.
    `JSON.parse` and `parseInt` are parameters. */
module LogQuery {
  import opened Js

  /** The limit used when the query gives none, or one that parses to 0. */
  const DefaultLimit: int := 100

  /** `parseInt(req.query.limit) || 100`, where `parsedLimit` is what
      `parseInt` returned (None for NaN). */
  function EffectiveLimit(parsedLimit: Option<int>): (limit: int)
    ensures limit != 0
    ensures parsedLimit.Some? && parsedLimit.value != 0 ==> limit == parsedLimit.value
    ensures parsedLimit.None? || parsedLimit.value == 0 ==> limit == DefaultLimit
  {
    if parsedLimit.Some? && parsedLimit.value != 0 then parsedLimit.value else DefaultLimit
  }

  /** `line => line.length > 0`. */
  predicate NonEmpty(line: string) {
    |line| > 0
  }

  /** `content.trim().split('\n').filter(line => line.length > 0)`. */
  function NonBlankLines(content: string): (lines: seq<string>)
    ensures forall l | l in lines :: l != "" && '\n' !in l
  {
    Filter(Split(Trim(content), '\n'), NonEmpty)
  }

  /** The lines mapped through `JSON.parse`, with the lines that fail to
      parse and those that parse to `null` dropped, in file order. */
  function ParsedEntries(lines: seq<string>, parse: string -> Option<Json>): (entries: seq<Json>)
    ensures |entries| <= |lines|
    ensures forall e | e in entries :: e != JNull && exists l | l in lines :: parse(l) == Some(e)
    ensures forall l | l in lines && parse(l).Some? && parse(l).value != JNull :: parse(l).value in entries
  {
    if |lines| == 0 then []
    else
      var rest := ParsedEntries(lines[1..], parse);
      assert forall l | l in lines[1..] :: l in lines;
      var p := parse(lines[0]);
      if p.Some? && p.value != JNull then [p.value] + rest else rest
  }

  /** `log.body` is neither `undefined` nor `null`, so `log.body.type` can be
      read without a TypeError. */
  predicate HasBody(v: Json) {
    Property(v, "body").Some? && Property(v, "body").value != JNull
  }

  /** `log.body.type === type` for an entry that has a body. */
  predicate MatchesType(v: Json, t: string) {
    HasBody(v) && Property(Property(v, "body").value, "type") == Some(JString(t))
  }

  /** The entries the type filter keeps, or None when the filter throws
      because some entry has no body. */
  function ByType(entries: seq<Json>, t: string): (r: Option<seq<Json>>)
    ensures r.None? <==> t != "" && exists e | e in entries :: !HasBody(e)
    ensures r.Some? ==> forall e :: e in r.value <==> e in entries && (t == "" || MatchesType(e, t))
  {
    if t == "" then Some(entries)
    else if exists e | e in entries :: !HasBody(e) then None
    else Some(Filter(entries, OfType(t)))
  }

  /** `log => log.body.type === type`. */
  function OfType(t: string): Json -> bool {
    e => MatchesType(e, t)
  }

  /** Parsing a concatenation of line lists parses each list, in order. */
  lemma {:induction false} ParsedEntriesAppend(xs: seq<string>, ys: seq<string>, parse: string -> Option<Json>)
    ensures ParsedEntries(xs + ys, parse) == ParsedEntries(xs, parse) + ParsedEntries(ys, parse)
    decreases |xs|
  {
    if |xs| == 0 {
      assert xs + ys == ys;
    } else {
      assert (xs + ys)[0] == xs[0];
      assert (xs + ys)[1..] == xs[1..] + ys;
      ParsedEntriesAppend(xs[1..], ys, parse);
    }
  }

  /** One line gives its parse, unless it fails to parse or parses to
      `null`. */
  lemma ParsedEntriesOne(l: string, parse: string -> Option<Json>)
    ensures ParsedEntries([l], parse) == if parse(l).Some? && parse(l).value != JNull then [parse(l).value] else []
  {
    assert [l][1..] == [];
  }

  /** The type filter on a concatenation: it fails when it fails on either
      part, and otherwise keeps each part's entries, in order. */
  lemma ByTypeAppend(xs: seq<Json>, ys: seq<Json>, t: string)
    ensures ByType(xs + ys, t) ==
      if ByType(xs, t).Some? && ByType(ys, t).Some? then Some(ByType(xs, t).value + ByType(ys, t).value) else None
  {
    if t != "" {
      FilterAppend(xs, ys, OfType(t));
      assert forall e :: e in xs + ys <==> e in xs || e in ys;
    }
  }

  /** The type filter on one entry. */
  lemma ByTypeOne(x: Json, t: string)
    ensures ByType([x], t) ==
      if t == "" then Some([x])
      else if !HasBody(x) then None
      else Some(if MatchesType(x, t) then [x] else [])
  {
    FilterOne(x, OfType(t));
    assert forall e :: e in [x] <==> e == x;
  }

  /** `selected.reverse().slice(0, limit)`: the newest entries first. */
  function NewestFirst(selected: seq<Json>, limit: int): (logs: seq<Json>)
    ensures limit >= 0 ==> |logs| == if limit < |selected| then limit else |selected|
    ensures limit < 0 ==> |logs| == if |selected| + limit < 0 then 0 else |selected| + limit
    ensures forall k | 0 <= k < |logs| :: logs[k] == selected[|selected| - 1 - k]
    ensures forall e | e in logs :: e in selected
  {
    var rev := Reverse(selected);
    SliceFromStart(rev, limit);
    var logs := Slice(rev, 0, limit);
    assert forall k | 0 <= k < |logs| :: logs[k] == rev[k];
    logs
  }

  /** The answer of `GET /logs`: `{logs, total}`, or the error response
      Express sends when the handler throws. */
  datatype LogsResponse = Logs(logs: seq<Json>, total: int) | InternalError

  /** `GET /logs?type=&limit=` once the guard has let the request through;
      `file` is the log file's text, None when it does not exist. */
  function GetLogs(typeQuery: string, parsedLimit: Option<int>, file: Option<string>, parse: string -> Option<Json>): (r: LogsResponse)
    ensures file.None? ==> r == Logs([], 0)
    ensures r.Logs? ==> r.total == |r.logs|
    ensures r.Logs? && EffectiveLimit(parsedLimit) > 0 ==> |r.logs| <= EffectiveLimit(parsedLimit)
    ensures r.Logs? ==> forall e | e in r.logs :: e != JNull
    ensures r.Logs? && typeQuery != "" ==> forall e | e in r.logs :: MatchesType(e, typeQuery)
  {
    if file.None? then Logs([], 0)
    else
      var entries := ParsedEntries(NonBlankLines(file.value), parse);
      match ByType(entries, typeQuery)
      case None => InternalError
      case Some(selected) =>
        var logs := NewestFirst(selected, EffectiveLimit(parsedLimit));
        Logs(logs, |logs|)
  }

  /** The entries of an existing log file that survive the type filter. */
  function Selected(typeQuery: string, content: string, parse: string -> Option<Json>): (sel: Option<seq<Json>>)
    ensures sel.None? ==> typeQuery != ""
    ensures sel.Some? ==> forall e | e in sel.value :: e != JNull
    ensures sel.Some? && typeQuery != "" ==> forall e | e in sel.value :: MatchesType(e, typeQuery)
  {
    ByType(ParsedEntries(NonBlankLines(content), parse), typeQuery)
  }

  /** The answer lists the selected entries newest first (the reverse of file
      order): for a positive limit the `min(limit, n)` last ones, for a
      negative limit all but the oldest `-limit` (the JavaScript `slice`
      rule). The request fails exactly when a type is asked for and some
      entry has no body. */
  lemma {:induction false} ListsNewestFirst(typeQuery: string, parsedLimit: Option<int>, content: string, parse: string -> Option<Json>)
    ensures var r := GetLogs(typeQuery, parsedLimit, Some(content), parse);
      var sel := Selected(typeQuery, content, parse);
      var limit := EffectiveLimit(parsedLimit);
      && (r.InternalError? <==> sel.None?)
      && (sel.Some? ==>
            && r.Logs?
            && (limit > 0 ==> |r.logs| == if limit < |sel.value| then limit else |sel.value|)
            && (limit < 0 ==> |r.logs| == if |sel.value| + limit < 0 then 0 else |sel.value| + limit)
            && forall k | 0 <= k < |r.logs| :: r.logs[k] == sel.value[|sel.value| - 1 - k])
  {
    var sel := Selected(typeQuery, content, parse);
    var limit := EffectiveLimit(parsedLimit);
    if sel.Some? {
      var logs := NewestFirst(sel.value, limit);
      assert GetLogs(typeQuery, parsedLimit, Some(content), parse) == Logs(logs, |logs|);
    } else {
      assert GetLogs(typeQuery, parsedLimit, Some(content), parse) == InternalError;
    }
  }

  /** An entry is listed only if it comes from a non-blank line of the file
      that parses to a non-null value of the requested type. */
  lemma {:induction false} ListedEntriesComeFromTheFile(typeQuery: string, parsedLimit: Option<int>, content: string, parse: string -> Option<Json>, e: Json)
    requires GetLogs(typeQuery, parsedLimit, Some(content), parse).Logs?
    requires e in GetLogs(typeQuery, parsedLimit, Some(content), parse).logs
    ensures exists l | l in NonBlankLines(content) :: parse(l) == Some(e)
    ensures typeQuery != "" ==> MatchesType(e, typeQuery)
  {
    var entries := ParsedEntries(NonBlankLines(content), parse);
    var sel := ByType(entries, typeQuery).value;
    assert e in sel;
    assert e in entries;
  }

  // ---------------------------------------------------------------------
  // The answer in terms of the lines `POST /log` writes

  /** The text of a log file holding `lines`, each followed by a newline,
      as `POST /log` appends them. */
  function LogText(lines: seq<string>): string {
    if |lines| == 0 then "" else lines[0] + "\n" + LogText(lines[1..])
  }

  /** A line as `JSON.stringify` writes an object: non-empty, without a
      newline, and without whitespace at either end. */
  predicate IsLogLine(l: string) {
    l != "" && '\n' !in l && !IsJsWhitespace(l[0]) && !IsJsWhitespace(l[|l| - 1])
  }

  /** Appending a line to the file appends it and a newline to the text. */
  lemma {:induction false} LogTextAppend(lines: seq<string>, l: string)
    ensures LogText(lines + [l]) == LogText(lines) + l + "\n"
    decreases |lines|
  {
    if |lines| == 0 {
      assert lines + [l] == [l];
      assert [l][1..] == [];
    } else {
      var rest := lines[1..];
      assert (lines + [l])[0] == lines[0];
      assert (lines + [l])[1..] == rest + [l];
      assert LogText(lines + [l]) == lines[0] + "\n" + LogText(rest + [l]);
      assert LogText(lines) == lines[0] + "\n" + LogText(rest);
      LogTextAppend(rest, l);
      assert lines[0] + "\n" + (LogText(rest) + l + "\n") == (lines[0] + "\n" + LogText(rest)) + l + "\n";
    }
  }

  /** A non-empty file's text is its lines joined by newlines, plus one. */
  lemma {:induction false} LogTextIsJoin(lines: seq<string>)
    requires |lines| > 0
    ensures LogText(lines) == Join(lines, '\n') + "\n"
    decreases |lines|
  {
    if |lines| == 1 {
      assert lines[1..] == [];
    } else {
      LogTextIsJoin(lines[1..]);
    }
  }

  /** `trim`, `split` and the length filter give back exactly the lines the
      file was written with, in file order. */
  lemma {:induction false} NonBlankLinesOfLog(lines: seq<string>)
    requires forall l | l in lines :: IsLogLine(l)
    ensures NonBlankLines(LogText(lines)) == lines
  {
    if |lines| == 0 {
      assert Trim("") == "";
      assert Split("", '\n') == [""];
      FilterOne("", NonEmpty);
    } else {
      var s := LogText(lines);
      var j := Join(lines, '\n');
      var n := |lines|;
      var last := lines[n - 1];
      LogTextIsJoin(lines);
      assert lines == lines[..n - 1] + [last];
      LogTextAppend(lines[..n - 1], last);
      assert lines[0] in lines && last in lines;
      assert s[0] == lines[0][0];
      assert s[|s| - 2] == last[|last| - 1];
      TrimExact(s, 0, |s| - 1);
      assert s[0..|s| - 1] == j;
      SplitJoin(lines, '\n');
      FilterAll(lines, NonEmpty);
    }
  }

  /** An empty log file selects nothing, whatever the type. */
  lemma EmptyLogSelectsNothing(t: string, parse: string -> Option<Json>)
    ensures Selected(t, LogText([]), parse) == Some([])
  {
    NonBlankLinesOfLog([]);
  }

  /** The selection of a log file is the type filter over its lines'
      parses, in file order. */
  lemma SelectedOfLog(t: string, lines: seq<string>, parse: string -> Option<Json>)
    requires forall x | x in lines :: IsLogLine(x)
    ensures Selected(t, LogText(lines), parse) == ByType(ParsedEntries(lines, parse), t)
  {
    NonBlankLinesOfLog(lines);
  }

  /** One more line after `lines`: a line that does not parse to a non-null
      value changes nothing; otherwise its entry joins the end of the
      selection when no type is asked for or when it has the requested type,
      and with a type asked for an entry without a body makes the filter
      fail. */
  lemma {:induction false} SelectOneMoreLine(t: string, lines: seq<string>, l: string, parse: string -> Option<Json>)
    ensures var before := ByType(ParsedEntries(lines, parse), t);
      var after := ByType(ParsedEntries(lines + [l], parse), t);
      var p := parse(l);
      if p.None? || p.value == JNull then after == before
      else if t == "" then before.Some? && after == Some(before.value + [p.value])
      else if !HasBody(p.value) || before.None? then after == None
      else if MatchesType(p.value, t) then after == Some(before.value + [p.value])
      else after == before
  {
    var xs := ParsedEntries(lines, parse);
    var ys := ParsedEntries([l], parse);
    ParsedEntriesAppend(lines, [l], parse);
    ParsedEntriesOne(l, parse);
    ByTypeAppend(xs, ys, t);
    if ys == [] {
      assert xs + ys == xs;
      assert ByType(ys, t) == Some([]);
    } else {
      ByTypeOne(ys[0], t);
      assert ys == [ys[0]];
      if ByType(xs, t).Some? {
        assert ByType(xs, t).value + [] == ByType(xs, t).value;
      }
    }
  }

  /** What appending one line to the log file does to the selection, as
      `SelectOneMoreLine` states it. */
  lemma {:induction false} SelectedAfterAppend(t: string, lines: seq<string>, l: string, parse: string -> Option<Json>)
    requires forall x | x in lines :: IsLogLine(x)
    requires IsLogLine(l)
    ensures var before := Selected(t, LogText(lines), parse);
      var after := Selected(t, LogText(lines) + l + "\n", parse);
      var p := parse(l);
      if p.None? || p.value == JNull then after == before
      else if t == "" then before.Some? && after == Some(before.value + [p.value])
      else if !HasBody(p.value) || before.None? then after == None
      else if MatchesType(p.value, t) then after == Some(before.value + [p.value])
      else after == before
  {
    var all := lines + [l];
    assert forall x | x in all :: IsLogLine(x);
    LogTextAppend(lines, l);
    SelectedOfLog(t, lines, parse);
    SelectedOfLog(t, all, parse);
    SelectOneMoreLine(t, lines, l, parse);
  }

  /** A selection whose last entry is `e` is answered with `e` first, for a
      positive limit. */
  lemma NewestListedFirst(t: string, parsedLimit: Option<int>, content: string, parse: string -> Option<Json>, front: seq<Json>, e: Json)
    requires Selected(t, content, parse) == Some(front + [e])
    requires EffectiveLimit(parsedLimit) > 0
    ensures var r := GetLogs(t, parsedLimit, Some(content), parse);
      r.Logs? && |r.logs| > 0 && r.logs[0] == e
  {
    ListsNewestFirst(t, parsedLimit, content, parse);
    assert (front + [e])[|front + [e]| - 1] == e;
  }

  /** A post whose entry the query selects adds exactly that entry at the
      end of the selection. */
  lemma {:induction false} SelectedAfterPost(t: string, lines: seq<string>, l: string, parse: string -> Option<Json>)
    requires forall x | x in lines :: IsLogLine(x)
    requires IsLogLine(l)
    requires parse(l).Some? && parse(l).value != JNull
    requires t == "" || MatchesType(parse(l).value, t)
    requires Selected(t, LogText(lines), parse).Some?
    ensures Selected(t, LogText(lines + [l]), parse) == Some(Selected(t, LogText(lines), parse).value + [parse(l).value])
  {
    var all := lines + [l];
    assert forall x | x in all :: IsLogLine(x);
    SelectedOfLog(t, lines, parse);
    SelectedOfLog(t, all, parse);
    SelectOneMoreLine(t, lines, l, parse);
  }

  /** After a post whose entry the query selects, `GET /logs` lists that
      entry first (for a positive limit). */
  lemma NewestPostListedFirst(t: string, parsedLimit: Option<int>, lines: seq<string>, l: string, parse: string -> Option<Json>)
    requires forall x | x in lines :: IsLogLine(x)
    requires IsLogLine(l)
    requires parse(l).Some? && parse(l).value != JNull
    requires t == "" || MatchesType(parse(l).value, t)
    requires Selected(t, LogText(lines), parse).Some?
    requires EffectiveLimit(parsedLimit) > 0
    ensures var r := GetLogs(t, parsedLimit, Some(LogText(lines + [l])), parse);
      r.Logs? && |r.logs| > 0 && r.logs[0] == parse(l).value
  {
    SelectedAfterPost(t, lines, l, parse);
    NewestListedFirst(t, parsedLimit, LogText(lines + [l]), parse, Selected(t, LogText(lines), parse).value, parse(l).value);
  }




}
