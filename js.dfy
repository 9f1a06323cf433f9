/** The fragment of JavaScript's built-in behaviour that the server, the
    configuration loader and the scripts rely on: `undefined`-or-string
    values and their truthiness, `||`, `String.prototype.indexOf`, `split`
    with a one-character separator, `slice` with negative indices, `trim`,
    `substr`, `replace` of every occurrence of a character, ASCII upper-casing,
    and a JSON value type with property lookup. */
module Js {

  datatype Option<+T> = None | Some(value: T)

  /** A value that is either `undefined` (None) or a string is truthy
      exactly when it is a non-empty string. */
  predicate Truthy(v: Option<string>) {
    v.Some? && v.value != ""
  }

  /** `process.env`: the variables that are set, each with its text. */
  type Env = map<string, string>

  /** `process.env[name]`: `undefined` (None) when the variable is not set. */
  function EnvVar(env: Env, name: string): Option<string> {
    if name in env then Some(env[name]) else None
  }

  /** `a || b` on two undefined-or-string values. */
  function Or(a: Option<string>, b: Option<string>): Option<string> {
    if Truthy(a) then a else b
  }

  /** `||` yields one of its operands, the left one exactly when it is
      truthy, and is truthy iff one operand is. */
  lemma OrYieldsAnOperand(a: Option<string>, b: Option<string>)
    ensures Or(a, b) == a || Or(a, b) == b
    ensures Truthy(a) ==> Or(a, b) == a
    ensures !Truthy(a) ==> Or(a, b) == b
    ensures Truthy(Or(a, b)) <==> Truthy(a) || Truthy(b)
  {
  }

  /** `a || d` where `d` is a string literal, so the result is a string. */
  function OrDefault(a: Option<string>, d: string): string {
    if Truthy(a) then a.value else d
  }

  /** Template-literal interpolation `${v}`: `undefined` prints as "undefined". */
  function Interpolate(v: Option<string>): (r: string)
    ensures v.Some? ==> r == v.value
    ensures v.None? ==> r == "undefined"
  {
    if v.Some? then v.value else "undefined"
  }

  /** The value of `a_0 || a_1 || ... || a_n`: the first truthy operand, or
      the last operand when none is truthy (JavaScript's `||` yields an
      operand, not a boolean). */
  function FirstTruthy(vs: seq<Option<string>>): Option<string>
    requires |vs| > 0
  {
    if |vs| == 1 || Truthy(vs[0]) then vs[0] else FirstTruthy(vs[1..])
  }

  /** A left-nested `||` chain of three operands picks the first truthy
      one, and is truthy exactly when one of them is. */
  lemma {:induction false} OrChainIsFirstTruthy(a: Option<string>, b: Option<string>, c: Option<string>)
    ensures Or(Or(a, b), c) == FirstTruthy([a, b, c])
    ensures Truthy(Or(Or(a, b), c)) <==> Truthy(a) || Truthy(b) || Truthy(c)
    ensures Truthy(a) ==> Or(Or(a, b), c) == a
    ensures !Truthy(a) && Truthy(b) ==> Or(Or(a, b), c) == b
    ensures !Truthy(a) && !Truthy(b) ==> Or(Or(a, b), c) == c
  {
    assert [a, b, c][1..] == [b, c];
    assert [b, c][1..] == [c];
    assert FirstTruthy([c]) == c;
    assert FirstTruthy([b, c]) == if Truthy(b) then b else c;
    assert FirstTruthy([a, b, c]) == if Truthy(a) then a else FirstTruthy([b, c]);
  }

  // ---------------------------------------------------------------------
  // Strings

  /** `s.indexOf(c)`: the first position of `c`, or -1. */
  function IndexOf<T(==)>(s: seq<T>, c: T): (r: int)
    ensures -1 <= r < |s|
    ensures r == -1 <==> c !in s
    ensures 0 <= r ==> s[r] == c && c !in s[..r]
  {
    if |s| == 0 then -1
    else if s[0] == c then 0
    else
      var k := IndexOf(s[1..], c);
      assert s[1..][..if k < 0 then 0 else k] == s[1..if k < 0 then 1 else k + 1];
      if k < 0 then -1 else k + 1
  }

  /** A position holding `c` with no `c` before it is where `indexOf` finds `c`. */
  lemma FirstOccurrence<T>(s: seq<T>, c: T, k: nat)
    requires k < |s| && s[k] == c && c !in s[..k]
    ensures IndexOf(s, c) == k
  {
    var r := IndexOf(s, c);
    assert forall j | 0 <= j < k :: s[j] != c by {
      forall j | 0 <= j < k
        ensures s[j] != c
      {
        assert s[..k][j] == s[j];
      }
    }
    assert forall j | 0 <= j < r :: s[j] != c by {
      forall j | 0 <= j < r
        ensures s[j] != c
      {
        assert s[..r][j] == s[j];
      }
    }
  }

  /** The inverse of `Split`: the parts glued together with `c`. */
  function Join(parts: seq<string>, c: char): string {
    if |parts| == 0 then ""
    else if |parts| == 1 then parts[0]
    else parts[0] + [c] + Join(parts[1..], c)
  }

  /** Two parts are joined around one separator. */
  lemma JoinTwo(a: string, b: string, c: char)
    ensures Join([a, b], c) == a + [c] + b
  {
    assert [a, b][1..] == [b];
  }

  /** `s.split(c)` for a one-character separator: the maximal pieces of `s`
      between occurrences of `c` (one more piece than there are `c`s). */
  function Split(s: string, c: char): (parts: seq<string>)
    ensures |parts| >= 1
    ensures forall p | p in parts :: c !in p
    ensures Join(parts, c) == s
    decreases |s|
  {
    var i := IndexOf(s, c);
    if i < 0 then [s]
    else
      var rest := Split(s[i + 1..], c);
      assert s == s[..i] + [c] + s[i + 1..];
      [s[..i]] + rest
  }

  /** Splitting what `Join` glued back together gives back the parts, as long
      as no part contains the separator. */
  lemma {:induction false} SplitJoin(parts: seq<string>, c: char)
    requires |parts| >= 1
    requires forall p | p in parts :: c !in p
    ensures Split(Join(parts, c), c) == parts
    decreases |parts|
  {
    if |parts| > 1 {
      assert parts[0] in parts;
      assert forall p | p in parts[1..] :: p in parts;
      var rest := Join(parts[1..], c);
      assert Join(parts, c) == parts[0] + [c] + rest;
      SplitAfterPrefix(parts[0], c, rest);
      SplitJoin(parts[1..], c);
      assert parts == [parts[0]] + parts[1..];
    }
  }

  /** Splitting `p + [c] + rest`, with no `c` in `p`, first cuts off `p`. */
  lemma SplitAfterPrefix(p: string, c: char, rest: string)
    requires c !in p
    ensures Split(p + [c] + rest, c) == [p] + Split(rest, c)
  {
    var s := p + [c] + rest;
    assert s[|p|] == c && s[..|p|] == p;
    FirstOccurrence(s, c, |p|);
    assert s[|p| + 1..] == rest;
  }

  /** Splitting around the only separator gives the two sides. */
  lemma SplitTwo(a: string, b: string, c: char)
    requires c !in a && c !in b
    ensures Split(a + [c] + b, c) == [a, b]
  {
    SplitAfterPrefix(a, c, b);
    assert IndexOf(b, c) == -1;
  }

  /** A text with exactly one separator, at position `k`, splits there. */
  lemma SplitAtOnly(s: string, k: nat, c: char)
    requires k < |s| && s[k] == c && c !in s[..k] && c !in s[k + 1..]
    ensures Split(s, c) == [s[..k], s[k + 1..]]
  {
    assert s == s[..k] + [c] + s[k + 1..];
    SplitTwo(s[..k], s[k + 1..], c);
  }

  /** The first piece of a split is everything before the first separator. */
  lemma {:induction false} SplitHead(s: string, c: char)
    ensures var i := IndexOf(s, c);
      Split(s, c)[0] == if i < 0 then s else s[..i]
  {
  }

  // ---------------------------------------------------------------------
  // UTF-16

  /** One UTF-16 code unit. A JavaScript string is a sequence of them, and
      `length`, `indexOf` and `slice` count them. */
  newtype CodeUnit = x: int | 0 <= x < 0x1_0000

  /** The code unit of `:`. */
  const Colon: CodeUnit := 0x3A

  /** The UTF-16 encoding of one character: the character itself below
      U+10000, otherwise a high surrogate followed by a low surrogate. */
  function Utf16Char(c: char): (u: seq<CodeUnit>)
    ensures 1 <= |u| <= 2
    ensures |u| == 1 <==> c as int < 0x1_0000
    ensures |u| == 1 ==> u[0] as int == c as int
    ensures |u| == 2 ==> 0xD800 <= u[0] < 0xDC00 && 0xDC00 <= u[1] < 0xE000
    ensures |u| == 2 ==> 0x1_0000 + (u[0] as int - 0xD800) * 0x400 + (u[1] as int - 0xDC00) == c as int
  {
    if c as int < 0x1_0000 then [c as int as CodeUnit]
    else
      var v := c as int - 0x1_0000;
      [(0xD800 + v / 0x400) as CodeUnit, (0xDC00 + v % 0x400) as CodeUnit]
  }

  /** A text as the code units of a JavaScript string. */
  function Utf16(s: string): (u: seq<CodeUnit>)
    ensures |u| >= |s|
  {
    if |s| == 0 then [] else Utf16(s[..|s| - 1]) + Utf16Char(s[|s| - 1])
  }

  /** Encoding distributes over concatenation. */
  lemma {:induction false} Utf16Append(a: string, b: string)
    ensures Utf16(a + b) == Utf16(a) + Utf16(b)
    decreases |b|
  {
    if |b| == 0 {
      assert a + b == a;
    } else {
      var b' := b[..|b| - 1];
      assert (a + b)[..|a + b| - 1] == a + b';
      assert (a + b)[|a + b| - 1] == b[|b| - 1];
      Utf16Append(a, b');
    }
  }

  /** The colon's code unit occurs in an encoded text exactly where `:` does:
      surrogates never equal it. */
  lemma {:induction false} Utf16Colon(s: string)
    ensures Colon in Utf16(s) <==> ':' in s
    decreases |s|
  {
    if |s| > 0 {
      var front := s[..|s| - 1];
      Utf16Colon(front);
      assert s == front + [s[|s| - 1]];
      assert ':' in s <==> ':' in front || s[|s| - 1] == ':';
      assert Colon in Utf16Char(s[|s| - 1]) <==> s[|s| - 1] == ':';
    }
  }

  /** The relative-index rule shared by `Array.prototype.slice` and
      `String.prototype.slice`: a negative index counts from the end, and the
      result is clamped into [0, len]. */
  function RelativeIndex(k: int, len: nat): (r: nat)
    ensures r <= len
  {
    if k < 0 then (if len + k < 0 then 0 else len + k)
    else if k > len then len
    else k
  }

  /** `s.slice(start, end)` for arrays and strings. */
  function Slice<T>(s: seq<T>, start: int, end: int): (r: seq<T>)
    ensures |r| <= |s|
    ensures 0 <= start <= end <= |s| ==> r == s[start..end]
    ensures 0 <= end <= start ==> r == []
  {
    var a := RelativeIndex(start, |s|);
    var b := RelativeIndex(end, |s|);
    if a < b then s[a..b] else []
  }

  /** Between two in-range, ordered indices `slice` is plain subsequence. */
  lemma SliceInRange<T>(s: seq<T>, a: int, b: int)
    requires 0 <= a <= b <= |s|
    ensures Slice(s, a, b) == s[a..b]
  {
  }

  /** What `slice(0, limit)` keeps: the first `limit` elements for a
      non-negative limit, and all but the last `-limit` for a negative one. */
  lemma SliceFromStart<T>(s: seq<T>, limit: int)
    ensures 0 <= limit ==> Slice(s, 0, limit) == s[..if limit < |s| then limit else |s|]
    ensures limit < 0 ==> Slice(s, 0, limit) == s[..if |s| + limit < 0 then 0 else |s| + limit]
  {
  }

  /** `s.substr(start, length)`, the legacy method: a negative start counts
      from the end, a negative length means the empty string. */
  function Substr(s: string, start: int, length: int): (r: string)
    ensures |r| <= |s|
    ensures 0 <= length ==> |r| <= length
    ensures 0 <= start && 0 <= length && start + length <= |s| ==> r == s[start..start + length]
  {
    var a := RelativeIndex(start, |s|);
    var n := if length < 0 then 0 else length;
    var b := if a + n < |s| then a + n else |s|;
    s[a..b]
  }

  /** The characters `String.prototype.trim` removes: ECMAScript's
      WhiteSpace and LineTerminator characters. */
  predicate IsJsWhitespace(c: char) {
    || c == ' ' || c == '\t' || c == '\n' || c == '\r'
    || c == '\U{B}' || c == '\U{C}' || c == '\U{A0}' || c == '\U{FEFF}'
    || c == '\U{1680}' || ('\U{2000}' <= c <= '\U{200A}')
    || c == '\U{2028}' || c == '\U{2029}' || c == '\U{202F}' || c == '\U{205F}'
    || c == '\U{3000}'
  }

  /** The number of leading whitespace characters of `s`. */
  function Leading(s: string): (n: nat)
    ensures n <= |s|
    ensures forall i | 0 <= i < n :: IsJsWhitespace(s[i])
    ensures n < |s| ==> !IsJsWhitespace(s[n])
  {
    if |s| > 0 && IsJsWhitespace(s[0]) then
      var n := Leading(s[1..]);
      assert forall i | 1 <= i < n + 1 :: s[i] == s[1..][i - 1];
      n + 1
    else 0
  }

  /** The length of `s` without its trailing whitespace. */
  function Kept(s: string): (m: nat)
    ensures m <= |s|
    ensures forall i | m <= i < |s| :: IsJsWhitespace(s[i])
    ensures m > 0 ==> !IsJsWhitespace(s[m - 1])
  {
    if |s| > 0 && IsJsWhitespace(s[|s| - 1]) then
      var m := Kept(s[..|s| - 1]);
      assert forall i | m <= i < |s| - 1 :: s[i] == s[..|s| - 1][i];
      m
    else |s|
  }

  /** `s.trim()`: `s` without its leading and trailing whitespace. The result
      is `s[a..b]`, with only whitespace before `a` and from `b` on, and no
      whitespace at its own ends. */
  function Trim(s: string): (r: string)
    ensures r != [] ==> !IsJsWhitespace(r[0]) && !IsJsWhitespace(r[|r| - 1])
    ensures exists a, b | 0 <= a <= b <= |s| ::
      && r == s[a..b]
      && (forall i | 0 <= i < a :: IsJsWhitespace(s[i]))
      && (forall i | b <= i < |s| :: IsJsWhitespace(s[i]))
  {
    var a := Leading(s);
    var b := Kept(s);
    if a <= b then
      assert a < b ==> s[a..b][0] == s[a] && s[a..b][b - a - 1] == s[b - 1];
      s[a..b]
    else
      assert s[a..a] == [];
      []
  }

  /** Whitespace, then a part with non-whitespace ends, then whitespace
      again, trims to that part. */
  lemma TrimExact(s: string, a: nat, b: nat)
    requires a < b <= |s|
    requires forall i | 0 <= i < a :: IsJsWhitespace(s[i])
    requires forall i | b <= i < |s| :: IsJsWhitespace(s[i])
    requires !IsJsWhitespace(s[a]) && !IsJsWhitespace(s[b - 1])
    ensures Trim(s) == s[a..b]
  {
    var a' := Leading(s);
    var b' := Kept(s);
    assert a' == a;
    assert b' == b;
  }

  /** `s.replace(/a/g, b)` for single characters `a` and `b`. */
  function ReplaceAll(s: string, a: char, b: char): (r: string)
    ensures |r| == |s|
    ensures forall i | 0 <= i < |s| :: r[i] == if s[i] == a then b else s[i]
    ensures a != b ==> a !in r
  {
    seq(|s|, i requires 0 <= i < |s| => if s[i] == a then b else s[i])
  }

  /** Replacing distributes over concatenation. */
  lemma ReplaceAllConcat(s: string, t: string, a: char, b: char)
    ensures ReplaceAll(s + t, a, b) == ReplaceAll(s, a, b) + ReplaceAll(t, a, b)
  {
  }

  /** `String.prototype.toUpperCase` on the ASCII letters; every other
      character is kept as it is. */
  function ToUpperAscii(s: string): (r: string)
    ensures |r| == |s|
    ensures forall i | 0 <= i < |s| ::
      r[i] == if 'a' <= s[i] <= 'z' then (s[i] as int - 32) as char else s[i]
    ensures forall i | 0 <= i < |r| :: !('a' <= r[i] <= 'z')
  {
    seq(|s|, i requires 0 <= i < |s| => if 'a' <= s[i] <= 'z' then (s[i] as int - 32) as char else s[i])
  }

  // ---------------------------------------------------------------------
  // Sequences

  /** `xs.filter(p)`. */
  function Filter<T>(xs: seq<T>, p: T -> bool): (r: seq<T>)
    ensures |r| <= |xs|
    ensures forall x | x in r :: x in xs && p(x)
    ensures forall x | x in xs && p(x) :: x in r
  {
    if |xs| == 0 then []
    else (if p(xs[0]) then [xs[0]] else []) + Filter(xs[1..], p)
  }

  /** Filtering a concatenation filters each part, in order. */
  lemma {:induction false} FilterAppend<T>(xs: seq<T>, ys: seq<T>, p: T -> bool)
    ensures Filter(xs + ys, p) == Filter(xs, p) + Filter(ys, p)
    decreases |xs|
  {
    if |xs| == 0 {
      assert xs + ys == ys;
    } else {
      assert (xs + ys)[1..] == xs[1..] + ys;
      FilterAppend(xs[1..], ys, p);
    }
  }

  /** One element is kept iff it satisfies the predicate. */
  lemma FilterOne<T>(x: T, p: T -> bool)
    ensures Filter([x], p) == if p(x) then [x] else []
  {
    assert [x][1..] == [];
  }

  /** When every element satisfies the predicate, nothing is dropped. */
  lemma {:induction false} FilterAll<T>(xs: seq<T>, p: T -> bool)
    requires forall x | x in xs :: p(x)
    ensures Filter(xs, p) == xs
    decreases |xs|
  {
    if |xs| > 0 {
      assert xs[0] in xs;
      assert forall x | x in xs[1..] :: x in xs;
      FilterAll(xs[1..], p);
      assert xs == [xs[0]] + xs[1..];
    }
  }

  /** `xs.reverse()`. */
  function Reverse<T>(xs: seq<T>): (r: seq<T>)
    ensures |r| == |xs|
    ensures forall k | 0 <= k < |xs| :: r[k] == xs[|xs| - 1 - k]
  {
    seq(|xs|, k requires 0 <= k < |xs| => xs[|xs| - 1 - k])
  }

  // ---------------------------------------------------------------------
  // JSON values

  /** A JSON value as `JSON.parse` produces it and `JSON.stringify` consumes
      it. Numbers are kept as integers; object members keep their order. */
  datatype Json =
    | JNull
    | JBool(b: bool)
    | JNumber(n: int)
    | JString(s: string)
    | JArray(items: seq<Json>)
    | JObject(members: seq<(string, Json)>)

  /** The value stored under `name` among `members`; the last occurrence wins,
      as in `JSON.parse`. */
  function Member(members: seq<(string, Json)>, name: string): Option<Json> {
    if |members| == 0 then None
    else if members[|members| - 1].0 == name then Some(members[|members| - 1].1)
    else Member(members[..|members| - 1], name)
  }

  /** `v.name` for a non-null JSON value: a member of an object, `undefined`
      (None) for every other kind of value. */
  function Property(v: Json, name: string): Option<Json> {
    if v.JObject? then Member(v.members, name) else None
  }

  /** An object literal whose `undefined` members `JSON.stringify` leaves out. */
  function ObjectOf(members: seq<(string, Option<Json>)>): (r: Json)
    ensures r.JObject? && |r.members| <= |members|
  {
    if |members| == 0 then JObject([])
    else
      var front := ObjectOf(members[..|members| - 1]);
      var last := members[|members| - 1];
      if last.1.Some? then JObject(front.members + [(last.0, last.1.value)]) else front
  }

  /** The last member of an object literal decides a lookup of its name,
      unless it is `undefined`; any other name is looked up in the rest. */
  lemma ObjectOfLast(members: seq<(string, Option<Json>)>, name: string)
    requires |members| > 0
    ensures var last := members[|members| - 1];
      Property(ObjectOf(members), name) ==
        if last.0 == name && last.1.Some? then last.1 else Property(ObjectOf(members[..|members| - 1]), name)
  {
    var f := ObjectOf(members[..|members| - 1]);
    var last := members[|members| - 1];
    if last.1.Some? {
      var ms := f.members + [(last.0, last.1.value)];
      assert ms[..|ms| - 1] == f.members;
    }
  }

  /** Looking a name up in an object literal yields the last non-undefined
      value given for it. */
  lemma {:induction false} PropertyOfObject(members: seq<(string, Option<Json>)>, name: string)
    requires forall i, j | 0 <= i < j < |members| :: members[i].0 != members[j].0
    ensures forall i | 0 <= i < |members| && members[i].0 == name ::
      Property(ObjectOf(members), name) == members[i].1
    ensures (forall i | 0 <= i < |members| :: members[i].0 != name) ==>
      Property(ObjectOf(members), name) == None
    decreases |members|
  {
    if |members| > 0 {
      var n := |members|;
      var front := members[..n - 1];
      forall i | 0 <= i < n - 1
        ensures front[i] == members[i]
      {
      }
      PropertyOfObject(front, name);
      ObjectOfLast(members, name);
      if members[n - 1].0 == name {
        assert forall i | 0 <= i < n - 1 :: front[i].0 != name;
      }
    }
  }
}
