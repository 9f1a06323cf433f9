/** The HTTP Basic authentication guard `requireAuth` of server.js, which
    protects the log dashboard, `GET /logs`, `POST /clear-logs` and the
    role-change route. The base64 decoding of the token is a parameter. */
module BasicAuth {
  import opened Js

  /** The one administrator account the guard accepts. */
  datatype AdminCredentials = AdminCredentials(user: string, pass: string)

  /** `ADMIN_USER || 'admin'` and `ADMIN_PASS || 'uhq123'`. */
  function AdminFromEnv(env: Env): (r: AdminCredentials)
    ensures r.user != "" && r.pass != ""
    ensures r.user == if Truthy(EnvVar(env, "ADMIN_USER")) then env["ADMIN_USER"] else "admin"
    ensures r.pass == if Truthy(EnvVar(env, "ADMIN_PASS")) then env["ADMIN_PASS"] else "uhq123"
  {
    AdminCredentials(OrDefault(EnvVar(env, "ADMIN_USER"), "admin"), OrDefault(EnvVar(env, "ADMIN_PASS"), "uhq123"))
  }

  /** What the guard does with a request: pass it on to the route (`next()`),
      or answer it with a status, a plain-text body and, when `challenge`
      holds, the header `WWW-Authenticate: Basic realm="Logs"`. */
  datatype AuthDecision = Grant | Deny(status: int, message: string, challenge: bool)

  /** The decoded `user:password` text cut at its first colon, as
      `creds.slice(0, idx)` and `creds.slice(idx + 1)` do. The decoded text
      is a JavaScript string, so both cuts count UTF-16 code units. */
  function SplitCredentials(creds: seq<CodeUnit>): (r: (seq<CodeUnit>, seq<CodeUnit>))
    ensures Colon !in r.0
    ensures Colon in creds ==> creds == r.0 + [Colon] + r.1
    ensures Colon !in creds ==> r.1 == creds && r.0 == creds[..if |creds| == 0 then 0 else |creds| - 1]
  {
    var idx := IndexOf(creds, Colon);
    var r := (Slice(creds, 0, idx), Slice(creds, idx + 1, |creds|));
    if idx >= 0 then
      assert creds == creds[..idx] + [Colon] + creds[idx + 1..];
      r
    else
      assert Colon !in creds[..if |creds| == 0 then 0 else |creds| - 1];
      r
  }

  /** Whether decoded credentials name the administrator account (`===` on
      strings compares code units). */
  predicate CredentialsAccepted(creds: seq<CodeUnit>, admin: AdminCredentials): (accepted: bool)
    ensures accepted ==> ':' !in admin.user
  {
    Utf16Colon(admin.user);
    SplitCredentials(creds) == (Utf16(admin.user), Utf16(admin.pass))
  }

  /** `requireAuth(req, res, next)`; `authorization` is the request's
      Authorization header, `decodeBase64` stands for
      `Buffer.from(token, 'base64').toString()`. */
  function RequireAuth(authorization: Option<string>, decodeBase64: string -> seq<CodeUnit>, admin: AdminCredentials): (d: AuthDecision)
    ensures d.Deny? ==> d.status == 400 || d.status == 401
    ensures d.Deny? ==> (d.status == 401 <==> d.challenge)
  {
    if !Truthy(authorization) then Deny(401, "Authentication required", true)
    else
      var parts := Split(authorization.value, ' ');
      if |parts| != 2 || parts[0] != "Basic" then Deny(400, "Bad Authorization header", false)
      else if CredentialsAccepted(decodeBase64(parts[1]), admin) then Grant
      else Deny(401, "Invalid credentials", true)
  }

  /** A header splits on spaces into exactly `["Basic", token]` iff it is
      `"Basic "` followed by a token that contains no space. */
  lemma {:induction false} BasicHeaderShape(h: string)
    ensures (|Split(h, ' ')| == 2 && Split(h, ' ')[0] == "Basic") <==>
            (|h| >= 6 && h[..6] == "Basic " && ' ' !in h[6..])
    ensures |Split(h, ' ')| == 2 && Split(h, ' ')[0] == "Basic" ==> Split(h, ' ')[1] == h[6..]
  {
    var parts := Split(h, ' ');
    if |parts| == 2 && parts[0] == "Basic" {
      assert parts == [parts[0], parts[1]];
      assert parts[1] in parts;
      JoinTwo(parts[0], parts[1], ' ');
      assert h == "Basic " + parts[1];
      assert h[6..] == parts[1];
    }
    if |h| >= 6 && h[..6] == "Basic " && ' ' !in h[6..] {
      WellFormedHeaderSplits(h);
    }
  }

  lemma WellFormedHeaderSplits(h: string)
    requires |h| >= 6 && h[..6] == "Basic " && ' ' !in h[6..]
    ensures Split(h, ' ') == ["Basic", h[6..]]
  {
    assert h[..5] == h[..6][..5] == "Basic";
    assert h[5] == h[..6][5] == ' ';
    assert ' ' !in h[..5];
    SplitAtOnly(h, 5, ' ');
  }

  /** A request without an Authorization header (or with an empty one) is
      answered 401 "Authentication required" with a challenge and never
      reaches the route. */
  lemma MissingHeaderIsChallenged(authorization: Option<string>, decodeBase64: string -> seq<CodeUnit>, admin: AdminCredentials)
    requires !Truthy(authorization)
    ensures RequireAuth(authorization, decodeBase64, admin) == Deny(401, "Authentication required", true)
  {
  }

  /** A header that is not `Basic <token>` with a single space is answered
      400 "Bad Authorization header", whatever the credentials. */
  lemma {:induction false} MalformedHeaderIsRejected(h: string, decodeBase64: string -> seq<CodeUnit>, admin: AdminCredentials)
    requires h != ""
    requires !(|h| >= 6 && h[..6] == "Basic " && ' ' !in h[6..])
    ensures RequireAuth(Some(h), decodeBase64, admin) == Deny(400, "Bad Authorization header", false)
  {
    BasicHeaderShape(h);
  }

  /** The guard calls `next()` exactly for a `Basic <token>` header whose
      decoded token names the administrator; every other well-formed header
      gets 401 "Invalid credentials" with a challenge. */
  lemma {:induction false} GrantIff(authorization: Option<string>, decodeBase64: string -> seq<CodeUnit>, admin: AdminCredentials)
    ensures RequireAuth(authorization, decodeBase64, admin) == Grant <==>
      (authorization.Some? && |authorization.value| >= 6 && authorization.value[..6] == "Basic "
       && ' ' !in authorization.value[6..]
       && CredentialsAccepted(decodeBase64(authorization.value[6..]), admin))
    ensures RequireAuth(authorization, decodeBase64, admin) != Grant && authorization.Some?
       && |authorization.value| >= 6 && authorization.value[..6] == "Basic " && ' ' !in authorization.value[6..]
       ==> RequireAuth(authorization, decodeBase64, admin) == Deny(401, "Invalid credentials", true)
  {
    if authorization.Some? {
      BasicHeaderShape(authorization.value);
    }
  }

  /** Section 2 of RFC 7617: the credentials are the user-id, a colon and the
      password, and the user-id itself contains no colon. */
  predicate Rfc7617Match(creds: seq<CodeUnit>, admin: AdminCredentials) {
    creds == Utf16(admin.user) + [Colon] + Utf16(admin.pass) && ':' !in admin.user
  }

  /** With a colon, the two cuts are plain subsequences around the first
      one. */
  lemma ColonSplit(creds: seq<CodeUnit>)
    requires Colon in creds
    ensures var idx := IndexOf(creds, Colon);
      0 <= idx && SplitCredentials(creds) == (creds[..idx], creds[idx + 1..])
  {
    var idx := IndexOf(creds, Colon);
    SliceInRange(creds, 0, idx);
    SliceInRange(creds, idx + 1, |creds|);
    assert creds[0..idx] == creds[..idx];
    assert creds[idx + 1..|creds|] == creds[idx + 1..];
  }

  /** Accepted credentials with a colon are the RFC 7617 form. */
  lemma AcceptedColonIsRfc7617(creds: seq<CodeUnit>, admin: AdminCredentials)
    requires Colon in creds && CredentialsAccepted(creds, admin)
    ensures Rfc7617Match(creds, admin)
  {
    var idx := IndexOf(creds, Colon);
    ColonSplit(creds);
    var u, p := Utf16(admin.user), Utf16(admin.pass);
    assert creds[..idx] == u && creds[idx + 1..] == p;
    CutAround(creds, idx);
    assert Colon !in u;
    Utf16Colon(admin.user);
  }

  /** A sequence is what comes before position `k`, the element there, and
      what comes after. */
  lemma CutAround<T>(s: seq<T>, k: nat)
    requires k < |s|
    ensures s == s[..k] + [s[k]] + s[k + 1..]
  {
  }

  /** The RFC 7617 form is accepted: its first colon ends the user-id. */
  lemma Rfc7617IsAccepted(creds: seq<CodeUnit>, admin: AdminCredentials)
    requires Rfc7617Match(creds, admin)
    ensures CredentialsAccepted(creds, admin)
  {
    var u := Utf16(admin.user);
    Utf16Colon(admin.user);
    assert creds[|u|] == Colon && creds[..|u|] == u;
    FirstOccurrence(creds, Colon, |u|);
    ColonSplit(creds);
    assert creds[|u| + 1..] == Utf16(admin.pass);
  }

  /** Credentials that contain a colon are cut at the first one, so the
      password may itself contain colons: they are accepted iff they are
      exactly `user:password` for the administrator in the sense of RFC 7617. */
  lemma {:induction false} ColonCredentials(creds: seq<CodeUnit>, admin: AdminCredentials)
    requires Colon in creds
    ensures CredentialsAccepted(creds, admin) <==> Rfc7617Match(creds, admin)
  {
    if CredentialsAccepted(creds, admin) {
      AcceptedColonIsRfc7617(creds, admin);
    }
    if Rfc7617Match(creds, admin) {
      Rfc7617IsAccepted(creds, admin);
    }
  }

  /** Credentials without a colon: `indexOf` is -1, so the user becomes the
      text minus its last code unit and the password the whole text. */
  lemma NoColonCredentials(creds: seq<CodeUnit>)
    requires Colon !in creds
    ensures SplitCredentials(creds) == (if creds == [] then [] else creds[..|creds| - 1], creds)
  {
    assert IndexOf(creds, Colon) == -1;
    if creds != [] {
      assert RelativeIndex(-1, |creds|) == |creds| - 1;
      SliceInRange(creds, 0, |creds| - 1);
    }
    SliceInRange(creds, 0, |creds|);
    assert creds[0..|creds|] == creds;
  }

  /** The RFC 7617 form always has a colon right after the user-id. */
  lemma Rfc7617HasColon(creds: seq<CodeUnit>, admin: AdminCredentials)
    requires Rfc7617Match(creds, admin)
    ensures |Utf16(admin.user)| < |creds| && creds[|Utf16(admin.user)|] == Colon
  {
  }

  /** Every accepted credential text is the RFC 7617 form, or else it has no
      colon, equals the administrator password, and that password is the
      administrator user name followed by one more code unit. */
  lemma {:induction false} AcceptedCredentials(creds: seq<CodeUnit>, admin: AdminCredentials)
    ensures CredentialsAccepted(creds, admin) <==>
      Rfc7617Match(creds, admin)
      || (Colon !in creds && creds == Utf16(admin.pass)
          && Utf16(admin.user) == (if creds == [] then [] else creds[..|creds| - 1]))
  {
    if Colon in creds {
      ColonCredentials(creds, admin);
    } else {
      NoColonCredentials(creds);
      if Rfc7617Match(creds, admin) {
        Rfc7617HasColon(creds, admin);
      }
    }
  }

  /** The colon-less form for a password that is the user name plus one
      character `c`: the bare password is let through iff `c` is a single
      code unit. A character outside the Basic Multilingual Plane is two, and
      cutting one leaves half of a surrogate pair on the user name. */
  lemma {:induction false} BareTextQuirk(decodeBase64: string -> seq<CodeUnit>, token: string, user: string, c: char)
    requires decodeBase64(token) == Utf16(user + [c])
    requires ' ' !in token && ':' !in user && c != ':'
    ensures RequireAuth(Some("Basic " + token), decodeBase64, AdminCredentials(user, user + [c])) ==
      if c as int < 0x1_0000 then Grant else Deny(401, "Invalid credentials", true)
  {
    var h := "Basic " + token;
    assert h[..6] == "Basic " && h[6..] == token;
    BasicHeaderShape(h);
    var pass := user + [c];
    assert pass[..|pass| - 1] == user;
    var creds := Utf16(pass);
    assert creds == Utf16(user) + Utf16Char(c);
    Utf16Colon(pass);
    assert SplitCredentials(creds) == (creds[..|creds| - 1], creds);
    if c as int < 0x1_0000 {
      assert creds[..|creds| - 1] == Utf16(user);
    } else {
      assert |creds[..|creds| - 1]| == |Utf16(user)| + 1;
    }
  }

  /** The quirk with user `admin` and password `admin!`: the token for the
      bare text `admin!` is let through. */
  lemma NoColonQuirkExample(decodeBase64: string -> seq<CodeUnit>, token: string)
    requires decodeBase64(token) == Utf16("admin!")
    requires ' ' !in token
    ensures RequireAuth(Some("Basic " + token), decodeBase64, AdminCredentials("admin", "admin!")) == Grant
  {
    assert "admin" + ['!'] == "admin!";
    BareTextQuirk(decodeBase64, token, "admin", '!');
  }

  /** With user `admin` and password `admin` followed by U+1F600, the bare
      password is refused. */
  lemma AstralQuirkRefused(decodeBase64: string -> seq<CodeUnit>, token: string)
    requires decodeBase64(token) == Utf16("admin\U{1F600}")
    requires ' ' !in token
    ensures RequireAuth(Some("Basic " + token), decodeBase64, AdminCredentials("admin", "admin\U{1F600}"))
      == Deny(401, "Invalid credentials", true)
  {
    assert "admin" + ['\U{1F600}'] == "admin\U{1F600}";
    BareTextQuirk(decodeBase64, token, "admin", '\U{1F600}');
  }

  /** With the administrator taken from the environment (never empty), an
      empty credential text is never accepted. */
  lemma EmptyCredentialsRejected(env: Env)
    ensures !CredentialsAccepted([], AdminFromEnv(env))
  {
    NoColonCredentials([]);
  }
}
