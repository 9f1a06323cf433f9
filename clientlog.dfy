/** logger.js's `logEvent` and `logError`: the JSON body the browser posts
    to `/log`. Arguments are arbitrary JSON values, `undefined` being None;
    the clock (`ts`) and `location.pathname` (`url`) are parameters. */
module ClientLog {
  import opened Js
  import LogQuery
  import LogFile

  /** `{ type, payload, ts, url }` as `JSON.stringify` sends it: members
      whose value is `undefined` are left out. */
  function EventBody(eventType: Option<Json>, payload: Option<Json>, ts: string, url: string): (body: Json)
    ensures body.JObject?
    ensures Property(body, "type") == eventType
    ensures Property(body, "payload") == payload
    ensures Property(body, "ts") == Some(JString(ts))
    ensures Property(body, "url") == Some(JString(url))
  {
    var members := [("type", eventType), ("payload", payload), ("ts", Some(JString(ts))), ("url", Some(JString(url)))];
    assert members[0].0 == "type" && members[1].0 == "payload" && members[2].0 == "ts" && members[3].0 == "url";
    PropertyOfObject(members, "type");
    PropertyOfObject(members, "payload");
    PropertyOfObject(members, "ts");
    PropertyOfObject(members, "url");
    ObjectOf(members)
  }

  /** `logError(msg, context = {})`: the default applies when `context` is
      `undefined`. */
  function ErrorPayload(msg: Option<Json>, context: Option<Json>, url: string): (payload: Json)
    ensures Property(payload, "message") == msg
    ensures Property(payload, "context") == Some(if context.Some? then context.value else JObject([]))
    ensures Property(payload, "url") == Some(JString(url))
  {
    var ctx := if context.Some? then context.value else JObject([]);
    var members := [("message", msg), ("context", Some(ctx)), ("url", Some(JString(url)))];
    assert members[0].0 == "message" && members[1].0 == "context" && members[2].0 == "url";
    PropertyOfObject(members, "message");
    PropertyOfObject(members, "context");
    PropertyOfObject(members, "url");
    ObjectOf(members)
  }

  /** The body `logError` posts: an `error` event around `ErrorPayload`. */
  function ErrorBody(msg: Option<Json>, context: Option<Json>, ts: string, url: string): (body: Json)
    ensures Property(body, "type") == Some(JString("error"))
    ensures Property(body, "payload") == Some(ErrorPayload(msg, context, url))
  {
    EventBody(Some(JString("error")), Some(ErrorPayload(msg, context, url)), ts, url)
  }

  /** Once the server has stored an event (`POST /log` wraps the parsed
      body with a timestamp), the `GET /logs` type filter keeps it for
      exactly the type it was sent with. */
  lemma EventEntryMatchesItsType(eventType: string, other: string, payload: Option<Json>, ts: string, url: string, stamp: string)
    ensures LogQuery.MatchesType(LogFile.Entry(stamp, EventBody(Some(JString(eventType)), payload, ts, url)), eventType)
    ensures other != eventType ==>
      !LogQuery.MatchesType(LogFile.Entry(stamp, EventBody(Some(JString(eventType)), payload, ts, url)), other)
  {
  }

  /** Errors reported through `logError` are what `GET /logs?type=error`
      lists. */
  lemma ErrorEntriesAreErrors(msg: Option<Json>, context: Option<Json>, ts: string, url: string, stamp: string)
    ensures LogQuery.MatchesType(LogFile.Entry(stamp, ErrorBody(msg, context, ts, url)), "error")
  {
  }

  /** An event sent without a type has a body, so the type filter does not
      throw on it, but no type filter keeps it. */
  lemma UntypedEventMatchesNoType(payload: Option<Json>, ts: string, url: string, stamp: string, t: string)
    ensures LogQuery.HasBody(LogFile.Entry(stamp, EventBody(None, payload, ts, url)))
    ensures !LogQuery.MatchesType(LogFile.Entry(stamp, EventBody(None, payload, ts, url)), t)
  {
  }
}
