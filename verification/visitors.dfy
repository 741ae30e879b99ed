/**
 * The visitor book of the Node server: `upsertUser` merges one visit into
 * the user map (file I/O stripped), and `POST /api/visit` decides between
 * 400 and 200 around it. Timestamps are plain integers supplied by the
 * caller.
 */
module Visitors {
  import opened Wrappers
  import opened Text

  /** A user id as it arrives in JSON: a number or a string. */
  datatype UserId = NumId(n: int) | TextId(s: string)

  /** JavaScript truthiness of an id: not `0` and not `""`. */
  predicate IdTruthy(id: UserId)
  {
    match id
    case NumId(n) => n != 0
    case TextId(s) => s != ""
  }

  /** `String(user_id)`, the key of the user map; `5` and `"5"` share a key. */
  function IdKey(id: UserId): string
  {
    match id
    case NumId(n) => IntToString(n)
    case TextId(s) => s
  }

  /** JavaScript truthiness of an optional string field. */
  predicate Truthy(v: Option<string>)
  {
    v.Some? && v.value != ""
  }

  /** `a || b || null` over optional strings. */
  function OrElse(a: Option<string>, b: Option<string>): (r: Option<string>)
    ensures Truthy(a) ==> r == a
    ensures !Truthy(a) && Truthy(b) ==> r == b
    ensures !Truthy(a) && !Truthy(b) ==> r == None
  {
    if Truthy(a) then a else if Truthy(b) then b else None
  }

  datatype Payload = Payload(
    userId: Option<UserId>,
    username: Option<string>, firstName: Option<string>, lastName: Option<string>,
    languageCode: Option<string>, platform: Option<string>)

  datatype UserRecord = UserRecord(
    userId: UserId,
    username: Option<string>, firstName: Option<string>, lastName: Option<string>,
    languageCode: Option<string>, platform: Option<string>,
    firstSeen: int, lastSeen: int, visits: nat)

  /** `users.json`: records keyed by `String(user_id)`. */
  type Users = map<string, UserRecord>

  /** The key a payload is filed under, or `None` when `upsertUser` ignores it. */
  function KeyOf(payload: Option<Payload>): (r: Option<string>)
    ensures r.Some? <==> payload.Some? && payload.value.userId.Some? && IdTruthy(payload.value.userId.value)
  {
    if payload.Some? && payload.value.userId.Some? && IdTruthy(payload.value.userId.value)
    then Some(IdKey(payload.value.userId.value))
    else None
  }

  /**
   * `upsertUser`: nothing happens without a payload or a truthy `user_id`;
   * otherwise the record under `String(user_id)` is rewritten: one more
   * visit, `first_seen` kept (now for a new user), `last_seen` now, each
   * profile field the payload's value if truthy, else the previous value,
   * else null. Every other record stays as it was.
   */
  function Upsert(users: Users, payload: Option<Payload>, now: int): (r: Users)
    ensures KeyOf(payload).None? ==> r == users
    ensures KeyOf(payload).Some? ==>
      var key := KeyOf(payload).value;
      var p := payload.value;
      && r.Keys == users.Keys + {key}
      && (forall k | k in users && k != key :: r[k] == users[k])
      && r[key].userId == p.userId.value
      && r[key].visits == (if key in users then users[key].visits else 0) + 1
      && r[key].firstSeen == (if key in users then users[key].firstSeen else now)
      && r[key].lastSeen == now
      && r[key].username == OrElse(p.username, if key in users then users[key].username else None)
      && r[key].firstName == OrElse(p.firstName, if key in users then users[key].firstName else None)
      && r[key].lastName == OrElse(p.lastName, if key in users then users[key].lastName else None)
      && r[key].languageCode == OrElse(p.languageCode, if key in users then users[key].languageCode else None)
      && r[key].platform == OrElse(p.platform, if key in users then users[key].platform else None)
  {
    match KeyOf(payload)
    case None => users
    case Some(key) =>
      var p := payload.value;
      var current := if key in users then users[key]
        else UserRecord(p.userId.value, None, None, None, None, None, now, now, 0);
      users[key := UserRecord(
        p.userId.value,
        OrElse(p.username, current.username),
        OrElse(p.firstName, current.firstName),
        OrElse(p.lastName, current.lastName),
        OrElse(p.languageCode, current.languageCode),
        OrElse(p.platform, current.platform),
        current.firstSeen, now, current.visits + 1)]
  }

  /** One call of `upsertUser`: the payload and the time it ran. */
  datatype Visit = Visit(payload: Option<Payload>, at: int)

  /** The user map after the visits `vs`, oldest first. */
  function UpsertAll(users: Users, vs: seq<Visit>): Users
  {
    if |vs| == 0 then users
    else Upsert(UpsertAll(users, vs[..|vs| - 1]), vs[|vs| - 1].payload, vs[|vs| - 1].at)
  }

  /** How many of the visits are filed under `key`. */
  function CountFor(vs: seq<Visit>, key: string): nat
  {
    if |vs| == 0 then 0
    else CountFor(vs[..|vs| - 1], key) + (if KeyOf(vs[|vs| - 1].payload) == Some(key) then 1 else 0)
  }

  /** The time of the first visit filed under `key`. */
  function FirstVisitAt(vs: seq<Visit>, key: string): int
    requires CountFor(vs, key) > 0
  {
    if CountFor(vs[..|vs| - 1], key) > 0 then FirstVisitAt(vs[..|vs| - 1], key) else vs[|vs| - 1].at
  }

  /**
   * Over any run of visits, a user has a record exactly when it had one or
   * visited, and its visit count is the earlier count plus its visits.
   */
  lemma {:induction false} VisitsCountVisits(users: Users, vs: seq<Visit>, key: string)
    ensures key in UpsertAll(users, vs) <==> key in users || CountFor(vs, key) > 0
    ensures key in UpsertAll(users, vs) ==>
      UpsertAll(users, vs)[key].visits == (if key in users then users[key].visits else 0) + CountFor(vs, key)
  {
    if |vs| > 0 {
      VisitsCountVisits(users, vs[..|vs| - 1], key);
    }
  }

  /** A new user's `first_seen` is the time of its first visit, however many follow. */
  lemma {:induction false} FirstSeenIsFirstVisit(users: Users, vs: seq<Visit>, key: string)
    requires key !in users && CountFor(vs, key) > 0
    ensures key in UpsertAll(users, vs) && UpsertAll(users, vs)[key].firstSeen == FirstVisitAt(vs, key)
  {
    var init := vs[..|vs| - 1];
    VisitsCountVisits(users, init, key);
    if CountFor(init, key) > 0 {
      FirstSeenIsFirstVisit(users, init, key);
    }
  }

  /** The username on file for `key` after the visits: the last truthy one sent, else the one before. */
  function LastUsername(vs: seq<Visit>, key: string, before: Option<string>): Option<string>
  {
    if |vs| == 0 then before
    else
      var v := vs[|vs| - 1];
      if KeyOf(v.payload) == Some(key) && Truthy(v.payload.value.username) then v.payload.value.username
      else LastUsername(vs[..|vs| - 1], key, before)
  }

  lemma {:induction false} LastUsernameShape(vs: seq<Visit>, key: string, before: Option<string>)
    requires before == None || Truthy(before)
    ensures var u := LastUsername(vs, key, before); u == None || Truthy(u)
    ensures CountFor(vs, key) == 0 ==> LastUsername(vs, key, before) == before
  {
    if |vs| > 0 {
      LastUsernameShape(vs[..|vs| - 1], key, before);
    }
  }

  /** A profile field is the last truthy value sent; a visit without one does not erase it. */
  lemma {:induction false} UsernameIsLastTruthy(users: Users, vs: seq<Visit>, key: string)
    requires key in users ==> users[key].username == None || Truthy(users[key].username)
    requires key in users || CountFor(vs, key) > 0
    ensures key in UpsertAll(users, vs)
    ensures UpsertAll(users, vs)[key].username
      == LastUsername(vs, key, if key in users then users[key].username else None)
  {
    VisitsCountVisits(users, vs, key);
    if |vs| > 0 {
      var init := vs[..|vs| - 1];
      VisitsCountVisits(users, init, key);
      LastUsernameShape(init, key, if key in users then users[key].username else None);
      if key in users || CountFor(init, key) > 0 {
        UsernameIsLastTruthy(users, init, key);
      }
    }
  }

  /** The parsed request body of `POST /api/visit`. */
  datatype Json = JNull | JObject(payload: Payload) | JOther

  /** The body as received: empty (read as `{}`), or text that parsed (`Some`) or did not (`None`). */
  datatype Body = EmptyBody | TextBody(parsed: Option<Json>)

  datatype VisitReply = VisitReply(status: int, ok: bool, error: Option<string>)

  /** A JSON object with a truthy `user_id`. */
  predicate Accepted(body: Body)
  {
    body.TextBody? && body.parsed.Some? && body.parsed.value.JObject? && KeyOf(Some(body.parsed.value.payload)).Some?
  }

  const UserIdRequired: string := "user_id is required"
  const InvalidJson: string := "invalid json"

  /**
   * `handleVisit`: text that is not JSON, and the literal `null` (reading
   * `user_id` from it throws), answer 400 "invalid json"; any other value
   * without a truthy `user_id` answers 400 "user_id is required"; otherwise
   * the visit is recorded and the answer is 200.
   */
  function HandleVisit(users: Users, body: Body, now: int): (r: (VisitReply, Users))
    ensures r.0.status == 200 <==> Accepted(body)
    ensures r.0.status == 200 ==> r.0.ok && r.1 == Upsert(users, Some(body.parsed.value.payload), now)
    ensures r.0.status != 200 ==> r.0.status == 400 && !r.0.ok && r.1 == users
    ensures r.0.error == Some(InvalidJson) <==> body.TextBody? && (body.parsed.None? || body.parsed == Some(JNull))
  {
    match body
    case EmptyBody => (VisitReply(400, false, Some(UserIdRequired)), users)
    case TextBody(None) => (VisitReply(400, false, Some(InvalidJson)), users)
    case TextBody(Some(JNull)) => (VisitReply(400, false, Some(InvalidJson)), users)
    case TextBody(Some(JOther)) => (VisitReply(400, false, Some(UserIdRequired)), users)
    case TextBody(Some(JObject(p))) =>
      if KeyOf(Some(p)).None? then (VisitReply(400, false, Some(UserIdRequired)), users)
      else (VisitReply(200, true, None), Upsert(users, Some(p), now))
  }
}
