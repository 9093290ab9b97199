/** The stat routes (backend/src/routes/stat.routes.js): recording a play
    and listing the plays of a user or of a team, newest first. */
module StatRoutes {
  import opened Common
  import opened StatModel

  /** The request body of `POST /`; only four keys are read. */
  datatype StatBody = StatBody(
    userId: Option<string>,
    team: Option<string>,
    action: Option<string>,
    result: Option<string>,
    playerName: Option<string>,
    matchId: Option<string>)

  /** The answers of `POST /`. */
  datatype PostReply =
    | Created(stat: Stat)
    | MissingFields(errors: seq<string>)
    | NotRecorded(reasons: seq<SchemaError>)
  {
    function Status(): nat {
      match this
      case Created(_) => 201
      case MissingFields(_) => 400
      case NotRecorded(_) => 500
    }
    function Message(): string {
      match this
      case Created(_) => ""
      case MissingFields(_) => "Missing required fields"
      case NotRecorded(_) => "Error recording stat"
    }
  }

  /** The four fields the route checks, in the order it checks them. */
  const CheckedFields: seq<string> := ["userId", "team", "action", "result"]

  function FieldValue(b: StatBody, field: string): Option<string> {
    if field == "userId" then b.userId
    else if field == "team" then b.team
    else if field == "action" then b.action
    else if field == "result" then b.result
    else None
  }

  /** One "<field> is missing" message for every falsy field of `fields`,
      in order. */
  function MissingOf(b: StatBody, fields: seq<string>): (r: seq<string>)
    ensures |r| <= |fields|
    ensures r == [] <==> forall i :: 0 <= i < |fields| ==> Present(FieldValue(b, fields[i]))
  {
    if fields == [] then []
    else (if Present(FieldValue(b, fields[0])) then [] else [fields[0] + " is missing"]) + MissingOf(b, fields[1..])
  }

  function MissingErrors(b: StatBody): seq<string> {
    MissingOf(b, CheckedFields)
  }

  /** The message a single field contributes. */
  function MissingMessage(message: string, v: Option<string>): seq<string> {
    if Present(v) then [] else [message]
  }

  /** The list field by field. */
  lemma MissingErrorsUnfold(b: StatBody)
    ensures MissingErrors(b) == MissingMessage("userId is missing", b.userId) + (MissingMessage("team is missing", b.team)
                                + (MissingMessage("action is missing", b.action) + MissingMessage("result is missing", b.result)))
  {
    CheckedFieldsRead(b);
    var t3: seq<string> := ["result"];
    var t2 := ["action"] + t3;
    var t1 := ["team"] + t2;
    var t0 := ["userId"] + t1;
    assert t0 == CheckedFields;
    MissingOfCons(b, "result", []);
    assert ["result"] + [] == t3;
    var m3 := MissingMessage("result is missing", b.result);
    assert m3 + [] == m3;
    MissingOfCons(b, "action", t3);
    MissingOfCons(b, "team", t2);
    MissingOfCons(b, "userId", t1);
  }

  /** The first field's message, then those of the rest. */
  lemma MissingOfCons(b: StatBody, field: string, rest: seq<string>)
    ensures MissingOf(b, [field] + rest)
            == MissingMessage(field + " is missing", FieldValue(b, field)) + MissingOf(b, rest)
  {
    assert ([field] + rest)[1..] == rest;
  }

  /** The four checked fields read the four body keys, and their messages
      spell out the key. */
  lemma CheckedFieldsRead(b: StatBody)
    ensures FieldValue(b, "userId") == b.userId && "userId" + " is missing" == "userId is missing"
    ensures FieldValue(b, "team") == b.team && "team" + " is missing" == "team is missing"
    ensures FieldValue(b, "action") == b.action && "action" + " is missing" == "action is missing"
    ensures FieldValue(b, "result") == b.result && "result" + " is missing" == "result is missing"
  {
  }

  /** The error list is empty exactly when all four checked fields are
      truthy; `playerName` and `matchId` are never checked. */
  lemma MissingErrorsEmptyIff(b: StatBody)
    ensures MissingErrors(b) == [] <==>
              Present(b.userId) && Present(b.team) && Present(b.action) && Present(b.result)
    ensures MissingErrors(b) == MissingErrors(b.(playerName := None, matchId := None))
  {
    MissingErrorsUnfold(b);
    MissingErrorsUnfold(b.(playerName := None, matchId := None));
  }

  /** With only the user id present, the list names the other three
      fields in order. */
  lemma MissingErrorsOrder(b: StatBody)
    requires Present(b.userId) && !Present(b.team) && !Present(b.action) && !Present(b.result)
    ensures MissingErrors(b) == ["team is missing", "action is missing", "result is missing"]
  {
    MissingErrorsUnfold(b);
  }

  /** The document the route hands to the schema: the four checked fields
      only, whatever else the body holds. */
  function RouteRecord(b: StatBody): (d: StatInput)
    ensures d.matchId.None? && d.playerName.None? && d.timestamp.None?
    ensures d.userId == b.userId && d.team == b.team && d.action == b.action && d.result == b.result
  {
    StatInput(b.userId, None, b.team, None, b.action, b.result, None)
  }

  /** The schema requires `matchId` and `playerName`, which the route never
      sets: every record it builds is rejected, and both omissions are
      reported. */
  lemma RouteRecordAlwaysRejected(b: StatBody, now: int)
    ensures Save(RouteRecord(b), now).Err?
    ensures Required("matchId") in Save(RouteRecord(b), now).error
    ensures Required("playerName") in Save(RouteRecord(b), now).error
  {
    var e := ValidationErrors(RouteRecord(b));
    assert e[|RequiredError("userId", b.userId)|] == Required("matchId");
  }

  /** The stats collection. */
  class StatCollection {
    var stats: seq<Stat>

    constructor ()
      ensures stats == []
    {
      stats := [];
    }
  }

  /** `POST /`. */
  method Post(coll: StatCollection, body: StatBody, now: int) returns (reply: PostReply)
    modifies coll
    ensures coll.stats == old(coll.stats) && !reply.Created?
    ensures MissingErrors(body) != [] ==> reply == MissingFields(MissingErrors(body))
    ensures MissingErrors(body) == [] ==> reply == NotRecorded(Save(RouteRecord(body), now).error)
  {
    ghost var m1, m2 := MissingMessage("userId is missing", body.userId), MissingMessage("team is missing", body.team);
    ghost var m3, m4 := MissingMessage("action is missing", body.action), MissingMessage("result is missing", body.result);
    var validationErrors: seq<string> := [];
    if !Present(body.userId) { validationErrors := validationErrors + ["userId is missing"]; }
    assert validationErrors == m1;
    if !Present(body.team) { validationErrors := validationErrors + ["team is missing"]; }
    assert validationErrors == m1 + m2;
    if !Present(body.action) { validationErrors := validationErrors + ["action is missing"]; }
    assert validationErrors == m1 + m2 + m3;
    if !Present(body.result) { validationErrors := validationErrors + ["result is missing"]; }
    assert validationErrors == m1 + m2 + m3 + m4;

    MissingErrorsUnfold(body);
    assert m1 + m2 + m3 + m4 == m1 + (m2 + (m3 + m4));
    if |validationErrors| > 0 {
      return MissingFields(validationErrors);
    }
    var newStat := RouteRecord(body);
    RouteRecordAlwaysRejected(body, now);
    var saved := Save(newStat, now);
    if saved.Ok? {
      // The insert and the 201 answer of the source are dead code: the
      // schema rejects every record the route builds.
      assert false;
    }
    reply := NotRecorded(saved.error);
  }

  /** Newest first: timestamps never increase along the list. */
  predicate NewestFirst(s: seq<Stat>) {
    forall i, j :: 0 <= i < j < |s| ==> s[i].timestamp >= s[j].timestamp
  }

  /** A stat no older than any of a newest-first list can go in front of it. */
  lemma ConsNewestFirst(h: Stat, t: seq<Stat>)
    requires NewestFirst(t)
    requires forall k :: 0 <= k < |t| ==> t[k].timestamp <= h.timestamp
    ensures NewestFirst([h] + t)
  {
    var r := [h] + t;
    forall i, j | 0 <= i < j < |r| ensures r[i].timestamp >= r[j].timestamp {
      assert r[j] == t[j - 1];
      if i > 0 {
        assert r[i] == t[i - 1];
      }
    }
  }

  /** `stat` placed into a newest-first list, before the first older one. */
  function InsertByTime(s: seq<Stat>, stat: Stat): (r: seq<Stat>)
    requires NewestFirst(s)
    ensures NewestFirst(r)
    ensures |r| == |s| + 1 && (r[0] == stat || (s != [] && r[0] == s[0]))
  {
    if s == [] || stat.timestamp >= s[0].timestamp then
      assert forall k :: 0 <= k < |s| ==> s[k].timestamp <= s[0].timestamp;
      ConsNewestFirst(stat, s);
      [stat] + s
    else
      var rest := InsertByTime(s[1..], stat);
      assert rest[0].timestamp <= s[0].timestamp;
      assert forall k :: 0 <= k < |rest| ==> rest[k].timestamp <= rest[0].timestamp;
      ConsNewestFirst(s[0], rest);
      [s[0]] + rest
  }

  /** Inserting adds exactly `stat`. */
  lemma {:induction false} InsertByTimeAdds(s: seq<Stat>, stat: Stat)
    requires NewestFirst(s)
    ensures multiset(InsertByTime(s, stat)) == multiset(s) + multiset{stat}
  {
    if s != [] && stat.timestamp < s[0].timestamp {
      InsertByTimeAdds(s[1..], stat);
      assert s == [s[0]] + s[1..];
    }
  }

  /** `.sort({ timestamp: -1 })`. */
  function SortNewestFirst(s: seq<Stat>): (r: seq<Stat>)
    ensures NewestFirst(r) && multiset(r) == multiset(s)
  {
    if s == [] then []
    else
      assert s == [s[0]] + s[1..];
      InsertByTimeAdds(SortNewestFirst(s[1..]), s[0]);
      InsertByTime(SortNewestFirst(s[1..]), s[0])
  }

  /** The stats satisfying `p`, in stored order. */
  function Select(s: seq<Stat>, p: Stat -> bool): (r: seq<Stat>)
    ensures forall x :: x in r <==> x in s && p(x)
    ensures forall x :: p(x) ==> multiset(r)[x] == multiset(s)[x]
    ensures forall x :: !p(x) ==> multiset(r)[x] == 0
  {
    if s == [] then []
    else
      assert s == [s[0]] + s[1..];
      (if p(s[0]) then [s[0]] else []) + Select(s[1..], p)
  }

  /** `GET /user/:userId`. */
  method GetByUser(coll: StatCollection, userId: string) returns (r: seq<Stat>)
    ensures NewestFirst(r)
    ensures forall x :: multiset(r)[x] == if x.userId == userId then multiset(coll.stats)[x] else 0
  {
    r := SortNewestFirst(Select(coll.stats, (x: Stat) => x.userId == userId));
  }

  /** `GET /team/:teamName`. */
  method GetByTeam(coll: StatCollection, teamName: string) returns (r: seq<Stat>)
    ensures NewestFirst(r)
    ensures forall x :: multiset(r)[x] == if x.team == teamName then multiset(coll.stats)[x] else 0
  {
    r := SortNewestFirst(Select(coll.stats, (x: Stat) => x.team == teamName));
  }
}
