/** The Mongoose schema of a recorded play (backend/src/models/stat.model.js):
    six required paths, an enumeration on `action`, and a timestamp that
    defaults to the creation time. */
module StatModel {
  import opened Common

  /** The only actions the schema admits. */
  const StatActions: seq<string> := ["Serve", "Attack", "Set", "Block", "Reception", "Defense"]

  /** A stat document as handed to the schema; any path may be absent.
      Object ids are carried as their hexadecimal strings. */
  datatype StatInput = StatInput(
    userId: Option<string>,
    matchId: Option<string>,
    team: Option<string>,
    playerName: Option<string>,
    action: Option<string>,
    result: Option<string>,
    timestamp: Option<int>)

  /** A stored stat: every required path is set. */
  datatype Stat = Stat(
    userId: string,
    matchId: string,
    team: string,
    playerName: string,
    action: string,
    result: string,
    timestamp: int)

  /** The error a `required: true` path reports when it is absent or empty. */
  function RequiredError(path: string, v: Option<string>): seq<SchemaError> {
    if Present(v) then [] else [Required(path)]
  }

  function ActionErrors(v: Option<string>): seq<SchemaError> {
    if !Present(v) then [Required("action")]
    else if v.value !in StatActions then [NotInEnum("action", v.value)]
    else []
  }

  /** Every validation error of the document, in the schema's path order. */
  function ValidationErrors(d: StatInput): seq<SchemaError> {
    RequiredError("userId", d.userId) + RequiredError("matchId", d.matchId)
    + RequiredError("team", d.team) + RequiredError("playerName", d.playerName)
    + ActionErrors(d.action) + RequiredError("result", d.result)
  }

  predicate Valid(d: StatInput) {
    ValidationErrors(d) == []
  }

  /** A document is valid exactly when all six paths are non-empty and the
      action is one of the enumerated six; `result` is free text. */
  lemma ValidIff(d: StatInput)
    ensures Valid(d) <==>
      Present(d.userId) && Present(d.matchId) && Present(d.team) && Present(d.playerName)
      && Present(d.action) && d.action.value in StatActions && Present(d.result)
  {
  }

  /** Saving a document: either the stored stat, whose timestamp is the
      given one or else `now`, or the full list of validation errors. */
  function Save(d: StatInput, now: int): (r: Result<Stat, seq<SchemaError>>)
    ensures r.Ok? <==> Valid(d)
    ensures r.Err? ==> r.error == ValidationErrors(d) && r.error != []
    ensures r.Ok? ==> r.value.timestamp == (if d.timestamp.Some? then d.timestamp.value else now)
    ensures r.Ok? ==> r.value.action in StatActions && Truthy(r.value.result)
    ensures r.Ok? ==> Some(r.value.userId) == d.userId && Some(r.value.matchId) == d.matchId
                      && Some(r.value.team) == d.team && Some(r.value.playerName) == d.playerName
                      && Some(r.value.action) == d.action && Some(r.value.result) == d.result
  {
    if Valid(d) then
      Ok(Stat(d.userId.value, d.matchId.value, d.team.value, d.playerName.value,
              d.action.value, d.result.value, d.timestamp.GetOr(now)))
    else Err(ValidationErrors(d))
  }

  /** The frontend's action names 'Spike', 'Dig' and 'Serve Recieve' are
      outside the enumeration, so a stat carrying one of them never saves. */
  lemma FrontendActionsRejected(d: StatInput)
    requires d.action in {Some("Spike"), Some("Dig"), Some("Serve Recieve")}
    ensures !Valid(d)
    ensures NotInEnum("action", d.action.value) in ValidationErrors(d)
  {
  }
}
