/** The Mongoose schemas of a team and of the matches embedded in it
    (backend/src/models/team.model.js). Casting applies the `trim` setters
    and the defaults; validation then checks `required` and `min`. */
module TeamModel {
  import opened Common

  /** `String.prototype.trimStart`, with ASCII whitespace. */
  function TrimStart(s: string): (r: string)
    ensures |r| <= |s| && r == s[|s| - |r|..]
    ensures forall k :: 0 <= k < |s| - |r| ==> IsSpace(s[k])
    ensures r != [] ==> !IsSpace(r[0])
  {
    if s != [] && IsSpace(s[0]) then TrimStart(s[1..]) else s
  }

  /** `String.prototype.trimEnd`, with ASCII whitespace. */
  function TrimEnd(s: string): (r: string)
    ensures |r| <= |s| && r == s[..|r|]
    ensures forall k :: |r| <= k < |s| ==> IsSpace(s[k])
    ensures r != [] ==> !IsSpace(r[|r| - 1])
  {
    if s != [] && IsSpace(s[|s| - 1]) then TrimEnd(s[..|s| - 1]) else s
  }

  /** The `trim: true` setter. */
  function Trim(s: string): (r: string)
  {
    TrimEnd(TrimStart(s))
  }

  /** Trimming keeps a contiguous block of the input, drops only whitespace
      around it, and leaves no whitespace at either end. */
  lemma TrimSpec(s: string)
    ensures exists i, j ::
              && 0 <= i <= j <= |s| && Trim(s) == s[i..j]
              && (forall k :: 0 <= k < i ==> IsSpace(s[k]))
              && (forall k :: j <= k < |s| ==> IsSpace(s[k]))
    ensures Trim(s) != [] ==> !IsSpace(Trim(s)[0]) && !IsSpace(Trim(s)[|Trim(s)| - 1])
  {
    var i, j := TrimWindow(s);
    var t := TrimStart(s);
    assert Trim(s) != [] ==> Trim(s)[0] == t[0];
  }

  /** Where the trimmed block starts and ends in the input. */
  lemma TrimWindow(s: string) returns (i: nat, j: nat)
    ensures i <= j <= |s| && Trim(s) == s[i..j]
    ensures forall k :: 0 <= k < i ==> IsSpace(s[k])
    ensures forall k :: j <= k < |s| ==> IsSpace(s[k])
  {
    var t := TrimStart(s);
    var r := TrimEnd(t);
    i := |s| - |t|;
    j := i + |r|;
    assert r == s[i..j];
    forall k | j <= k < |s| ensures IsSpace(s[k]) {
      assert s[k] == t[k - i];
    }
  }

  /** A trimmed string is non-empty exactly when the input holds a
      non-whitespace character, so `required` rejects blank strings. */
  lemma TrimEmptyIff(s: string)
    ensures Trim(s) == "" <==> forall k :: 0 <= k < |s| ==> IsSpace(s[k])
  {
    var t := TrimStart(s);
    if t != [] {
      assert !IsSpace(t[0]);
    }
  }

  /** Trimming twice is trimming once. */
  lemma TrimIdempotent(s: string)
    ensures Trim(Trim(s)) == Trim(s)
  {
    var t := Trim(s);
    if t != [] {
      assert !IsSpace(t[0]) && !IsSpace(t[|t| - 1]);
      assert TrimStart(t) == t;
      assert TrimEnd(t) == t;
    }
  }

  function TrimOpt(o: Option<string>): Option<string> {
    if o.Some? then Some(Trim(o.value)) else None
  }

  /** A match as submitted; every path may be absent. Dates are epoch milliseconds. */
  datatype MatchInput = MatchInput(
    date: Option<int>,
    location: Option<string>,
    opponent: Option<string>,
    us: Option<int>,
    them: Option<int>,
    videoUrl: Option<string>)

  /** A match subdocument after casting: strings trimmed, scores defaulted. */
  datatype Match = Match(
    date: Option<int>,
    location: Option<string>,
    opponent: Option<string>,
    us: int,
    them: int,
    videoUrl: Option<string>)

  /** Casting a match: `location`, `opponent` and `videoUrl` are trimmed and
      each score defaults to 0. */
  function CastMatch(m: MatchInput): (r: Match)
    ensures r.us == m.us.GetOr(0) && r.them == m.them.GetOr(0)
    ensures r.location.Some? <==> m.location.Some?
    ensures r.location.Some? ==> r.location.value == Trim(m.location.value)
    ensures r.opponent.Some? <==> m.opponent.Some?
    ensures r.opponent.Some? ==> r.opponent.value == Trim(m.opponent.value)
    ensures r.videoUrl.Some? <==> m.videoUrl.Some?
    ensures r.videoUrl.Some? ==> r.videoUrl.value == Trim(m.videoUrl.value)
  {
    Match(m.date, TrimOpt(m.location), TrimOpt(m.opponent), m.us.GetOr(0), m.them.GetOr(0), TrimOpt(m.videoUrl))
  }

  function MinError(path: string, v: int): seq<SchemaError> {
    if v < 0 then [BelowMin(path, v)] else []
  }

  /** Validation errors of a cast match: date, location and opponent are
      required, both scores are at least 0; `videoUrl` is optional. */
  function MatchErrors(m: Match): seq<SchemaError> {
    (if m.date.Some? then [] else [Required("date")])
    + (if Present(m.location) then [] else [Required("location")])
    + (if Present(m.opponent) then [] else [Required("opponent")])
    + MinError("score.us", m.us) + MinError("score.them", m.them)
  }

  predicate MatchValid(m: Match) {
    MatchErrors(m) == []
  }

  /** A submitted match saves exactly when it has a date, a location and an
      opponent that are not blank, and no negative score; an absent score
      counts as 0. */
  lemma MatchValidIff(m: MatchInput)
    ensures MatchValid(CastMatch(m)) <==>
      m.date.Some?
      && m.location.Some? && (exists k :: 0 <= k < |m.location.value| && !IsSpace(m.location.value[k]))
      && m.opponent.Some? && (exists k :: 0 <= k < |m.opponent.value| && !IsSpace(m.opponent.value[k]))
      && m.us.GetOr(0) >= 0 && m.them.GetOr(0) >= 0
  {
    if m.location.Some? { TrimEmptyIff(m.location.value); }
    if m.opponent.Some? { TrimEmptyIff(m.opponent.value); }
  }

  /** A team as submitted. An absent `players` or `matches` array is empty. */
  datatype TeamInput = TeamInput(
    name: Option<string>,
    players: seq<Id>,
    matches: seq<MatchInput>,
    wins: Option<int>,
    losses: Option<int>)

  /** A stored team. `players` is an ordered list that may repeat an id;
      `wins` and `losses` are stored counters. */
  datatype Team = Team(
    id: Id,
    name: string,
    players: seq<Id>,
    matches: seq<Match>,
    wins: int,
    losses: int)

  function CastMatches(ms: seq<MatchInput>): (r: seq<Match>)
    ensures |r| == |ms| && forall i :: 0 <= i < |ms| ==> r[i] == CastMatch(ms[i])
  {
    seq(|ms|, i requires 0 <= i < |ms| => CastMatch(ms[i]))
  }

  function AllMatchErrors(ms: seq<Match>): (r: seq<SchemaError>)
    ensures r == [] <==> forall i :: 0 <= i < |ms| ==> MatchValid(ms[i])
  {
    if ms == [] then [] else MatchErrors(ms[0]) + AllMatchErrors(ms[1..])
  }

  /** Creating a team document with the given id: the name is required (but
      not unique), the embedded matches must validate, and `wins`/`losses`
      default to 0. */
  function CastTeam(t: TeamInput, id: Id): (r: Result<Team, seq<SchemaError>>)
    ensures r.Ok? <==> Present(t.name) && forall i :: 0 <= i < |t.matches| ==> MatchValid(CastMatch(t.matches[i]))
    ensures r.Ok? ==> r.value == Team(id, t.name.value, t.players, CastMatches(t.matches), t.wins.GetOr(0), t.losses.GetOr(0))
    ensures r.Err? ==> r.error != []
  {
    var matches := CastMatches(t.matches);
    var matchErrors := AllMatchErrors(matches);
    assert matchErrors == [] <==> forall i :: 0 <= i < |t.matches| ==> MatchValid(CastMatch(t.matches[i]));
    var errors := (if Present(t.name) then [] else [Required("name")]) + matchErrors;
    if errors == [] then Ok(Team(id, t.name.value, t.players, matches, t.wins.GetOr(0), t.losses.GetOr(0)))
    else Err(errors)
  }

  /** `wins` and `losses` are not derived from the matches: whether a team
      saves does not depend on them, so any counters are accepted with any
      match list. */
  lemma CountersIndependentOfMatches(t: TeamInput, w: int, l: int, id: Id)
    ensures CastTeam(t, id).Ok? == CastTeam(t.(wins := Some(w), losses := Some(l)), id).Ok?
  {
  }
}
