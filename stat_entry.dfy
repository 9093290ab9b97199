/** The stat entry panel (frontend/src/components/StatEntry.js): pick a
    player, then an action, then a result; the result click posts the play
    to the stat route. */
module StatEntry {
  import opened Common
  import StatModel
  import StatRoutes

  /** The panel's table of actions and their results, in display order. */
  const Actions: seq<(string, seq<string>)> := [
    ("Serve", ["Ace", "Error", "In Play"]),
    ("Spike", ["Kill", "Error", "In Play"]),
    ("Dig", ["Good", "Error", "In Play"]),
    ("Block", ["Point", "Touch", "Error"]),
    ("Set", ["Assist", "Error", "In Play"])
  ]

  /** `Object.keys(actions)`. */
  function ActionNames(): (r: seq<string>)
    ensures |r| == |Actions| && forall i :: 0 <= i < |r| ==> r[i] == Actions[i].0
  {
    seq(|Actions|, i requires 0 <= i < |Actions| => Actions[i].0)
  }

  /** `actions[action]`. */
  function ResultsOf(action: string): (r: Option<seq<string>>)
    ensures r.Some? <==> action in ActionNames()
    ensures r.Some? ==> exists i :: 0 <= i < |Actions| && Actions[i] == (action, r.value)
  {
    if action == "Serve" then Some(Actions[0].1)
    else if action == "Spike" then Some(Actions[1].1)
    else if action == "Dig" then Some(Actions[2].1)
    else if action == "Block" then Some(Actions[3].1)
    else if action == "Set" then Some(Actions[4].1)
    else None
  }

  /** Five distinct actions, each with exactly three distinct results. */
  lemma TableShape()
    ensures |ActionNames()| == 5
    ensures forall i, j :: 0 <= i < j < 5 ==> ActionNames()[i] != ActionNames()[j]
    ensures forall a :: a in ActionNames() ==>
              |ResultsOf(a).value| == 3
              && forall i, j :: 0 <= i < j < 3 ==> ResultsOf(a).value[i] != ResultsOf(a).value[j]
  {
    assert ActionNames() == ["Serve", "Spike", "Dig", "Block", "Set"];
  }

  /** A player of the team, as the panel reads it. */
  datatype Player = Player(id: string, firstName: string, lastName: string)

  /** The body of the post. */
  datatype StatPayload = StatPayload(
    userId: string,
    team: string,
    action: string,
    result: string,
    playerName: string,
    matchId: string)

  /** What the post came back with: success, or a failure carrying the
      server's `message` when there was one. */
  datatype PostOutcome = Accepted | Failed(serverMessage: Option<string>)

  datatype Severity = SuccessSeverity | ErrorSeverity

  datatype Snackbar = Snackbar(open: bool, message: string, severity: Severity)

  /** The payload for `result`, with the selected player and action. */
  function Payload(p: Player, teamName: string, matchId: string, action: string, result: string): (r: StatPayload)
    ensures r.userId == p.id && r.team == teamName && r.matchId == matchId
    ensures r.action == action && r.result == result
    ensures r.playerName == p.firstName + [' '] + p.lastName
    ensures |r.playerName| == |p.firstName| + 1 + |p.lastName| && r.playerName[|p.firstName|] == ' '
  {
    StatPayload(p.id, teamName, action, result, p.firstName + " " + p.lastName, matchId)
  }

  /** The failure message shown: the server's, when truthy, else a fixed one. */
  function FailureMessage(serverMessage: Option<string>): (m: string)
    ensures Present(serverMessage) ==> m == serverMessage.value
    ensures !Present(serverMessage) ==> m == "Error recording stat"
  {
    if Present(serverMessage) then serverMessage.value else "Error recording stat"
  }

  /** The body the stat route receives for a payload. */
  function AsRouteBody(s: StatPayload): StatRoutes.StatBody {
    StatRoutes.StatBody(Some(s.userId), Some(s.team), Some(s.action), Some(s.result), Some(s.playerName), Some(s.matchId))
  }

  /** Against the stat route, a payload with its four checked fields
      non-empty is never stored: the route answers 500 with 'Error
      recording stat', which is then the message the panel shows. */
  lemma PayloadNeverStored(s: StatPayload, now: int)
    requires s.userId != "" && s.team != "" && s.action != "" && s.result != ""
    ensures StatRoutes.MissingErrors(AsRouteBody(s)) == []
    ensures StatModel.Save(StatRoutes.RouteRecord(AsRouteBody(s)), now).Err?
    ensures FailureMessage(Some(StatRoutes.NotRecorded([]).Message())) == "Error recording stat"
  {
    StatRoutes.MissingErrorsEmptyIff(AsRouteBody(s));
    StatRoutes.RouteRecordAlwaysRejected(AsRouteBody(s), now);
  }

  /** The panel's state, for one match and one team. */
  class StatEntryPanel {
    const teamName: string
    const matchId: string
    var selectedPlayer: Option<Player>
    var selectedAction: string
    var selectedResult: string
    var snackbar: Snackbar
    /** Every payload posted so far. */
    var posted: seq<StatPayload>

    /** The action is empty or one of the table's; the result is only ever
        cleared, never set. */
    ghost predicate Valid()
      reads this
    {
      (selectedAction == "" || selectedAction in ActionNames()) && selectedResult == ""
    }

    constructor (teamName: string, matchId: string)
      ensures Valid() && this.teamName == teamName && this.matchId == matchId
      ensures selectedPlayer.None? && selectedAction == "" && selectedResult == ""
      ensures !snackbar.open && posted == []
    {
      this.teamName := teamName;
      this.matchId := matchId;
      selectedPlayer := None;
      selectedAction := "";
      selectedResult := "";
      snackbar := Snackbar(false, "", SuccessSeverity);
      posted := [];
    }

    /** The action buttons: shown only once a player is selected. */
    function OfferedActions(): (r: seq<string>)
      reads this
      ensures selectedPlayer.None? ==> r == []
      ensures selectedPlayer.Some? ==> r == ActionNames()
    {
      if selectedPlayer.Some? then ActionNames() else []
    }

    /** The result buttons: shown only once an action is selected, and
        then exactly that action's results. */
    function OfferedResults(): (r: seq<string>)
      requires Valid()
      reads this
      ensures selectedAction == "" ==> r == []
      ensures selectedAction != "" ==> Some(r) == ResultsOf(selectedAction)
    {
      if selectedAction != "" then ResultsOf(selectedAction).value else []
    }

    /** `handlePlayerSelect`. */
    method HandlePlayerSelect(p: Player)
      modifies this
      ensures Valid()
      ensures selectedPlayer == Some(p) && selectedAction == "" && selectedResult == ""
      ensures snackbar == old(snackbar) && posted == old(posted)
    {
      selectedPlayer := Some(p);
      selectedAction := "";
      selectedResult := "";
    }

    /** `handleActionSelect`; the buttons offer only the table's actions. */
    method HandleActionSelect(action: string)
      requires action in ActionNames()
      modifies this
      ensures Valid()
      ensures selectedAction == action && selectedResult == ""
      ensures selectedPlayer == old(selectedPlayer) && snackbar == old(snackbar) && posted == old(posted)
    {
      selectedAction := action;
      selectedResult := "";
    }

    /** `handleResultSelect`. `outcome` is what the post comes back with.
        Without a selected player, reading its id throws before anything is
        posted, and the failure message is the fixed one. */
    method HandleResultSelect(result: string, outcome: PostOutcome)
      requires Valid()
      modifies this
      ensures Valid() && selectedPlayer == old(selectedPlayer)
      ensures old(selectedPlayer).None? ==>
                && posted == old(posted) && selectedAction == old(selectedAction)
                && snackbar == Snackbar(true, "Error recording stat", ErrorSeverity)
      ensures old(selectedPlayer).Some? ==>
                posted == old(posted) + [Payload(old(selectedPlayer).value, teamName, matchId, old(selectedAction), result)]
      ensures old(selectedPlayer).Some? && outcome.Accepted? ==>
                && selectedAction == "" && selectedResult == ""
                && snackbar == Snackbar(true, "Stat recorded successfully", SuccessSeverity)
      ensures old(selectedPlayer).Some? && outcome.Failed? ==>
                && selectedAction == old(selectedAction)
                && snackbar == Snackbar(true, FailureMessage(outcome.serverMessage), ErrorSeverity)
    {
      if selectedPlayer.None? {
        snackbar := Snackbar(true, FailureMessage(None), ErrorSeverity);
        return;
      }
      var player := selectedPlayer.value;
      var statData := Payload(player, teamName, matchId, selectedAction, result);
      posted := posted + [statData];
      if outcome.Accepted? {
        snackbar := Snackbar(true, "Stat recorded successfully", SuccessSeverity);
        selectedAction := "";
        selectedResult := "";
      } else {
        snackbar := Snackbar(true, FailureMessage(outcome.serverMessage), ErrorSeverity);
      }
    }
  }
}
