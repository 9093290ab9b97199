/** The data entry page (frontend/src/pages/DataEntryPage.js): a single
    placeholder player, an action, then a result click that records nothing
    and starts over. */
module DataEntryPage {
  import opened Common
  import StatEntry

  /** The page's table of actions and results, in display order. */
  const Actions: seq<(string, seq<string>)> := [
    ("Serve", ["Ace", "Out of System", "Serve Error", "In Play"]),
    ("Spike", ["Kill", "Error", "Blocked", "In Play"]),
    ("Dig", ["Perfect Pass", "Out of System Pass", "Error"]),
    ("Block", ["Stuff Block", "Touch", "Error"]),
    ("Set", ["Perfect Set", "Off Set", "Error"])
  ]

  /** The only player button. */
  const PlaceholderPlayer := "Player 1"

  /** `Object.keys(actions)`. */
  function ActionNames(): (r: seq<string>)
    ensures |r| == |Actions| && forall i :: 0 <= i < |r| ==> r[i] == Actions[i].0
  {
    seq(|Actions|, i requires 0 <= i < |Actions| => Actions[i].0)
  }

  /** `actions[action]`. */
  function ResultsOf(action: string): (r: Option<seq<string>>)
    ensures r.Some? <==> action in ActionNames()
    ensures r.Some? ==> exists i :: 0 <= i < |Actions| && Actions[i] == (action, r.value)
  {
    if action == "Serve" then Some(Actions[0].1)
    else if action == "Spike" then Some(Actions[1].1)
    else if action == "Dig" then Some(Actions[2].1)
    else if action == "Block" then Some(Actions[3].1)
    else if action == "Set" then Some(Actions[4].1)
    else None
  }

  /** Five actions; Serve and Spike have four results, the others three. */
  lemma TableShape()
    ensures ActionNames() == ["Serve", "Spike", "Dig", "Block", "Set"]
    ensures |ResultsOf("Serve").value| == 4 && |ResultsOf("Spike").value| == 4
    ensures |ResultsOf("Dig").value| == 3 && |ResultsOf("Block").value| == 3 && |ResultsOf("Set").value| == 3
  {
  }

  /** The two entry screens name the same actions but offer different
      results for every one of them. */
  lemma TablesDisagree(action: string)
    requires action in ActionNames()
    ensures action in StatEntry.ActionNames()
    ensures ResultsOf(action) != StatEntry.ResultsOf(action)
  {
    StatEntry.TableShape();
    assert StatEntry.ActionNames() == ["Serve", "Spike", "Dig", "Block", "Set"];
    if action == "Dig" || action == "Block" || action == "Set" {
      assert ResultsOf(action).value[0] != StatEntry.ResultsOf(action).value[0];
    } else {
      assert |ResultsOf(action).value| == 4;
    }
  }

  /** The page's selection state. */
  class DataEntryState {
    var selectedPlayer: Option<string>
    var selectedAction: Option<string>

    /** An action is only ever selected for a selected player, and is one
        of the table's. */
    ghost predicate Valid()
      reads this
    {
      && (selectedAction.Some? ==> selectedPlayer.Some?)
      && (selectedAction.Some? ==> selectedAction.value in ActionNames())
    }

    constructor ()
      ensures Valid() && selectedPlayer.None? && selectedAction.None?
    {
      selectedPlayer := None;
      selectedAction := None;
    }

    /** The action buttons: shown only when a player is selected. */
    function OfferedActions(): (r: seq<string>)
      reads this
      ensures selectedPlayer.None? ==> r == []
      ensures selectedPlayer.Some? ==> r == ActionNames()
    {
      if selectedPlayer.Some? then ActionNames() else []
    }

    /** The result buttons: shown only when an action is selected, and
        then exactly that action's results. */
    function OfferedResults(): (r: seq<string>)
      requires Valid()
      reads this
      ensures selectedAction.None? ==> r == []
      ensures selectedAction.Some? ==> Some(r) == ResultsOf(selectedAction.value)
    {
      if selectedAction.Some? then ResultsOf(selectedAction.value).value else []
    }

    /** The player button; the selected action stays. */
    method SelectPlayer()
      requires Valid()
      modifies this
      ensures Valid() && selectedPlayer == Some(PlaceholderPlayer) && selectedAction == old(selectedAction)
    {
      selectedPlayer := Some(PlaceholderPlayer);
    }

    /** An action button, one of those on screen. */
    method SelectAction(action: string)
      requires Valid() && action in OfferedActions()
      modifies this
      ensures Valid() && selectedAction == Some(action) && selectedPlayer == old(selectedPlayer)
    {
      selectedAction := Some(action);
    }

    /** A result button, one of those on screen: whichever it is, both
        selections are cleared and nothing is recorded. */
    method SelectResult(result: string)
      requires Valid() && result in OfferedResults()
      modifies this
      ensures Valid() && selectedAction.None? && selectedPlayer.None?
    {
      selectedAction := None;
      selectedPlayer := None;
    }
  }
}
