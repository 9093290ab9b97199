/** The team management panel (frontend/src/components/TeamManagement.js):
    the team dialog, the match dialog that appends a match to the team
    object it was handed, and the row that expands one team at a time. */
module TeamManagement {
  import opened Common

  /** The match form: `score.us` and `score.them` as `us` and `them`. */
  datatype MatchData = MatchData(date: string, location: string, opponent: string, us: int, them: int)

  /** The team form. */
  datatype TeamForm = TeamForm(name: string, wins: int, losses: int, players: seq<string>)

  /** A team object as the panel received it; the panel mutates `matches`
      in place, so the object is shared with whoever holds it. */
  class TeamObject {
    const id: string
    var name: string
    var wins: int
    var losses: int
    var players: seq<string>
    var matches: seq<MatchData>

    constructor (id: string, name: string, wins: int, losses: int, players: seq<string>, matches: seq<MatchData>)
      ensures this.id == id && this.name == name && this.wins == wins && this.losses == losses
      ensures this.players == players && this.matches == matches
    {
      this.id := id;
      this.name := name;
      this.wins := wins;
      this.losses := losses;
      this.players := players;
      this.matches := matches;
    }
  }

  /** The value of a team object at one moment. */
  datatype TeamSnapshot = TeamSnapshot(id: string, name: string, wins: int, losses: int, players: seq<string>, matches: seq<MatchData>)

  function Snapshot(t: TeamObject): (s: TeamSnapshot)
    reads t
  {
    TeamSnapshot(t.id, t.name, t.wins, t.losses, t.players, t.matches)
  }

  /** A call of one of the panel's callbacks. */
  datatype Call =
    | CreateTeam(form: TeamForm)
    | UpdateTeamForm(teamId: string, form: TeamForm)
    | UpdateTeamObject(teamId: string, team: TeamSnapshot)

  /** The empty team form. */
  const EmptyTeamForm := TeamForm("", 0, 0, [])

  /** The empty match form dated `today`. */
  function EmptyMatch(today: string): MatchData {
    MatchData(today, "", "", 0, 0)
  }

  /** `teams.find(t => t._id === teamId)`: the first team with that id. */
  function FindTeam(teams: seq<TeamObject>, teamId: Option<string>): (r: Option<nat>)
    ensures r.Some? ==> r.value < |teams| && Some(teams[r.value].id) == teamId
                        && forall j :: 0 <= j < r.value ==> Some(teams[j].id) != teamId
    ensures r.None? ==> forall j :: 0 <= j < |teams| ==> Some(teams[j].id) != teamId
  {
    if teams == [] then None
    else if Some(teams[0].id) == teamId then Some(0)
    else
      var r := FindTeam(teams[1..], teamId);
      if r.Some? then Some(r.value + 1) else None
  }

  /** The row expanded after clicking the row of `teamId`. */
  function RowToggle(expanded: Option<string>, teamId: string): (r: Option<string>)
    ensures r == Some(teamId) <==> expanded != Some(teamId)
    ensures r != Some(teamId) ==> r.None?
  {
    if expanded == Some(teamId) then None else Some(teamId)
  }

  /** Clicking the same row twice: an expanded or collapsed panel comes
      back as it was; if another row was expanded, everything ends
      collapsed. */
  lemma RowToggleTwice(expanded: Option<string>, teamId: string)
    ensures expanded == Some(teamId) || expanded.None? ==> RowToggle(RowToggle(expanded, teamId), teamId) == expanded
    ensures expanded != Some(teamId) ==> RowToggle(RowToggle(expanded, teamId), teamId).None?
  {
  }

  /** The panel's state, over the `teams` it was given. */
  class TeamPanel {
    const teams: seq<TeamObject>
    var open: bool
    var selectedTeam: Option<TeamObject>
    var expandedTeam: Option<string>
    var matchDialogOpen: bool
    var formData: TeamForm
    var matchData: MatchData
    /** Every callback call made so far. */
    var calls: seq<Call>

    constructor (teams: seq<TeamObject>, today: string)
      ensures this.teams == teams && !open && selectedTeam.None? && expandedTeam.None? && !matchDialogOpen
      ensures formData == EmptyTeamForm && matchData == EmptyMatch(today) && calls == []
    {
      this.teams := teams;
      open := false;
      selectedTeam := None;
      expandedTeam := None;
      matchDialogOpen := false;
      formData := EmptyTeamForm;
      matchData := EmptyMatch(today);
      calls := [];
    }

    /** `handleOpen(team)`: editing loads the team into the form, creating
        starts from the empty form. */
    method HandleOpen(team: Option<TeamObject>)
      modifies this
      ensures open && selectedTeam == team
      ensures team.Some? ==> formData == TeamForm(team.value.name, team.value.wins, team.value.losses, team.value.players)
      ensures team.None? ==> formData == EmptyTeamForm
      ensures expandedTeam == old(expandedTeam) && matchDialogOpen == old(matchDialogOpen)
      ensures matchData == old(matchData) && calls == old(calls)
    {
      if team.Some? {
        selectedTeam := team;
        var t := team.value;
        formData := TeamForm(t.name, t.wins, t.losses, t.players);
      } else {
        selectedTeam := None;
        formData := EmptyTeamForm;
      }
      open := true;
    }

    /** `handleClose`. */
    method HandleClose()
      modifies this
      ensures !open && selectedTeam.None?
      ensures formData == old(formData) && expandedTeam == old(expandedTeam) && matchDialogOpen == old(matchDialogOpen)
      ensures matchData == old(matchData) && calls == old(calls)
    {
      open := false;
      selectedTeam := None;
    }

    /** `handleSubmit`: update the selected team from the form, or create
        one; either way the dialog closes and the selection is cleared. */
    method HandleSubmit()
      modifies this
      ensures old(selectedTeam).Some? ==> calls == old(calls) + [UpdateTeamForm(old(selectedTeam).value.id, old(formData))]
      ensures old(selectedTeam).None? ==> calls == old(calls) + [CreateTeam(old(formData))]
      ensures !open && selectedTeam.None?
      ensures formData == old(formData) && expandedTeam == old(expandedTeam) && matchDialogOpen == old(matchDialogOpen)
      ensures matchData == old(matchData)
    {
      if selectedTeam.Some? {
        calls := calls + [UpdateTeamForm(selectedTeam.value.id, formData)];
      } else {
        calls := calls + [CreateTeam(formData)];
      }
      HandleClose();
    }

    /** `handleAddMatch(teamId)`: the first team with that id gets the
        form's match appended after its existing ones, in place, and the
        changed object is passed to the update callback; the match form
        resets to `today`. An unknown id (or none) changes nothing. */
    method HandleAddMatch(teamId: Option<string>, today: string)
      modifies this, teams
      ensures FindTeam(teams, teamId).None? ==>
                && unchanged(this) && forall t :: t in teams ==> unchanged(t)
      ensures FindTeam(teams, teamId).Some? ==>
                var k := FindTeam(teams, teamId).value;
                && teams[k].matches == old(teams[k].matches) + [old(matchData)]
                && teams[k].name == old(teams[k].name) && teams[k].players == old(teams[k].players)
                && teams[k].wins == old(teams[k].wins) && teams[k].losses == old(teams[k].losses)
                && (forall t :: t in teams && t != teams[k] ==> unchanged(t))
                && calls == old(calls) + [UpdateTeamObject(teamId.value, Snapshot(teams[k]))]
                && !matchDialogOpen && matchData == EmptyMatch(today)
                && open == old(open) && selectedTeam == old(selectedTeam) && expandedTeam == old(expandedTeam)
                && formData == old(formData)
    {
      var found := FindTeam(teams, teamId);
      if found.Some? {
        var updatedTeam := teams[found.value];
        updatedTeam.matches := updatedTeam.matches + [matchData];
        calls := calls + [UpdateTeamObject(teamId.value, Snapshot(updatedTeam))];
        matchDialogOpen := false;
        matchData := EmptyMatch(today);
      }
    }

    /** `handleRowClick(teamId)`. */
    method HandleRowClick(teamId: string)
      modifies this
      ensures expandedTeam == RowToggle(old(expandedTeam), teamId)
      ensures open == old(open) && selectedTeam == old(selectedTeam) && matchDialogOpen == old(matchDialogOpen)
      ensures formData == old(formData) && matchData == old(matchData) && calls == old(calls)
    {
      expandedTeam := if expandedTeam == Some(teamId) then None else Some(teamId);
    }
  }
}
