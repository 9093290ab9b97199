/** The admin handlers over users and teams
    (backend/src/controllers/admin.controller.js). Each handler performs the
    source's store operations one after another: `findById`,
    `findByIdAndUpdate`, a `$pull` from one team, an `$addToSet` into
    another, `findByIdAndDelete`. Requests do not interleave. */
module AdminController {
  import opened Common
  import opened UserModel
  import opened TeamModel
  import opened Store

  /** The body of `PUT /users/:userId`: any subset of a user's paths. */
  datatype UserPatch = UserPatch(
    firstName: Option<string>,
    lastName: Option<string>,
    email: Option<string>,
    password: Option<string>,
    team: Option<string>,
    position: Option<string>,
    jerseyNumber: Option<int>,
    isAdmin: Option<bool>)

  /** A user as returned with `select: '-password'`. */
  datatype PublicUser = PublicUser(
    id: Id,
    firstName: string,
    lastName: string,
    email: string,
    team: string,
    position: string,
    jerseyNumber: int,
    isAdmin: bool)

  function WithoutPassword(u: User): PublicUser {
    PublicUser(u.id, u.firstName, u.lastName, u.email, u.team, u.position, u.jerseyNumber, u.isAdmin)
  }

  /** `findByIdAndUpdate` with the patch: every key present is `$set`.
      Update validators do not run, so any value is stored as given. */
  function ApplyPatch(u: User, p: UserPatch): User {
    User(u.id, p.firstName.GetOr(u.firstName), p.lastName.GetOr(u.lastName), p.email.GetOr(u.email),
         p.password.GetOr(u.password), p.team.GetOr(u.team), p.position.GetOr(u.position),
         p.jerseyNumber.GetOr(u.jerseyNumber), p.isAdmin.GetOr(u.isAdmin))
  }

  /** `delete updateData.password; delete updateData.isAdmin`. */
  function Sanitize(p: UserPatch): (r: UserPatch)
    ensures r.password.None? && r.isAdmin.None?
    ensures r == p.(password := None, isAdmin := None)
  {
    var p1 := p.(password := None);
    p1.(isAdmin := None)
  }

  /** A sanitized update never changes a user's password or admin flag,
      whatever the request body holds; an omitted `team` leaves the user's
      team as it was. */
  lemma SanitizedUpdateKeepsCredentials(u: User, p: UserPatch)
    ensures ApplyPatch(u, Sanitize(p)).password == u.password
    ensures ApplyPatch(u, Sanitize(p)).isAdmin == u.isAdmin
    ensures ApplyPatch(u, Sanitize(p)).id == u.id
    ensures p.team.None? ==> ApplyPatch(u, Sanitize(p)).team == u.team
    ensures p.team.Some? ==> ApplyPatch(u, Sanitize(p)).team == p.team.value
  {
  }

  /** The unique index on `email` rejects an update that gives the user the
      email of another user. */
  predicate EmailTaken(users: seq<User>, email: Option<string>, uid: Id) {
    email.Some? && exists k :: 0 <= k < |users| && users[k].id != uid && users[k].email == email.value
  }

  /** The team documents after the roster part of `updateUser`, for a user
      whose team was `oldTeam` and whose update carries `newTeam` (absent
      when the body has no `team` key). */
  function TeamsAfterMove(teams: seq<Team>, oldTeam: string, newTeam: Option<string>, uid: Id): seq<Team> {
    if Some(oldTeam) == newTeam then teams
    else
      var pulled := if Truthy(oldTeam) then PullFromTeamNamed(teams, oldTeam, uid) else teams;
      if newTeam.Some? && Truthy(newTeam.value) then AddToTeamNamed(pulled, newTeam.value, uid) else pulled
  }

  /** Team `i` is neither the first one named `oldTeam` nor the first one named `newTeam`. */
  predicate Untouched(teams: seq<Team>, oldTeam: string, newTeam: Option<string>, i: nat) {
    Some(i) != FirstTeamNamed(teams, oldTeam) && (newTeam.None? || Some(i) != FirstTeamNamed(teams, newTeam.value))
  }

  /** The roster step edits player lists only: no team appears, disappears,
      is renamed or changes its matches or counters, and every team other
      than the first one named `oldTeam` and the first one named `newTeam`
      is left exactly as it was. */
  lemma MoveOnlyTouchesPlayers(teams: seq<Team>, oldTeam: string, newTeam: Option<string>, uid: Id)
    ensures var r := TeamsAfterMove(teams, oldTeam, newTeam, uid);
      && |r| == |teams|
      && (forall i :: 0 <= i < |teams| ==> r[i] == teams[i].(players := r[i].players))
      && (forall i :: 0 <= i < |teams| && Untouched(teams, oldTeam, newTeam, i) ==> r[i] == teams[i])
  {
    if Some(oldTeam) != newTeam && Truthy(oldTeam) && newTeam.Some? {
      FirstTeamNamedOnlyPlayersChanged(teams, PullFromTeamNamed(teams, oldTeam, uid), newTeam.value);
    }
  }

  /** When the team value is unchanged no team document is modified. */
  lemma MoveToSameTeamChangesNothing(teams: seq<Team>, team: string, uid: Id)
    ensures TeamsAfterMove(teams, team, Some(team), uid) == teams
  {
  }

  /** When the team value changes and the old one is non-empty, the user no
      longer appears (anywhere) in the first team of that name; the other
      players stay. */
  lemma MoveLeavesOldTeam(teams: seq<Team>, oldTeam: string, newTeam: Option<string>, uid: Id, k: nat)
    requires Some(oldTeam) != newTeam && Truthy(oldTeam)
    requires FirstTeamNamed(teams, oldTeam) == Some(k)
    ensures var r := TeamsAfterMove(teams, oldTeam, newTeam, uid);
      && uid !in r[k].players
      && multiset(r[k].players) == multiset(teams[k].players)[uid := 0]
  {
    var pulled := PullFromTeamNamed(teams, oldTeam, uid);
    assert uid !in multiset(pulled[k].players);
    if newTeam.Some? && Truthy(newTeam.value) {
      FirstTeamNamedOnlyPlayersChanged(teams, pulled, newTeam.value);
      assert FirstTeamNamed(pulled, newTeam.value) != Some(k);
    }
  }

  /** When the team value changes to a non-empty name, the user is in the
      first team of that name afterwards, added once (set semantics): it
      appears exactly once unless it was already listed more than once. */
  lemma MoveJoinsNewTeam(teams: seq<Team>, oldTeam: string, newTeam: string, uid: Id, k: nat)
    requires oldTeam != newTeam && Truthy(newTeam)
    requires FirstTeamNamed(teams, newTeam) == Some(k)
    ensures var r := TeamsAfterMove(teams, oldTeam, Some(newTeam), uid);
      && uid in r[k].players
      && multiset(r[k].players)[uid] == (if uid in teams[k].players then multiset(teams[k].players)[uid] else 1)
      && (forall y :: y != uid ==> multiset(r[k].players)[y] == multiset(teams[k].players)[y])
  {
    var pulled := if Truthy(oldTeam) then PullFromTeamNamed(teams, oldTeam, uid) else teams;
    if Truthy(oldTeam) {
      FirstTeamNamedOnlyPlayersChanged(teams, pulled, newTeam);
      assert FirstTeamNamed(teams, oldTeam) != Some(k);
    }
    assert pulled[k] == teams[k];
  }

  /** An update without a `team` key still differs from the old team value,
      so the user is pulled from the old team (when that name is non-empty)
      and added nowhere, while the user's own `team` field is kept. */
  lemma MoveWithoutTeamKeyPulls(teams: seq<Team>, oldTeam: string, uid: Id)
    requires Truthy(oldTeam)
    ensures TeamsAfterMove(teams, oldTeam, None, uid) == PullFromTeamNamed(teams, oldTeam, uid)
  {
  }

  /** `updateUser`. */
  method UpdateUser(db: Database, userId: Id, body: UserPatch) returns (res: Response<PublicUser>)
    requires db.Valid()
    modifies db
    ensures db.Valid() && db.nextId == old(db.nextId)
    ensures |db.users| == |old(db.users)|
    ensures forall i :: 0 <= i < |db.users| ==>
              db.users[i].password == old(db.users[i].password) && db.users[i].isAdmin == old(db.users[i].isAdmin)
    ensures FindUser(old(db.users), userId).None? ==>
              res == Failure(500, "Error updating user") && db.users == old(db.users) && db.teams == old(db.teams)
    ensures FindUser(old(db.users), userId).Some? && EmailTaken(old(db.users), body.email, userId) ==>
              res == Failure(500, "Error updating user") && db.users == old(db.users) && db.teams == old(db.teams)
    ensures FindUser(old(db.users), userId).Some? && !EmailTaken(old(db.users), body.email, userId) ==>
              var k := FindUser(old(db.users), userId).value;
              var u := old(db.users)[k];
              && db.users == old(db.users)[k := ApplyPatch(u, Sanitize(body))]
              && db.teams == TeamsAfterMove(old(db.teams), u.team, body.team, userId)
              && res == Success(200, WithoutPassword(db.users[k]))
  {
    var updateData := Sanitize(body);

    // `currentUser.team` throws on a missing user, so this ends in the catch.
    var found := FindUser(db.users, userId);
    if found.None? {
      return Failure(500, "Error updating user");
    }
    var k := found.value;
    var oldTeam := db.users[k].team;
    var newTeam := updateData.team;

    // The unique index on `email` makes the update throw.
    if EmailTaken(db.users, updateData.email, userId) {
      return Failure(500, "Error updating user");
    }
    var user := ApplyPatch(db.users[k], updateData);
    SanitizedUpdateKeepsCredentials(db.users[k], body);
    ReplaceUserKeepsWellformed(db.users, db.teams, db.nextId, k, user);
    var users := db.users[k := user];
    // The `if (!user)` 404 branch cannot fire: the id was found just above.

    var teams := db.teams;
    if Some(oldTeam) != newTeam {
      if Truthy(oldTeam) {
        teams := PullFromTeamNamed(teams, oldTeam, userId);
      }
      if newTeam.Some? && Truthy(newTeam.value) {
        teams := AddToTeamNamed(teams, newTeam.value, userId);
      }
    }
    assert teams == TeamsAfterMove(db.teams, oldTeam, newTeam, userId);
    MoveOnlyTouchesPlayers(db.teams, oldTeam, newTeam, userId);
    PlayersEditKeepsWellformed(users, db.teams, teams, db.nextId);
    db.users, db.teams := users, teams;
    res := Success(200, WithoutPassword(user));
  }

  /** `deleteUser`. */
  method DeleteUser(db: Database, userId: Id) returns (res: Response<string>)
    requires db.Valid()
    modifies db
    ensures db.Valid() && db.nextId == old(db.nextId)
    ensures FindUser(old(db.users), userId).None? ==>
              res == Failure(404, "User not found") && db.users == old(db.users) && db.teams == old(db.teams)
    ensures FindUser(old(db.users), userId).Some? ==>
              var k := FindUser(old(db.users), userId).value;
              var u := old(db.users)[k];
              && db.users == old(db.users)[..k] + old(db.users)[k + 1..]
              && db.teams == (if Truthy(u.team) then PullFromTeamNamed(old(db.teams), u.team, userId) else old(db.teams))
              && res == Success(200, "User deleted successfully")
    ensures FindUser(db.users, userId).None?
  {
    var found := FindUser(db.users, userId);
    if found.None? {
      return Failure(404, "User not found");
    }
    var k := found.value;
    var user := db.users[k];
    if Truthy(user.team) {
      PlayersEditKeepsWellformed(db.users, db.teams, PullFromTeamNamed(db.teams, user.team, userId), db.nextId);
      db.teams := PullFromTeamNamed(db.teams, user.team, userId);
    }
    RemoveUserKeepsWellformed(db.users, db.teams, db.nextId, k);
    db.users := db.users[..k] + db.users[k + 1..];
    res := Success(200, "User deleted successfully");
  }

  /** `createTeam`: the body becomes a new team document; users are not touched. */
  method CreateTeam(db: Database, body: TeamInput) returns (res: Response<Team>)
    requires db.Valid()
    modifies db
    ensures db.Valid()
    ensures db.users == old(db.users)
    ensures CastTeam(body, old(db.nextId)).Err? ==>
              res == Failure(500, "Error creating team") && db.teams == old(db.teams)
    ensures CastTeam(body, old(db.nextId)).Ok? ==>
              var t := CastTeam(body, old(db.nextId)).value;
              && db.teams == old(db.teams) + [t]
              && res == Success(201, t)
              && FindTeam(old(db.teams), t.id).None?
  {
    var team := CastTeam(body, db.nextId);
    if team.Err? {
      return Failure(500, "Error creating team");
    }
    AddTeamKeepsWellformed(db.users, db.teams, db.nextId, team.value);
    db.teams, db.nextId := db.teams + [team.value], db.nextId + 1;
    res := Success(201, team.value);
  }

  /** The body of `PUT /teams/:teamId`. */
  datatype TeamPatch = TeamPatch(
    name: Option<string>,
    players: Option<seq<Id>>,
    matches: Option<seq<MatchInput>>,
    wins: Option<int>,
    losses: Option<int>)

  /** `findByIdAndUpdate` with the patch: matches are cast (trimmed,
      defaulted) but, as update validators do not run, not validated. */
  function ApplyTeamPatch(t: Team, p: TeamPatch): Team {
    Team(t.id, p.name.GetOr(t.name), p.players.GetOr(t.players),
         if p.matches.Some? then CastMatches(p.matches.value) else t.matches,
         p.wins.GetOr(t.wins), p.losses.GetOr(t.losses))
  }

  /** `updateTeam`: users are not touched, even when the player list changes. */
  method UpdateTeam(db: Database, teamId: Id, body: TeamPatch) returns (res: Response<Team>)
    requires db.Valid()
    modifies db
    ensures db.Valid() && db.nextId == old(db.nextId)
    ensures db.users == old(db.users)
    ensures FindTeam(old(db.teams), teamId).None? ==>
              res == Failure(404, "Team not found") && db.teams == old(db.teams)
    ensures FindTeam(old(db.teams), teamId).Some? ==>
              var k := FindTeam(old(db.teams), teamId).value;
              && db.teams == old(db.teams)[k := ApplyTeamPatch(old(db.teams)[k], body)]
              && res == Success(200, db.teams[k])
  {
    var found := FindTeam(db.teams, teamId);
    if found.None? {
      return Failure(404, "Team not found");
    }
    var k := found.value;
    var team := ApplyTeamPatch(db.teams[k], body);
    db.teams := db.teams[k := team];
    res := Success(200, team);
  }

  /** `deleteTeam`: the team goes; its players keep their `team` field. */
  method DeleteTeam(db: Database, teamId: Id) returns (res: Response<string>)
    requires db.Valid()
    modifies db
    ensures db.Valid() && db.nextId == old(db.nextId)
    ensures db.users == old(db.users)
    ensures FindTeam(old(db.teams), teamId).None? ==>
              res == Failure(404, "Team not found") && db.teams == old(db.teams)
    ensures FindTeam(old(db.teams), teamId).Some? ==>
              var k := FindTeam(old(db.teams), teamId).value;
              && db.teams == old(db.teams)[..k] + old(db.teams)[k + 1..]
              && res == Success(200, "Team deleted successfully")
    ensures FindTeam(db.teams, teamId).None?
  {
    var found := FindTeam(db.teams, teamId);
    if found.None? {
      return Failure(404, "Team not found");
    }
    var k := found.value;
    db.teams := db.teams[..k] + db.teams[k + 1..];
    res := Success(200, "Team deleted successfully");
  }
}
