/** The Mongoose schema of a user (backend/src/models/user.model.js): six
    required paths, a unique email, `team` defaulting to 'None' and
    `isAdmin` defaulting to false. */
module UserModel {
  import opened Common

  /** The team name a user gets when none is given. */
  const DefaultTeam: string := "None"

  /** A user document as handed to the schema; any path may be absent. */
  datatype UserInput = UserInput(
    firstName: Option<string>,
    lastName: Option<string>,
    email: Option<string>,
    password: Option<string>,
    team: Option<string>,
    position: Option<string>,
    jerseyNumber: Option<int>,
    isAdmin: Option<bool>)

  /** A stored user. `position` has no enumeration and `jerseyNumber` no
      range at the schema level. */
  datatype User = User(
    id: Id,
    firstName: string,
    lastName: string,
    email: string,
    password: string,
    team: string,
    position: string,
    jerseyNumber: int,
    isAdmin: bool)

  /** The `team` path after its default is applied: only an absent value is
      replaced, an empty string stays empty (and then fails `required`). */
  function TeamWithDefault(t: Option<string>): (r: string)
    ensures t.None? ==> r == DefaultTeam
    ensures t.Some? ==> r == t.value
  {
    t.GetOr(DefaultTeam)
  }

  function ValidationErrors(u: UserInput): seq<SchemaError> {
    (if Present(u.firstName) then [] else [Required("firstName")])
    + (if Present(u.lastName) then [] else [Required("lastName")])
    + (if Present(u.email) then [] else [Required("email")])
    + (if Present(u.password) then [] else [Required("password")])
    + (if Truthy(TeamWithDefault(u.team)) then [] else [Required("team")])
    + (if Present(u.position) then [] else [Required("position")])
    + (if u.jerseyNumber.Some? then [] else [Required("jerseyNumber")])
  }

  /** Creating a user document with the given id: all six required paths
      must be set (an absent team becomes 'None'), `isAdmin` defaults to
      false. Uniqueness of the email is a property of the collection, see
      `EmailsUnique`. */
  function CastUser(u: UserInput, id: Id): (r: Result<User, seq<SchemaError>>)
    ensures r.Ok? <==>
              && Present(u.firstName) && Present(u.lastName) && Present(u.email)
              && Present(u.password) && u.team != Some("") && Present(u.position)
              && u.jerseyNumber.Some?
    ensures r.Ok? ==>
              && r.value.id == id && r.value.team == TeamWithDefault(u.team)
              && r.value.isAdmin == u.isAdmin.GetOr(false)
              && Some(r.value.firstName) == u.firstName && Some(r.value.lastName) == u.lastName
              && Some(r.value.email) == u.email && Some(r.value.password) == u.password
              && Some(r.value.position) == u.position && Some(r.value.jerseyNumber) == u.jerseyNumber
    ensures r.Err? ==> r.error == ValidationErrors(u) && r.error != []
  {
    var errors := ValidationErrors(u);
    if errors == [] then
      Ok(User(id, u.firstName.value, u.lastName.value, u.email.value, u.password.value,
              TeamWithDefault(u.team), u.position.value, u.jerseyNumber.value, u.isAdmin.GetOr(false)))
    else Err(errors)
  }

  /** The unique index on `email`: no two stored users share one. */
  predicate EmailsUnique(users: seq<User>) {
    forall i, j :: 0 <= i < j < |users| ==> users[i].email != users[j].email
  }

  /** The default team name is a non-empty string, so JavaScript treats it as
      a real team name wherever it tests `if (team)`. */
  lemma DefaultTeamIsTruthy(u: UserInput, id: Id)
    requires u.team.None?
    requires CastUser(u, id).Ok?
    ensures CastUser(u, id).value.team == "None" && Truthy(CastUser(u, id).value.team)
  {
  }
}
