/** The document store behind the controllers: the `users` and `teams`
    collections, kept in natural (insertion) order so that `findOne`
    returns the first match, and a counter that hands out fresh ids. */
module Store {
  import opened Common
  import opened UserModel
  import opened TeamModel

  /** Index of the first element satisfying `p`. */
  function FirstWhere<T>(s: seq<T>, p: T -> bool): (r: Option<nat>)
    ensures r.Some? ==> r.value < |s| && p(s[r.value])
    ensures r.Some? ==> forall k :: 0 <= k < r.value ==> !p(s[k])
    ensures r.None? ==> forall k :: 0 <= k < |s| ==> !p(s[k])
  {
    if s == [] then None
    else if p(s[0]) then Some(0)
    else
      var r := FirstWhere(s[1..], p);
      if r.Some? then Some(r.value + 1) else None
  }

  /** `User.findById(id)`. */
  function FindUser(users: seq<User>, id: Id): (r: Option<nat>)
    ensures r.Some? ==> r.value < |users| && users[r.value].id == id
    ensures r.None? ==> forall k :: 0 <= k < |users| ==> users[k].id != id
  {
    FirstWhere(users, (u: User) => u.id == id)
  }

  /** `User.findOne({ email })`; an absent email matches no stored user. */
  function FindUserByEmail(users: seq<User>, email: Option<string>): (r: Option<nat>)
    ensures r.Some? ==> r.value < |users| && Some(users[r.value].email) == email
    ensures r.None? ==> forall k :: 0 <= k < |users| ==> Some(users[k].email) != email
  {
    FirstWhere(users, (u: User) => Some(u.email) == email)
  }

  /** `Team.findById(id)`. */
  function FindTeam(teams: seq<Team>, id: Id): (r: Option<nat>)
    ensures r.Some? ==> r.value < |teams| && teams[r.value].id == id
    ensures r.None? ==> forall k :: 0 <= k < |teams| ==> teams[k].id != id
  {
    FirstWhere(teams, (t: Team) => t.id == id)
  }

  /** `Team.findOne({ name })`: team names are not unique, the first one wins. */
  function FirstTeamNamed(teams: seq<Team>, name: string): (r: Option<nat>)
    ensures r.Some? ==> r.value < |teams| && teams[r.value].name == name
    ensures r.Some? ==> forall k :: 0 <= k < r.value ==> teams[k].name != name
    ensures r.None? ==> forall k :: 0 <= k < |teams| ==> teams[k].name != name
  {
    FirstWhere(teams, (t: Team) => t.name == name)
  }

  /** `$pull`: every occurrence of `x` goes, the rest keep their order. */
  function Pull(s: seq<Id>, x: Id): (r: seq<Id>)
    ensures multiset(r) == multiset(s)[x := 0]
    ensures IsSubsequence(r, s)
  {
    if s == [] then []
    else
      assert s == [s[0]] + s[1..];
      var rest := Pull(s[1..], x);
      if s[0] == x then
        assert x !in multiset(rest);
        rest
      else [s[0]] + rest
  }

  /** `$addToSet`: `x` is appended unless it is already there. */
  function AddToSet(s: seq<Id>, x: Id): (r: seq<Id>)
    ensures s <= r && x in r
    ensures multiset(r)[x] == if x in s then multiset(s)[x] else 1
    ensures forall y :: y != x ==> multiset(r)[y] == multiset(s)[y]
  {
    if x in s then s else s + [x]
  }

  /** Adding twice is adding once: a retried `$addToSet` converges. */
  lemma AddToSetIdempotent(s: seq<Id>, x: Id)
    ensures AddToSet(AddToSet(s, x), x) == AddToSet(s, x)
  {
  }

  /** Pulling twice is pulling once: a retried `$pull` converges. */
  lemma {:induction false} PullIdempotent(s: seq<Id>, x: Id)
    ensures Pull(Pull(s, x), x) == Pull(s, x)
  {
    if s != [] {
      PullIdempotent(s[1..], x);
    }
  }

  /** `Team.findOneAndUpdate({ name }, { $pull: { players: uid } })`. */
  function PullFromTeamNamed(teams: seq<Team>, name: string, uid: Id): (r: seq<Team>)
    ensures |r| == |teams|
    ensures forall i :: 0 <= i < |teams| ==> r[i] == teams[i].(players := r[i].players)
    ensures forall i :: 0 <= i < |teams| && Some(i) != FirstTeamNamed(teams, name) ==> r[i] == teams[i]
    ensures FirstTeamNamed(teams, name).Some? ==>
              var k := FirstTeamNamed(teams, name).value;
              r[k].players == Pull(teams[k].players, uid)
  {
    var k := FirstTeamNamed(teams, name);
    if k.None? then teams
    else teams[k.value := teams[k.value].(players := Pull(teams[k.value].players, uid))]
  }

  /** `Team.findOneAndUpdate({ name }, { $addToSet: { players: uid } })`. */
  function AddToTeamNamed(teams: seq<Team>, name: string, uid: Id): (r: seq<Team>)
    ensures |r| == |teams|
    ensures forall i :: 0 <= i < |teams| ==> r[i] == teams[i].(players := r[i].players)
    ensures forall i :: 0 <= i < |teams| && Some(i) != FirstTeamNamed(teams, name) ==> r[i] == teams[i]
    ensures FirstTeamNamed(teams, name).Some? ==>
              var k := FirstTeamNamed(teams, name).value;
              r[k].players == AddToSet(teams[k].players, uid)
  {
    var k := FirstTeamNamed(teams, name);
    if k.None? then teams
    else teams[k.value := teams[k.value].(players := AddToSet(teams[k.value].players, uid))]
  }

  /** Changing only player lists changes no team's name, so name lookups agree. */
  lemma FirstTeamNamedOnlyPlayersChanged(teams: seq<Team>, teams': seq<Team>, name: string)
    requires |teams'| == |teams|
    requires forall i :: 0 <= i < |teams| ==> teams'[i] == teams[i].(players := teams'[i].players)
    ensures FirstTeamNamed(teams', name) == FirstTeamNamed(teams, name)
  {
    var a, b := FirstTeamNamed(teams', name), FirstTeamNamed(teams, name);
    if a.Some? { assert teams[a.value].name == name; }
    if b.Some? { assert teams'[b.value].name == name; }
  }

  /** No two users share an id. */
  ghost predicate UserIdsDistinct(users: seq<User>) {
    forall i, j :: 0 <= i < j < |users| ==> users[i].id != users[j].id
  }

  /** The store invariant: ids are unique within each collection and below
      the next fresh id, and no two users share an email. */
  ghost predicate Wellformed(users: seq<User>, teams: seq<Team>, nextId: Id) {
    && UserIdsDistinct(users)
    && (forall i, j :: 0 <= i < j < |teams| ==> teams[i].id != teams[j].id)
    && (forall i :: 0 <= i < |users| ==> users[i].id < nextId)
    && (forall i :: 0 <= i < |teams| ==> teams[i].id < nextId)
    && EmailsUnique(users)
  }

  /** Replacing a user by one with the same id and an email no other user
      holds keeps the store well formed. */
  lemma ReplaceUserKeepsWellformed(users: seq<User>, teams: seq<Team>, nextId: Id, k: nat, u: User)
    requires Wellformed(users, teams, nextId) && k < |users| && u.id == users[k].id
    requires forall j :: 0 <= j < |users| && j != k ==> users[j].email != u.email
    ensures Wellformed(users[k := u], teams, nextId)
  {
  }

  /** Edits that change only the teams' player lists keep the store well formed. */
  lemma PlayersEditKeepsWellformed(users: seq<User>, teams: seq<Team>, teams': seq<Team>, nextId: Id)
    requires Wellformed(users, teams, nextId)
    requires |teams'| == |teams|
    requires forall i :: 0 <= i < |teams| ==> teams'[i] == teams[i].(players := teams'[i].players)
    ensures Wellformed(users, teams', nextId)
  {
    assert forall i :: 0 <= i < |teams| ==> teams'[i].id == teams[i].id;
  }

  /** A new team under the next fresh id, with the counter moved on, keeps
      the store well formed. */
  lemma AddTeamKeepsWellformed(users: seq<User>, teams: seq<Team>, nextId: Id, t: Team)
    requires Wellformed(users, teams, nextId) && t.id == nextId
    ensures Wellformed(users, teams + [t], nextId + 1)
  {
    var s := teams + [t];
    forall i, j | 0 <= i < j < |s| ensures s[i].id != s[j].id {
      assert s[i] == teams[i];
    }
  }

  /** A new user under the next fresh id, with an email no user holds and
      the counter moved on, keeps the store well formed. */
  lemma AddUserKeepsWellformed(users: seq<User>, teams: seq<Team>, nextId: Id, u: User)
    requires Wellformed(users, teams, nextId) && u.id == nextId
    requires EmailsUnique(users + [u])
    ensures Wellformed(users + [u], teams, nextId + 1)
  {
    var s := users + [u];
    forall i, j | 0 <= i < j < |s| ensures s[i].id != s[j].id {
      assert s[i] == users[i];
    }
  }

  /** Removing a user keeps the store well formed, and no user with that
      id is left. */
  lemma RemoveUserKeepsWellformed(users: seq<User>, teams: seq<Team>, nextId: Id, k: nat)
    requires Wellformed(users, teams, nextId) && k < |users|
    ensures Wellformed(users[..k] + users[k + 1..], teams, nextId)
    ensures FindUser(users[..k] + users[k + 1..], users[k].id).None?
  {
    var s := users[..k] + users[k + 1..];
    forall i | 0 <= i < |s|
      ensures s[i] == users[i] || (k <= i && s[i] == users[i + 1])
      ensures s[i].id != users[k].id
    {
      if i >= k {
        assert s[i] == users[k + 1..][i - k];
      }
    }
  }

  class Database {
    var users: seq<User>
    var teams: seq<Team>
    var nextId: Id

    ghost predicate Valid()
      reads this
    {
      Wellformed(users, teams, nextId)
    }

    constructor ()
      ensures Valid() && users == [] && teams == [] && nextId == 0
    {
      users, teams, nextId := [], [], 0;
    }
  }
}
