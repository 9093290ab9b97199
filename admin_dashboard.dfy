/** The user search of the admin dashboard
    (frontend/src/pages/AdminDashboard.js): a case-insensitive substring
    filter over first name, last name and email. */
module AdminDashboard {
  import opened Common

  /** A user row, as far as the search reads it. */
  datatype UserRow = UserRow(id: string, firstName: string, lastName: string, email: string)

  /** The row is listed for `query`. */
  predicate Listed(u: UserRow, query: string) {
    var q := ToLower(query);
    Includes(ToLower(u.firstName), q) || Includes(ToLower(u.lastName), q) || Includes(ToLower(u.email), q)
  }

  /** `users.filter(...)`: the listed rows, in their original order, each
      as often as in the input. */
  function SearchUsers(users: seq<UserRow>, query: string): (r: seq<UserRow>)
    ensures forall u :: u in r <==> u in users && Listed(u, query)
    ensures forall u :: multiset(r)[u] == if Listed(u, query) then multiset(users)[u] else 0
    ensures IsSubsequence(r, users)
  {
    if users == [] then []
    else
      var rest := SearchUsers(users[1..], query);
      assert users == [users[0]] + users[1..];
      if Listed(users[0], query) then
        assert ([users[0]] + rest)[1..] == rest;
        [users[0]] + rest
      else
        assert rest != [] ==> rest[0] in rest && rest[0] != users[0];
        rest
  }

  /** Every string includes the empty one. */
  lemma IncludesEmpty(s: string)
    ensures Includes(s, "")
  {
    assert OccursAt(s, "", 0);
  }

  /** An empty query lists every user. */
  lemma {:induction false} EmptyQueryListsAll(users: seq<UserRow>)
    ensures SearchUsers(users, "") == users
  {
    if users != [] {
      IncludesEmpty(ToLower(users[0].firstName));
      EmptyQueryListsAll(users[1..]);
    }
  }

  /** Queries that lower-case alike list the same users: the letter case
      of the query does not matter. */
  lemma {:induction false} CaseInsensitive(users: seq<UserRow>, q1: string, q2: string)
    requires ToLower(q1) == ToLower(q2)
    ensures SearchUsers(users, q1) == SearchUsers(users, q2)
  {
    if users != [] {
      CaseInsensitive(users[1..], q1, q2);
    }
  }

  /** In particular, typing the query in lower case changes nothing. */
  lemma LowerCaseQuery(users: seq<UserRow>, query: string)
    ensures SearchUsers(users, ToLower(query)) == SearchUsers(users, query)
  {
    ToLowerIdempotent(query);
    CaseInsensitive(users, ToLower(query), query);
  }
}
