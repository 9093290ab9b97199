/** The statistics logic of the profile page
    (frontend/src/pages/ProfilePage.js): the per-action tally of a player's
    recorded plays, the success lookup, the row filter of the statistics
    table, and the id of the signed-in user. */
module ProfilePage {
  import opened Common
  import StatConstants

  /** A recorded play as the page receives it; `matchId` is the id of the
      populated match, absent when the play has none. */
  datatype StatRecord = StatRecord(action: string, result: string, matchId: Option<string>)

  /** The tally of one action: how often it was played, and how often
      with each result. */
  datatype ActionSummary = ActionSummary(total: nat, results: map<string, nat>)

  /** Which plays a count is taken over. In a `Row` filter the result
      and match may be the wildcard 'all'. */
  datatype Filter =
    | ByAction(action: string)
    | ByResult(action: string, result: string)
    | Row(action: string, result: string, matchId: string)

  predicate Matches(x: StatRecord, f: Filter) {
    match f
    case ByAction(a) => x.action == a
    case ByResult(a, r) => x.action == a && x.result == r
    case Row(a, r, m) => x.action == a && (r == "all" || x.result == r) && (m == "all" || x.matchId == Some(m))
  }

  /** The number of plays in `s` that pass `f`. */
  function Count(s: seq<StatRecord>, f: Filter): nat {
    if s == [] then 0 else Count(s[..|s| - 1], f) + (if Matches(s[|s| - 1], f) then 1 else 0)
  }

  lemma {:induction false} CountAppend(s: seq<StatRecord>, t: seq<StatRecord>, f: Filter)
    ensures Count(s + t, f) == Count(s, f) + Count(t, f)
    decreases |t|
  {
    if t == [] {
      assert s + t == s;
    } else {
      CountAppend(s, t[..|t| - 1], f);
      assert (s + t)[..|s + t| - 1] == s + t[..|t| - 1];
    }
  }

  /** A count is at least one exactly when some play passes the filter. */
  lemma {:induction false} CountPositiveIff(s: seq<StatRecord>, f: Filter)
    ensures Count(s, f) > 0 <==> exists i :: 0 <= i < |s| && Matches(s[i], f)
  {
    if s != [] {
      var s' := s[..|s| - 1];
      CountPositiveIff(s', f);
      if exists i :: 0 <= i < |s'| && Matches(s'[i], f) {
        var i :| 0 <= i < |s'| && Matches(s'[i], f);
        assert s[i] == s'[i];
      }
      if exists i :: 0 <= i < |s| && Matches(s[i], f) {
        var i :| 0 <= i < |s| && Matches(s[i], f);
        if i < |s'| { assert s'[i] == s[i]; }
      }
    }
  }

  /** Counts depend only on which plays there are, not on their order. */
  lemma {:induction false} CountPermutation(s: seq<StatRecord>, t: seq<StatRecord>, f: Filter)
    requires multiset(s) == multiset(t)
    ensures Count(s, f) == Count(t, f)
    decreases |s|
  {
    if s == [] {
      assert |t| == |multiset(t)|;
    } else {
      var s', x := s[..|s| - 1], s[|s| - 1];
      var a, b := RemoveLast(s, t);
      CountPermutation(s', a + b, f);
      CountAppend(a, b, f);
      CountAppend(a + [x], b, f);
      CountSnoc(a, x, f);
      CountSnoc(s', x, f);
    }
  }

  /** The last play of `s` sits somewhere in its permutation `t`; what
      surrounds it there is a permutation of the rest of `s`. */
  lemma RemoveLast<T>(s: seq<T>, t: seq<T>) returns (a: seq<T>, b: seq<T>)
    requires s != [] && multiset(s) == multiset(t)
    ensures s == s[..|s| - 1] + [s[|s| - 1]]
    ensures t == a + [s[|s| - 1]] + b
    ensures multiset(s[..|s| - 1]) == multiset(a + b)
  {
    var s', x := s[..|s| - 1], s[|s| - 1];
    assert s == s' + [x] + [];
    MultisetSplit(s', x, []);
    assert s' + [] == s';
    var j := IndexIn(t, x);
    a, b := t[..j], t[j + 1..];
    assert t == a + [x] + b;
    MultisetSplit(a, x, b);
    MultisetCancel(multiset(s'), multiset(a + b), x);
  }

  /** A position of an element of `t`. */
  lemma IndexIn<T>(t: seq<T>, x: T) returns (j: nat)
    requires x in multiset(t)
    ensures j < |t| && t[j] == x
  {
    j :| 0 <= j < |t| && t[j] == x;
  }

  /** One `x` can be taken off both sides. */
  lemma MultisetCancel<T>(m1: multiset<T>, m2: multiset<T>, x: T)
    requires m1 + multiset{x} == m2 + multiset{x}
    ensures m1 == m2
  {
    forall y
      ensures m1[y] == m2[y]
    {
      assert (m1 + multiset{x})[y] == (m2 + multiset{x})[y];
    }
  }

  /** The multiset of `a + [x] + b` is that of `a + b` and one `x`. */
  lemma MultisetSplit<T>(a: seq<T>, x: T, b: seq<T>)
    ensures multiset(a + [x] + b) == multiset(a + b) + multiset{x}
  {
    assert multiset(a + [x] + b) == multiset(a + [x]) + multiset(b);
    assert multiset(a + [x]) == multiset(a) + multiset{x};
    assert multiset(a + b) == multiset(a) + multiset(b);
  }

  /** One step of the reduce: the play's action entry is created if
      missing, its total goes up by one, and so does the count of its
      result. */
  function Tally(acc: map<string, ActionSummary>, x: StatRecord): map<string, ActionSummary> {
    var entry := if x.action in acc then acc[x.action] else ActionSummary(0, map[]);
    var n := if x.result in entry.results then entry.results[x.result] else 0;
    acc[x.action := ActionSummary(entry.total + 1, entry.results[x.result := n + 1])]
  }

  /** The reduce of `calculateStats` over a list of plays, from an empty
      accumulator. */
  function Summary(s: seq<StatRecord>): map<string, ActionSummary> {
    if s == [] then map[] else Tally(Summary(s[..|s| - 1]), s[|s| - 1])
  }

  lemma CountSnoc(s: seq<StatRecord>, x: StatRecord, f: Filter)
    ensures Count(s + [x], f) == Count(s, f) + (if Matches(x, f) then 1 else 0)
  {
    assert (s + [x])[..|s + [x]| - 1] == s;
  }

  /** What the tally holds: an action has an entry exactly when some play
      has it, and its total is the number of such plays; a result has a
      count in that entry exactly when some play has that action and
      result, and the count is the number of such plays. */
  lemma {:induction false} SummaryCounts(s: seq<StatRecord>, a: string, r: string)
    ensures a in Summary(s) <==> Count(s, ByAction(a)) > 0
    ensures a in Summary(s) ==> Summary(s)[a].total == Count(s, ByAction(a))
    ensures a in Summary(s) ==>
              && (r in Summary(s)[a].results <==> Count(s, ByResult(a, r)) > 0)
              && (r in Summary(s)[a].results ==> Summary(s)[a].results[r] == Count(s, ByResult(a, r)))
  {
    if s != [] {
      var s' := s[..|s| - 1];
      var x := s[|s| - 1];
      assert s == s' + [x];
      SummaryCounts(s', a, r);
      CountSnoc(s', x, ByAction(a));
      CountSnoc(s', x, ByResult(a, r));
      if a == x.action && a !in Summary(s') {
        CountPositiveIff(s', ByResult(a, r));
        CountPositiveIff(s', ByAction(a));
      }
    }
  }

  /** `calculateStats`: no `stats` list gives null; otherwise the reduce
      over the list, which yields the summary of the plays. */
  method CalculateStats(statsData: Option<seq<StatRecord>>) returns (r: Option<map<string, ActionSummary>>)
    ensures statsData.None? <==> r.None?
    ensures statsData.Some? ==> r.value == Summary(statsData.value)
  {
    if statsData.None? {
      return None;
    }
    var stats := statsData.value;
    var acc: map<string, ActionSummary> := map[];
    var i := 0;
    while i < |stats|
      invariant 0 <= i <= |stats|
      invariant acc == Summary(stats[..i])
    {
      acc := TallyStep(acc, stats[i]);
      assert stats[..i + 1][..i] == stats[..i];
      i := i + 1;
    }
    assert stats[..|stats|] == stats;
    r := Some(acc);
  }

  /** The reduce callback of `calculateStats`, updating the accumulator
      entry by entry. */
  method TallyStep(acc: map<string, ActionSummary>, stat: StatRecord) returns (next: map<string, ActionSummary>)
    ensures next == Tally(acc, stat)
  {
    var entry := if stat.action in acc then acc[stat.action] else ActionSummary(0, map[]);
    var n := if stat.result in entry.results then entry.results[stat.result] else 0;
    next := acc;
    if stat.action !in next {
      next := next[stat.action := ActionSummary(0, map[])];
    }
    assert next == acc[stat.action := entry];
    next := next[stat.action := next[stat.action].(total := next[stat.action].total + 1)];
    assert next == acc[stat.action := entry.(total := entry.total + 1)];
    if stat.result !in next[stat.action].results {
      next := next[stat.action := next[stat.action].(results := next[stat.action].results[stat.result := 0])];
    } else {
      assert entry.results[stat.result := n] == entry.results;
    }
    assert next == acc[stat.action := ActionSummary(entry.total + 1, entry.results[stat.result := n])];
    var results := next[stat.action].results;
    next := next[stat.action := next[stat.action].(results := results[stat.result := results[stat.result] + 1])];
    assert results[stat.result := results[stat.result] + 1] == entry.results[stat.result := n + 1];
  }

  /** Only actions that occur get an entry, each entry counts at least
      one play, and each of its result counts is at least one. */
  lemma SummaryKeys(s: seq<StatRecord>)
    ensures forall a :: a in Summary(s) <==> exists i :: 0 <= i < |s| && s[i].action == a
    ensures forall a :: a in Summary(s) ==> Summary(s)[a].total >= 1
    ensures forall a, r :: a in Summary(s) && r in Summary(s)[a].results ==> Summary(s)[a].results[r] >= 1
  {
    forall a ensures a in Summary(s) <==> exists i :: 0 <= i < |s| && s[i].action == a {
      SummaryCounts(s, a, "");
      CountPositiveIff(s, ByAction(a));
    }
    forall a, r | a in Summary(s) && r in Summary(s)[a].results ensures Summary(s)[a].results[r] >= 1 {
      SummaryCounts(s, a, r);
    }
  }

  /** The tally does not depend on the order of the plays. */
  lemma SummaryOrderIndependent(s: seq<StatRecord>, t: seq<StatRecord>)
    requires multiset(s) == multiset(t)
    ensures Summary(s) == Summary(t)
  {
    forall a ensures a in Summary(s) <==> a in Summary(t) {
      SummaryCounts(s, a, "");
      SummaryCounts(t, a, "");
      CountPermutation(s, t, ByAction(a));
    }
    forall a | a in Summary(s) ensures Summary(s)[a] == Summary(t)[a] {
      SummaryCounts(s, a, "");
      SummaryCounts(t, a, "");
      CountPermutation(s, t, ByAction(a));
      forall r ensures r in Summary(s)[a].results <==> r in Summary(t)[a].results {
        SummaryCounts(s, a, r);
        SummaryCounts(t, a, r);
        CountPermutation(s, t, ByResult(a, r));
      }
      forall r | r in Summary(s)[a].results ensures Summary(s)[a].results[r] == Summary(t)[a].results[r] {
        SummaryCounts(s, a, r);
        SummaryCounts(t, a, r);
        CountPermutation(s, t, ByResult(a, r));
      }
    }
  }

  /** The sum of the counts of a map. */
  ghost function SumValues(m: map<string, nat>): nat
    decreases |m.Keys|
  {
    if m == map[] then 0
    else
      var k :| k in m;
      assert |(m - {k}).Keys| < |m.Keys| by {
        assert (m - {k}).Keys == m.Keys - {k};
      }
      m[k] + SumValues(m - {k})
  }

  /** Any key can be taken out first. */
  lemma {:induction false} SumValuesRemove(m: map<string, nat>, r: string)
    requires r in m
    ensures SumValues(m) == m[r] + SumValues(m - {r})
    decreases |m.Keys|
  {
    var k :| k in m && SumValues(m) == m[k] + SumValues(m - {k});
    if k != r {
      assert (m - {k}).Keys == m.Keys - {k};
      assert (m - {r}).Keys == m.Keys - {r};
      SumValuesRemove(m - {k}, r);
      SumValuesRemove(m - {r}, k);
      assert m - {k} - {r} == m - {r} - {k};
    }
  }

  /** Setting one count to `v` changes the sum by the difference. */
  lemma SumValuesUpdate(m: map<string, nat>, r: string, v: nat)
    ensures SumValues(m[r := v]) == SumValues(m) - (if r in m then m[r] else 0) + v
  {
    SumValuesRemove(m[r := v], r);
    if r in m {
      SumValuesRemove(m, r);
      assert m[r := v] - {r} == m - {r};
    } else {
      assert m[r := v] - {r} == m;
    }
  }

  /** For every action, its result counts add up to its total. */
  lemma {:induction false} ResultsSumToTotal(s: seq<StatRecord>)
    ensures forall a :: a in Summary(s) ==> SumValues(Summary(s)[a].results) == Summary(s)[a].total
    decreases |s|
  {
    if s != [] {
      var s' := s[..|s| - 1];
      var x := s[|s| - 1];
      ResultsSumToTotal(s');
      var before := Summary(s');
      var entry := if x.action in before then before[x.action] else ActionSummary(0, map[]);
      var n := if x.result in entry.results then entry.results[x.result] else 0;
      SumValuesUpdate(entry.results, x.result, n + 1);
    }
  }

  /** The per-action table of the page: the summary's actions shown under
      the action selector, where 'all' shows every action. */
  function VisibleActions(actions: seq<string>, selectedAction: string): (r: seq<string>)
    ensures forall a :: a in r <==> a in actions && (selectedAction == "all" || selectedAction == a)
    ensures |r| <= |actions|
    ensures IsSubsequence(r, actions)
  {
    if actions == [] then []
    else
      var rest := VisibleActions(actions[1..], selectedAction);
      if selectedAction == "all" || selectedAction == actions[0] then
        assert ([actions[0]] + rest)[1..] == rest;
        [actions[0]] + rest
      else
        assert rest != [] ==> rest[0] in rest && rest[0] != actions[0];
        rest
  }

  /** The number shown in an action's row: the plays with that action that
      also match the result and match selectors. */
  function RowCount(stats: seq<StatRecord>, action: string, selectedResult: string, selectedMatch: string): nat {
    Count(stats, Row(action, selectedResult, selectedMatch))
  }

  /** With both selectors at 'all' a row shows the action's total; with any
      selection it shows no more than that. */
  lemma {:induction false} RowCountBounds(stats: seq<StatRecord>, action: string, selectedResult: string, selectedMatch: string)
    ensures RowCount(stats, action, "all", "all") == Count(stats, ByAction(action))
    ensures RowCount(stats, action, selectedResult, selectedMatch) <= Count(stats, ByAction(action))
    ensures selectedMatch == "all" && selectedResult != "all" ==>
              RowCount(stats, action, selectedResult, selectedMatch) == Count(stats, ByResult(action, selectedResult))
  {
    if stats != [] {
      RowCountBounds(stats[..|stats| - 1], action, selectedResult, selectedMatch);
    }
  }

  /** The success table of `getSuccessRate`, as written on the page. */
  const SuccessMapping: map<string, seq<string>> := map[
    "Serve" := ["ace", "in play"],
    "Serve Recieve" := ["perfect", "decent"],
    "Set" := ["perfect", "decent", "setter dump"],
    "Spike" := ["Kill", "block out"],
    "Block" := ["Kill block", "soft block"]
  ]

  /** `getSuccessRate`: exact, case-sensitive membership; false for an
      action the table does not list. */
  function GetSuccessRate(action: string, result: string): (r: bool)
    ensures r ==> action in SuccessMapping && result in SuccessMapping[action]
    ensures action !in SuccessMapping ==> !r
  {
    action in SuccessMapping && result in SuccessMapping[action]
  }

  /** The page's table disagrees with the shared success table: of all
      the results the shared table calls a success, only ('Spike', 'Kill')
      is recognised here; 'Dig' is never a success, and every other entry
      differs in letter case. */
  lemma SuccessRateDisagrees(action: string, result: string)
    ensures GetSuccessRate(action, result) && StatConstants.IsSuccess(action, result) <==>
              action == "Spike" && result == "Kill"
    ensures StatConstants.IsSuccess("Serve", "Ace") && !GetSuccessRate("Serve", "Ace")
    ensures !GetSuccessRate("Dig", result)
  {
  }

  /** A user object as the page holds it: `id` and `_id` may each be
      missing. */
  datatype UserRef = UserRef(id: Option<string>, underscoreId: Option<string>)

  /** `getUserId`: `id` when it is truthy, otherwise `_id`. */
  function GetUserId(userData: Option<UserRef>): (r: Option<string>)
    ensures userData.None? ==> r.None?
    ensures userData.Some? && Present(userData.value.id) ==> r == userData.value.id
    ensures userData.Some? && !Present(userData.value.id) ==> r == userData.value.underscoreId
    ensures Present(r) ==> userData.Some? && (r == userData.value.id || r == userData.value.underscoreId)
  {
    if userData.None? then None
    else if Present(userData.value.id) then userData.value.id
    else userData.value.underscoreId
  }
}
