/**
 How many SCTs a submission can end up keeping: at most the sum of the groups'
 minimums, and for the groups of the Chrome policy at most one more than the
 minimum over all logs.
 */
module SubmissionBounds {
  import opened Bytes
  import opened Sets
  import opened SubmissionState
  import opened SubmissionLedger

  ghost function Positive(n: int): nat {
    if n > 0 then n else 0
  }

  /** How many SCTs the named groups are short of, counted group by group. */
  ghost function Shortfall(names: set<GroupName>, needs: map<GroupName, int>): nat
    requires names <= needs.Keys
    decreases |names|
  {
    if names == {} then 0
    else var g := Pick(names); Positive(needs[g]) + Shortfall(names - {g}, needs)
  }

  lemma {:induction false} ShortfallSplit(names: set<GroupName>, needs: map<GroupName, int>, g: GroupName)
    requires g in names && names <= needs.Keys
    ensures Shortfall(names, needs) == Positive(needs[g]) + Shortfall(names - {g}, needs)
    decreases |names|
  {
    var p := Pick(names);
    if p != g {
      ShortfallSplit(names - {p}, needs, g);
      ShortfallSplit(names - {g}, needs, p);
      assert names - {p} - {g} == names - {g} - {p};
    }
  }

  lemma {:induction false} ShortfallFalls(names: set<GroupName>, needs: map<GroupName, int>,
                                          needs': map<GroupName, int>)
    requires names <= needs.Keys && names <= needs'.Keys
    requires forall g :: g in names ==> needs'[g] <= needs[g]
    ensures Shortfall(names, needs') <= Shortfall(names, needs)
    decreases |names|
  {
    if names != {} {
      ShortfallFalls(names - {Pick(names)}, needs, needs');
    }
  }

  lemma ShortfallDrops(names: set<GroupName>, needs: map<GroupName, int>, needs': map<GroupName, int>, g: GroupName)
    requires names <= needs.Keys && names <= needs'.Keys
    requires forall h :: h in names ==> needs'[h] <= needs[h]
    requires g in names && needs[g] > 0 && needs'[g] < needs[g]
    ensures Shortfall(names, needs') < Shortfall(names, needs)
  {
    ShortfallSplit(names, needs, g);
    ShortfallSplit(names, needs', g);
    ShortfallFalls(names - {g}, needs, needs');
  }

  function Minimums(groups: Policy): map<GroupName, int> {
    map g | g in groups :: groups[g].minInclusions
  }

  /** SCTs kept and SCTs still missing together never exceed the minimums. */
  ghost predicate Bounded(groups: Policy, s: State) {
    && s.groupNeeds.Keys == groups.Keys
    && |Recorded(s)| + Shortfall(groups.Keys, s.groupNeeds) <= Shortfall(groups.Keys, Minimums(groups))
  }

  lemma OpenedIsBounded(groups: Policy)
    requires WellNamed(groups)
    ensures Bounded(groups, NewState(groups))
  {
    assert Recorded(NewState(groups)) == {};
    assert NewState(groups).groupNeeds == Minimums(groups);
  }

  lemma AsksBounded(groups: Policy, k: Ledger, w: Worker, log: Log, first: bool, k': Ledger)
    requires Bounded(groups, k.state) && Asks(k, w, log, first, k')
    ensures Bounded(groups, k'.state)
  {
    RequestEffect(k.state, log, w);
  }

  lemma HandsInBounded(groups: Policy, k: Ledger, log: Log, sct: Option<Sct>, err: Option<string>,
                       calls: seq<Worker>, k': Ledger)
    requires Counted(groups, k) && Bounded(groups, k.state) && log !in k.answers && HandsIn(k, log, sct, err, calls, k')
    ensures Bounded(groups, k'.state)
  {
    if sct.None? {
      FailureEffect(k.state, log, err);
    } else {
      SuccessEffect(groups, k.state, log, sct.value, err);
      SuccessBounded(groups, log, k.state.groupNeeds, k'.state.groupNeeds, Recorded(k.state), Recorded(k'.state));
    }
  }

  lemma SuccessBounded(groups: Policy, log: Log, needs: map<GroupName, int>, needs': map<GroupName, int>,
                       kept: set<Log>, kept': set<Log>)
    requires needs.Keys == groups.Keys && needs'.Keys == groups.Keys
    requires forall g :: g in groups ==> needs'[g] == needs[g] - if log in groups[g].logs then 1 else 0
    requires kept' == if Wanted(groups, needs, log) then kept + {log} else kept
    ensures |kept'| + Shortfall(groups.Keys, needs') <= |kept| + Shortfall(groups.Keys, needs)
  {
    if Wanted(groups, needs, log) {
      var g :| g in groups && g in needs && log in groups[g].logs && needs[g] > 0;
      ShortfallDrops(groups.Keys, needs, needs', g);
    } else {
      ShortfallFalls(groups.Keys, needs, needs');
    }
  }

  // ----- The groups of the Chrome policy -----

  /** Two groups that want one SCT each, and a base group over the logs of both. */
  ghost predicate ChromeShaped(groups: Policy, google: GroupName, other: GroupName, base: GroupName) {
    && google != other && google != base && other != base
    && groups.Keys == {google, other, base}
    && groups[google].minInclusions == 1 && groups[other].minInclusions == 1
    && groups[base].minInclusions >= 1
    && groups[base].logs == groups[google].logs + groups[other].logs
  }

  function Short(need: int): nat {
    if need > 0 then 1 else 0
  }

  /** Until the base group is complete every SCT is its own; then at most one more is wanted. */
  ghost predicate ChromeBounded(google: int, other: int, base: int, minimum: int, kept: nat) {
    && (base > 0 ==> kept + base <= minimum)
    && (base <= 0 ==> kept + Short(google) + Short(other) <= minimum + 1)
  }

  ghost predicate ChromeKept(groups: Policy, google: GroupName, other: GroupName, base: GroupName, s: State)
    requires ChromeShaped(groups, google, other, base)
  {
    && s.groupNeeds.Keys == groups.Keys
    && ChromeBounded(s.groupNeeds[google], s.groupNeeds[other], s.groupNeeds[base], groups[base].minInclusions,
                     |Recorded(s)|)
  }

  lemma OpenedChromeKept(groups: Policy, google: GroupName, other: GroupName, base: GroupName)
    requires WellNamed(groups) && ChromeShaped(groups, google, other, base)
    ensures ChromeKept(groups, google, other, base, NewState(groups))
  {
    assert Recorded(NewState(groups)) == {};
  }

  lemma AsksChromeKept(groups: Policy, google: GroupName, other: GroupName, base: GroupName,
                       k: Ledger, w: Worker, log: Log, first: bool, k': Ledger)
    requires ChromeShaped(groups, google, other, base) && ChromeKept(groups, google, other, base, k.state)
    requires Asks(k, w, log, first, k')
    ensures ChromeKept(groups, google, other, base, k'.state)
  {
    RequestEffect(k.state, log, w);
  }

  lemma ChromeStep(groups: Policy, google: GroupName, other: GroupName, base: GroupName, log: Log,
                   needs: map<GroupName, int>, needs': map<GroupName, int>, kept: set<Log>, kept': set<Log>)
    requires ChromeShaped(groups, google, other, base)
    requires needs.Keys == groups.Keys && needs'.Keys == groups.Keys && needs[google] <= 1 && needs[other] <= 1
    requires forall g :: g in groups ==> needs'[g] == needs[g] - if log in groups[g].logs then 1 else 0
    requires kept' == if Wanted(groups, needs, log) then kept + {log} else kept
    requires ChromeBounded(needs[google], needs[other], needs[base], groups[base].minInclusions, |kept|)
    ensures ChromeBounded(needs'[google], needs'[other], needs'[base], groups[base].minInclusions, |kept'|)
  {
    assert google in groups && other in groups && base in groups;
    assert |kept'| <= |kept| + 1;
    if Wanted(groups, needs, log) {
      var g :| g in groups && g in needs && log in groups[g].logs && needs[g] > 0;
      assert g == google || g == other || g == base;
    }
  }

  lemma HandsInChromeKept(groups: Policy, google: GroupName, other: GroupName, base: GroupName,
                          k: Ledger, log: Log, sct: Option<Sct>, err: Option<string>, calls: seq<Worker>, k': Ledger)
    requires ChromeShaped(groups, google, other, base) && ChromeKept(groups, google, other, base, k.state)
    requires Counted(groups, k) && log !in k.answers && HandsIn(k, log, sct, err, calls, k')
    ensures ChromeKept(groups, google, other, base, k'.state)
  {
    if sct.None? {
      FailureEffect(k.state, log, err);
    } else {
      SuccessEffect(groups, k.state, log, sct.value, err);
      assert Accounted(groups[google], k.state.groupNeeds[google], Recorded(k.state), k.answers.Keys);
      assert Accounted(groups[other], k.state.groupNeeds[other], Recorded(k.state), k.answers.Keys);
      ChromeStep(groups, google, other, base, log, k.state.groupNeeds, k'.state.groupNeeds, Recorded(k.state),
                 Recorded(k'.state));
    }
  }
}
