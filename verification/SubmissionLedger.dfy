/**
 The books of a submission: the shared state together with what has happened to it,
 and what each locked operation keeps of the counts.
 */
module SubmissionLedger {
  import opened Bytes
  import opened Sets
  import opened SubmissionState

  /** The shared state and its history; no operation looks at the history. */
  datatype Ledger = Ledger(
    state: State,
    granted: seq<Worker>,                // the requests that were told to go ahead
    answers: map<Log, Sct>,              // the SCTs the logs answered with
    fired: seq<Worker>)                  // the stored cancel functions that were called

  /** Goroutine `w` asks whether to go to `log`. */
  ghost predicate Asks(k: Ledger, w: Worker, log: Log, first: bool, k': Ledger) {
    && k'.state == Request(k.state, log, w).0 && first == Request(k.state, log, w).1
    && k'.granted == (if first then k.granted + [w] else k.granted)
    && k'.answers == k.answers && k'.fired == k.fired
  }

  /** What `log` answered is handed in; `calls` are the cancel functions called, in order. */
  ghost predicate HandsIn(k: Ledger, log: Log, sct: Option<Sct>, err: Option<string>, calls: seq<Worker>, k': Ledger) {
    && k'.state == SetResult(k.state, log, sct, err)
    && Enumerates(calls, FiredBySetResult(k.state, log, sct, err))
    && k'.granted == k.granted && k'.fired == k.fired + calls
    && k'.answers == if sct.Some? then k.answers[log := sct.value] else k.answers
  }

  // ----- Needs, SCTs kept and SCTs received -----

  function Min(a: int, b: int): int {
    if a < b then a else b
  }

  /** One group's account: what it needs, what is kept for it, and who has succeeded. */
  ghost predicate Accounted(group: Group, need: int, kept: set<Log>, succeeded: set<Log>) {
    && need == group.minInclusions - |succeeded * group.logs|
    && |kept * group.logs| >= Min(group.minInclusions, |succeeded * group.logs|)
  }

  /** The counting invariant: `succeeded` are the logs that have answered with an SCT. */
  ghost predicate Balanced(groups: Policy, s: State, succeeded: set<Log>) {
    && s.logToGroups == ByLogs(groups)
    && s.groupNeeds.Keys == groups.Keys
    && Recorded(s) <= succeeded
    && forall g :: g in groups ==> Accounted(groups[g], s.groupNeeds[g], Recorded(s), succeeded)
  }

  lemma InitBalanced(groups: Policy)
    requires WellNamed(groups)
    ensures Balanced(groups, NewState(groups), {})
  {
    var none: set<Log> := {};
    var s := NewState(groups);
    assert Recorded(s) == none;
    forall g | g in groups ensures Accounted(groups[g], s.groupNeeds[g], none, none) {
      assert none * groups[g].logs == none;
    }
  }

  lemma SameBalance(groups: Policy, s: State, s': State, succeeded: set<Log>)
    requires Balanced(groups, s, succeeded)
    requires s'.logToGroups == s.logToGroups && s'.groupNeeds == s.groupNeeds && Recorded(s') == Recorded(s)
    ensures Balanced(groups, s', succeeded)
  {
  }

  /** Asking a log changes no count. */
  lemma RequestEffect(s: State, log: Log, w: Worker)
    ensures var s' := Request(s, log, w).0;
            s'.logToGroups == s.logToGroups && s'.groupNeeds == s.groupNeeds && Recorded(s') == Recorded(s)
  {
  }

  lemma FailureEffect(s: State, log: Log, err: Option<string>)
    requires log !in Recorded(s)
    ensures var s' := SetResult(s, log, None, err);
            s'.logToGroups == s.logToGroups && s'.groupNeeds == s.groupNeeds && Recorded(s') == Recorded(s)
  {
  }

  lemma GroupsOfLog(groups: Policy, s: State, log: Log, g: GroupName)
    requires s.logToGroups == ByLogs(groups)
    ensures g in GroupsOf(s, log) <==> g in groups && log in groups[g].logs
  {
  }

  /** The log belongs to a group that is short of SCTs. */
  ghost predicate Wanted(groups: Policy, needs: map<GroupName, int>, log: Log) {
    exists g :: g in groups && g in needs && log in groups[g].logs && needs[g] > 0
  }

  lemma AwaitedIsWanted(groups: Policy, s: State, log: Log)
    requires s.logToGroups == ByLogs(groups) && s.groupNeeds.Keys == groups.Keys
    ensures Awaited(s, log) <==> Wanted(groups, s.groupNeeds, log)
  {
    forall g ensures g in GroupsOf(s, log) <==> g in groups && log in groups[g].logs {
      GroupsOfLog(groups, s, log, g);
    }
    if g :| g in groups && g in s.groupNeeds && log in groups[g].logs && s.groupNeeds[g] > 0 {
      assert g in GroupsOf(s, log) && Need(s, g) > 0;
    }
  }

  /** An SCT lowers the need of exactly the groups of its log, and is kept if one of them was short. */
  lemma SuccessEffect(groups: Policy, s: State, log: Log, sct: Sct, err: Option<string>)
    requires s.logToGroups == ByLogs(groups) && s.groupNeeds.Keys == groups.Keys
    ensures var s' := SetResult(s, log, Some(sct), err);
            && s'.logToGroups == s.logToGroups && s'.groupNeeds.Keys == groups.Keys
            && (forall g :: g in groups ==>
                s'.groupNeeds[g] == s.groupNeeds[g] - if log in groups[g].logs then 1 else 0)
            && Recorded(s') == if Wanted(groups, s.groupNeeds, log) then Recorded(s) + {log} else Recorded(s)
  {
    AwaitedIsWanted(groups, s, log);
    forall g ensures g in GroupsOf(s, log) <==> g in groups && log in groups[g].logs {
      GroupsOfLog(groups, s, log, g);
    }
    assert GroupsOf(s, log) <= groups.Keys;
  }

  lemma SuccessBalanced(groups: Policy, s: State, succeeded: set<Log>, log: Log, sct: Sct, err: Option<string>)
    requires Balanced(groups, s, succeeded) && log !in succeeded
    ensures Balanced(groups, SetResult(s, log, Some(sct), err), succeeded + {log})
  {
    var s' := SetResult(s, log, Some(sct), err);
    SuccessEffect(groups, s, log, sct, err);
    forall g | g in groups ensures Accounted(groups[g], s'.groupNeeds[g], Recorded(s'), succeeded + {log}) {
      AccountStep(groups[g], s.groupNeeds[g], Recorded(s), Recorded(s'), succeeded, log);
    }
  }

  /** While a group is short, all the successes among its logs are kept. */
  lemma AccountStep(group: Group, need: int, kept: set<Log>, kept': set<Log>, succeeded: set<Log>, log: Log)
    requires Accounted(group, need, kept, succeeded)
    requires kept <= succeeded && log !in succeeded
    requires kept <= kept' <= kept + {log}
    requires need > 0 && log in group.logs ==> log in kept'
    ensures Accounted(group, need - if log in group.logs then 1 else 0, kept', succeeded + {log})
  {
    AddOne(succeeded, group.logs, log);
    SubsetCard(kept * group.logs, kept' * group.logs);
    if need > 0 && log in group.logs {
      assert kept' == kept + {log};
      AddOne(kept, group.logs, log);
    }
  }

  // ----- What holds of the ledger at all times -----

  /** A log is asked once, by one goroutine. */
  ghost predicate AskedOnce(logOf: map<Worker, Log>, k: Ledger) {
    && (forall w :: w in k.granted ==> w in logOf && logOf[w] in k.state.results)
    && (forall i, j :: 0 <= i < j < |k.granted| ==> logOf[k.granted[i]] != logOf[k.granted[j]])
    && k.answers.Keys <= k.state.results.Keys
  }

  /** Needs, SCTs kept and SCTs received agree. */
  ghost predicate Counted(groups: Policy, k: Ledger) {
    && Balanced(groups, k.state, k.answers.Keys)
    && forall l :: l in Recorded(k.state) ==> k.state.results[l].sct == Some(k.answers[l])
  }

  /** The stored cancel functions are of use; those that were called are not. */
  ghost predicate CancelsKept(logOf: map<Worker, Log>, k: Ledger) {
    && (forall l :: l in k.state.cancels && k.state.cancels[l].Some? ==> Live(logOf, k, l, k.state.cancels[l].value))
    && (forall w :: w in k.fired ==> Spent(logOf, k, w))
    && (forall i, j :: 0 <= i < j < |k.fired| ==> k.fired[i] != k.fired[j])
  }

  ghost predicate Live(logOf: map<Worker, Log>, k: Ledger, log: Log, w: Worker) {
    w in k.granted && w in logOf && logOf[w] == log && Awaited(k.state, log)
  }

  ghost predicate Spent(logOf: map<Worker, Log>, k: Ledger, w: Worker) {
    w in k.granted && w in logOf && !Awaited(k.state, logOf[w])
    && logOf[w] in k.state.cancels && k.state.cancels[logOf[w]].None?
  }

  ghost predicate Sound(groups: Policy, logOf: map<Worker, Log>, k: Ledger) {
    AskedOnce(logOf, k) && Counted(groups, k) && CancelsKept(logOf, k)
  }

  function Opened(groups: Policy): Ledger
    requires WellNamed(groups)
  {
    Ledger(NewState(groups), [], map[], [])
  }

  lemma OpenedIsSound(groups: Policy, logOf: map<Worker, Log>)
    requires WellNamed(groups)
    ensures Sound(groups, logOf, Opened(groups))
  {
    InitBalanced(groups);
    assert Opened(groups).answers.Keys == {};
  }

  lemma AsksAskedOnce(logOf: map<Worker, Log>, k: Ledger, w: Worker, first: bool, k': Ledger)
    requires AskedOnce(logOf, k) && w in logOf && Asks(k, w, logOf[w], first, k')
    ensures AskedOnce(logOf, k')
  {
  }

  lemma HandsInAskedOnce(logOf: map<Worker, Log>, k: Ledger, log: Log, sct: Option<Sct>, err: Option<string>,
                         calls: seq<Worker>, k': Ledger)
    requires AskedOnce(logOf, k) && log in k.state.results && HandsIn(k, log, sct, err, calls, k')
    ensures AskedOnce(logOf, k')
  {
    assert k'.state.results.Keys == k.state.results.Keys;
  }

  lemma AsksCounted(groups: Policy, k: Ledger, w: Worker, log: Log, first: bool, k': Ledger)
    requires Counted(groups, k) && Asks(k, w, log, first, k')
    ensures Counted(groups, k')
  {
    RequestEffect(k.state, log, w);
    SameBalance(groups, k.state, k'.state, k.answers.Keys);
  }

  lemma HandsInCounted(groups: Policy, k: Ledger, log: Log, sct: Option<Sct>, err: Option<string>,
                       calls: seq<Worker>, k': Ledger)
    requires Counted(groups, k) && log !in k.answers && HandsIn(k, log, sct, err, calls, k')
    ensures Counted(groups, k')
  {
    if sct.None? {
      FailureEffect(k.state, log, err);
      SameBalance(groups, k.state, k'.state, k.answers.Keys);
    } else {
      SuccessBalanced(groups, k.state, k.answers.Keys, log, sct.value, err);
      assert k'.answers.Keys == k.answers.Keys + {log};
    }
  }

  lemma AsksCancelsKept(logOf: map<Worker, Log>, k: Ledger, w: Worker, first: bool, k': Ledger)
    requires AskedOnce(logOf, k) && CancelsKept(logOf, k) && w in logOf && Asks(k, w, logOf[w], first, k')
    ensures CancelsKept(logOf, k')
  {
    forall l ensures Awaited(k'.state, l) == Awaited(k.state, l) {
      AwaitedDepends(k'.state, k.state, l);
    }
    forall v | v in k.fired ensures Spent(logOf, k', v) {
      assert Spent(logOf, k, v);
    }
    forall l | l in k'.state.cancels && k'.state.cancels[l].Some?
      ensures Live(logOf, k', l, k'.state.cancels[l].value)
    {
      assert (first && l == logOf[w]) || Live(logOf, k, l, k.state.cancels[l].value);
    }
  }

  /** Needs only fall, so a log nobody waits for is never waited for again. */
  lemma AwaitedFalls(s: State, log: Log, sct: Option<Sct>, err: Option<string>, l: Log)
    requires Awaited(SetResult(s, log, sct, err), l)
    ensures Awaited(s, l)
  {
    var s' := SetResult(s, log, sct, err);
    var g :| g in GroupsOf(s', l) && Need(s', g) > 0;
    assert g in GroupsOf(s, l) && Need(s, g) > 0;
  }

  lemma CancelStep(s: State, log: Log, answer: Answer, l: Log)
    ensures var t := Count(s, log, answer); var s' := CancelSuperfluous(t);
            && s'.cancels.Keys == s.cancels.Keys
            && (l in s.cancels ==> s'.cancels[l] == if Superfluous(t, l) then None else s.cancels[l])
            && Awaited(s', l) == Awaited(t, l)
            && (Awaited(s, l) ==> l in t.logToGroups)
  {
    var t := Count(s, log, answer);
    AwaitedDepends(CancelSuperfluous(t), t, l);
  }

  lemma CallIsSuperfluous(t: State, w: Worker) returns (l: Log)
    requires w in Fired(t)
    ensures Superfluous(t, l) && t.cancels[l].value == w
  {
    l :| l in t.cancels && Superfluous(t, l) && t.cancels[l].value == w;
  }

  lemma HandsInLive(logOf: map<Worker, Log>, k: Ledger, log: Log, sct: Sct, err: Option<string>,
                    calls: seq<Worker>, k': Ledger, l: Log)
    requires CancelsKept(logOf, k) && HandsIn(k, log, Some(sct), err, calls, k')
    requires l in k'.state.cancels && k'.state.cancels[l].Some?
    ensures Live(logOf, k', l, k'.state.cancels[l].value)
  {
    CancelStep(k.state, log, Answer(Some(sct), err), l);
    assert Live(logOf, k, l, k.state.cancels[l].value);
  }

  lemma HandsInSpent(logOf: map<Worker, Log>, k: Ledger, log: Log, sct: Sct, err: Option<string>,
                     calls: seq<Worker>, k': Ledger, w: Worker)
    requires CancelsKept(logOf, k) && HandsIn(k, log, Some(sct), err, calls, k')
    requires w in calls
    ensures Spent(logOf, k', w) && w !in k.fired
  {
    var l := CallIsSuperfluous(Count(k.state, log, Answer(Some(sct), err)), w);
    CancelStep(k.state, log, Answer(Some(sct), err), l);
    assert Live(logOf, k, l, w);
    assert w in k.fired ==> Spent(logOf, k, w);
  }

  lemma HandsInStillSpent(logOf: map<Worker, Log>, k: Ledger, log: Log, sct: Sct, err: Option<string>,
                          calls: seq<Worker>, k': Ledger, w: Worker)
    requires CancelsKept(logOf, k) && HandsIn(k, log, Some(sct), err, calls, k')
    requires w in k.fired
    ensures Spent(logOf, k', w)
  {
    assert Spent(logOf, k, w);
    CancelStep(k.state, log, Answer(Some(sct), err), logOf[w]);
    if Awaited(k'.state, logOf[w]) {
      AwaitedFalls(k.state, log, Some(sct), err, logOf[w]);
    }
  }

  lemma StillDistinct<T>(xs: seq<T>, ys: seq<T>)
    requires forall i, j :: 0 <= i < j < |xs| ==> xs[i] != xs[j]
    requires forall i, j :: 0 <= i < j < |ys| ==> ys[i] != ys[j]
    requires forall y :: y in ys ==> y !in xs
    ensures forall i, j :: 0 <= i < j < |xs + ys| ==> (xs + ys)[i] != (xs + ys)[j]
  {
    forall i, j | 0 <= i < j < |xs + ys| ensures (xs + ys)[i] != (xs + ys)[j] {
      assert j >= |xs| ==> (xs + ys)[j] in ys;
    }
  }

  lemma HandsInCancelsKept(logOf: map<Worker, Log>, k: Ledger, log: Log, sct: Option<Sct>, err: Option<string>,
                           calls: seq<Worker>, k': Ledger)
    requires CancelsKept(logOf, k) && HandsIn(k, log, sct, err, calls, k')
    ensures CancelsKept(logOf, k')
  {
    if sct.None? {
      FailureCancelsKept(logOf, k, log, err, calls, k');
    } else {
      forall l | l in k'.state.cancels && k'.state.cancels[l].Some?
        ensures Live(logOf, k', l, k'.state.cancels[l].value)
      {
        HandsInLive(logOf, k, log, sct.value, err, calls, k', l);
      }
      forall w | w in calls ensures Spent(logOf, k', w) && w !in k.fired {
        HandsInSpent(logOf, k, log, sct.value, err, calls, k', w);
      }
      forall w | w in k.fired ensures Spent(logOf, k', w) {
        HandsInStillSpent(logOf, k, log, sct.value, err, calls, k', w);
      }
      StillDistinct(k.fired, calls);
    }
  }

  lemma FailureCancelsKept(logOf: map<Worker, Log>, k: Ledger, log: Log, err: Option<string>,
                           calls: seq<Worker>, k': Ledger)
    requires CancelsKept(logOf, k) && HandsIn(k, log, None, err, calls, k')
    ensures CancelsKept(logOf, k')
  {
    StillDistinct(k.fired, calls);
    forall l ensures Awaited(k'.state, l) == Awaited(k.state, l) {
      AwaitedDepends(k'.state, k.state, l);
    }
    forall w | w in k.fired ensures Spent(logOf, k', w) {
      assert Spent(logOf, k, w);
    }
    forall l | l in k.state.cancels && k.state.cancels[l].Some? ensures Live(logOf, k', l, k.state.cancels[l].value) {
      assert Live(logOf, k, l, k.state.cancels[l].value);
    }
  }

  /** Every locked operation keeps the books sound. */
  lemma AsksSound(groups: Policy, logOf: map<Worker, Log>, k: Ledger, w: Worker, first: bool, k': Ledger)
    requires Sound(groups, logOf, k) && w in logOf && Asks(k, w, logOf[w], first, k')
    ensures Sound(groups, logOf, k')
  {
    AsksAskedOnce(logOf, k, w, first, k');
    AsksCounted(groups, k, w, logOf[w], first, k');
    AsksCancelsKept(logOf, k, w, first, k');
  }

  lemma HandsInSound(groups: Policy, logOf: map<Worker, Log>, k: Ledger, log: Log, sct: Option<Sct>,
                     err: Option<string>, calls: seq<Worker>, k': Ledger)
    requires Sound(groups, logOf, k) && HandsIn(k, log, sct, err, calls, k')
    requires log in k.state.results && log !in k.answers
    ensures Sound(groups, logOf, k')
  {
    HandsInAskedOnce(logOf, k, log, sct, err, calls, k');
    HandsInCounted(groups, k, log, sct, err, calls, k');
    HandsInCancelsKept(logOf, k, log, sct, err, calls, k');
  }

  // ----- What is never taken back -----

  /** Nothing asked, granted, answered, kept or completed is undone, and no need comes back. */
  ghost predicate Grows(k: Ledger, k': Ledger) {
    && k.state.results.Keys <= k'.state.results.Keys
    && k.granted <= k'.granted && k.fired <= k'.fired
    && (forall l :: l in k.answers ==> l in k'.answers && k'.answers[l] == k.answers[l])
    && (forall l :: l in k.state.results && k.state.results[l].sct.Some? ==>
          l in k'.state.results && k'.state.results[l].sct == k.state.results[l].sct)
    && (forall g :: GroupComplete(k.state, g) ==> GroupComplete(k'.state, g))
    && (forall l :: Awaited(k'.state, l) ==> Awaited(k.state, l))
  }

  lemma AsksGrows(k: Ledger, w: Worker, log: Log, first: bool, k': Ledger)
    requires Asks(k, w, log, first, k')
    ensures Grows(k, k')
  {
    forall l ensures Awaited(k'.state, l) == Awaited(k.state, l) {
      AwaitedDepends(k'.state, k.state, l);
    }
  }

  lemma FailureGrows(k: Ledger, log: Log, err: Option<string>, calls: seq<Worker>, k': Ledger)
    requires log !in Recorded(k.state) && HandsIn(k, log, None, err, calls, k')
    ensures Grows(k, k')
  {
    forall l ensures Awaited(k'.state, l) == Awaited(k.state, l) {
      AwaitedDepends(k'.state, k.state, l);
    }
  }

  lemma SuccessCompletes(groups: Policy, s: State, log: Log, sct: Sct, err: Option<string>, g: GroupName)
    requires s.logToGroups == ByLogs(groups) && s.groupNeeds.Keys == groups.Keys
    requires GroupComplete(s, g)
    ensures GroupComplete(SetResult(s, log, Some(sct), err), g)
  {
    SuccessEffect(groups, s, log, sct, err);
  }

  lemma SuccessResults(s: State, log: Log, sct: Sct, err: Option<string>)
    ensures var s' := SetResult(s, log, Some(sct), err);
            s'.results == s.results || s'.results == s.results[log := Answer(Some(sct), err)]
  {
  }

  lemma SuccessGrows(groups: Policy, k: Ledger, log: Log, sct: Sct, err: Option<string>, calls: seq<Worker>, k': Ledger)
    requires Counted(groups, k) && log !in k.answers && HandsIn(k, log, Some(sct), err, calls, k')
    ensures Grows(k, k')
  {
    forall l | Awaited(k'.state, l) ensures Awaited(k.state, l) {
      AwaitedFalls(k.state, log, Some(sct), err, l);
    }
    assert log !in Recorded(k.state);
    SuccessResults(k.state, log, sct, err);
    forall g | GroupComplete(k.state, g) ensures GroupComplete(k'.state, g) {
      SuccessCompletes(groups, k.state, log, sct, err, g);
    }
  }

  lemma HandsInGrows(groups: Policy, k: Ledger, log: Log, sct: Option<Sct>, err: Option<string>,
                     calls: seq<Worker>, k': Ledger)
    requires Counted(groups, k) && log !in k.answers && HandsIn(k, log, sct, err, calls, k')
    ensures Grows(k, k')
  {
    if sct.None? {
      FailureGrows(k, log, err, calls, k');
    } else {
      SuccessGrows(groups, k, log, sct.value, err, calls, k');
    }
  }

  lemma GrowsTransitive(k: Ledger, k': Ledger, k'': Ledger)
    requires Grows(k, k') && Grows(k', k'')
    ensures Grows(k, k'')
  {
  }
}
