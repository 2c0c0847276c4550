/**
 What holds of every run of GetSCTs.
 */
module SubmissionTheorems {
  import opened SubmissionState
  import opened SubmissionLedger
  import opened SubmissionBounds
  import opened SubmissionRace

  // ----- One step, then whole runs -----

  /** Only the two locked operations that write move the books. */
  lemma StepBooks(y: System, step: Step)
    requires Enabled(y, step)
    ensures var z := Next(y, step);
            && z.ledger == (if step.WorkerRequests? || step.WorkerAnswered? then step.after else y.ledger)
            && z.groups == y.groups && z.sessions == y.sessions && z.logOf == y.logOf
  {
    match step
    case ContextDone =>
    case WorkerQuits(w) =>
    case WorkerChecks(w) =>
    case WorkerRequests(w, first, after) =>
    case WorkerAnswered(w, sct, err, calls, after) =>
    case RaceHears(g) =>
    case RaceGivesUp(g) =>
    case RaceEnds(g) =>
    case MainHears(g) =>
    case MainReturns(scts) =>
  }

  /** Nothing is taken back. */
  lemma StepGrows(y: System, step: Step)
    requires Counted(y.groups, y.ledger) && Linked(y.logOf, y.workers, y.ledger) && Enabled(y, step)
    ensures Grows(y.ledger, Next(y, step).ledger)
  {
    StepBooks(y, step);
    if step.WorkerRequests? {
      AsksGrows(y.ledger, step.w, y.logOf[step.w], step.first, step.after);
    } else if step.WorkerAnswered? {
      HandsInGrows(y.groups, y.ledger, y.logOf[step.w], step.sct, step.err, step.calls, step.after);
    }
  }

  lemma StepBounded(y: System, step: Step)
    requires Counted(y.groups, y.ledger) && Linked(y.logOf, y.workers, y.ledger) && Enabled(y, step)
    requires Bounded(y.groups, y.ledger.state)
    ensures Bounded(y.groups, Next(y, step).ledger.state)
  {
    StepBooks(y, step);
    if step.WorkerRequests? {
      AsksBounded(y.groups, y.ledger, step.w, y.logOf[step.w], step.first, step.after);
    } else if step.WorkerAnswered? {
      HandsInBounded(y.groups, y.ledger, y.logOf[step.w], step.sct, step.err, step.calls, step.after);
    }
  }

  lemma StepChromeKept(y: System, step: Step, google: GroupName, other: GroupName, base: GroupName)
    requires Counted(y.groups, y.ledger) && Linked(y.logOf, y.workers, y.ledger) && Enabled(y, step)
    requires ChromeShaped(y.groups, google, other, base) && ChromeKept(y.groups, google, other, base, y.ledger.state)
    ensures ChromeKept(y.groups, google, other, base, Next(y, step).ledger.state)
  {
    StepBooks(y, step);
    if step.WorkerRequests? {
      AsksChromeKept(y.groups, google, other, base, y.ledger, step.w, y.logOf[step.w], step.first, step.after);
    } else if step.WorkerAnswered? {
      HandsInChromeKept(y.groups, google, other, base, y.ledger, y.logOf[step.w], step.sct, step.err, step.calls,
                        step.after);
    }
  }

  lemma {:induction false} RunSafe(y: System, steps: seq<Step>, y': System)
    requires Safe(y) && Runs(y, steps, y')
    ensures Safe(y') && Grows(y.ledger, y'.ledger)
    ensures y'.groups == y.groups && y'.sessions == y.sessions && y'.logOf == y.logOf
    decreases |steps|
  {
    if steps != [] {
      StepSafe(y, steps[0]);
      StepBooks(y, steps[0]);
      StepGrows(y, steps[0]);
      RunSafe(Next(y, steps[0]), steps[1..], y');
      GrowsTransitive(y.ledger, Next(y, steps[0]).ledger, y'.ledger);
    }
  }

  lemma {:induction false} RunBounded(y: System, steps: seq<Step>, y': System)
    requires Safe(y) && Bounded(y.groups, y.ledger.state) && Runs(y, steps, y')
    ensures Bounded(y.groups, y'.ledger.state)
    decreases |steps|
  {
    if steps != [] {
      StepSafe(y, steps[0]);
      StepBooks(y, steps[0]);
      StepBounded(y, steps[0]);
      RunBounded(Next(y, steps[0]), steps[1..], y');
    }
  }

  lemma {:induction false} RunChromeKept(y: System, steps: seq<Step>, y': System,
                                         google: GroupName, other: GroupName, base: GroupName)
    requires Safe(y) && Runs(y, steps, y')
    requires ChromeShaped(y.groups, google, other, base) && ChromeKept(y.groups, google, other, base, y.ledger.state)
    ensures ChromeKept(y.groups, google, other, base, y'.ledger.state)
    decreases |steps|
  {
    if steps != [] {
      StepSafe(y, steps[0]);
      StepBooks(y, steps[0]);
      StepChromeKept(y, steps[0], google, other, base);
      RunChromeKept(Next(y, steps[0]), steps[1..], y', google, other, base);
    }
  }

  // ----- The theorems -----

  ghost predicate Reachable(groups: Policy, sessions: map<GroupName, seq<Log>>, y: System) {
    WellNamed(groups) && exists steps :: Runs(Init(groups, sessions), steps, y)
  }

  lemma ReachableIsSafe(groups: Policy, sessions: map<GroupName, seq<Log>>, y: System)
    requires Reachable(groups, sessions, y)
    ensures Safe(y) && y.groups == groups && y.sessions == sessions
  {
    var steps :| Runs(Init(groups, sessions), steps, y);
    FreshSafe(groups, sessions, LogsOfWorkers(sessions));
    RunSafe(Init(groups, sessions), steps, y);
  }

  /**
   Soundness of GetSCTs: when it returns without an error, every group of the policy
   has at least its minimum of SCTs from distinct logs of the group, and each SCT is
   the one its log gave.
   */
  lemma GetSctsIsSound(groups: Policy, sessions: map<GroupName, seq<Log>>, y: System)
    requires Reachable(groups, sessions, y) && y.main.Returned?
    ensures y.main.complete ==> Meets(groups, y.main.scts)
    ensures forall i :: 0 <= i < |y.main.scts| ==>
              y.main.scts[i].0 in y.ledger.answers && y.ledger.answers[y.main.scts[i].0] == y.main.scts[i].1
  {
    ReachableIsSafe(groups, sessions, y);
  }

  lemma ReachableIsBounded(groups: Policy, sessions: map<GroupName, seq<Log>>, y: System)
    requires Reachable(groups, sessions, y)
    ensures Bounded(groups, y.ledger.state)
  {
    var steps :| Runs(Init(groups, sessions), steps, y);
    FreshSafe(groups, sessions, LogsOfWorkers(sessions));
    OpenedIsBounded(groups);
    RunBounded(Init(groups, sessions), steps, y);
  }

  lemma CountedMeans(groups: Policy, k: Ledger)
    requires Counted(groups, k)
    ensures k.state.groupNeeds.Keys == groups.Keys && Recorded(k.state) <= k.answers.Keys
    ensures forall g :: g in groups ==>
              && k.state.groupNeeds[g] == groups[g].minInclusions - |k.answers.Keys * groups[g].logs|
              && |Recorded(k.state) * groups[g].logs| >= Min(groups[g].minInclusions, |k.answers.Keys * groups[g].logs|)
  {
    assert forall g :: g in groups ==> Accounted(groups[g], k.state.groupNeeds[g], Recorded(k.state), k.answers.Keys);
  }

  /**
   Conservation: in every reachable state a group's need is its minimum less the logs
   of the group that answered with an SCT; of those, at least the minimum is kept or
   all of them; and the SCTs kept never outnumber the sum of the minimums.
   */
  lemma NeedsAreConserved(groups: Policy, sessions: map<GroupName, seq<Log>>, y: System)
    requires Reachable(groups, sessions, y)
    ensures y.ledger.state.groupNeeds.Keys == groups.Keys
    ensures forall g :: g in groups ==>
              y.ledger.state.groupNeeds[g] == groups[g].minInclusions - |y.ledger.answers.Keys * groups[g].logs|
    ensures forall g :: g in groups ==>
              |Recorded(y.ledger.state) * groups[g].logs|
              >= Min(groups[g].minInclusions, |y.ledger.answers.Keys * groups[g].logs|)
    ensures Recorded(y.ledger.state) <= y.ledger.answers.Keys
    ensures |Recorded(y.ledger.state)| <= Shortfall(groups.Keys, Minimums(groups))
  {
    ReachableIsBounded(groups, sessions, y);
    ReachableIsSafe(groups, sessions, y);
    CountedMeans(groups, y.ledger);
  }

  /** A group counts as complete exactly when enough of its logs have answered with an SCT. */
  lemma CompleteMeansEnough(groups: Policy, sessions: map<GroupName, seq<Log>>, y: System, g: GroupName)
    requires Reachable(groups, sessions, y) && g in groups
    ensures GroupComplete(y.ledger.state, g) <==> |y.ledger.answers.Keys * groups[g].logs| >= groups[g].minInclusions
  {
    ReachableIsSafe(groups, sessions, y);
    CountedMeans(groups, y.ledger);
  }

  lemma ReachableIsChromeKept(groups: Policy, sessions: map<GroupName, seq<Log>>, y: System,
                              google: GroupName, other: GroupName, base: GroupName)
    requires Reachable(groups, sessions, y) && ChromeShaped(groups, google, other, base)
    ensures ChromeKept(groups, google, other, base, y.ledger.state)
  {
    var steps :| Runs(Init(groups, sessions), steps, y);
    FreshSafe(groups, sessions, LogsOfWorkers(sessions));
    OpenedChromeKept(groups, google, other, base);
    RunChromeKept(Init(groups, sessions), steps, y, google, other, base);
  }

  /** Under the Chrome policy no more than one SCT beyond the base minimum is ever kept. */
  lemma ChromeKeepsFewScts(groups: Policy, sessions: map<GroupName, seq<Log>>, y: System,
                           google: GroupName, other: GroupName, base: GroupName)
    requires Reachable(groups, sessions, y) && ChromeShaped(groups, google, other, base)
    ensures |Recorded(y.ledger.state)| <= groups[base].minInclusions + 1
  {
    ReachableIsChromeKept(groups, sessions, y, google, other, base);
  }

  /** No log is told to go ahead twice, whichever goroutines ask. */
  lemma LogIsAskedOnce(groups: Policy, sessions: map<GroupName, seq<Log>>, y: System, i: nat, j: nat)
    requires Reachable(groups, sessions, y) && i < j < |y.ledger.granted|
    ensures y.ledger.granted[i] in y.logOf && y.ledger.granted[j] in y.logOf
    ensures y.logOf[y.ledger.granted[i]] != y.logOf[y.ledger.granted[j]]
  {
    ReachableIsSafe(groups, sessions, y);
    assert y.ledger.granted[i] in y.ledger.granted && y.ledger.granted[j] in y.ledger.granted;
  }

  /** A goroutine is turned away only if its log was asked before or will never be waited for again. */
  lemma RefusalIsFinal(groups: Policy, sessions: map<GroupName, seq<Log>>, y: System, w: Worker, after: Ledger,
                       steps: seq<Step>, y': System)
    requires Reachable(groups, sessions, y) && Runs(y, steps, y')
    requires w in y.logOf && Enabled(y, WorkerRequests(w, false, after))
    ensures y.logOf[w] in y.ledger.state.results || !Awaited(y'.ledger.state, y.logOf[w])
  {
    ReachableIsSafe(groups, sessions, y);
    RunSafe(y, steps, y');
  }

  /** A stored cancel function belongs to the goroutine that asked its log, and some group still waits for that log. */
  lemma StoredCancelIsOfUse(groups: Policy, sessions: map<GroupName, seq<Log>>, y: System, l: Log)
    requires Reachable(groups, sessions, y) && l in y.ledger.state.cancels && y.ledger.state.cancels[l].Some?
    ensures Live(y.logOf, y.ledger, l, y.ledger.state.cancels[l].value)
  {
    ReachableIsSafe(groups, sessions, y);
  }

  /** No cancel function is called twice, and a log whose request was cancelled is never waited for again. */
  lemma CancelIsFinal(groups: Policy, sessions: map<GroupName, seq<Log>>, y: System, steps: seq<Step>, y': System,
                      i: nat)
    requires Reachable(groups, sessions, y) && Runs(y, steps, y') && i < |y.ledger.fired|
    ensures y.ledger.fired <= y'.ledger.fired
    ensures forall j :: 0 <= j < |y'.ledger.fired| && j != i ==> y'.ledger.fired[j] != y.ledger.fired[i]
    ensures y.ledger.fired[i] in y.logOf && !Awaited(y'.ledger.state, y.logOf[y.ledger.fired[i]])
  {
    ReachableIsSafe(groups, sessions, y);
    RunSafe(y, steps, y');
    assert y'.ledger.fired[i] == y.ledger.fired[i] && y.ledger.fired[i] in y'.ledger.fired;
    assert Spent(y'.logOf, y'.ledger, y.ledger.fired[i]);
  }

  /** An SCT once kept is never overwritten or dropped. */
  lemma KeptSctStays(groups: Policy, sessions: map<GroupName, seq<Log>>, y: System, steps: seq<Step>, y': System,
                     l: Log)
    requires Reachable(groups, sessions, y) && Runs(y, steps, y') && l in Recorded(y.ledger.state)
    ensures l in Recorded(y'.ledger.state) && y'.ledger.state.results[l].sct == y.ledger.state.results[l].sct
  {
    ReachableIsSafe(groups, sessions, y);
    RunSafe(y, steps, y');
  }
}
