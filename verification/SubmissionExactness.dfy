/**
 When a reported failure is true. It need not be: another group may have asked a shared
 log and still be waiting for its answer. Where, among the groups that want SCTs at all, no
 session holds a log of another group, the report is exact.
 */
module SubmissionExactness {
  import opened Bytes
  import opened Sets
  import opened SubmissionState
  import opened SubmissionLedger
  import opened SubmissionRace
  import opened SubmissionTheorems
  import opened SubmissionFailure

  /** Of two groups that want SCTs, the session of one holds a log of the other. */
  ghost predicate Overlaps(groups: Policy, sessions: map<GroupName, seq<Log>>, g: GroupName, h: GroupName, i: nat) {
    && g in groups && h in groups && g != h && h in sessions && i < |sessions[h]|
    && groups[g].minInclusions > 0 && groups[h].minInclusions > 0
    && sessions[h][i] in groups[g].logs
  }

  ghost predicate Separate(groups: Policy, sessions: map<GroupName, seq<Log>>) {
    forall g, h, i: nat :: !Overlaps(groups, sessions, g, h, i)
  }

  /** Goroutines of groups that want no SCTs never get as far as asking. */
  ghost predicate Earnest(groups: Policy, workers: map<Worker, WorkerPc>) {
    forall w :: w in workers && w.group in groups && (workers[w].Checked? || workers[w].InFlight?) ==>
      groups[w.group].minInclusions > 0
  }

  lemma EarnestMoves(groups: Policy, workers: map<Worker, WorkerPc>, w: Worker, pc: WorkerPc)
    requires Earnest(groups, workers)
    requires w.group in groups && (pc.Checked? || pc.InFlight?) ==> groups[w.group].minInclusions > 0
    ensures Earnest(groups, workers[w := pc])
  {
  }

  /** Only a group that wants SCTs can be short of them. */
  lemma ShortWants(groups: Policy, k: Ledger, g: GroupName)
    requires Counted(groups, k) && g in groups && !GroupComplete(k.state, g)
    ensures groups[g].minInclusions > 0
  {
    assert Accounted(groups[g], k.state.groupNeeds[g], Recorded(k.state), k.answers.Keys);
  }

  ghost predicate FailuresTrue(races: map<GroupName, RacePc>, k: Ledger, ctxDone: bool) {
    ctxDone || forall g :: g in races && races[g] == Reported(false) ==> !GroupComplete(k.state, g)
  }

  ghost predicate HeardRight(races: map<GroupName, RacePc>, complete: map<GroupName, bool>, heard: set<GroupName>) {
    forall g :: g in heard && g in complete ==> g in races && races[g] == Reported(complete[g])
  }

  ghost predicate Truthful(y: System) {
    && Earnest(y.groups, y.workers)
    && FailuresTrue(y.races, y.ledger, y.ctxDone)
    && HeardRight(y.races, y.groupComplete, y.heard)
    && (y.main.Returned? && !y.main.complete && !y.ctxDone ==> !Meets(y.groups, y.main.scts))
  }

  lemma RequestTruthful(y: System, w: Worker, first: bool, after: Ledger)
    requires Truthful(y) && Enabled(y, WorkerRequests(w, first, after))
    ensures Truthful(Next(y, WorkerRequests(w, first, after)))
  {
    RequestEffect(y.ledger.state, y.logOf[w], w);
    EarnestMoves(y.groups, y.workers, w, if first then InFlight else Done);
  }

  /** The goroutines of a race that failed are done, so whoever answers is of another group. */
  lemma AnswererIsElsewhere(y: System, w: Worker, g: GroupName)
    requires Diligent(y) && !y.ctxDone && At(y, w, InFlight) && Separate(y.groups, y.sessions)
    requires Counted(y.groups, y.ledger) && Earnest(y.groups, y.workers) && y.sessions.Keys == y.groups.Keys
    requires g in y.groups && g in y.races && g in y.sessions && y.races[g] == Reported(false)
    requires !GroupComplete(y.ledger.state, g)
    ensures y.logOf[w] !in y.groups[g].logs
  {
    assert AllTried(y.sessions[g], g, y.workers, y.ledger);
    assert w == Worker(w.group, w.index);
    assert y.logOf[w] == y.sessions[w.group][w.index];
    ShortWants(y.groups, y.ledger, g);
    assert !Overlaps(y.groups, y.sessions, g, w.group, w.index);
  }

  lemma AnswerKeepsNeed(groups: Policy, k: Ledger, log: Log, sct: Option<Sct>, err: Option<string>, calls: seq<Worker>,
                        k': Ledger, g: GroupName)
    requires Counted(groups, k) && HandsIn(k, log, sct, err, calls, k')
    requires g in groups && log !in groups[g].logs
    ensures GroupComplete(k'.state, g) == GroupComplete(k.state, g)
  {
    if sct.Some? {
      SuccessEffect(groups, k.state, log, sct.value, err);
    }
  }

  lemma AnswerFailuresTrue(y: System, w: Worker, sct: Option<Sct>, err: Option<string>, calls: seq<Worker>,
                           after: Ledger)
    requires Shape(y) && Counted(y.groups, y.ledger) && Diligent(y) && y.sessions.Keys == y.groups.Keys
    requires Separate(y.groups, y.sessions) && FailuresTrue(y.races, y.ledger, y.ctxDone)
             && Earnest(y.groups, y.workers)
    requires At(y, w, InFlight) && HandsIn(y.ledger, y.logOf[w], sct, err, calls, after)
    ensures FailuresTrue(y.races, after, y.ctxDone)
  {
    if !y.ctxDone {
      forall g | g in y.races && y.races[g] == Reported(false) ensures !GroupComplete(after.state, g) {
        AnswererIsElsewhere(y, w, g);
        AnswerKeepsNeed(y.groups, y.ledger, y.logOf[w], sct, err, calls, after, g);
      }
    }
  }

  lemma AnswerTruthful(y: System, w: Worker, sct: Option<Sct>, err: Option<string>, calls: seq<Worker>, after: Ledger)
    requires Shape(y) && Counted(y.groups, y.ledger) && Diligent(y) && Truthful(y) && y.sessions.Keys == y.groups.Keys
    requires Separate(y.groups, y.sessions) && Enabled(y, WorkerAnswered(w, sct, err, calls, after))
    ensures Truthful(Next(y, WorkerAnswered(w, sct, err, calls, after)))
  {
    AnswerFailuresTrue(y, w, sct, err, calls, after);
    EarnestMoves(y.groups, y.workers, w, Done);
  }

  lemma RaceTruthful(y: System, step: Step)
    requires Truthful(y) && Enabled(y, step)
    requires step.RaceHears? || step.RaceGivesUp? || step.RaceEnds?
    ensures Truthful(Next(y, step))
  {
  }

  lemma CheckTruthful(y: System, w: Worker)
    requires Truthful(y) && Counted(y.groups, y.ledger) && Enabled(y, WorkerChecks(w))
    ensures Truthful(Next(y, WorkerChecks(w)))
  {
    if GroupComplete(y.ledger.state, w.group) {
      EarnestMoves(y.groups, y.workers, w, Done);
    } else {
      if w.group in y.groups {
        ShortWants(y.groups, y.ledger, w.group);
      }
      EarnestMoves(y.groups, y.workers, w, Checked);
    }
  }

  lemma QuietTruthful(y: System, step: Step)
    requires Truthful(y) && Enabled(y, step)
    requires step.ContextDone? || step.WorkerQuits? || step.MainHears?
    ensures Truthful(Next(y, step))
  {
  }

  /** A group that is short is short in what is collected, too. */
  lemma ShortIsUnmet(groups: Policy, k: Ledger, scts: seq<(Log, Sct)>, g: GroupName)
    requires Counted(groups, k) && Collects(k.state, scts) && g in groups && !GroupComplete(k.state, g)
    ensures !Meets(groups, scts)
  {
    CollectedLogs(k.state, scts);
    assert Accounted(groups[g], k.state.groupNeeds[g], Recorded(k.state), k.answers.Keys);
    SubsetCard(Recorded(k.state) * groups[g].logs, k.answers.Keys * groups[g].logs);
  }

  lemma ReturnTruthful(y: System, scts: seq<(Log, Sct)>)
    requires Safe(y) && Truthful(y) && Enabled(y, MainReturns(scts))
    ensures Truthful(Next(y, MainReturns(scts)))
  {
    if !y.ctxDone && !(forall g :: g in y.groupComplete ==> y.groupComplete[g]) {
      var g :| g in y.groupComplete && !y.groupComplete[g];
      ShortIsUnmet(y.groups, y.ledger, scts, g);
    }
  }

  lemma StepTruthful(y: System, step: Step)
    requires Safe(y) && Diligent(y) && Truthful(y) && y.sessions.Keys == y.groups.Keys
    requires Separate(y.groups, y.sessions) && Enabled(y, step)
    ensures Truthful(Next(y, step))
  {
    if step.WorkerRequests? {
      RequestTruthful(y, step.w, step.first, step.after);
    } else if step.WorkerAnswered? {
      AnswerTruthful(y, step.w, step.sct, step.err, step.calls, step.after);
    } else if step.MainReturns? {
      ReturnTruthful(y, step.scts);
    } else if step.RaceHears? || step.RaceGivesUp? || step.RaceEnds? {
      RaceTruthful(y, step);
    } else if step.WorkerChecks? {
      CheckTruthful(y, step.w);
    } else {
      QuietTruthful(y, step);
    }
  }

  lemma {:induction false} RunTruthful(y: System, steps: seq<Step>, y': System)
    requires Safe(y) && Diligent(y) && Truthful(y) && Runs(y, steps, y')
    requires y.sessions.Keys == y.groups.Keys && Separate(y.groups, y.sessions)
    ensures Truthful(y')
    decreases |steps|
  {
    if steps != [] {
      StepSafe(y, steps[0]);
      StepBooks(y, steps[0]);
      StepDiligent(y, steps[0]);
      StepTruthful(y, steps[0]);
      RunTruthful(Next(y, steps[0]), steps[1..], y');
    }
  }

  /**
   Where the groups that want SCTs do not overlap and the context is alive, GetSCTs returns an
   error exactly when what it returns falls short of the policy.
   */
  lemma SeparateGroupsReportExactly(groups: Policy, sessions: map<GroupName, seq<Log>>, y: System)
    requires Reachable(groups, sessions, y) && y.main.Returned? && !y.ctxDone
    requires sessions.Keys == groups.Keys && Separate(groups, sessions)
    ensures y.main.complete <==> Meets(groups, y.main.scts)
  {
    var steps :| Runs(Init(groups, sessions), steps, y);
    FreshSafe(groups, sessions, LogsOfWorkers(sessions));
    SeatedAtFirst(sessions);
    FreshDiligent(groups, sessions, LogsOfWorkers(sessions));
    RunTruthful(Init(groups, sessions), steps, y);
    ReachableIsSafe(groups, sessions, y);
  }
}
