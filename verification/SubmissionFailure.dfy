/**
 What a reported failure means. Unless the context ended, a race reports failure only
 after every log of its session has been asked.
 */
module SubmissionFailure {
  import opened Bytes
  import opened Sets
  import opened SubmissionState
  import opened SubmissionLedger
  import opened SubmissionRace
  import opened SubmissionTheorems

  // ----- Every log is tried before a race gives up -----

  /** The goroutines are those of the sessions. */
  ghost predicate Seated(sessions: map<GroupName, seq<Log>>, logOf: map<Worker, Log>) {
    && (forall g, i :: g in sessions && 0 <= i < |sessions[g]| ==>
          Worker(g, i) in logOf && logOf[Worker(g, i)] == sessions[g][i])
    && (forall w :: w in logOf ==> w.group in sessions && w.index < |sessions[w.group]|)
  }

  /** A goroutine that finished while its group was short left its log asked. */
  ghost predicate Tried(logOf: map<Worker, Log>, workers: map<Worker, WorkerPc>, k: Ledger, ctxDone: bool) {
    ctxDone || forall w :: w in workers && w in logOf && workers[w].Done? && !GroupComplete(k.state, w.group) ==>
                 logOf[w] in k.state.results
  }

  ghost predicate NotCutShort(workers: map<Worker, WorkerPc>, cancelled: set<Worker>) {
    forall w :: w in workers && w in cancelled ==> !workers[w].Waiting?
  }

  ghost predicate CountsFinished(workers: map<Worker, WorkerPc>, races: map<GroupName, RacePc>) {
    forall g :: g in races && races[g].Racing? ==> races[g].received <= |Finished(workers, g)|
  }

  ghost predicate AllTried(session: seq<Log>, g: GroupName, workers: map<Worker, WorkerPc>, k: Ledger) {
    forall i :: 0 <= i < |session| ==>
      Worker(g, i) in workers && workers[Worker(g, i)].Done? && session[i] in k.state.results
  }

  ghost predicate GaveUpLate(sessions: map<GroupName, seq<Log>>, workers: map<Worker, WorkerPc>,
                             races: map<GroupName, RacePc>, k: Ledger, ctxDone: bool) {
    ctxDone ||
    forall g :: g in races && g in sessions && races[g] == Reported(false) ==> AllTried(sessions[g], g, workers, k)
  }

  ghost predicate Diligent(y: System) {
    && Seated(y.sessions, y.logOf)
    && Tried(y.logOf, y.workers, y.ledger, y.ctxDone)
    && NotCutShort(y.workers, y.cancelled)
    && CountsFinished(y.workers, y.races)
    && GaveUpLate(y.sessions, y.workers, y.races, y.ledger, y.ctxDone)
  }

  lemma SeatedAtFirst(sessions: map<GroupName, seq<Log>>)
    ensures Seated(sessions, LogsOfWorkers(sessions))
  {
  }

  lemma FreshDiligent(groups: Policy, sessions: map<GroupName, seq<Log>>, logOf: map<Worker, Log>)
    requires WellNamed(groups) && Seated(sessions, logOf)
    ensures Diligent(Fresh(groups, sessions, logOf))
  {
  }

  /** A goroutine moves on, and the books may move with it. */
  lemma WorkerMoves(y: System, w: Worker, pc: WorkerPc, k: Ledger)
    requires Diligent(y) && w in y.workers && w in y.logOf && !y.workers[w].Done? && !pc.Waiting? && Grows(y.ledger, k)
    requires pc.Done? && !y.ctxDone ==> GroupComplete(k.state, w.group) || y.logOf[w] in k.state.results
    ensures Tried(y.logOf, y.workers[w := pc], k, y.ctxDone)
    ensures NotCutShort(y.workers[w := pc], y.cancelled)
    ensures CountsFinished(y.workers[w := pc], y.races)
    ensures GaveUpLate(y.sessions, y.workers[w := pc], y.races, k, y.ctxDone)
  {
    forall g | g in y.races && y.races[g].Racing? ensures y.races[g].received <= |Finished(y.workers[w := pc], g)| {
      SubsetCard(Finished(y.workers, g), Finished(y.workers[w := pc], g));
    }
    MovesGiveUpLate(y, w, pc, k);
  }

  lemma MovesGiveUpLate(y: System, w: Worker, pc: WorkerPc, k: Ledger)
    requires GaveUpLate(y.sessions, y.workers, y.races, y.ledger, y.ctxDone)
    requires w in y.workers && !y.workers[w].Done? && Grows(y.ledger, k)
    ensures GaveUpLate(y.sessions, y.workers[w := pc], y.races, k, y.ctxDone)
  {
    if !y.ctxDone {
      forall g | g in y.races && g in y.sessions && y.races[g] == Reported(false)
        ensures AllTried(y.sessions[g], g, y.workers[w := pc], k)
      {
        assert AllTried(y.sessions[g], g, y.workers, y.ledger);
      }
    }
  }

  lemma QuitDiligent(y: System, w: Worker)
    requires Diligent(y) && Enabled(y, WorkerQuits(w))
    ensures Diligent(Next(y, WorkerQuits(w)))
  {
    assert Grows(y.ledger, y.ledger);
    WorkerMoves(y, w, Done, y.ledger);
  }

  lemma CheckDiligent(y: System, w: Worker)
    requires Diligent(y) && Enabled(y, WorkerChecks(w))
    ensures Diligent(Next(y, WorkerChecks(w)))
  {
    assert Grows(y.ledger, y.ledger);
    WorkerMoves(y, w, if GroupComplete(y.ledger.state, w.group) then Done else Checked, y.ledger);
  }

  lemma RequestDiligent(y: System, w: Worker, first: bool, after: Ledger)
    requires Diligent(y) && Enabled(y, WorkerRequests(w, first, after))
    ensures Diligent(Next(y, WorkerRequests(w, first, after)))
  {
    AsksGrows(y.ledger, w, y.logOf[w], first, after);
    RefusedIsAsked(y.ledger, w, y.logOf[w], first, after);
    WorkerMoves(y, w, if first then InFlight else Done, after);
  }

  lemma RefusedIsAsked(k: Ledger, w: Worker, log: Log, first: bool, k': Ledger)
    requires Asks(k, w, log, first, k')
    ensures log in k'.state.results
  {
  }

  /** The goroutines that a success cancels are all past waiting. */
  lemma CallsCutNothingShort(y: System, w: Worker, sct: Option<Sct>, err: Option<string>, calls: seq<Worker>,
                             after: Ledger)
    requires CancelsKept(y.logOf, y.ledger) && Linked(y.logOf, y.workers, y.ledger)
    requires w in y.logOf && HandsIn(y.ledger, y.logOf[w], sct, err, calls, after)
    ensures forall c :: c in calls && c in y.workers ==> !y.workers[c].Waiting?
  {
    HandsInCancelsKept(y.logOf, y.ledger, y.logOf[w], sct, err, calls, after);
    forall c | c in calls && c in y.workers ensures !y.workers[c].Waiting? {
      assert c in after.fired;
      assert Spent(y.logOf, after, c);
    }
  }

  lemma AnswerMoves(y: System, w: Worker, sct: Option<Sct>, err: Option<string>, calls: seq<Worker>, after: Ledger)
    requires Diligent(y) && Counted(y.groups, y.ledger) && At(y, w, InFlight)
    requires y.logOf[w] in y.ledger.state.results && y.logOf[w] !in y.ledger.answers
    requires HandsIn(y.ledger, y.logOf[w], sct, err, calls, after)
    requires forall c :: c in calls && c in y.workers ==> !y.workers[c].Waiting?
    ensures Diligent(Next(y, WorkerAnswered(w, sct, err, calls, after)))
  {
    HandsInGrows(y.groups, y.ledger, y.logOf[w], sct, err, calls, after);
    WorkerMoves(y, w, Done, after);
  }

  lemma AnswerDiligent(y: System, w: Worker, sct: Option<Sct>, err: Option<string>, calls: seq<Worker>, after: Ledger)
    requires Safe(y) && Diligent(y) && Enabled(y, WorkerAnswered(w, sct, err, calls, after))
    ensures Diligent(Next(y, WorkerAnswered(w, sct, err, calls, after)))
  {
    CallsCutNothingShort(y, w, sct, err, calls, after);
    AnswerMoves(y, w, sct, err, calls, after);
  }

  // The goroutines of a session, counted.

  function Crew(g: GroupName, n: nat): set<Worker> {
    set i | 0 <= i < n :: Worker(g, i)
  }

  lemma {:induction false} CrewSize(g: GroupName, n: nat)
    ensures |Crew(g, n)| == n
  {
    if n > 0 {
      CrewSize(g, n - 1);
      assert Crew(g, n) == Crew(g, n - 1) + {Worker(g, n - 1)};
    } else {
      assert Crew(g, n) == {};
    }
  }

  lemma AllFinished(g: GroupName, n: nat, finished: set<Worker>)
    requires finished <= Crew(g, n) && |finished| >= n
    ensures finished == Crew(g, n)
  {
    CrewSize(g, n);
    assert Crew(g, n) == finished + (Crew(g, n) - finished);
  }

  /** When a race has heard from all its goroutines, they are all done. */
  lemma EndIsLate(y: System, g: GroupName)
    requires Diligent(y) && y.workers.Keys == y.logOf.Keys && Running(y, g) && y.races[g].received == |y.sessions[g]|
    requires !GroupComplete(y.ledger.state, g) && !y.ctxDone
    ensures AllTried(y.sessions[g], g, y.workers, y.ledger)
  {
    var n := |y.sessions[g]|;
    forall w | w in Finished(y.workers, g) ensures w in Crew(g, n) {
      assert w == Worker(g, w.index) && w in y.logOf;
    }
    AllFinished(g, n, Finished(y.workers, g));
    forall i | 0 <= i < n
      ensures Worker(g, i) in y.workers && y.workers[Worker(g, i)].Done? && y.sessions[g][i] in y.ledger.state.results
    {
      assert Worker(g, i) in Crew(g, n);
    }
  }

  lemma RaceMoves(y: System, g: GroupName, pc: RacePc)
    requires Diligent(y) && g in y.races && g in y.sessions
    requires pc.Racing? ==> pc.received <= |Finished(y.workers, g)|
    requires pc == Reported(false) && !y.ctxDone ==> AllTried(y.sessions[g], g, y.workers, y.ledger)
    ensures Diligent(y.(races := y.races[g := pc]))
  {
  }

  lemma EndDiligent(y: System, g: GroupName)
    requires Diligent(y) && y.workers.Keys == y.logOf.Keys && Enabled(y, RaceEnds(g))
    ensures Diligent(Next(y, RaceEnds(g)))
  {
    if !GroupComplete(y.ledger.state, g) && !y.ctxDone {
      EndIsLate(y, g);
    }
    RaceMoves(y, g, Reported(GroupComplete(y.ledger.state, g)));
  }

  lemma RaceDiligent(y: System, step: Step)
    requires Diligent(y) && y.workers.Keys == y.logOf.Keys && Enabled(y, step)
    requires step.RaceHears? || step.RaceGivesUp? || step.RaceEnds?
    ensures Diligent(Next(y, step))
  {
    match step
    case RaceHears(g) => RaceMoves(y, g, Next(y, step).races[g]);
    case RaceGivesUp(g) => RaceMoves(y, g, Next(y, step).races[g]);
    case RaceEnds(g) => EndDiligent(y, g);
  }

  lemma StepDiligent(y: System, step: Step)
    requires Safe(y) && Diligent(y) && Enabled(y, step)
    ensures Diligent(Next(y, step))
  {
    match step
    case ContextDone =>
    case WorkerQuits(w) => QuitDiligent(y, w);
    case WorkerChecks(w) => CheckDiligent(y, w);
    case WorkerRequests(w, first, after) => RequestDiligent(y, w, first, after);
    case WorkerAnswered(w, sct, err, calls, after) => AnswerDiligent(y, w, sct, err, calls, after);
    case RaceHears(g) => RaceDiligent(y, step);
    case RaceGivesUp(g) => RaceDiligent(y, step);
    case RaceEnds(g) => RaceDiligent(y, step);
    case MainHears(g) =>
    case MainReturns(scts) =>
  }

  lemma {:induction false} RunDiligent(y: System, steps: seq<Step>, y': System)
    requires Safe(y) && Diligent(y) && Runs(y, steps, y')
    ensures Safe(y') && Diligent(y')
    decreases |steps|
  {
    if steps != [] {
      StepSafe(y, steps[0]);
      StepDiligent(y, steps[0]);
      RunDiligent(Next(y, steps[0]), steps[1..], y');
    }
  }

  lemma ReachableIsDiligent(groups: Policy, sessions: map<GroupName, seq<Log>>, y: System)
    requires Reachable(groups, sessions, y)
    ensures Safe(y) && Diligent(y)
  {
    var steps :| Runs(Init(groups, sessions), steps, y);
    FreshSafe(groups, sessions, LogsOfWorkers(sessions));
    SeatedAtFirst(sessions);
    FreshDiligent(groups, sessions, LogsOfWorkers(sessions));
    RunDiligent(Init(groups, sessions), steps, y);
  }

  /** Unless the context ended, a race that reports failure has had every log of its session asked. */
  lemma FailureMeansExhausted(groups: Policy, sessions: map<GroupName, seq<Log>>, y: System, g: GroupName, i: nat)
    requires Reachable(groups, sessions, y) && !y.ctxDone
    requires g in y.races && y.races[g] == Reported(false) && g in sessions && i < |sessions[g]|
    ensures sessions[g][i] in y.ledger.state.results
  {
    ReachableIsSafe(groups, sessions, y);
    ReachableIsDiligent(groups, sessions, y);
    assert AllTried(y.sessions[g], g, y.workers, y.ledger);
  }
}
