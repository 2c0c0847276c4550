/**
 GetSCTs as a transition system: one race per group, one goroutine per log of the
 group's session, the books they share, and the main goroutine that collects the
 outcome. Everything proved here holds of every interleaving, of every session and
 of every way the logs answer.
 */
module SubmissionRace {
  import opened Bytes
  import opened SubmissionState
  import opened SubmissionLedger

  datatype WorkerPc =
    | Waiting                            // for its turn, or for cancellation
    | Checked                            // its group still needed SCTs
    | InFlight                           // its log has been asked
    | Done

  datatype RacePc = Racing(received: nat) | Reported(success: bool)

  datatype MainPc = Collecting | Returned(scts: seq<(Log, Sct)>, complete: bool)

  datatype System = System(
    groups: Policy,
    sessions: map<GroupName, seq<Log>>,
    logOf: map<Worker, Log>,
    ledger: Ledger,
    workers: map<Worker, WorkerPc>,
    races: map<GroupName, RacePc>,
    groupComplete: map<GroupName, bool>,
    heard: set<GroupName>,
    ctxDone: bool,
    cancelled: set<Worker>,              // goroutines whose own context is done
    main: MainPc)

  /** A step, with what the locked operation in it returned and left behind. */
  datatype Step =
    | ContextDone
    | WorkerQuits(w: Worker)
    | WorkerChecks(w: Worker)
    | WorkerRequests(w: Worker, first: bool, after: Ledger)
    | WorkerAnswered(w: Worker, sct: Option<Sct>, err: Option<string>, calls: seq<Worker>, after: Ledger)
    | RaceHears(g: GroupName)
    | RaceGivesUp(g: GroupName)
    | RaceEnds(g: GroupName)
    | MainHears(g: GroupName)
    | MainReturns(scts: seq<(Log, Sct)>)

  function LogsOfWorkers(sessions: map<GroupName, seq<Log>>): map<Worker, Log> {
    map g, i | g in sessions && 0 <= i < |sessions[g]| :: Worker(g, i) := sessions[g][i]
  }

  function Init(groups: Policy, sessions: map<GroupName, seq<Log>>): System
    requires WellNamed(groups)
  {
    Fresh(groups, sessions, LogsOfWorkers(sessions))
  }

  function Fresh(groups: Policy, sessions: map<GroupName, seq<Log>>, logOf: map<Worker, Log>): System
    requires WellNamed(groups)
  {
    System(groups, sessions, logOf, Opened(groups),
           map w | w in logOf :: Waiting,
           map g | g in groups :: Racing(0),
           map g | g in groups :: false,
           {}, false, {}, Collecting)
  }

  /** The goroutines of the race of `g` that have finished. */
  function Finished(workers: map<Worker, WorkerPc>, g: GroupName): set<Worker> {
    set w | w in workers && w.group == g && workers[w].Done?
  }

  ghost predicate At(y: System, w: Worker, pc: WorkerPc) {
    w in y.workers && y.workers[w] == pc && w in y.logOf
  }

  ghost predicate Running(y: System, g: GroupName) {
    g in y.races && g in y.sessions && y.races[g].Racing? && y.races[g].received <= |y.sessions[g]|
  }

  ghost predicate Enabled(y: System, step: Step) {
    match step
    case ContextDone => true
    case WorkerQuits(w) => At(y, w, Waiting) && (y.ctxDone || w in y.cancelled)
    case WorkerChecks(w) => At(y, w, Waiting)
    case WorkerRequests(w, first, after) => At(y, w, Checked) && Asks(y.ledger, w, y.logOf[w], first, after)
    case WorkerAnswered(w, sct, err, calls, after) =>
      At(y, w, InFlight) && HandsIn(y.ledger, y.logOf[w], sct, err, calls, after)
    case RaceHears(g) =>
      Running(y, g) && y.races[g].received < |y.sessions[g]| && y.races[g].received < |Finished(y.workers, g)|
    case RaceGivesUp(g) => Running(y, g) && y.races[g].received < |y.sessions[g]| && y.ctxDone
    case RaceEnds(g) => Running(y, g) && y.races[g].received == |y.sessions[g]|
    case MainHears(g) => y.main.Collecting? && g in y.races && y.races[g].Reported? && g !in y.heard
    case MainReturns(scts) =>
      y.main.Collecting? && (y.ctxDone || y.heard == y.groups.Keys) && Collects(y.ledger.state, scts)
  }

  function Next(y: System, step: Step): System
    requires Enabled(y, step)
  {
    match step
    case ContextDone => y.(ctxDone := true)
    case WorkerQuits(w) => y.(workers := y.workers[w := Done])
    case WorkerChecks(w) =>
      if GroupComplete(y.ledger.state, w.group)
      then y.(workers := y.workers[w := Done], cancelled := y.cancelled + {w})
      else y.(workers := y.workers[w := Checked])
    case WorkerRequests(w, first, after) =>
      y.(ledger := after, workers := y.workers[w := if first then InFlight else Done])
    case WorkerAnswered(w, sct, err, calls, after) =>
      y.(ledger := after, workers := y.workers[w := Done], cancelled := y.cancelled + (set c | c in calls))
    case RaceHears(g) =>
      y.(races := y.races[g := if GroupComplete(y.ledger.state, g) then Reported(true)
                               else Racing(y.races[g].received + 1)])
    case RaceGivesUp(g) => y.(races := y.races[g := Reported(GroupComplete(y.ledger.state, g))])
    case RaceEnds(g) => y.(races := y.races[g := Reported(GroupComplete(y.ledger.state, g))])
    case MainHears(g) => y.(groupComplete := y.groupComplete[g := y.races[g].success], heard := y.heard + {g})
    case MainReturns(scts) =>
      y.(main := Returned(scts, forall g :: g in y.groupComplete ==> y.groupComplete[g]))
  }

  /** `y'` is what the steps, each enabled in its turn, make of `y`. */
  ghost predicate Runs(y: System, steps: seq<Step>, y': System)
    decreases |steps|
  {
    if steps == [] then y == y'
    else Enabled(y, steps[0]) && Runs(Next(y, steps[0]), steps[1..], y')
  }

  // ----- The invariant -----

  ghost predicate Shape(y: System) {
    && WellNamed(y.groups)
    && y.races.Keys == y.groups.Keys && y.groupComplete.Keys == y.groups.Keys
    && y.workers.Keys == y.logOf.Keys
  }

  /** Where the goroutines are agrees with the books. */
  ghost predicate Linked(logOf: map<Worker, Log>, workers: map<Worker, WorkerPc>, k: Ledger) {
    && (forall w :: w in workers && w in logOf && workers[w].InFlight? ==> w in k.granted && logOf[w] !in k.answers)
    && (forall w :: w in k.granted ==> w in workers && (workers[w].InFlight? || workers[w].Done?))
  }

  function LogsOf(scts: seq<(Log, Sct)>): set<Log> {
    set i | 0 <= i < |scts| :: scts[i].0
  }

  /** Every group has its minimum of SCTs, from distinct logs of its own. */
  ghost predicate Meets(groups: Policy, scts: seq<(Log, Sct)>) {
    && (forall i, j :: 0 <= i < j < |scts| ==> scts[i].0 != scts[j].0)
    && (forall g :: g in groups ==> |LogsOf(scts) * groups[g].logs| >= groups[g].minInclusions)
  }

  /** A success that was reported is true, and stays so. */
  ghost predicate ReportsTrue(k: Ledger, races: map<GroupName, RacePc>, complete: map<GroupName, bool>) {
    && (forall g :: g in races && races[g] == Reported(true) ==> GroupComplete(k.state, g))
    && (forall g :: g in complete && complete[g] ==> GroupComplete(k.state, g))
  }

  ghost predicate ReturnsTrue(groups: Policy, k: Ledger, main: MainPc) {
    main.Returned? ==>
      && (forall i :: 0 <= i < |main.scts| ==>
            main.scts[i].0 in k.answers && k.answers[main.scts[i].0] == main.scts[i].1)
      && (main.complete ==> Meets(groups, main.scts))
  }

  ghost predicate Safe(y: System) {
    && Shape(y)
    && Sound(y.groups, y.logOf, y.ledger)
    && Linked(y.logOf, y.workers, y.ledger)
    && ReportsTrue(y.ledger, y.races, y.groupComplete)
    && ReturnsTrue(y.groups, y.ledger, y.main)
  }

  lemma FreshSafe(groups: Policy, sessions: map<GroupName, seq<Log>>, logOf: map<Worker, Log>)
    requires WellNamed(groups)
    ensures Safe(Fresh(groups, sessions, logOf))
  {
    OpenedIsSound(groups, logOf);
  }

  lemma GrantedOnce(logOf: map<Worker, Log>, k: Ledger, w: Worker, v: Worker)
    requires AskedOnce(logOf, k) && w in k.granted && v in k.granted && logOf[w] == logOf[v]
    ensures w == v
  {
    var i :| 0 <= i < |k.granted| && k.granted[i] == w;
    var j :| 0 <= j < |k.granted| && k.granted[j] == v;
    assert !(i < j) && !(j < i);
  }

  lemma GrowthKeepsReports(groups: Policy, k: Ledger, k': Ledger, races: map<GroupName, RacePc>,
                           complete: map<GroupName, bool>, main: MainPc)
    requires ReportsTrue(k, races, complete) && ReturnsTrue(groups, k, main) && Grows(k, k')
    ensures ReportsTrue(k', races, complete) && ReturnsTrue(groups, k', main)
  {
  }

  lemma AsksLinked(logOf: map<Worker, Log>, workers: map<Worker, WorkerPc>, k: Ledger, w: Worker, first: bool,
                   k': Ledger)
    requires Linked(logOf, workers, k) && k.answers.Keys <= k.state.results.Keys
    requires w in workers && w in logOf && Asks(k, w, logOf[w], first, k')
    ensures Linked(logOf, workers[w := if first then InFlight else Done], k')
  {
    assert first ==> logOf[w] !in k.state.results;
    assert forall v :: v in k'.granted ==> v in k.granted || (first && v == w);
  }

  lemma HandsInLinked(logOf: map<Worker, Log>, workers: map<Worker, WorkerPc>, k: Ledger, w: Worker,
                      sct: Option<Sct>, k': Ledger)
    requires Linked(logOf, workers, k) && AskedOnce(logOf, k)
    requires w in workers && w in logOf && workers[w].InFlight?
    requires k'.granted == k.granted
    requires k'.answers == if sct.Some? then k.answers[logOf[w] := sct.value] else k.answers
    ensures Linked(logOf, workers[w := Done], k')
  {
    forall v | v in workers && v in logOf && v != w && workers[v].InFlight? ensures logOf[v] != logOf[w] {
      if logOf[v] == logOf[w] {
        GrantedOnce(logOf, k, v, w);
      }
    }
  }

  lemma RequestSafe(y: System, w: Worker, first: bool, after: Ledger)
    requires Safe(y) && Enabled(y, WorkerRequests(w, first, after))
    ensures Safe(Next(y, WorkerRequests(w, first, after)))
  {
    AsksSound(y.groups, y.logOf, y.ledger, w, first, after);
    AsksLinked(y.logOf, y.workers, y.ledger, w, first, after);
    AsksGrows(y.ledger, w, y.logOf[w], first, after);
    GrowthKeepsReports(y.groups, y.ledger, after, y.races, y.groupComplete, y.main);
  }

  lemma AnswerSafe(y: System, w: Worker, sct: Option<Sct>, err: Option<string>, calls: seq<Worker>, after: Ledger)
    requires Safe(y) && Enabled(y, WorkerAnswered(w, sct, err, calls, after))
    ensures Safe(Next(y, WorkerAnswered(w, sct, err, calls, after)))
  {
    HandsInSound(y.groups, y.logOf, y.ledger, y.logOf[w], sct, err, calls, after);
    HandsInLinked(y.logOf, y.workers, y.ledger, w, sct, after);
    HandsInGrows(y.groups, y.ledger, y.logOf[w], sct, err, calls, after);
    GrowthKeepsReports(y.groups, y.ledger, after, y.races, y.groupComplete, y.main);
  }

  lemma CollectedLogs(s: State, scts: seq<(Log, Sct)>)
    requires Collects(s, scts)
    ensures LogsOf(scts) == Recorded(s)
  {
    forall l | l in Recorded(s) ensures l in LogsOf(scts) {
      var i :| 0 <= i < |scts| && scts[i].0 == l;
    }
  }

  /** If every group is complete, what is collected meets the policy. */
  lemma CollectedMeets(groups: Policy, k: Ledger, scts: seq<(Log, Sct)>)
    requires Counted(groups, k) && Collects(k.state, scts)
    requires forall g :: g in groups ==> GroupComplete(k.state, g)
    ensures Meets(groups, scts)
  {
    CollectedLogs(k.state, scts);
    forall g | g in groups ensures |LogsOf(scts) * groups[g].logs| >= groups[g].minInclusions {
      assert Accounted(groups[g], k.state.groupNeeds[g], Recorded(k.state), k.answers.Keys);
      assert GroupComplete(k.state, g);
    }
  }

  lemma CollectedAnswers(groups: Policy, k: Ledger, scts: seq<(Log, Sct)>, i: nat)
    requires Counted(groups, k) && Collects(k.state, scts) && i < |scts|
    ensures scts[i].0 in k.answers && k.answers[scts[i].0] == scts[i].1
  {
    assert scts[i].0 in Recorded(k.state);
  }

  lemma ReturnSafe(y: System, scts: seq<(Log, Sct)>)
    requires Safe(y) && Enabled(y, MainReturns(scts))
    ensures Safe(Next(y, MainReturns(scts)))
  {
    forall i | 0 <= i < |scts| ensures scts[i].0 in y.ledger.answers && y.ledger.answers[scts[i].0] == scts[i].1 {
      CollectedAnswers(y.groups, y.ledger, scts, i);
    }
    if forall g :: g in y.groupComplete ==> y.groupComplete[g] {
      CollectedMeets(y.groups, y.ledger, scts);
    }
  }

  lemma WorkerLinked(logOf: map<Worker, Log>, workers: map<Worker, WorkerPc>, k: Ledger, w: Worker, pc: WorkerPc)
    requires Linked(logOf, workers, k) && w in workers && workers[w].Waiting? && !pc.InFlight?
    ensures Linked(logOf, workers[w := pc], k)
  {
  }

  /** A worker that waits may move on without asking its log. */
  lemma WorkerSafe(y: System, w: Worker, pc: WorkerPc)
    requires Safe(y) && w in y.workers && y.workers[w].Waiting? && !pc.InFlight?
    ensures Safe(y.(workers := y.workers[w := pc]))
  {
    WorkerLinked(y.logOf, y.workers, y.ledger, w, pc);
    assert y.workers[w := pc].Keys == y.workers.Keys;
  }

  lemma QuitSafe(y: System, w: Worker)
    requires Safe(y) && Enabled(y, WorkerQuits(w))
    ensures Safe(Next(y, WorkerQuits(w)))
  {
    WorkerSafe(y, w, Done);
  }

  lemma CheckSafe(y: System, w: Worker)
    requires Safe(y) && Enabled(y, WorkerChecks(w))
    ensures Safe(Next(y, WorkerChecks(w)))
  {
    WorkerSafe(y, w, if GroupComplete(y.ledger.state, w.group) then Done else Checked);
  }

  lemma RaceReports(k: Ledger, races: map<GroupName, RacePc>, complete: map<GroupName, bool>, g: GroupName, pc: RacePc)
    requires ReportsTrue(k, races, complete) && (pc == Reported(true) ==> GroupComplete(k.state, g))
    ensures ReportsTrue(k, races[g := pc], complete)
  {
  }

  lemma RaceSafe(y: System, g: GroupName, pc: RacePc)
    requires Safe(y) && g in y.races && (pc == Reported(true) ==> GroupComplete(y.ledger.state, g))
    ensures Safe(y.(races := y.races[g := pc]))
  {
    RaceReports(y.ledger, y.races, y.groupComplete, g, pc);
    assert y.races[g := pc].Keys == y.races.Keys;
  }

  lemma MainReports(k: Ledger, races: map<GroupName, RacePc>, complete: map<GroupName, bool>, g: GroupName)
    requires ReportsTrue(k, races, complete) && g in races && races[g].Reported?
    ensures ReportsTrue(k, races, complete[g := races[g].success])
  {
  }

  lemma MainHearsSafe(y: System, g: GroupName)
    requires Safe(y) && Enabled(y, MainHears(g))
    ensures Safe(Next(y, MainHears(g)))
  {
    MainReports(y.ledger, y.races, y.groupComplete, g);
    assert y.groupComplete[g := y.races[g].success].Keys == y.groupComplete.Keys;
  }

  /** Every step keeps the invariant. */
  lemma StepSafe(y: System, step: Step)
    requires Safe(y) && Enabled(y, step)
    ensures Safe(Next(y, step))
  {
    match step
    case ContextDone =>
    case WorkerQuits(w) => QuitSafe(y, w);
    case WorkerChecks(w) => CheckSafe(y, w);
    case WorkerRequests(w, first, after) => RequestSafe(y, w, first, after);
    case WorkerAnswered(w, sct, err, calls, after) => AnswerSafe(y, w, sct, err, calls, after);
    case RaceHears(g) => RaceSafe(y, g, Next(y, step).races[g]);
    case RaceGivesUp(g) => RaceSafe(y, g, Next(y, step).races[g]);
    case RaceEnds(g) => RaceSafe(y, g, Next(y, step).races[g]);
    case MainHears(g) => MainHearsSafe(y, g);
    case MainReturns(scts) => ReturnSafe(y, scts);
  }
}
