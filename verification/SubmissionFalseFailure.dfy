/**
 When a reported failure is false. Wherever two groups that want SCTs overlap there is a run
 in which GetSCTs returns an error with a list that meets the policy: the other groups ask
 first, the race of the overlapping group finds its shared logs asked and gives up, and then
 all the logs answer. So the report is exact exactly where no such groups overlap.
 */
module SubmissionFalseFailure {
  import opened Sets
  import opened SubmissionState
  import opened SubmissionLedger
  import opened SubmissionBounds
  import opened SubmissionRace
  import opened SubmissionTheorems
  import opened SubmissionFailure
  import opened SubmissionExactness
  import opened SubmissionSharedLog

  ghost predicate FullSessions(groups: Policy, sessions: Sessions) {
    sessions.Keys == groups.Keys && forall g :: g in groups ==> FullSession(groups[g], sessions[g])
  }

  /** The logs that other groups which want SCTs ask. */
  function OthersLogs(groups: Policy, sessions: Sessions, g: GroupName): set<Log> {
    set k, i | k in sessions && k in groups && k != g && groups[k].minInclusions > 0 && 0 <= i < |sessions[k]| ::
      sessions[k][i]
  }

  lemma StartsAsking(groups: Policy, sessions: Sessions, logOf: map<Worker, Log>)
    requires WellNamed(groups)
    ensures Asking(groups, Fresh(groups, sessions, logOf), logOf.Keys)
    ensures From(Fresh(groups, sessions, logOf), Fresh(groups, sessions, logOf))
  {
    var y := Fresh(groups, sessions, logOf);
    assert y.ledger.state.results.Keys == {};
    assert Runs(y, [], y);
  }

  lemma SeatedAtHome(groups: Policy, sessions: Sessions, logOf: map<Worker, Log>)
    requires FullSessions(groups, sessions) && Seated(sessions, logOf)
    ensures AtHome(groups, logOf)
  {
    forall w | w in logOf ensures w.group in groups && logOf[w] in groups[w.group].logs {
      assert w == Worker(w.group, w.index) && FullSession(groups[w.group], sessions[w.group]);
    }
  }

  /** Once the other groups have had their turns, their logs are asked, and not by the group. */
  lemma OthersHaveAsked(groups: Policy, sessions: Sessions, y: System, left: set<Worker>, g: GroupName)
    requires Asking(groups, y, left) && Seated(sessions, y.logOf)
    requires forall w :: w in y.workers ==> (w in left <==> w.group == g)
    ensures OthersLogs(groups, sessions, g) <= y.ledger.state.results.Keys
    ensures Apart(y.workers, y.logOf, g, OthersLogs(groups, sessions, g))
  {
    forall l | l in OthersLogs(groups, sessions, g) ensures l in y.ledger.state.results {
      var k, i :| k in sessions && k in groups && k != g && groups[k].minInclusions > 0 && 0 <= i < |sessions[k]|
                  && sessions[k][i] == l;
      assert Worker(k, i) in y.logOf && Worker(k, i) !in left;
    }
  }

  lemma AllAskedSettles(groups: Policy, sessions: Sessions, y: System, g: GroupName)
    requires Asking(groups, y, {}) && Seated(sessions, y.logOf) && AtHome(groups, y.logOf) && g in groups
             && g in sessions
    requires groups[g].minInclusions > 0
    requires OthersLogs(groups, sessions, g) <= y.ledger.state.results.Keys
    requires Apart(y.workers, y.logOf, g, OthersLogs(groups, sessions, g))
    ensures Settling(y, g, groups[g], sessions[g], OthersLogs(groups, sessions, g))
  {
    assert y.ledger.answers.Keys == {};
    forall l | l in OthersLogs(groups, sessions, g)
      ensures exists w :: w in Flying(y.workers) && w in y.logOf && w.group != g && y.logOf[w] == l
    {
      assert Held(y.workers, y.logOf, l);
      var w :| w in y.workers && w in y.logOf && y.workers[w].InFlight? && y.logOf[w] == l;
      assert w in Flying(y.workers);
    }
    forall i | 0 <= i < |sessions[g]| ensures sessions[g][i] in Promised(y.workers, y.logOf, {}) {
      assert Worker(g, i) in y.logOf && y.logOf[Worker(g, i)] in y.ledger.state.results;
      assert Held(y.workers, y.logOf, sessions[g][i]);
      var w :| w in y.workers && w in y.logOf && y.workers[w].InFlight? && y.logOf[w] == sessions[g][i];
      assert w in Flying(y.workers);
    }
  }

  /** The others ask first, then the group; then the logs only the group has asked answer, one SCT short. */
  lemma AskAndAnswer(groups: Policy, sessions: Sessions, y0: System, g: GroupName, sct: Sct) returns (y: System)
    requires From(y0, y0) && Asking(groups, y0, y0.logOf.Keys) && Seated(sessions, y0.logOf) && AtHome(groups, y0.logOf)
    requires g in groups && g in sessions && groups[g].minInclusions > 0
    ensures From(y0, y) && SameControl(y0, y) && Settling(y, g, groups[g], sessions[g], OthersLogs(groups, sessions, g))
    ensures forall w :: w in Flying(y.workers) ==> w.group != g
  {
    var y1, left := AskOthers(groups, y0, y0, y0.logOf.Keys, g);
    OthersHaveAsked(groups, sessions, y1, left, g);
    var y2 := AskOwn(groups, y0, y1, left, g, OthersLogs(groups, sessions, g));
    AllAskedSettles(groups, sessions, y2, g);
    y := AnswerOwn(y0, y2, g, groups[g], sessions[g], OthersLogs(groups, sessions, g), sct);
  }

  lemma StillShort(groups: Policy, k: Ledger, g: GroupName)
    requires Counted(groups, k) && g in groups && k.answers.Keys <= groups[g].logs
             && |k.answers.Keys| < groups[g].minInclusions
    ensures !GroupComplete(k.state, g)
  {
    assert Accounted(groups[g], k.state.groupNeeds[g], Recorded(k.state), k.answers.Keys);
    assert k.answers.Keys * groups[g].logs == k.answers.Keys;
  }

  lemma EnoughIsComplete(groups: Policy, k: Ledger, g: GroupName, promised: set<Log>)
    requires Counted(groups, k) && g in groups && k.answers.Keys >= promised
    requires |promised * groups[g].logs| >= groups[g].minInclusions
    ensures GroupComplete(k.state, g)
  {
    assert Accounted(groups[g], k.state.groupNeeds[g], Recorded(k.state), k.answers.Keys);
    SubsetCard(promised * groups[g].logs, k.answers.Keys * groups[g].logs);
  }

  /** All goroutines of a group that are not in flight are done, so its race can hear of all. */
  lemma AllHeard(sessions: Sessions, workers: map<Worker, WorkerPc>, logOf: map<Worker, Log>, answered: set<Log>,
                 g: GroupName)
    requires InAir(workers, logOf, answered) && Seated(sessions, logOf) && g in sessions
    requires forall w :: w in Flying(workers) ==> w.group != g
    ensures |Finished(workers, g)| >= |sessions[g]|
  {
    CrewSize(g, |sessions[g]|);
    forall w | w in Crew(g, |sessions[g]|) ensures w in Finished(workers, g) {
      assert w in logOf && w !in Flying(workers);
    }
    SubsetCard(Crew(g, |sessions[g]|), Finished(workers, g));
  }

  // ----- What all logs together would give -----

  lemma {:induction false} Distinct(session: seq<Log>, all: set<Log>)
    requires forall i, j :: 0 <= i < j < |session| ==> session[i] != session[j]
    requires forall i :: 0 <= i < |session| ==> session[i] in all
    ensures |all| >= |session|
    decreases |session|
  {
    if session != [] {
      var last := session[|session| - 1];
      Distinct(session[..|session| - 1], all - {last});
    }
  }

  /** A session all of whose logs answer fills its group. */
  lemma SessionFills(group: Group, session: seq<Log>, promised: set<Log>)
    requires FullSession(group, session) && forall i :: 0 <= i < |session| ==> session[i] in promised
    ensures |promised * group.logs| >= group.minInclusions
  {
    Distinct(session, promised * group.logs);
  }

  /** A group that is one short is filled by any shared log that is in flight, or by its whole session. */
  lemma OneShortFills(group: Group, session: seq<Log>, workers: map<Worker, WorkerPc>, logOf: map<Worker, Log>,
                      answered: set<Log>, w: Worker)
    requires FullSession(group, session) && OneShort(group, session, workers, logOf, answered)
             && InAir(workers, logOf, answered)
    requires w in Flying(workers) && logOf[w] in group.logs
    ensures |Promised(workers, logOf, answered) * group.logs| >= group.minInclusions
  {
    var promised := Promised(workers, logOf, answered);
    if |answered| == group.minInclusions - 1 {
      SubsetCard(answered + {logOf[w]}, promised * group.logs);
    } else {
      SessionFills(group, session, promised);
    }
  }

  lemma OthersFill(groups: Policy, sessions: Sessions, y: System, g: GroupName, k: GroupName)
    requires FullSessions(groups, sessions) && k in groups && k != g && groups[k].minInclusions > 0
    requires HeldElsewhere(y.workers, y.logOf, g, OthersLogs(groups, sessions, g))
    ensures |Promised(y.workers, y.logOf, y.ledger.answers.Keys) * groups[k].logs| >= groups[k].minInclusions
  {
    forall i | 0 <= i < |sessions[k]| ensures sessions[k][i] in Promised(y.workers, y.logOf, y.ledger.answers.Keys) {
      assert sessions[k][i] in OthersLogs(groups, sessions, g);
    }
    SessionFills(groups[k], sessions[k], Promised(y.workers, y.logOf, y.ledger.answers.Keys));
  }

  lemma AllFill(groups: Policy, sessions: Sessions, y: System, g: GroupName, h: GroupName, i: nat, k: GroupName)
    requires FullSessions(groups, sessions) && Overlaps(groups, sessions, g, h, i) && k in groups
    requires Settling(y, g, groups[g], sessions[g], OthersLogs(groups, sessions, g))
    ensures |Promised(y.workers, y.logOf, y.ledger.answers.Keys) * groups[k].logs| >= groups[k].minInclusions
  {
    if k == g {
      assert sessions[h][i] in OthersLogs(groups, sessions, g);
      var w :| w in Flying(y.workers) && w in y.logOf && w.group != g && y.logOf[w] == sessions[h][i];
      assert FullSession(groups[g], sessions[g]);
      OneShortFills(groups[g], sessions[g], y.workers, y.logOf, y.ledger.answers.Keys, w);
    } else if groups[k].minInclusions > 0 {
      OthersFill(groups, sessions, y, g, k);
    }
  }

  // ----- The races end -----

  /** The group's race fails while it is one short; then all logs answer. */
  lemma FailThenFill(y0: System, y: System, g: GroupName, sct: Sct) returns (z: System)
    requires From(y0, y) && Running(y, g) && !GroupComplete(y.ledger.state, g)
    requires |Finished(y.workers, g)| >= |y.sessions[g]| && InAir(y.workers, y.logOf, y.ledger.answers.Keys)
    ensures From(y0, z) && z.races == y.races[g := Reported(false)]
    ensures z.groupComplete == y.groupComplete && z.heard == y.heard && z.main == y.main && z.ctxDone == y.ctxDone
    ensures z.groups == y.groups && z.sessions == y.sessions && z.logOf == y.logOf && z.workers.Keys == y.workers.Keys
    ensures forall w :: w in z.workers ==> z.workers[w].Done?
    ensures z.ledger.answers.Keys >= Promised(y.workers, y.logOf, y.ledger.answers.Keys)
  {
    var y' := RaceFails(y0, y, g);
    z := AnswerAll(y0, y', sct);
  }

  lemma SomeHeard(sessions: Sessions, workers: map<Worker, WorkerPc>, logOf: map<Worker, Log>, k: GroupName)
    requires Seated(sessions, logOf) && workers.Keys == logOf.Keys && k in sessions && |sessions[k]| > 0
    requires forall w :: w in workers ==> workers[w].Done?
    ensures |Finished(workers, k)| > 0
  {
    assert Worker(k, 0) in logOf;
    assert Worker(k, 0) in Finished(workers, k);
  }

  /** All other races succeed, and the main goroutine hears of all and returns an error. */
  lemma EndInError(y0: System, y: System, g: GroupName) returns (z: System)
    requires From(y0, y) && y.main.Collecting? && y.heard == {} && g in y.groups
    requires y.races.Keys == y.groups.Keys == y.sessions.Keys
    requires forall k :: k in y.groups ==> y.races[k] == if k == g then Reported(false) else Racing(0)
    requires forall k :: k in y.groups ==>
             GroupComplete(y.ledger.state, k) && (|y.sessions[k]| > 0 ==> |Finished(y.workers, k)| > 0)
    ensures From(y0, z) && z.ctxDone == y.ctxDone && z.main.Returned? && !z.main.complete
            && Collects(y.ledger.state, z.main.scts)
  {
    var y1 := RacesSucceed(y0, y, y.groups.Keys - {g});
    var y2 := HearAll(y0, y1, y.groups.Keys);
    assert y1.heard + y.groups.Keys == y.groups.Keys;
    z := ReturnNow(y0, y2);
  }

  /** What holds at the start of a submission with full sessions. */
  ghost predicate Ready(groups: Policy, sessions: Sessions, y: System) {
    && y.groups == groups && y.sessions == sessions && Seated(sessions, y.logOf) && AtHome(groups, y.logOf)
    && From(y, y) && Asking(groups, y, y.logOf.Keys)
    && y.races.Keys == groups.Keys == sessions.Keys && (forall k :: k in groups ==> y.races[k] == Racing(0))
    && y.main.Collecting? && y.heard == {} && !y.ctxDone
  }

  lemma ShortAndHeard(groups: Policy, sessions: Sessions, y0: System, y: System, g: GroupName)
    requires Safe(y0) && From(y0, y) && y0.groups == groups && g in groups && g in sessions && Seated(sessions, y.logOf)
    requires Settling(y, g, groups[g], sessions[g], OthersLogs(groups, sessions, g))
    requires forall w :: w in Flying(y.workers) ==> w.group != g
    ensures !GroupComplete(y.ledger.state, g) && |Finished(y.workers, g)| >= |sessions[g]|
  {
    KnowsCounts(y0, y);
    StillShort(groups, y.ledger, g);
    AllHeard(sessions, y.workers, y.logOf, y.ledger.answers.Keys, g);
  }

  lemma AllComplete(groups: Policy, y0: System, y: System)
    requires Safe(y0) && From(y0, y) && y0.groups == groups
    requires forall k :: k in groups ==> |y.ledger.answers.Keys * groups[k].logs| >= groups[k].minInclusions
    ensures forall k :: k in groups ==> GroupComplete(y.ledger.state, k)
  {
    KnowsCounts(y0, y);
    forall k | k in groups ensures GroupComplete(y.ledger.state, k) {
      EnoughIsComplete(groups, y.ledger, k, y.ledger.answers.Keys);
    }
  }

  lemma MeetsAll(groups: Policy, y0: System, y: System, scts: seq<(Log, Sct)>)
    requires Safe(y0) && From(y0, y) && y0.groups == groups && Collects(y.ledger.state, scts)
    requires forall k :: k in groups ==> GroupComplete(y.ledger.state, k)
    ensures Meets(groups, scts)
  {
    KnowsCounts(y0, y);
    CollectedMeets(groups, y.ledger, scts);
  }

  /** All goroutines are done, every group has enough, and only the race of `g` has reported: a failure. */
  ghost predicate HalfWay(groups: Policy, sessions: Sessions, y: System, g: GroupName) {
    && y.groups == groups && y.sessions == sessions && Seated(sessions, y.logOf) && y.workers.Keys == y.logOf.Keys
    && y.main.Collecting? && y.heard == {} && !y.ctxDone && g in groups
    && y.races.Keys == groups.Keys == sessions.Keys
    && (forall k :: k in groups ==> y.races[k] == if k == g then Reported(false) else Racing(0))
    && (forall w :: w in y.workers ==> y.workers[w].Done?)
    && (forall k :: k in groups ==> |y.ledger.answers.Keys * groups[k].logs| >= groups[k].minInclusions)
  }

  lemma FirstHalf(groups: Policy, sessions: Sessions, y0: System, g: GroupName, h: GroupName, i: nat, sct: Sct)
    returns (z: System)
    requires Ready(groups, sessions, y0) && Safe(y0) && FullSessions(groups, sessions)
             && Overlaps(groups, sessions, g, h, i)
    ensures From(y0, z) && z.races == y0.races[g := Reported(false)]
    ensures z.heard == {} && z.main.Collecting? && !z.ctxDone
    ensures z.groups == groups && z.sessions == sessions && z.logOf == y0.logOf && z.workers.Keys == y0.logOf.Keys
    ensures forall w :: w in z.workers ==> z.workers[w].Done?
    ensures forall k :: k in groups ==> |z.ledger.answers.Keys * groups[k].logs| >= groups[k].minInclusions
  {
    var y := AskAndAnswer(groups, sessions, y0, g, sct);
    ShortAndHeard(groups, sessions, y0, y, g);
    z := FailThenFill(y0, y, g, sct);
    forall k | k in groups ensures |z.ledger.answers.Keys * groups[k].logs| >= groups[k].minInclusions {
      AllFill(groups, sessions, y, g, h, i, k);
      SubsetCard(Promised(y.workers, y.logOf, y.ledger.answers.Keys) * groups[k].logs,
                 z.ledger.answers.Keys * groups[k].logs);
    }
  }

  lemma IsHalfWay(groups: Policy, sessions: Sessions, races: map<GroupName, RacePc>, y: System, g: GroupName)
    requires races.Keys == groups.Keys == sessions.Keys && g in groups
    requires forall k :: k in groups ==> races[k] == Racing(0)
    requires y.races == races[g := Reported(false)] && y.heard == {} && y.main.Collecting? && !y.ctxDone
    requires y.groups == groups && y.sessions == sessions && Seated(sessions, y.logOf) && y.workers.Keys == y.logOf.Keys
    requires forall w :: w in y.workers ==> y.workers[w].Done?
    requires forall k :: k in groups ==> |y.ledger.answers.Keys * groups[k].logs| >= groups[k].minInclusions
    ensures HalfWay(groups, sessions, y, g)
  {
  }

  lemma SecondHalf(groups: Policy, sessions: Sessions, y0: System, y: System, g: GroupName) returns (z: System)
    requires Safe(y0) && From(y0, y) && y0.groups == groups && HalfWay(groups, sessions, y, g)
    ensures From(y0, z) && !z.ctxDone && z.main.Returned? && !z.main.complete && Meets(groups, z.main.scts)
  {
    AllComplete(groups, y0, y);
    forall k | k in groups && |sessions[k]| > 0 ensures |Finished(y.workers, k)| > 0 {
      SomeHeard(sessions, y.workers, y.logOf, k);
    }
    z := EndInError(y0, y, g);
    MeetsAll(groups, y0, y, z.main.scts);
  }

  lemma OverlapFailsFalsely(groups: Policy, sessions: Sessions, y0: System, g: GroupName, h: GroupName, i: nat,
                            sct: Sct)
    returns (z: System)
    requires Ready(groups, sessions, y0) && Safe(y0) && FullSessions(groups, sessions)
             && Overlaps(groups, sessions, g, h, i)
    ensures From(y0, z) && !z.ctxDone && z.main.Returned? && !z.main.complete && Meets(groups, z.main.scts)
  {
    var y := FirstHalf(groups, sessions, y0, g, h, i, sct);
    IsHalfWay(groups, sessions, y0.races, y, g);
    z := SecondHalf(groups, sessions, y0, y, g);
  }

  // ----- The theorems -----

  lemma FreshReady(groups: Policy, sessions: Sessions, logOf: map<Worker, Log>)
    requires WellNamed(groups) && FullSessions(groups, sessions) && Seated(sessions, logOf)
    ensures Ready(groups, sessions, Fresh(groups, sessions, logOf))
  {
    SeatedAtHome(groups, sessions, logOf);
    StartsAsking(groups, sessions, logOf);
  }

  lemma StartsReady(groups: Policy, sessions: Sessions) returns (y0: System)
    requires WellNamed(groups) && FullSessions(groups, sessions)
    ensures y0 == Init(groups, sessions) && Ready(groups, sessions, y0) && Safe(y0)
  {
    SeatedAtFirst(sessions);
    FreshReady(groups, sessions, LogsOfWorkers(sessions));
    FreshSafe(groups, sessions, LogsOfWorkers(sessions));
    y0 := Init(groups, sessions);
  }

  /** An error was returned, the context being alive, with SCTs that meet the policy. */
  ghost predicate FailsFalsely(groups: Policy, sessions: Sessions, y: System) {
    Reachable(groups, sessions, y) && !y.ctxDone && y.main.Returned? && !y.main.complete && Meets(groups, y.main.scts)
  }

  lemma FromInit(groups: Policy, sessions: Sessions, y0: System, y: System)
    requires WellNamed(groups) && y0 == Init(groups, sessions) && From(y0, y)
    ensures Reachable(groups, sessions, y)
  {
  }

  lemma StartAndFail(groups: Policy, sessions: Sessions, g: GroupName, h: GroupName, i: nat, sct: Sct)
    returns (y0: System, y: System)
    requires WellNamed(groups) && FullSessions(groups, sessions) && Overlaps(groups, sessions, g, h, i)
    ensures y0 == Init(groups, sessions) && From(y0, y)
    ensures !y.ctxDone && y.main.Returned? && !y.main.complete && Meets(groups, y.main.scts)
  {
    y0 := StartsReady(groups, sessions);
    y := OverlapFailsFalsely(groups, sessions, y0, g, h, i, sct);
  }

  /** Where two groups that want SCTs overlap, some run fails falsely. */
  lemma SharedLogFailsFalsely(groups: Policy, sessions: Sessions, g: GroupName, h: GroupName, i: nat, sct: Sct)
    requires WellNamed(groups) && FullSessions(groups, sessions) && Overlaps(groups, sessions, g, h, i)
    ensures exists y :: FailsFalsely(groups, sessions, y)
  {
    var y0, y := StartAndFail(groups, sessions, g, h, i, sct);
    FromInit(groups, sessions, y0, y);
    assert FailsFalsely(groups, sessions, y);
  }

  /**
   With full sessions, GetSCTs returns an error exactly when what it returns falls short, in all
   runs whose context stays alive, if and only if no two groups that want SCTs overlap.
   */
  lemma ReportsAreExactIff(groups: Policy, sessions: Sessions, sct: Sct)
    requires WellNamed(groups) && FullSessions(groups, sessions)
    ensures (forall y :: Reachable(groups, sessions, y) && y.main.Returned? && !y.ctxDone ==>
               (y.main.complete <==> Meets(groups, y.main.scts)))
            <==> Separate(groups, sessions)
  {
    if Separate(groups, sessions) {
      forall y | Reachable(groups, sessions, y) && y.main.Returned? && !y.ctxDone
        ensures y.main.complete <==> Meets(groups, y.main.scts)
      {
        SeparateGroupsReportExactly(groups, sessions, y);
      }
    } else {
      var g, h, i: nat :| Overlaps(groups, sessions, g, h, i);
      SharedLogFailsFalsely(groups, sessions, g, h, i, sct);
      var y :| FailsFalsely(groups, sessions, y);
    }
  }

  /** The groups of the Chrome policy always overlap, so under it some run fails falsely whatever the sessions are. */
  lemma ChromeFailsFalsely(groups: Policy, sessions: Sessions, google: GroupName, other: GroupName, base: GroupName,
                           sct: Sct)
    requires WellNamed(groups) && FullSessions(groups, sessions) && ChromeShaped(groups, google, other, base)
    ensures exists y :: FailsFalsely(groups, sessions, y)
  {
    assert FullSession(groups[google], sessions[google]);
    assert Overlaps(groups, sessions, base, google, 0);
    SharedLogFailsFalsely(groups, sessions, base, google, 0, sct);
  }
}
