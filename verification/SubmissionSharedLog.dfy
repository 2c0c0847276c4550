/**
 Runs of GetSCTs put together on purpose: goroutines take their turns, logs answer, races end
 and the main goroutine returns, each in an order that is chosen here.
 */
module SubmissionSharedLog {
  import opened Bytes
  import opened Sets
  import opened SubmissionState
  import opened SubmissionLedger
  import opened SubmissionRace
  import opened SubmissionTheorems

  type Sessions = map<GroupName, seq<Log>>

  // ----- Extending runs -----

  /** `y` can come of `y0`. */
  ghost predicate From(y0: System, y: System) {
    exists steps :: Runs(y0, steps, y)
  }

  ghost predicate Takes(y: System, step: Step, z: System) {
    Enabled(y, step) && z == Next(y, step)
  }

  lemma {:induction false} RunsOn(y: System, steps: seq<Step>, y': System, step: Step, z: System)
    requires Runs(y, steps, y') && Takes(y', step, z)
    ensures Runs(y, steps + [step], z)
    decreases |steps|
  {
    if steps == [] {
      assert [] + [step] == [step] && [step][1..] == [];
      assert Runs(z, [], z);
    } else {
      RunsOn(Next(y, steps[0]), steps[1..], y', step, z);
      assert (steps + [step])[1..] == steps[1..] + [step];
    }
  }

  lemma Extend(y0: System, y: System, step: Step, z: System)
    requires From(y0, y) && Takes(y, step, z)
    ensures From(y0, z)
  {
    var steps :| Runs(y0, steps, y);
    RunsOn(y0, steps, y, step, z);
  }

  lemma KnowsCounts(y0: System, y: System)
    requires Safe(y0) && From(y0, y)
    ensures Counted(y0.groups, y.ledger)
  {
    var steps :| Runs(y0, steps, y);
    RunSafe(y0, steps, y);
  }

  /** Only goroutines and books differ. */
  ghost predicate SameControl(y: System, z: System) {
    && z.races == y.races && z.groupComplete == y.groupComplete && z.heard == y.heard
    && z.ctxDone == y.ctxDone && z.main == y.main
    && z.groups == y.groups && z.sessions == y.sessions && z.logOf == y.logOf
  }

  lemma {:induction false} Enumerate<T(!new)>(s: set<T>) returns (xs: seq<T>)
    ensures Enumerates(xs, s)
    decreases |s|
  {
    if s == {} {
      xs := [];
    } else {
      var x := Pick(s);
      xs := Enumerate(s - {x});
      xs := xs + [x];
    }
  }

  // ----- One goroutine asks -----

  /** The books after goroutine `w` has asked. */
  function AfterAsking(k: Ledger, w: Worker, log: Log): Ledger {
    var (state, first) := Request(k.state, log, w);
    Ledger(state, if first then k.granted + [w] else k.granted, k.answers, k.fired)
  }

  /** No group's need has changed yet. */
  ghost predicate Untouched(groups: Policy, s: State) {
    && s.logToGroups == ByLogs(groups) && s.groupNeeds.Keys == groups.Keys
    && forall g :: g in groups ==> s.groupNeeds[g] == groups[g].minInclusions
  }

  lemma WantedIsAwaited(groups: Policy, s: State, g: GroupName, log: Log)
    requires Untouched(groups, s) && g in groups && groups[g].minInclusions > 0 && log in groups[g].logs
    ensures Awaited(s, log)
  {
    AwaitedIsWanted(groups, s, log);
  }

  lemma AskingTakes(k: Ledger, w: Worker, log: Log)
    requires Awaited(k.state, log)
    ensures Asks(k, w, log, log !in k.state.results, AfterAsking(k, w, log))
    ensures AfterAsking(k, w, log).state.results.Keys == k.state.results.Keys + {log}
    ensures AfterAsking(k, w, log).state.logToGroups == k.state.logToGroups
            && AfterAsking(k, w, log).state.groupNeeds == k.state.groupNeeds
  {
  }

  lemma AskChecked(y0: System, y: System, w: Worker) returns (z: System)
    requires From(y0, y) && At(y, w, Checked) && Awaited(y.ledger.state, y.logOf[w])
    ensures From(y0, z) && SameControl(y, z) && z.ledger.answers == y.ledger.answers
    ensures z.workers == y.workers[w := if y.logOf[w] in y.ledger.state.results then Done else InFlight]
    ensures z.ledger.state.results.Keys == y.ledger.state.results.Keys + {y.logOf[w]}
    ensures z.ledger.state.logToGroups == y.ledger.state.logToGroups
            && z.ledger.state.groupNeeds == y.ledger.state.groupNeeds
  {
    var log := y.logOf[w];
    AskingTakes(y.ledger, w, log);
    var step := WorkerRequests(w, log !in y.ledger.state.results, AfterAsking(y.ledger, w, log));
    z := Next(y, step);
    Extend(y0, y, step, z);
  }

  lemma Check(y0: System, y: System, w: Worker) returns (z: System)
    requires From(y0, y) && At(y, w, Waiting)
    ensures From(y0, z) && SameControl(y, z) && z.ledger == y.ledger
    ensures z.workers == y.workers[w := if GroupComplete(y.ledger.state, w.group) then Done else Checked]
  {
    z := Next(y, WorkerChecks(w));
    Extend(y0, y, WorkerChecks(w), z);
  }

  /** Where a goroutine is after its turn, and which logs have been asked then. */
  ghost predicate TookTurn(groups: Policy, y: System, w: Worker, z: System) {
    && SameControl(y, z) && w.group in groups && w in y.workers && w in y.logOf
    && z.ledger.answers == y.ledger.answers && Untouched(groups, z.ledger.state)
    && z.workers == y.workers[w := Pc(groups, y.logOf, y.ledger.state.results.Keys, w)]
    && z.ledger.state.results.Keys == NowAsked(groups, y.logOf, y.ledger.state.results.Keys, w)
  }

  /** A waiting goroutine, whose log belongs to its group, takes its turn before any log has answered. */
  lemma AskOne(groups: Policy, y0: System, y: System, w: Worker) returns (z: System)
    requires From(y0, y) && At(y, w, Waiting) && Untouched(groups, y.ledger.state)
    requires w.group in groups && y.logOf[w] in groups[w.group].logs
    ensures From(y0, z) && TookTurn(groups, y, w, z)
  {
    z := Check(y0, y, w);
    if groups[w.group].minInclusions > 0 {
      WantedIsAwaited(groups, y.ledger.state, w.group, y.logOf[w]);
      z := AskChecked(y0, z, w);
    }
  }

  // ----- One log answers -----

  lemma AnswerOne(y0: System, y: System, w: Worker, sct: Option<Sct>) returns (z: System)
    requires From(y0, y) && At(y, w, InFlight)
    ensures From(y0, z) && SameControl(y, z)
    ensures z.workers == y.workers[w := Done]
    ensures z.ledger.answers == if sct.Some? then y.ledger.answers[y.logOf[w] := sct.value] else y.ledger.answers
  {
    var log, k := y.logOf[w], y.ledger;
    var calls := Enumerate(FiredBySetResult(k.state, log, sct, None));
    var answers := if sct.Some? then k.answers[log := sct.value] else k.answers;
    var after := Ledger(SetResult(k.state, log, sct, None), k.granted, answers, k.fired + calls);
    var step := WorkerAnswered(w, sct, None, calls, after);
    z := Next(y, step);
    Extend(y0, y, step, z);
  }

  // ----- First the others ask, then the group -----

  ghost predicate Held(workers: map<Worker, WorkerPc>, logOf: map<Worker, Log>, log: Log) {
    exists w :: w in workers && w in logOf && workers[w].InFlight? && logOf[w] == log
  }

  /** Exactly the logs asked are in flight, each with one goroutine. */
  ghost predicate AllFlying(workers: map<Worker, WorkerPc>, logOf: map<Worker, Log>, asked: set<Log>) {
    && (forall l :: l in asked ==> Held(workers, logOf, l))
    && (forall w :: w in workers && w in logOf && workers[w].InFlight? ==> logOf[w] in asked)
    && OneEach(workers, logOf)
  }

  ghost predicate OneEach(workers: map<Worker, WorkerPc>, logOf: map<Worker, Log>) {
    forall v, w :: v in workers && w in workers && v in logOf && w in logOf && v != w
                   && workers[v].InFlight? && workers[w].InFlight? ==>
      logOf[v] != logOf[w]
  }

  /**
   The goroutines in `rest` have yet to take their turn; the others have, and where SCTs are wanted
   their logs were asked.
   */
  ghost predicate Turns(groups: Policy, workers: map<Worker, WorkerPc>, logOf: map<Worker, Log>, asked: set<Log>,
                        rest: set<Worker>) {
    && workers.Keys == logOf.Keys && rest <= workers.Keys
    && (forall w :: w in workers ==> (w in rest <==> workers[w].Waiting?) && !workers[w].Checked?)
    && (forall w :: w in workers && w in logOf && w !in rest && w.group in groups && groups[w.group].minInclusions > 0
          ==> logOf[w] in asked)
  }

  ghost predicate Asking(groups: Policy, y: System, rest: set<Worker>) {
    && y.ledger.answers == map[] && Untouched(groups, y.ledger.state)
    && Turns(groups, y.workers, y.logOf, y.ledger.state.results.Keys, rest)
    && AllFlying(y.workers, y.logOf, y.ledger.state.results.Keys)
  }

  /** All goroutines belong to groups, and ask logs of them. */
  ghost predicate AtHome(groups: Policy, logOf: map<Worker, Log>) {
    forall w :: w in logOf ==> w.group in groups && logOf[w] in groups[w.group].logs
  }

  /** One more log is asked, by a goroutine that was waiting. */
  lemma OneMoreFlies(workers: map<Worker, WorkerPc>, logOf: map<Worker, Log>, asked: set<Log>, w: Worker)
    requires AllFlying(workers, logOf, asked) && w in workers && w in logOf && workers[w].Waiting? && logOf[w] !in asked
    ensures AllFlying(workers[w := InFlight], logOf, asked + {logOf[w]})
  {
    var workers' := workers[w := InFlight];
    forall l | l in asked + {logOf[w]} ensures Held(workers', logOf, l) {
      if l in asked {
        var v :| v in workers && v in logOf && workers[v].InFlight? && logOf[v] == l;
        assert workers'[v].InFlight?;
      } else {
        assert workers'[w].InFlight?;
      }
    }
  }

  lemma OneIsDone(workers: map<Worker, WorkerPc>, logOf: map<Worker, Log>, asked: set<Log>, w: Worker)
    requires AllFlying(workers, logOf, asked) && w in workers && workers[w].Waiting?
    ensures AllFlying(workers[w := Done], logOf, asked)
  {
    forall l | l in asked ensures Held(workers[w := Done], logOf, l) {
      var v :| v in workers && v in logOf && workers[v].InFlight? && logOf[v] == l;
      assert workers[w := Done][v].InFlight?;
    }
  }

  ghost function Pc(groups: Policy, logOf: map<Worker, Log>, asked: set<Log>, w: Worker): WorkerPc
    requires w.group in groups && w in logOf
  {
    if groups[w.group].minInclusions > 0 && logOf[w] !in asked then InFlight else Done
  }

  ghost function NowAsked(groups: Policy, logOf: map<Worker, Log>, asked: set<Log>, w: Worker): set<Log>
    requires w.group in groups && w in logOf
  {
    if groups[w.group].minInclusions > 0 then asked + {logOf[w]} else asked
  }

  lemma TurnTaken(groups: Policy, workers: map<Worker, WorkerPc>, logOf: map<Worker, Log>, asked: set<Log>,
                  rest: set<Worker>, w: Worker)
    requires Turns(groups, workers, logOf, asked, rest) && w in rest && w.group in groups
    ensures Turns(groups, workers[w := Pc(groups, logOf, asked, w)], logOf, NowAsked(groups, logOf, asked, w),
                  rest - {w})
  {
  }

  lemma FlightTaken(groups: Policy, workers: map<Worker, WorkerPc>, logOf: map<Worker, Log>, asked: set<Log>, w: Worker)
    requires AllFlying(workers, logOf, asked) && w in workers && w in logOf && workers[w].Waiting? && w.group in groups
    ensures AllFlying(workers[w := Pc(groups, logOf, asked, w)], logOf, NowAsked(groups, logOf, asked, w))
  {
    if Pc(groups, logOf, asked, w).InFlight? {
      OneMoreFlies(workers, logOf, asked, w);
    } else {
      OneIsDone(workers, logOf, asked, w);
      assert NowAsked(groups, logOf, asked, w) == asked;
    }
  }

  lemma AskStep(groups: Policy, y: System, rest: set<Worker>, w: Worker, z: System)
    requires Asking(groups, y, rest) && w in rest && TookTurn(groups, y, w, z)
    ensures Asking(groups, z, rest - {w})
  {
    TurnTaken(groups, y.workers, y.logOf, y.ledger.state.results.Keys, rest, w);
    FlightTaken(groups, y.workers, y.logOf, y.ledger.state.results.Keys, w);
  }

  /** All goroutines but those of `g` take their turns. */
  lemma {:induction false} AskOthers(groups: Policy, y0: System, y: System, rest: set<Worker>, g: GroupName)
    returns (z: System, left: set<Worker>)
    requires From(y0, y) && AtHome(groups, y.logOf) && Asking(groups, y, rest)
    requires forall w :: w in y.workers && w.group == g ==> w in rest
    ensures From(y0, z) && SameControl(y, z) && Asking(groups, z, left)
    ensures forall w :: w in z.workers ==> (w in left <==> w.group == g)
    decreases rest
  {
    if w :| w in rest && w.group != g {
      var y' := AskOne(groups, y0, y, w);
      AskStep(groups, y, rest, w, y');
      z, left := AskOthers(groups, y0, y', rest - {w}, g);
    } else {
      z, left := y, rest;
    }
  }

  /** The goroutines of `g` have not got hold of any of these logs. */
  ghost predicate Apart(workers: map<Worker, WorkerPc>, logOf: map<Worker, Log>, g: GroupName, others: set<Log>) {
    forall w :: w in workers && w in logOf && w.group == g && workers[w].InFlight? ==> logOf[w] !in others
  }

  lemma ApartStep(groups: Policy, workers: map<Worker, WorkerPc>, logOf: map<Worker, Log>, asked: set<Log>, w: Worker,
                  g: GroupName, others: set<Log>)
    requires Apart(workers, logOf, g, others) && others <= asked && w.group in groups && w in logOf
    ensures Apart(workers[w := Pc(groups, logOf, asked, w)], logOf, g, others)
    ensures others <= NowAsked(groups, logOf, asked, w)
  {
  }

  /** The rest take their turns, and find asked what the others have asked. */
  lemma {:induction false} AskOwn(groups: Policy, y0: System, y: System, rest: set<Worker>, g: GroupName,
                                  others: set<Log>)
    returns (z: System)
    requires From(y0, y) && AtHome(groups, y.logOf) && Asking(groups, y, rest)
    requires Apart(y.workers, y.logOf, g, others) && others <= y.ledger.state.results.Keys
    ensures From(y0, z) && SameControl(y, z) && Asking(groups, z, {})
    ensures Apart(z.workers, z.logOf, g, others) && others <= z.ledger.state.results.Keys
    decreases rest
  {
    if rest == {} {
      z := y;
    } else {
      var w := Pick(rest);
      var y' := AskOne(groups, y0, y, w);
      AskStep(groups, y, rest, w, y');
      ApartStep(groups, y.workers, y.logOf, y.ledger.state.results.Keys, w, g, others);
      z := AskOwn(groups, y0, y', rest - {w}, g, others);
    }
  }

  // ----- The logs answer -----

  function Flying(workers: map<Worker, WorkerPc>): set<Worker> {
    set w | w in workers && workers[w].InFlight?
  }

  /** The logs that have answered with an SCT or still may. */
  function Promised(workers: map<Worker, WorkerPc>, logOf: map<Worker, Log>, answered: set<Log>): set<Log> {
    answered + set w | w in Flying(workers) && w in logOf :: logOf[w]
  }

  /** Every goroutine is done or in flight, the latter for different logs that have not answered. */
  ghost predicate InAir(workers: map<Worker, WorkerPc>, logOf: map<Worker, Log>, answered: set<Log>) {
    && workers.Keys == logOf.Keys && OneEach(workers, logOf)
    && (forall w :: w in workers ==> workers[w].InFlight? || workers[w].Done?)
    && (forall w :: w in workers && w in logOf && workers[w].InFlight? ==> logOf[w] !in answered)
  }

  lemma Lands(workers: map<Worker, WorkerPc>, logOf: map<Worker, Log>, answered: set<Log>, w: Worker, success: bool)
    requires InAir(workers, logOf, answered) && w in Flying(workers)
    ensures var answered' := if success then answered + {logOf[w]} else answered;
            && InAir(workers[w := Done], logOf, answered')
            && (success ==> Promised(workers[w := Done], logOf, answered') >= Promised(workers, logOf, answered))
    ensures Flying(workers[w := Done]) == Flying(workers) - {w}
  {
    var answered' := if success then answered + {logOf[w]} else answered;
    if success {
      forall l | l in Promised(workers, logOf, answered) ensures l in Promised(workers[w := Done], logOf, answered') {
        if l !in answered {
          var v :| v in Flying(workers) && v in logOf && logOf[v] == l;
          assert v == w || v in Flying(workers[w := Done]);
        }
      }
    }
  }

  /** Goroutines of other groups are in flight for these logs. */
  ghost predicate HeldElsewhere(workers: map<Worker, WorkerPc>, logOf: map<Worker, Log>, g: GroupName,
                                others: set<Log>) {
    forall l :: l in others ==> exists w :: w in Flying(workers) && w in logOf && w.group != g && logOf[w] == l
  }

  lemma StillHeld(workers: map<Worker, WorkerPc>, logOf: map<Worker, Log>, g: GroupName, others: set<Log>, w: Worker)
    requires HeldElsewhere(workers, logOf, g, others) && w.group == g
    ensures HeldElsewhere(workers[w := Done], logOf, g, others)
  {
    forall l | l in others
      ensures exists v :: v in Flying(workers[w := Done]) && v in logOf && v.group != g && logOf[v] == l
    {
      var v :| v in Flying(workers) && v in logOf && v.group != g && logOf[v] == l;
      assert v in Flying(workers[w := Done]);
    }
  }

  lemma AnswerOneFlying(y0: System, y: System, w: Worker, sct: Option<Sct>) returns (z: System)
    requires From(y0, y) && InAir(y.workers, y.logOf, y.ledger.answers.Keys) && w in Flying(y.workers)
    ensures From(y0, z) && SameControl(y, z) && z.workers == y.workers[w := Done]
    ensures z.ledger.answers.Keys == if sct.Some? then y.ledger.answers.Keys + {y.logOf[w]} else y.ledger.answers.Keys
    ensures InAir(z.workers, z.logOf, z.ledger.answers.Keys) && Flying(z.workers) == Flying(y.workers) - {w}
    ensures sct.Some? ==>
            Promised(z.workers, z.logOf, z.ledger.answers.Keys) >= Promised(y.workers, y.logOf, y.ledger.answers.Keys)
  {
    z := AnswerOne(y0, y, w, sct);
    Lands(y.workers, y.logOf, y.ledger.answers.Keys, w, sct.Some?);
  }

  /** All logs in flight answer with an SCT. */
  lemma {:induction false} AnswerAll(y0: System, y: System, sct: Sct) returns (z: System)
    requires From(y0, y) && InAir(y.workers, y.logOf, y.ledger.answers.Keys)
    ensures From(y0, z) && SameControl(y, z) && z.workers.Keys == y.workers.Keys
    ensures forall w :: w in z.workers ==> z.workers[w].Done?
    ensures z.ledger.answers.Keys >= Promised(y.workers, y.logOf, y.ledger.answers.Keys)
    decreases Flying(y.workers)
  {
    if Flying(y.workers) == {} {
      z := y;
      forall w | w in z.workers ensures z.workers[w].Done? {
        assert w !in Flying(y.workers);
      }
    } else {
      var w := Pick(Flying(y.workers));
      var y' := AnswerOneFlying(y0, y, w, Some(sct));
      z := AnswerAll(y0, y', sct);
    }
  }

  /**
   How the group's own logs have answered: with one SCT less than the minimum, or else with as many
   as there are, so that all logs of the session have answered or may yet.
   */
  ghost predicate OneShort(group: Group, session: seq<Log>, workers: map<Worker, WorkerPc>, logOf: map<Worker, Log>,
                           answered: set<Log>) {
    && answered <= group.logs && |answered| < group.minInclusions
    && (|answered| == group.minInclusions - 1 ||
        forall i :: 0 <= i < |session| ==> session[i] in Promised(workers, logOf, answered))
  }

  lemma StillOneShort(group: Group, session: seq<Log>, workers: map<Worker, WorkerPc>, logOf: map<Worker, Log>,
                      answered: set<Log>, workers': map<Worker, WorkerPc>, answered': set<Log>, log: Log)
    requires OneShort(group, session, workers, logOf, answered) && log in group.logs
    requires answered' == if |answered| < group.minInclusions - 1 then answered + {log} else answered
    requires |answered| < group.minInclusions - 1 ==>
             Promised(workers', logOf, answered') >= Promised(workers, logOf, answered)
    ensures OneShort(group, session, workers', logOf, answered')
  {
  }

  ghost predicate Settling(y: System, g: GroupName, group: Group, session: seq<Log>, others: set<Log>) {
    && InAir(y.workers, y.logOf, y.ledger.answers.Keys) && HeldElsewhere(y.workers, y.logOf, g, others)
    && OneShort(group, session, y.workers, y.logOf, y.ledger.answers.Keys)
    && forall w :: w in y.logOf && w.group == g ==> y.logOf[w] in group.logs
  }

  lemma OwnAnswer(y0: System, y: System, g: GroupName, group: Group, session: seq<Log>, others: set<Log>, sct: Sct,
                  w: Worker)
    returns (z: System)
    requires From(y0, y) && Settling(y, g, group, session, others) && w in Flying(y.workers) && w.group == g
    ensures From(y0, z) && SameControl(y, z) && Settling(z, g, group, session, others)
    ensures Flying(z.workers) == Flying(y.workers) - {w}
  {
    var more := |y.ledger.answers.Keys| < group.minInclusions - 1;
    z := AnswerOneFlying(y0, y, w, if more then Some(sct) else None);
    StillHeld(y.workers, y.logOf, g, others, w);
    StillOneShort(group, session, y.workers, y.logOf, y.ledger.answers.Keys, z.workers, z.ledger.answers.Keys,
                  y.logOf[w]);
  }

  /** The logs that only this group has asked answer: with SCTs until one is missing, then with errors. */
  lemma {:induction false} AnswerOwn(y0: System, y: System, g: GroupName, group: Group, session: seq<Log>,
                                     others: set<Log>, sct: Sct)
    returns (z: System)
    requires From(y0, y) && Settling(y, g, group, session, others)
    ensures From(y0, z) && SameControl(y, z) && Settling(z, g, group, session, others)
    ensures forall w :: w in Flying(z.workers) ==> w.group != g
    decreases Flying(y.workers)
  {
    if w :| w in Flying(y.workers) && w.group == g {
      var y' := OwnAnswer(y0, y, g, group, session, others, sct, w);
      z := AnswerOwn(y0, y', g, group, session, others, sct);
    } else {
      z := y;
    }
  }

  // ----- The races and the main goroutine -----

  ghost predicate SameRest(y: System, z: System) {
    && z.workers == y.workers && z.ledger == y.ledger && z.ctxDone == y.ctxDone
    && z.groups == y.groups && z.sessions == y.sessions && z.logOf == y.logOf
  }

  /** A race of which all goroutines are done and whose group is short hears them out and fails. */
  lemma {:induction false} RaceFails(y0: System, y: System, g: GroupName) returns (z: System)
    requires From(y0, y) && Running(y, g) && !GroupComplete(y.ledger.state, g)
    requires |Finished(y.workers, g)| >= |y.sessions[g]|
    ensures From(y0, z) && SameRest(y, z) && z.groupComplete == y.groupComplete && z.heard == y.heard
            && z.main == y.main
    ensures z.races == y.races[g := Reported(false)]
    decreases |y.sessions[g]| - y.races[g].received
  {
    if y.races[g].received == |y.sessions[g]| {
      z := Next(y, RaceEnds(g));
      Extend(y0, y, RaceEnds(g), z);
    } else {
      var y' := Next(y, RaceHears(g));
      Extend(y0, y, RaceHears(g), y');
      z := RaceFails(y0, y', g);
      assert y.races[g := y'.races[g]][g := Reported(false)] == y.races[g := Reported(false)];
    }
  }

  /** A race whose group is complete succeeds: at the next goroutine it hears of, or without any. */
  lemma RaceSucceeds(y0: System, y: System, g: GroupName) returns (z: System)
    requires From(y0, y) && Running(y, g) && y.races[g].received == 0 && GroupComplete(y.ledger.state, g)
    requires |y.sessions[g]| > 0 ==> |Finished(y.workers, g)| > 0
    ensures From(y0, z) && SameRest(y, z) && z.groupComplete == y.groupComplete && z.heard == y.heard
            && z.main == y.main
    ensures z.races == y.races[g := Reported(true)]
  {
    var step := if |y.sessions[g]| == 0 then RaceEnds(g) else RaceHears(g);
    z := Next(y, step);
    Extend(y0, y, step, z);
  }

  lemma {:induction false} RacesSucceed(y0: System, y: System, rest: set<GroupName>) returns (z: System)
    requires From(y0, y)
    requires forall k :: k in rest ==> k in y.races && k in y.sessions && y.races[k] == Racing(0)
    requires forall k :: k in rest ==>
             GroupComplete(y.ledger.state, k) && (|y.sessions[k]| > 0 ==> |Finished(y.workers, k)| > 0)
    ensures From(y0, z) && SameRest(y, z) && z.groupComplete == y.groupComplete && z.heard == y.heard
            && z.main == y.main
    ensures z.races.Keys == y.races.Keys
    ensures forall k :: k in y.races ==> z.races[k] == if k in rest then Reported(true) else y.races[k]
    decreases rest
  {
    if rest == {} {
      z := y;
    } else {
      var k := Pick(rest);
      var y' := RaceSucceeds(y0, y, k);
      z := RacesSucceed(y0, y', rest - {k});
    }
  }

  lemma HearOne(y0: System, y: System, g: GroupName) returns (z: System)
    requires From(y0, y) && Enabled(y, MainHears(g))
    ensures From(y0, z) && SameRest(y, z) && z.races == y.races && z.main == y.main
    ensures z.heard == y.heard + {g} && z.groupComplete == y.groupComplete[g := y.races[g].success]
  {
    z := Next(y, MainHears(g));
    Extend(y0, y, MainHears(g), z);
  }

  /** The main goroutine hears of every race. */
  lemma {:induction false} HearAll(y0: System, y: System, rest: set<GroupName>) returns (z: System)
    requires From(y0, y) && y.main.Collecting? && rest !! y.heard
    requires forall k :: k in rest ==> k in y.races && y.races[k].Reported?
    ensures From(y0, z) && SameRest(y, z) && z.races == y.races && z.main == y.main && z.heard == y.heard + rest
    ensures forall k :: k in rest ==> k in z.groupComplete && z.groupComplete[k] == y.races[k].success
    ensures forall k :: k in y.groupComplete && k !in rest ==>
            k in z.groupComplete && z.groupComplete[k] == y.groupComplete[k]
    decreases rest
  {
    if rest == {} {
      z := y;
      assert y.heard + rest == y.heard;
    } else {
      var k := Pick(rest);
      var y' := HearOne(y0, y, k);
      z := HearAll(y0, y', rest - {k});
      assert y.heard + {k} + (rest - {k}) == y.heard + rest;
    }
  }

  /** The list the main goroutine collects. */
  lemma {:induction false} Collect(s: State, rest: set<Log>) returns (scts: seq<(Log, Sct)>)
    requires rest <= Recorded(s)
    ensures forall i :: 0 <= i < |scts| ==> scts[i].0 in rest && s.results[scts[i].0].sct == Some(scts[i].1)
    ensures forall i, j :: 0 <= i < j < |scts| ==> scts[i].0 != scts[j].0
    ensures forall l :: l in rest ==> exists i :: 0 <= i < |scts| && scts[i].0 == l
    decreases rest
  {
    if rest == {} {
      scts := [];
    } else {
      var l := Pick(rest);
      var pre := Collect(s, rest - {l});
      scts := pre + [(l, s.results[l].sct.value)];
      forall k | k in rest ensures exists i :: 0 <= i < |scts| && scts[i].0 == k {
        if k == l {
          assert scts[|pre|].0 == l;
        } else {
          assert k in rest - {l};
          var i :| 0 <= i < |pre| && pre[i].0 == k;
          assert scts[i].0 == k;
        }
      }
    }
  }

  lemma ReturnNow(y0: System, y: System) returns (z: System)
    requires From(y0, y) && y.main.Collecting? && y.heard == y.groups.Keys
    ensures From(y0, z) && z.ctxDone == y.ctxDone && z.main.Returned? && Collects(y.ledger.state, z.main.scts)
    ensures z.main.complete <==> forall k :: k in y.groupComplete ==> y.groupComplete[k]
  {
    var scts := Collect(y.ledger.state, Recorded(y.ledger.state));
    z := Next(y, MainReturns(scts));
    Extend(y0, y, MainReturns(scts), z);
  }
}
