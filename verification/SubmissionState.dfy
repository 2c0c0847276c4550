/**
 The state that the goroutines of one submission share (submission/races.go): how
 many SCTs each group of logs still needs, what each log answered, and the
 cancellation functions of the requests under way. Every operation runs under one
 mutex, so each is one step.
 */
module SubmissionState {
  import opened Bytes

  datatype Sct = Sct(content: seq<Byte>)

  datatype Log = Log(url: string)

  datatype GroupName = GroupName(text: string)

  datatype Group = Group(name: GroupName, logs: set<Log>, minInclusions: int, isBase: bool)

  type Policy = map<GroupName, Group>

  /** A goroutine of a group race, which is also the identity of its cancel function. */
  datatype Worker = Worker(group: GroupName, index: nat)

  datatype Answer = Answer(sct: Option<Sct>, err: Option<string>)

  datatype State = State(
    logToGroups: map<Log, set<GroupName>>,
    groupNeeds: map<GroupName, int>,
    results: map<Log, Answer>,
    cancels: map<Log, Option<Worker>>)   // None: the entry was set to nil

  /** ctpolicy's rule for policies: a group is filed under its own name. */
  predicate WellNamed(groups: Policy) {
    forall k :: k in groups ==> groups[k].name == k
  }

  /** A session as the policies draw it: different logs of the group, as many as it wants at least. */
  ghost predicate FullSession(group: Group, session: seq<Log>) {
    && (forall i :: 0 <= i < |session| ==> session[i] in group.logs)
    && (forall i, j :: 0 <= i < j < |session| ==> session[i] != session[j])
    && |session| >= group.minInclusions
  }

  // ----- The operations as functions -----

  /** Which groups each log belongs to. */
  function ByLogs(groups: Policy): map<Log, set<GroupName>> {
    map l | l in AllLogs(groups) :: set k | k in groups && l in groups[k].logs
  }

  function AllLogs(groups: Policy): set<Log> {
    set k, l | k in groups && l in groups[k].logs :: l
  }

  function NewState(groups: Policy): State
    requires WellNamed(groups)
  {
    State(ByLogs(groups), map k | k in groups :: groups[k].minInclusions, map[], map[])
  }

  function Need(s: State, group: GroupName): int {
    if group in s.groupNeeds then s.groupNeeds[group] else 0
  }

  function GroupsOf(s: State, log: Log): set<GroupName> {
    if log in s.logToGroups then s.logToGroups[log] else {}
  }

  predicate Awaited(s: State, log: Log) {
    exists g :: g in GroupsOf(s, log) && Need(s, g) > 0
  }

  function Request(s: State, log: Log, cancel: Worker): (State, bool) {
    if log in s.results then (s, false)
    else
      var s' := s.(results := s.results[log := Answer(None, None)]);
      if Awaited(s, log) then (s'.(cancels := s'.cancels[log := Some(cancel)]), true) else (s', false)
  }

  /** The answer is counted against every group of the log, and kept if one of them still needed it. */
  function Count(s: State, log: Log, answer: Answer): State {
    s.(groupNeeds := map g | g in s.groupNeeds.Keys + GroupsOf(s, log) ::
                       if g in GroupsOf(s, log) then Need(s, g) - 1 else Need(s, g),
       results := if Awaited(s, log) then s.results[log := answer] else s.results)
  }

  predicate Superfluous(s: State, log: Log) {
    log in s.logToGroups && !Awaited(s, log) && log in s.cancels && s.cancels[log].Some?
  }

  /** Cancels the requests no group waits for any more. */
  function CancelSuperfluous(s: State): State {
    s.(cancels := map l | l in s.cancels :: if Superfluous(s, l) then None else s.cancels[l])
  }

  function Fired(s: State): set<Worker> {
    set l | l in s.cancels && Superfluous(s, l) :: s.cancels[l].value
  }

  function SetResult(s: State, log: Log, sct: Option<Sct>, err: Option<string>): State {
    if sct.None? then s.(results := s.results[log := Answer(None, err)])
    else CancelSuperfluous(Count(s, log, Answer(sct, err)))
  }

  /** The cancel functions that SetResult calls. */
  function FiredBySetResult(s: State, log: Log, sct: Option<Sct>, err: Option<string>): set<Worker> {
    if sct.None? then {} else Fired(Count(s, log, Answer(sct, err)))
  }

  predicate GroupComplete(s: State, group: GroupName) {
    group !in s.groupNeeds || s.groupNeeds[group] <= 0
  }

  /** The logs whose SCT is kept. */
  function Recorded(s: State): set<Log> {
    set l | l in s.results && s.results[l].sct.Some?
  }

  /** A list of all SCTs kept, each once, in whatever order the map is walked. */
  ghost predicate Collects(s: State, scts: seq<(Log, Sct)>) {
    && (forall i :: 0 <= i < |scts| ==> scts[i].0 in s.results && s.results[scts[i].0].sct == Some(scts[i].1))
    && (forall i, j :: 0 <= i < j < |scts| ==> scts[i].0 != scts[j].0)
    && (forall l :: l in Recorded(s) ==> exists i :: 0 <= i < |scts| && scts[i].0 == l)
  }

  // ----- The object -----

  class SafeSubmissionState {
    var logToGroups: map<Log, set<GroupName>>
    var groupNeeds: map<GroupName, int>
    var results: map<Log, Answer>
    var cancels: map<Log, Option<Worker>>

    ghost function Model(): State
      reads this
    {
      State(logToGroups, groupNeeds, results, cancels)
    }

    constructor (groups: Policy)
      requires WellNamed(groups)
      ensures Model() == NewState(groups)
    {
      logToGroups := ByLogs(groups);
      var needs: map<GroupName, int> := map[];
      var rest := groups.Keys;
      while rest != {}
        invariant rest <= groups.Keys && needs.Keys == groups.Keys - rest
        invariant forall k :: k in needs ==> needs[k] == groups[k].minInclusions
        decreases rest
      {
        var k :| k in rest;
        needs := needs[groups[k].name := groups[k].minInclusions];
        rest := rest - {k};
      }
      groupNeeds := needs;
      results, cancels := map[], map[];
    }

    /** Whether some group of the log still needs an SCT; stops at the first such group. */
    method IsAwaited(log: Log) returns (awaited: bool)
      ensures awaited == Awaited(Model(), log)
    {
      var groups := GroupsOf(State(logToGroups, groupNeeds, results, cancels), log);
      var rest := groups;
      while rest != {}
        invariant rest <= groups && forall g :: g in groups - rest ==> Need(Model(), g) <= 0
        decreases rest
      {
        var g :| g in rest;
        if g in groupNeeds && groupNeeds[g] > 0 {
          return true;
        }
        rest := rest - {g};
      }
      return false;
    }

    method RequestLog(log: Log, cancel: Worker) returns (first: bool)
      modifies this
      ensures (Model(), first) == Request(old(Model()), log, cancel)
    {
      if log in results {
        return false;
      }
      results := results[log := Answer(None, None)];
      var isAwaited := IsAwaited(log);
      assert Awaited(Model(), log) == Awaited(old(Model()), log) by {
        AwaitedDepends(Model(), old(Model()), log);
      }
      if !isAwaited {
        return false;
      }
      cancels := cancels[log := Some(cancel)];
      return true;
    }

    method SetLogResult(log: Log, sct: Option<Sct>, err: Option<string>) returns (fired: seq<Worker>)
      modifies this
      ensures Model() == SetResult(old(Model()), log, sct, err)
      ensures (set w | w in fired) == FiredBySetResult(old(Model()), log, sct, err)
    {
      if sct.None? {
        results := results[log := Answer(sct, err)];
        return [];
      }
      CountAnswer(log, Answer(sct, err));
      ghost var t := Model();
      fired := CancelAllSuperfluous();
      CancelledIsCancel(t, cancels, fired);
    }

    /** One pass over the groups of the log. */
    method CountAnswer(log: Log, answer: Answer)
      modifies `groupNeeds, `results
      ensures Model() == Count(old(Model()), log, answer)
    {
      ghost var s := Model();
      ghost var done: seq<GroupName> := [];
      var rest := GroupsOf(State(logToGroups, groupNeeds, results, cancels), log);
      while rest != {}
        invariant Model() == CountAlong(s, log, answer, done)
        invariant Enumerates(done, GroupsOf(s, log) - rest) && rest <= GroupsOf(s, log)
        decreases rest
      {
        var g :| g in rest;
        var need := if g in groupNeeds then groupNeeds[g] else 0;
        if need > 0 {
          results := results[log := answer];
        }
        groupNeeds := groupNeeds[g := need - 1];
        EnumeratesMore(done, GroupsOf(s, log), rest, g);
        done, rest := done + [g], rest - {g};
      }
      assert GroupsOf(s, log) - rest == GroupsOf(s, log);
      CountAlongIsCount(s, log, answer, done);
    }

    /** One pass over all logs, calling and clearing the cancel functions that are no longer wanted. */
    method CancelAllSuperfluous() returns (fired: seq<Worker>)
      modifies `cancels
      ensures Cancelled(old(Model()), cancels, fired)
    {
      ghost var s := Model();
      var rest := logToGroups.Keys;
      fired := [];
      while rest != {}
        invariant rest <= logToGroups.Keys
        invariant cancels.Keys == s.cancels.Keys
        invariant forall l :: l in cancels ==>
                  cancels[l] == if l !in rest && Superfluous(s, l) then None else s.cancels[l]
        invariant forall w :: w in fired ==> exists l :: l !in rest && Superfluous(s, l) && s.cancels[l].value == w
        invariant forall l :: l !in rest && Superfluous(s, l) ==> s.cancels[l].value in fired
        decreases rest
      {
        var l :| l in rest;
        var isAwaited := IsAwaited(l);
        AwaitedDepends(Model(), s, l);
        if !isAwaited && l in cancels && cancels[l].Some? {
          assert Superfluous(s, l);
          fired := fired + [cancels[l].value];
          cancels := cancels[l := None];
        }
        rest := rest - {l};
      }
    }

    method IsGroupComplete(group: GroupName) returns (complete: bool)
      ensures complete == GroupComplete(Model(), group)
    {
      return group !in groupNeeds || groupNeeds[group] <= 0;
    }

    /** One pass over the results. */
    method CollectScts() returns (scts: seq<(Log, Sct)>)
      ensures Collects(Model(), scts)
    {
      var rest := results.Keys;
      scts := [];
      while rest != {}
        invariant rest <= results.Keys
        invariant forall i :: 0 <= i < |scts| ==>
                    scts[i].0 in results.Keys - rest && results[scts[i].0].sct == Some(scts[i].1)
        invariant forall i, j :: 0 <= i < j < |scts| ==> scts[i].0 != scts[j].0
        invariant forall l :: l in results.Keys - rest && results[l].sct.Some? ==>
                  exists i :: 0 <= i < |scts| && scts[i].0 == l
        decreases rest
      {
        var l :| l in rest;
        ghost var before := scts;
        if results[l].sct.Some? {
          scts := scts + [(l, results[l].sct.value)];
          assert scts[|before|].0 == l;
        }
        assert forall i :: 0 <= i < |before| ==> scts[i] == before[i];
        rest := rest - {l};
      }
    }
  }

  lemma AwaitedDepends(s: State, s': State, log: Log)
    requires s.logToGroups == s'.logToGroups && s.groupNeeds == s'.groupNeeds
    ensures Awaited(s, log) == Awaited(s', log)
  {
    assert forall g :: Need(s, g) == Need(s', g);
    assert GroupsOf(s, log) == GroupsOf(s', log);
  }

  /** The pass over the groups, in the order it happened to take. */
  ghost function CountAlong(s: State, log: Log, answer: Answer, groups: seq<GroupName>): State {
    if groups == [] then s
    else
      var t, g := CountAlong(s, log, answer, groups[..|groups| - 1]), groups[|groups| - 1];
      t.(groupNeeds := t.groupNeeds[g := Need(t, g) - 1],
         results := if Need(t, g) > 0 then t.results[log := answer] else t.results)
  }

  ghost predicate Enumerates<T(!new)>(xs: seq<T>, all: set<T>) {
    && (forall x :: x in xs <==> x in all)
    && forall i, j :: 0 <= i < j < |xs| ==> xs[i] != xs[j]
  }

  lemma EnumeratesMore<T(!new)>(xs: seq<T>, all: set<T>, rest: set<T>, x: T)
    requires Enumerates(xs, all - rest) && x in rest && rest <= all
    ensures Enumerates(xs + [x], all - (rest - {x}))
  {
  }

  /** Whatever the order, the outcome is the same. */
  lemma CountAlongIsCount(s: State, log: Log, answer: Answer, groups: seq<GroupName>)
    requires Enumerates(groups, GroupsOf(s, log))
    ensures CountAlong(s, log, answer, groups) == Count(s, log, answer)
  {
    CountAlongNeeds(s, log, answer, groups);
    CountAlongResults(s, log, answer, groups);
    SomeNeedsMeans(s, groups);
    assert SomeNeeds(s, groups) == Awaited(s, log);
    assert CountAlong(s, log, answer, groups).groupNeeds == Count(s, log, answer).groupNeeds;
  }

  lemma {:induction false} CountAlongNeeds(s: State, log: Log, answer: Answer, groups: seq<GroupName>)
    requires forall i, j :: 0 <= i < j < |groups| ==> groups[i] != groups[j]
    ensures var t := CountAlong(s, log, answer, groups);
            && t.logToGroups == s.logToGroups && t.cancels == s.cancels
            && (forall g :: g in t.groupNeeds <==> g in s.groupNeeds || g in groups)
            && (forall g :: Need(t, g) == if g in groups then Need(s, g) - 1 else Need(s, g))
  {
    if groups != [] {
      var pre, last := groups[..|groups| - 1], groups[|groups| - 1];
      CountAlongNeeds(s, log, answer, pre);
      assert groups == pre + [last];
    }
  }

  ghost predicate SomeNeeds(s: State, groups: seq<GroupName>) {
    groups != [] && (Need(s, groups[|groups| - 1]) > 0 || SomeNeeds(s, groups[..|groups| - 1]))
  }

  lemma {:induction false} SomeNeedsMeans(s: State, groups: seq<GroupName>)
    ensures SomeNeeds(s, groups) <==> exists g :: g in groups && Need(s, g) > 0
  {
    if groups != [] {
      var pre, last := groups[..|groups| - 1], groups[|groups| - 1];
      SomeNeedsMeans(s, pre);
      assert groups == pre + [last];
    }
  }

  lemma {:induction false} CountAlongResults(s: State, log: Log, answer: Answer, groups: seq<GroupName>)
    requires forall i, j :: 0 <= i < j < |groups| ==> groups[i] != groups[j]
    ensures CountAlong(s, log, answer, groups).results
            == if SomeNeeds(s, groups) then s.results[log := answer] else s.results
  {
    if groups != [] {
      var pre, last := groups[..|groups| - 1], groups[|groups| - 1];
      CountAlongNeeds(s, log, answer, pre);
      CountAlongResults(s, log, answer, pre);
      assert last !in pre;
      var kept := s.results[log := answer];
      assert kept[log := answer] == kept;
    }
  }

  /** What the pass over the logs leaves, entry by entry. */
  ghost predicate Cancelled(s: State, cancels: map<Log, Option<Worker>>, fired: seq<Worker>) {
    && cancels.Keys == s.cancels.Keys
    && (forall l :: l in cancels ==> cancels[l] == if Superfluous(s, l) then None else s.cancels[l])
    && (forall w :: w in fired ==> exists l :: Superfluous(s, l) && s.cancels[l].value == w)
    && (forall l :: Superfluous(s, l) ==> s.cancels[l].value in fired)
  }

  lemma CancelledIsCancel(s: State, cancels: map<Log, Option<Worker>>, fired: seq<Worker>)
    requires Cancelled(s, cancels, fired)
    ensures s.(cancels := cancels) == CancelSuperfluous(s)
    ensures (set w | w in fired) == Fired(s)
  {
    assert CancelSuperfluous(s).cancels == cancels;
  }
}
