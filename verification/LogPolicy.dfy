/**
 Groups of logs and their weights (ctpolicy/ctpolicy.go, ctpolicy/tools.go), the order
 in which a submission asks the logs of a group, and the groups of the Chrome policy
 (ctpolicy/chromepolicy.go). Weights are reals.
 */
module LogPolicy {
  import opened Bytes
  import opened Sets
  import opened SubmissionState
  import SubmissionBounds

  type Weights = map<Log, real>

  /** The logs that a weighted choice can pick. */
  function Positive(weights: Weights): set<Log> {
    set l | l in weights && weights[l] > 0.0
  }

  predicate NonNegative(weights: Weights) {
    forall l :: l in weights ==> weights[l] >= 0.0
  }

  // ----- Sums over maps that are walked in any order -----

  ghost function Sum(logs: set<Log>, weights: Weights): real
    requires logs <= weights.Keys
    decreases |logs|
  {
    if logs == {} then 0.0 else var l := Pick(logs); weights[l] + Sum(logs - {l}, weights)
  }

  lemma {:induction false} SumSplit(logs: set<Log>, weights: Weights, l: Log)
    requires l in logs && logs <= weights.Keys
    ensures Sum(logs, weights) == weights[l] + Sum(logs - {l}, weights)
    decreases |logs|
  {
    var p := Pick(logs);
    if p != l {
      SumSplit(logs - {p}, weights, l);
      SumSplit(logs - {l}, weights, p);
      assert logs - {p} - {l} == logs - {l} - {p};
    }
  }

  lemma {:induction false} SumPositive(logs: set<Log>, weights: Weights)
    requires logs <= weights.Keys && NonNegative(weights)
    ensures Sum(logs, weights) >= 0.0
    ensures Sum(logs, weights) > 0.0 <==> exists l :: l in logs && weights[l] > 0.0
    decreases |logs|
  {
    if logs != {} {
      var p := Pick(logs);
      SumPositive(logs - {p}, weights);
    }
  }

  /** The total, unless a weight is negative. */
  method Total(weights: Weights) returns (sum: Option<real>)
    ensures sum.Some? <==> NonNegative(weights)
    ensures sum.Some? ==> sum.value == Sum(weights.Keys, weights)
  {
    var total := 0.0;
    var rest := weights.Keys;
    while rest != {}
      invariant rest <= weights.Keys && total + Sum(rest, weights) == Sum(weights.Keys, weights)
      invariant forall l :: l in weights.Keys - rest ==> weights[l] >= 0.0
      decreases rest
    {
      var l :| l in rest;
      if weights[l] < 0.0 {
        return None;
      }
      SumSplit(rest, weights, l);
      total := total + weights[l];
      rest := rest - {l};
    }
    return Some(total);
  }

  /** Takes weights off the target, in any order, until one takes it below zero. */
  method PickAt(weights: Weights, target: real) returns (picked: Option<Log>, ghost passed: set<Log>)
    requires NonNegative(weights) && target >= 0.0
    ensures picked.Some? <==> target < Sum(weights.Keys, weights)
    ensures picked.Some? ==>
              && passed <= weights.Keys && picked.value in weights.Keys - passed
              && Sum(passed, weights) <= target < Sum(passed, weights) + weights[picked.value]
  {
    var r := target;
    var rest := weights.Keys;
    passed := {};
    while rest != {}
      invariant rest <= weights.Keys && passed == weights.Keys - rest && r >= 0.0
      invariant r == target - Sum(passed, weights)
      decreases rest
    {
      var l :| l in rest;
      SumSplit(passed + {l}, weights, l);
      assert passed + {l} - {l} == passed;
      rest := rest - {l};
      if weights[l] == 0.0 {
        passed := passed + {l};
        continue;
      }
      r := r - weights[l];
      if r < 0.0 {
        SumGrows(passed + {l}, weights.Keys, weights);
        return Some(l), passed;
      }
      passed := passed + {l};
    }
    assert passed == weights.Keys;
    return None, {};
  }

  lemma {:induction false} SumGrows(part: set<Log>, all: set<Log>, weights: Weights)
    requires part <= all <= weights.Keys && NonNegative(weights)
    ensures Sum(part, weights) <= Sum(all, weights)
    decreases |all|
  {
    var more := all - part;
    if more == {} {
      assert part == all;
    } else {
      var l := Pick(more);
      SumSplit(all, weights, l);
      SumGrows(part, all - {l}, weights);
    }
  }

  /**
   One weighted random choice, for any draw. With exact arithmetic it picks a log of
   positive weight whenever there is one: the one whose share of the total, after the
   shares of the logs `passed` before it, holds the draw.
   */
  method WeightedRandomSample(weights: Weights, draw: real) returns (picked: Option<Log>, ghost passed: set<Log>)
    requires 0.0 <= draw < 1.0
    ensures picked.Some? ==> picked.value in Positive(weights)
    ensures picked.Some? <==> NonNegative(weights) && Positive(weights) != {}
    ensures picked.Some? ==>
              && passed <= weights.Keys && picked.value !in passed
              && Sum(passed, weights) <= draw * Sum(weights.Keys, weights)
              && draw * Sum(weights.Keys, weights) < Sum(passed, weights) + weights[picked.value]
  {
    var sum := Total(weights);
    if sum.None? {
      return None, {};
    }
    SumPositive(weights.Keys, weights);
    PositiveMeans(weights);
    var total := sum.value;
    ghost var target := DrawBound(draw, total);
    picked, passed := PickAt(weights, draw * total);
    assert picked.Some? <==> target < total;
  }

  lemma PositiveMeans(weights: Weights)
    ensures Positive(weights) != {} <==> exists l :: l in weights.Keys && weights[l] > 0.0
  {
    if l :| l in weights.Keys && weights[l] > 0.0 {
      assert l in Positive(weights);
    }
    if l :| l in Positive(weights) {
      assert l in weights.Keys;
    } else {
      assert Positive(weights) == {};
    }
  }

  /** A draw falls short of the total exactly if there is one. */
  lemma DrawBound(draw: real, sum: real) returns (target: real)
    requires 0.0 <= draw < 1.0 && sum >= 0.0
    ensures target == draw * sum && 0.0 <= target
    ensures target < sum <==> sum > 0.0
  {
    target := draw * sum;
  }

  // ----- A group of logs -----

  datatype Operator = Operator(googleOperated: bool, logs: seq<Log>)

  function LogsOfAll(operators: seq<Operator>, included: Operator -> bool): set<Log> {
    set op, l | op in operators && included(op) && l in op.logs :: l
  }

  lemma LogsOfMore(operators: seq<Operator>, op: Operator, included: Operator -> bool)
    ensures LogsOfAll(operators + [op], included)
            == LogsOfAll(operators, included) + if included(op) then (set l | l in op.logs) else {}
  {
  }

  /** How many logs of positive weight a group asks for: its minimum, but one at the least. */
  function Required(minInclusions: int): int {
    if minInclusions < 1 then 1 else minInclusions
  }

  /** The weights after an update: those given for members, and nothing for the other members. */
  function Reweighted(logs: set<Log>, weights: Weights): Weights {
    map l | l in logs :: if l in weights then weights[l] else 0.0
  }

  class LogGroupInfo {
    const name: GroupName
    const isBase: bool
    var logUrls: set<Log>
    var minInclusions: int
    var logWeights: Weights

    /** Weights are non-negative, on exactly the members, and enough of them are positive. */
    ghost predicate Valid()
      reads this
    {
      && logWeights.Keys == logUrls
      && NonNegative(logWeights)
      && |Positive(logWeights)| >= minInclusions >= 0
    }

    /** The group as a submission sees it. */
    function View(): Group
      reads this
    {
      Group(name, logUrls, minInclusions, isBase)
    }

    constructor (name: GroupName, isBase: bool)
      ensures this.name == name && this.isBase == isBase
      ensures logUrls == {} && logWeights == map[] && minInclusions == 0
    {
      this.name, this.isBase := name, isBase;
      logUrls, logWeights, minInclusions := {}, map[], 0;
    }

    /** The number is kept even when the group is too small for it; only then, or when negative, it is an error. */
    method SetMinInclusions(i: int) returns (ok: bool)
      modifies `minInclusions
      ensures ok == (0 <= i <= |logUrls|)
      ensures minInclusions == if i < 0 then old(minInclusions) else i
    {
      if i < 0 {
        return false;
      }
      minInclusions := i;
      return i <= |logUrls|;
    }

    /** The members are the logs of the operators included, each with weight 1. */
    method Populate(operators: seq<Operator>, included: Operator -> bool)
      modifies `logUrls, `logWeights
      ensures logUrls == LogsOfAll(operators, included)
      ensures logWeights.Keys == logUrls && forall l :: l in logWeights ==> logWeights[l] == 1.0
    {
      logUrls, logWeights := {}, map[];
      for i := 0 to |operators|
        invariant logUrls == LogsOfAll(operators[..i], included)
        invariant logWeights.Keys == logUrls && forall l :: l in logWeights ==> logWeights[l] == 1.0
      {
        if included(operators[i]) {
          AddLogs(operators[i].logs);
        }
        LogsOfMore(operators[..i], operators[i], included);
        assert operators[..i + 1] == operators[..i] + [operators[i]];
      }
      assert operators[..|operators|] == operators;
    }

    method AddLogs(logs: seq<Log>)
      requires logWeights.Keys == logUrls && forall l :: l in logWeights ==> logWeights[l] == 1.0
      modifies `logUrls, `logWeights
      ensures logUrls == old(logUrls) + (set l | l in logs)
      ensures logWeights.Keys == logUrls && forall l :: l in logWeights ==> logWeights[l] == 1.0
    {
      for j := 0 to |logs|
        invariant logUrls == old(logUrls) + (set l | l in logs[..j])
        invariant logWeights.Keys == logUrls && forall l :: l in logWeights ==> logWeights[l] == 1.0
      {
        logUrls := logUrls + {logs[j]};
        logWeights := logWeights[logs[j] := 1.0];
        assert logs[..j + 1] == logs[..j] + [logs[j]];
      }
      assert logs[..|logs|] == logs;
    }

    /** Counts members of positive weight until there are enough. */
    method SatisfyMinimalInclusion(weights: Weights) returns (ok: bool)
      ensures ok <==> |Positive(weights) * logUrls| >= Required(minInclusions)
    {
      var nonZeroNum := 0;
      var rest := weights.Keys;
      ghost var wanted := Positive(weights) * logUrls;
      while rest != {}
        invariant rest <= weights.Keys
        invariant nonZeroNum == |wanted - rest| && (nonZeroNum < minInclusions || nonZeroNum == 0)
        decreases rest
      {
        var l :| l in rest;
        RemoveOne(wanted, rest, l);
        rest := rest - {l};
        if l in logUrls && weights[l] > 0.0 {
          nonZeroNum := nonZeroNum + 1;
          if nonZeroNum >= minInclusions {
            SubsetCard(wanted - rest, wanted);
            return true;
          }
        }
      }
      assert wanted - rest == wanted;
      return false;
    }

    /** Replaces all weights, unless one is negative or too few members keep a positive one. */
    method SetLogWeights(weights: Weights) returns (ok: bool)
      requires Valid()
      modifies `logWeights
      ensures Valid()
      ensures ok <==> NonNegative(weights) && |Positive(weights) * logUrls| >= Required(minInclusions)
      ensures logWeights == if ok then Reweighted(logUrls, weights) else old(logWeights)
    {
      var rest := weights.Keys;
      while rest != {}
        invariant rest <= weights.Keys && forall l :: l in weights.Keys - rest ==> weights[l] >= 0.0
        decreases rest
      {
        var l :| l in rest;
        if weights[l] < 0.0 {
          return false;
        }
        rest := rest - {l};
      }
      var enough := SatisfyMinimalInclusion(weights);
      if !enough {
        return false;
      }
      assert Positive(Reweighted(logUrls, weights)) == Positive(weights) * logUrls;
      logWeights := Reset(logWeights);
      AssignWeights(weights);
      return true;
    }

    method Reset(before: Weights) returns (after: Weights)
      requires before.Keys == logUrls
      ensures after.Keys == logUrls && forall l :: l in after ==> after[l] == 0.0
    {
      after := before;
      var rest := logUrls;
      while rest != {}
        invariant rest <= logUrls && after.Keys == logUrls && forall l :: l in logUrls - rest ==> after[l] == 0.0
        decreases rest
      {
        var l :| l in rest;
        after := after[l := 0.0];
        rest := rest - {l};
      }
    }

    method AssignWeights(weights: Weights)
      requires logWeights.Keys == logUrls && forall l :: l in logWeights ==> logWeights[l] == 0.0
      modifies `logWeights
      ensures logWeights == Reweighted(logUrls, weights)
    {
      var rest := weights.Keys;
      while rest != {}
        invariant rest <= weights.Keys && logWeights.Keys == logUrls
        invariant forall l :: l in logUrls ==> logWeights[l] == if l in weights && l !in rest then weights[l] else 0.0
        decreases rest
      {
        var l :| l in rest;
        if l in logUrls {
          logWeights := logWeights[l := weights[l]];
        }
        rest := rest - {l};
      }
    }

    /**
     Changes one weight, unless the log is no member, the weight is negative or too few positive
     ones would be left.
     */
    method SetLogWeight(log: Log, w: real) returns (ok: bool)
      requires Valid()
      modifies `logWeights
      ensures Valid()
      ensures ok <==> log in logUrls && w >= 0.0 && |Positive(old(logWeights)[log := w])| >= Required(minInclusions)
      ensures logWeights == if ok then old(logWeights)[log := w] else old(logWeights)
    {
      if log !in logUrls {
        return false;
      }
      if w < 0.0 {
        return false;
      }
      var newWeights := logWeights[log := w];
      var enough := SatisfyMinimalInclusion(newWeights);
      assert Positive(newWeights) * logUrls == Positive(newWeights);
      if !enough {
        return false;
      }
      logWeights := newWeights;
      return true;
    }

    /** For every draw, the session lists the logs of positive weight, each once, and enough of them. */
    method GetSubmissionSession(draws: seq<real>) returns (session: seq<Log>)
      requires Valid()
      requires |draws| == |logUrls| && forall i :: 0 <= i < |draws| ==> 0.0 <= draws[i] < 1.0
      ensures Enumerates(session, Positive(logWeights)) && |session| == |Positive(logWeights)|
      ensures FullSession(View(), session)
    {
      session := [];
      if logUrls == {} {
        assert Positive(logWeights) == {};
        return;
      }
      var unprocessed := logWeights;
      for i := 0 to |draws|
        invariant |session| == i && NonNegative(unprocessed)
        invariant unprocessed.Keys <= logWeights.Keys
        invariant forall l :: l in unprocessed ==> unprocessed[l] == logWeights[l]
        invariant Enumerates(session, Positive(logWeights) - Positive(unprocessed))
        invariant |Positive(unprocessed)| + i == |Positive(logWeights)|
      {
        var sample, _ := WeightedRandomSample(unprocessed, draws[i]);
        if sample.None? {
          assert Positive(unprocessed) == {};
          assert Positive(logWeights) - Positive(unprocessed) == Positive(logWeights);
          SessionIsFull(View(), logWeights, session);
          return;
        }
        EnumeratesMore(session, Positive(logWeights), Positive(unprocessed), sample.value);
        assert Positive(unprocessed - {sample.value}) == Positive(unprocessed) - {sample.value};
        session := session + [sample.value];
        unprocessed := unprocessed - {sample.value};
      }
      SubsetCard(Positive(logWeights), logUrls);
      assert Positive(unprocessed) == {};
      assert Positive(logWeights) - Positive(unprocessed) == Positive(logWeights);
      SessionIsFull(View(), logWeights, session);
    }
  }

  lemma SessionIsFull(group: Group, weights: Weights, session: seq<Log>)
    requires weights.Keys == group.logs && |Positive(weights)| >= group.minInclusions
    requires Enumerates(session, Positive(weights)) && |session| == |Positive(weights)|
    ensures FullSession(group, session)
  {
    forall i | 0 <= i < |session| ensures session[i] in group.logs {
      assert session[i] in Positive(weights);
    }
  }

  // ----- From groups to logs -----

  /** Reverses the map from groups to logs. */
  method GroupByLogs(groups: Policy) returns (result: map<Log, set<GroupName>>)
    ensures result == ByLogs(groups)
  {
    result := map[];
    var names := groups.Keys;
    ghost var done: Policy := map[];
    while names != {}
      invariant names <= groups.Keys && done.Keys == groups.Keys - names
      invariant forall k :: k in done ==> done[k] == groups[k]
      invariant result == ByLogs(done)
      decreases names
    {
      var k :| k in names;
      result := AddGroup(result, k, groups[k].logs);
      GroupAdded(done, k, groups[k], result);
      done := done[k := groups[k]];
      names := names - {k};
    }
    assert done == groups;
  }

  function GroupsAt(m: map<Log, set<GroupName>>, l: Log): set<GroupName> {
    if l in m then m[l] else {}
  }

  /** `after` is `before` with one more group. */
  ghost predicate HasGroup(before: map<Log, set<GroupName>>, name: GroupName, logs: set<Log>,
                           after: map<Log, set<GroupName>>) {
    && after.Keys == before.Keys + logs
    && forall l :: l in after ==> GroupsAt(after, l) == GroupsAt(before, l) + if l in logs then {name} else {}
  }

  method AddGroup(before: map<Log, set<GroupName>>, name: GroupName, logs: set<Log>)
    returns (after: map<Log, set<GroupName>>)
    ensures HasGroup(before, name, logs, after)
  {
    after := before;
    var rest := logs;
    ghost var done: set<Log> := {};
    NoLogAdded(before, name);
    while rest != {}
      invariant rest <= logs && done == logs - rest && HasGroup(before, name, done, after)
      decreases rest
    {
      var l :| l in rest;
      ghost var was := after;
      after := AddToLog(after, l, name);
      LogAdded(before, name, done, was, after, l);
      rest, done := rest - {l}, done + {l};
    }
    assert done == logs;
  }

  method AddToLog(before: map<Log, set<GroupName>>, l: Log, name: GroupName) returns (after: map<Log, set<GroupName>>)
    ensures after == before[l := GroupsAt(before, l) + {name}]
  {
    after := before;
    if l !in after {
      after := after[l := {}];
    }
    after := after[l := after[l] + {name}];
  }

  lemma NoLogAdded(before: map<Log, set<GroupName>>, name: GroupName)
    ensures HasGroup(before, name, {}, before)
  {
  }

  lemma LogAdded(before: map<Log, set<GroupName>>, name: GroupName, logs: set<Log>, was: map<Log, set<GroupName>>,
                 after: map<Log, set<GroupName>>, l: Log)
    requires HasGroup(before, name, logs, was) && l !in logs
    requires after == was[l := GroupsAt(was, l) + {name}]
    ensures HasGroup(before, name, logs + {l}, after)
  {
  }

  lemma GroupsAtLog(groups: Policy, l: Log)
    ensures GroupsAt(ByLogs(groups), l) == set g | g in groups && l in groups[g].logs
  {
  }

  lemma GroupsAtMore(done: Policy, k: GroupName, group: Group, l: Log)
    requires k !in done
    ensures GroupsAt(ByLogs(done[k := group]), l) == GroupsAt(ByLogs(done), l) + if l in group.logs then {k} else {}
  {
    GroupsAtLog(done, l);
    GroupsAtLog(done[k := group], l);
  }

  lemma GroupAdded(done: Policy, k: GroupName, group: Group, after: map<Log, set<GroupName>>)
    requires k !in done && HasGroup(ByLogs(done), k, group.logs, after)
    ensures after == ByLogs(done[k := group])
  {
    var more := ByLogs(done[k := group]);
    LogsAdded(done, k, group);
    forall l | l in after ensures after[l] == more[l] {
      GroupsAtMore(done, k, group, l);
      assert after[l] == GroupsAt(after, l) && more[l] == GroupsAt(more, l);
    }
  }

  lemma LogsAdded(done: Policy, k: GroupName, group: Group)
    requires k !in done
    ensures AllLogs(done[k := group]) == AllLogs(done) + group.logs
  {
    var more := done[k := group];
    forall l | l in AllLogs(done) + group.logs ensures l in AllLogs(more) {
      if l in group.logs {
        assert k in more && l in more[k].logs;
      } else {
        var g :| g in done && l in done[g].logs;
        assert g in more && l in more[g].logs;
      }
    }
  }

  // ----- The Chrome policy -----

  predicate IsGoogle(op: Operator) {
    op.googleOperated
  }

  predicate IsNotGoogle(op: Operator) {
    !op.googleOperated
  }

  predicate IsAny(op: Operator) {
    true
  }

  const GOOGLE := GroupName("Google-operated")
  const NON_GOOGLE := GroupName("Non-Google-operated")
  const BASE := GroupName("All-logs")

  datatype Date = Date(year: int, month: int, day: int)

  /** Whole months between two dates. */
  function LifetimeInMonths(notBefore: Date, notAfter: Date): int {
    (notAfter.year - notBefore.year) * 12 + (notAfter.month - notBefore.month)
    - if notAfter.day < notBefore.day then 1 else 0
  }

  /** `m` months after the first date is not after the second, by year and month and then by day. */
  predicate LastsMonths(notBefore: Date, notAfter: Date, m: int) {
    var reached, end := notBefore.year * 12 + notBefore.month + m, notAfter.year * 12 + notAfter.month;
    reached < end || (reached == end && notBefore.day <= notAfter.day)
  }

  /** The lifetime is the greatest number of whole months that fit. */
  lemma LifetimeIsWholeMonths(notBefore: Date, notAfter: Date, m: int)
    ensures LastsMonths(notBefore, notAfter, m) <==> m <= LifetimeInMonths(notBefore, notAfter)
  {
  }

  function InclusionCount(months: int): int {
    if months < 15 then 2 else if months <= 27 then 3 else if months <= 39 then 4 else 5
  }

  /** A group over the included operators; an error if it has fewer logs than it must ask for. */
  method NewGroup(name: GroupName, isBase: bool, operators: seq<Operator>, included: Operator -> bool,
                  minInclusions: int)
    returns (group: LogGroupInfo, ok: bool)
    ensures fresh(group)
    ensures ok <==> 0 <= minInclusions <= |LogsOfAll(operators, included)|
    ensures ok ==> group.Valid() && group.View() == Group(name, LogsOfAll(operators, included), minInclusions, isBase)
  {
    group := new LogGroupInfo(name, isBase);
    group.Populate(operators, included);
    ok := group.SetMinInclusions(minInclusions);
    assert Positive(group.logWeights) == group.logUrls;
  }

  /** What a submission makes of the groups. */
  ghost function PolicyOf(groups: map<GroupName, LogGroupInfo>): Policy
    reads groups.Values
  {
    map k | k in groups :: groups[k].View()
  }

  /** The three groups, unless the logs are too few for one of them. */
  method ThreeNewGroups(operators: seq<Operator>, google: GroupName, other: GroupName, base: GroupName, count: int)
    returns (g: LogGroupInfo, o: LogGroupInfo, b: LogGroupInfo, ok: bool)
    ensures ok <==> |LogsOfAll(operators, IsGoogle)| >= 1 && |LogsOfAll(operators, IsNotGoogle)| >= 1
                    && 0 <= count <= |LogsOfAll(operators, IsAny)|
    ensures ok ==> g.Valid() && g.View() == Group(google, LogsOfAll(operators, IsGoogle), 1, false)
    ensures ok ==> o.Valid() && o.View() == Group(other, LogsOfAll(operators, IsNotGoogle), 1, false)
    ensures ok ==> b.Valid() && b.View() == Group(base, LogsOfAll(operators, IsAny), count, true)
  {
    g, ok := NewGroup(google, false, operators, IsGoogle, 1);
    o, b := g, g;
    if !ok {
      return;
    }
    o, ok := NewGroup(other, false, operators, IsNotGoogle, 1);
    if !ok {
      return;
    }
    b, ok := NewGroup(base, true, operators, IsAny, count);
  }

  /** The groups under their names. */
  method Collected(google: GroupName, other: GroupName, base: GroupName, g: LogGroupInfo, o: LogGroupInfo,
                   b: LogGroupInfo)
    returns (groups: map<GroupName, LogGroupInfo>)
    requires google != other && google != base && other != base && g.Valid() && o.Valid() && b.Valid()
    ensures forall k :: k in groups ==> groups[k].Valid()
    ensures PolicyOf(groups) == map[google := g.View(), other := o.View(), base := b.View()]
  {
    groups := map[google := g, other := o, base := b];
  }

  /** The groups of a certificate. */
  method LogsByGroup(notBefore: Date, notAfter: Date, operators: seq<Operator>)
    returns (groups: Option<map<GroupName, LogGroupInfo>>)
    ensures groups.Some? <==>
              && |LogsOfAll(operators, IsGoogle)| >= 1 && |LogsOfAll(operators, IsNotGoogle)| >= 1
              && |LogsOfAll(operators, IsAny)| >= InclusionCount(LifetimeInMonths(notBefore, notAfter))
    ensures groups.Some? ==>
              && (forall k :: k in groups.value ==> groups.value[k].Valid())
              && WellNamed(PolicyOf(groups.value))
              && SubmissionBounds.ChromeShaped(PolicyOf(groups.value), GOOGLE, NON_GOOGLE, BASE)
              && PolicyOf(groups.value)[BASE].logs == LogsOfAll(operators, IsAny)
              && PolicyOf(groups.value)[BASE].minInclusions == InclusionCount(LifetimeInMonths(notBefore, notAfter))
  {
    var g, o, b, ok := ThreeNewGroups(operators, GOOGLE, NON_GOOGLE, BASE,
                                      InclusionCount(LifetimeInMonths(notBefore, notAfter)));
    if !ok {
      return None;
    }
    NamesDiffer();
    var named := Collected(GOOGLE, NON_GOOGLE, BASE, g, o, b);
    OperatorsSplit(operators);
    ThreeGroups(GOOGLE, NON_GOOGLE, BASE, g.View(), o.View(), b.View());
    return Some(named);
  }

  lemma ThreeGroups(google: GroupName, other: GroupName, base: GroupName, g: Group, o: Group, b: Group)
    requires google != other && google != base && other != base
    requires g.name == google && o.name == other && b.name == base
    requires g.minInclusions == 1 && o.minInclusions == 1 && b.minInclusions >= 1 && b.logs == g.logs + o.logs
    ensures var policy := map[google := g, other := o, base := b];
            WellNamed(policy) && SubmissionBounds.ChromeShaped(policy, google, other, base)
  {
  }

  lemma NamesDiffer()
    ensures GOOGLE != NON_GOOGLE && GOOGLE != BASE && NON_GOOGLE != BASE
  {
    assert |GOOGLE.text| == 15 && |NON_GOOGLE.text| == 19 && |BASE.text| == 8;
  }

  lemma OperatorsSplit(operators: seq<Operator>)
    ensures LogsOfAll(operators, IsAny)
            == LogsOfAll(operators, IsGoogle) + LogsOfAll(operators, IsNotGoogle)
  {
  }
}
