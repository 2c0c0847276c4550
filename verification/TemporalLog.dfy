/**
 Temporal logs (client/multilog.go): shards that each take the certificates expiring
 in one interval. A configuration is accepted if its intervals follow each other
 without gap or overlap, and a date is then looked up by going through them.
 */
module TemporalLog {
  import opened Bytes

  /** A configured timestamp, which may not be a valid one. */
  datatype Timestamp = Invalid | At(time: int)

  datatype Shard = Shard(notAfterStart: Option<Timestamp>, notAfterLimit: Option<Timestamp>)

  /** From `lower`, included, to `upper`, excluded; None is no bound on that side. */
  datatype Interval = Interval(lower: Option<int>, upper: Option<int>)

  predicate NotBelow(when: int, lower: Option<int>) {
    lower.Some? ==> lower.value <= when
  }

  predicate Below(when: int, upper: Option<int>) {
    upper.Some? ==> when < upper.value
  }

  predicate Encompasses(i: Interval, when: int) {
    NotBelow(when, i.lower) && Below(when, i.upper)
  }

  // ----- Accepting a configuration -----

  datatype ConfigError =
    | EmptyConfig
    | UnreadableTimestamp
    | InvertedInterval
    | InvalidShard(shard: nat, reason: ConfigError)
    | ExtendsUnbounded(shard: nat)       // the interval before has no upper bound
    | NoLowerBound(shard: nat)
    | NotAdjacent(shard: nat)
    | NoClient(shard: nat)

  function Bound(t: Option<Timestamp>): Result<Option<int>, ConfigError> {
    match t
    case None => Ok(None)
    case Some(Invalid) => Err(UnreadableTimestamp)
    case Some(At(time)) => Ok(Some(time))
  }

  function ShardInterval(shard: Shard): (r: Result<Interval, ConfigError>)
    ensures r.Ok? ==> NonEmpty(r.value)
    ensures r.Ok? <==>
              && shard.notAfterStart != Some(Invalid) && shard.notAfterLimit != Some(Invalid)
              && (shard.notAfterStart.Some? && shard.notAfterLimit.Some? ==>
                    shard.notAfterStart.value.time < shard.notAfterLimit.value.time)
    ensures r.Ok? ==>
              forall when :: Encompasses(r.value, when) <==>
                && (shard.notAfterStart.Some? ==> shard.notAfterStart.value.time <= when)
                && (shard.notAfterLimit.Some? ==> when < shard.notAfterLimit.value.time)
  {
    var lower :- Bound(shard.notAfterStart);
    var upper :- Bound(shard.notAfterLimit);
    if lower.Some? && upper.Some? && !(lower.value < upper.value) then Err(InvertedInterval)
    else Ok(Interval(lower, upper))
  }

  predicate NonEmpty(i: Interval) {
    i.lower.Some? && i.upper.Some? ==> i.lower.value < i.upper.value
  }

  /** The second begins where the first ends. */
  predicate Joins(a: Interval, b: Interval) {
    a.upper.Some? && b.lower == a.upper
  }

  ghost predicate Contiguous(intervals: seq<Interval>) {
    forall i, j :: 0 <= i < |intervals| && j == i + 1 && j < |intervals| ==> Joins(intervals[i], intervals[j])
  }

  ghost predicate Chronological(intervals: seq<Interval>) {
    && intervals != []
    && (forall i :: 0 <= i < |intervals| ==> NonEmpty(intervals[i]))
    && Contiguous(intervals)
  }

  /** The intervals the shards stand for, if all are valid. */
  ghost predicate Reads(shards: seq<Shard>, intervals: seq<Interval>) {
    |intervals| == |shards| && forall i :: 0 <= i < |shards| ==> ShardInterval(shards[i]) == Ok(intervals[i])
  }

  class TemporalLogClient {
    const intervals: seq<Interval>

    ghost predicate Valid() {
      Chronological(intervals)
    }

    constructor (intervals: seq<Interval>)
      ensures this.intervals == intervals
    {
      this.intervals := intervals;
    }

    /** The shard for a date: the only one that takes it, and none exactly outside the span of the configuration. */
    method IndexByDate(when: int) returns (index: Option<nat>)
      requires Valid()
      ensures index.None? <==> !Encompasses(Overall(intervals), when)
      ensures forall i: nat :: i < |intervals| && Encompasses(intervals[i], when) <==> index == Some(i)
    {
      ShardsPartition(intervals, when);
      for i := 0 to |intervals|
        invariant forall k :: 0 <= k < i ==> !Encompasses(intervals[k], when)
      {
        if intervals[i].lower.Some? && when < intervals[i].lower.value {
          continue;
        }
        if intervals[i].upper.Some? && !(when < intervals[i].upper.value) {
          continue;
        }
        return Some(i);
      }
      return None;
    }
  }

  /** Reads the shards one by one, as long as each extends what came before. */
  method ReadIntervals(shards: seq<Shard>) returns (r: Result<seq<Interval>, ConfigError>)
    ensures r.Ok? ==> Reads(shards, r.value) && Chronological(r.value)
    ensures r.Err? ==> !r.error.NoClient?
    ensures r.Err? ==> forall all :: Reads(shards, all) ==> !Chronological(all)
  {
    if |shards| == 0 {
      return Err(EmptyConfig);
    }
    var first := ShardInterval(shards[0]);
    if first.Err? {
      return Err(InvalidShard(0, first.error));
    }
    var overall := first.value;
    var intervals := [overall];
    for i := 1 to |shards|
      invariant |intervals| == i && overall.upper == intervals[i - 1].upper
      invariant Reads(shards[..i], intervals) && Chronological(intervals)
    {
      var interval := ShardInterval(shards[i]);
      if interval.Err? {
        return Err(InvalidShard(i, interval.error));
      }
      if !Joins(intervals[i - 1], interval.value) {
        Unjoined(shards, intervals, i);
      }
      if overall.upper.None? {
        return Err(ExtendsUnbounded(i));
      }
      if interval.value.lower.None? {
        return Err(NoLowerBound(i));
      }
      if interval.value.lower.value != overall.upper.value {
        return Err(NotAdjacent(i));
      }
      ReadsOneMore(shards, intervals, i, interval.value);
      overall := Interval(overall.lower, interval.value.upper);
      intervals := intervals + [interval.value];
    }
    assert shards[..|shards|] == shards;
    return Ok(intervals);
  }

  lemma ReadsOneMore(shards: seq<Shard>, intervals: seq<Interval>, i: nat, next: Interval)
    requires 0 < i < |shards| && Reads(shards[..i], intervals) && Chronological(intervals)
    requires ShardInterval(shards[i]) == Ok(next) && Joins(intervals[i - 1], next)
    ensures Reads(shards[..i + 1], intervals + [next]) && Chronological(intervals + [next])
  {
    assert forall k :: 0 <= k < i ==> shards[..i + 1][k] == shards[..i][k];
  }

  /**
   Accepts a configuration exactly when its intervals are valid and follow each other and a log
   client can be made for each shard, which `creatable` says.
   */
  method NewTemporalLogClient(shards: seq<Shard>, creatable: seq<bool>)
    returns (r: Result<TemporalLogClient, ConfigError>)
    requires |creatable| == |shards|
    ensures r.Ok? ==> fresh(r.value) && r.value.Valid() && Reads(shards, r.value.intervals) && false !in creatable
    ensures r.Err? && false !in creatable ==> forall all :: Reads(shards, all) ==> !Chronological(all)
    ensures r.Err? && r.error.NoClient? ==>
              r.error.shard < |shards| && !creatable[r.error.shard] && false !in creatable[..r.error.shard]
  {
    var intervals := ReadIntervals(shards);
    if intervals.Err? {
      return Err(intervals.error);
    }
    for i := 0 to |shards|
      invariant false !in creatable[..i]
    {
      if !creatable[i] {
        return Err(NoClient(i));
      }
      assert creatable[..i + 1] == creatable[..i] + [creatable[i]];
    }
    assert creatable[..|shards|] == creatable;
    var client := new TemporalLogClient(intervals.value);
    return Ok(client);
  }

  /** A shard that does not join the one before it keeps the whole from being contiguous. */
  lemma Unjoined(shards: seq<Shard>, intervals: seq<Interval>, i: nat)
    requires 0 < i < |shards| && Reads(shards[..i], intervals) && ShardInterval(shards[i]).Ok?
    requires !Joins(intervals[i - 1], ShardInterval(shards[i]).value)
    ensures forall all :: Reads(shards, all) ==> !Chronological(all)
  {
    forall all | Reads(shards, all) ensures !Chronological(all) {
      assert shards[..i][i - 1] == shards[i - 1];
      assert all[i - 1] == intervals[i - 1] && ShardInterval(shards[i]).value == all[i];
    }
  }

  // ----- What an accepted configuration guarantees -----

  lemma {:induction false} EarlierEndsFirst(intervals: seq<Interval>, i: nat, j: nat)
    requires Chronological(intervals) && i < j < |intervals|
    ensures intervals[i].upper.Some? && intervals[j].lower.Some?
    ensures intervals[i].upper.value <= intervals[j].lower.value
    decreases j - i
  {
    assert Joins(intervals[i], intervals[i + 1]);
    if i + 1 < j {
      EarlierEndsFirst(intervals, i + 1, j);
      assert NonEmpty(intervals[i + 1]);
    }
  }

  /** No date belongs to two shards. */
  lemma IntervalsAreDisjoint(intervals: seq<Interval>, i: nat, j: nat, when: int)
    requires Chronological(intervals) && i < j < |intervals|
    ensures !(Encompasses(intervals[i], when) && Encompasses(intervals[j], when))
  {
    EarlierEndsFirst(intervals, i, j);
  }

  ghost function Overall(intervals: seq<Interval>): Interval
    requires intervals != []
  {
    Interval(intervals[0].lower, intervals[|intervals| - 1].upper)
  }

  lemma {:induction false} WithinOverall(intervals: seq<Interval>, when: int, i: nat)
    requires Chronological(intervals) && i < |intervals| && Encompasses(intervals[i], when)
    ensures Encompasses(Overall(intervals), when)
  {
    if 0 < i {
      EarlierEndsFirst(intervals, 0, i);
    }
    if i < |intervals| - 1 {
      EarlierEndsFirst(intervals, i, |intervals| - 1);
    }
  }

  lemma {:induction false} OverallIsCovered(intervals: seq<Interval>, when: int) returns (i: nat)
    requires Chronological(intervals) && Encompasses(Overall(intervals), when)
    ensures i < |intervals| && Encompasses(intervals[i], when)
    decreases |intervals|
  {
    var last := |intervals| - 1;
    if NotBelow(when, intervals[last].lower) {
      i := last;
    } else {
      var pre := intervals[..last];
      assert last > 0 && pre[|pre| - 1] == intervals[last - 1];
      i := OverallIsCovered(pre, when);
    }
  }

  /**
   The shards partition the span from the first lower to the last upper bound: a date in it has one
   shard, others none.
   */
  lemma ShardsPartition(intervals: seq<Interval>, when: int)
    requires Chronological(intervals)
    ensures Encompasses(Overall(intervals), when)
            <==> exists i :: 0 <= i < |intervals| && Encompasses(intervals[i], when)
    ensures forall i, j :: 0 <= i < j < |intervals| ==>
            !(Encompasses(intervals[i], when) && Encompasses(intervals[j], when))
  {
    if Encompasses(Overall(intervals), when) {
      var i := OverallIsCovered(intervals, when);
    }
    forall i | 0 <= i < |intervals| && Encompasses(intervals[i], when) ensures Encompasses(Overall(intervals), when) {
      WithinOverall(intervals, when, i);
    }
    forall i, j | 0 <= i < j < |intervals|
      ensures !(Encompasses(intervals[i], when) && Encompasses(intervals[j], when))
    {
      IntervalsAreDisjoint(intervals, i, j, when);
    }
  }
}
