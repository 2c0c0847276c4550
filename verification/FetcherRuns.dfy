/**
 The fetcher with its goroutines: a range generator and any number of workers that
 take ranges from an unbuffered channel. Every interleaving and every length of the
 log's answers is covered.
 */
module FetcherRuns {
  import opened Bytes
  import opened Fetcher

  datatype Worker = Idle | Busy(range: Range) | Exited(left: Range)

  datatype State = State(
    batchSize: int,
    continuous: bool,
    start: int,                          // the generator's next index
    end: int,                            // where it stops, or waits for a bigger tree
    closed: bool,                        // the generator has returned
    workers: seq<Worker>,
    ctxDone: bool,
    stopped: bool,                       // the generator's own context is done
    // What has happened so far; no step looks at these.
    sent: seq<Range>,
    delivered: seq<EntryBatch>,
    excess: seq<Range>)                  // indices delivered beyond the ranges asked for

  datatype Step =
    | Cancel
    | Stop
    | Grow(size: int)
    | Close
    | Send(i: nat)
    | Answer(i: nat, entries: seq<Leaf>)
    | Finish(i: nat)
    | Abandon(i: nat)
    | Leave(i: nat)

  function Resting(n: nat): seq<Worker> {
    seq(n, i => Idle)
  }

  function Init(batchSize: int, startIndex: int, endIndex: int, continuous: bool, parallelFetch: nat): State {
    State(batchSize, continuous, startIndex, endIndex, false, Resting(parallelFetch), false, false, [], [], [])
  }

  predicate Running(y: State) {
    !y.closed && (y.start < y.end || y.continuous)
  }

  predicate Fetching(y: State, i: nat) {
    i < |y.workers| && y.workers[i].Busy? && y.workers[i].range.start <= y.workers[i].range.end
  }

  predicate Enabled(y: State, step: Step) {
    match step
    case Cancel => true
    case Stop => true
    case Grow(size) => Running(y) && y.start == y.end && AsUint64(y.end) < size < TWO_63
    case Close => !y.closed && (!Running(y) || y.ctxDone || y.stopped || y.start == y.end)
    case Send(i) => Running(y) && y.start != y.end && i < |y.workers| && y.workers[i].Idle?
    case Answer(i, entries) => Fetching(y, i)
    case Finish(i) => i < |y.workers| && y.workers[i].Busy? && y.workers[i].range.start > y.workers[i].range.end
    case Abandon(i) => Fetching(y, i) && y.ctxDone
    case Leave(i) => i < |y.workers| && y.workers[i].Idle? && y.closed
  }

  function Next(y: State, step: Step): State
    requires Enabled(y, step)
  {
    match step
    case Cancel => y.(ctxDone := true)
    case Stop => y.(stopped := true)
    case Grow(size) => y.(end := size)
    case Close => y.(closed := true)
    case Send(i) =>
      var batchEnd := BatchEnd(y.start, y.end, y.batchSize);
      y.(start := batchEnd, workers := y.workers[i := Busy(Range(y.start, batchEnd - 1))],
         sent := y.sent + [Range(y.start, batchEnd - 1)])
    case Answer(i, entries) =>
      var r := y.workers[i].range;
      y.(workers := y.workers[i := Busy(Range(r.start + |entries|, r.end))],
         delivered := y.delivered + [EntryBatch(r.start, entries)],
         excess := if r.start + |entries| > r.end + 1 then y.excess + [Range(r.end + 1, r.start + |entries| - 1)]
                   else y.excess)
    case Finish(i) => y.(workers := y.workers[i := Idle])
    case Abandon(i) => y.(workers := y.workers[i := Exited(y.workers[i].range)])
    case Leave(i) => y.(workers := y.workers[i := Exited(Range(0, -1))])
  }

  predicate Runs(y: State, steps: seq<Step>, y': State)
    decreases |steps|
  {
    if steps == [] then y == y'
    else Enabled(y, steps[0]) && Runs(Next(y, steps[0]), steps[1..], y')
  }

  // ----- Every index is somewhere, once -----

  /** 1 if `x` is in the range, which may be empty. */
  function In(x: int, r: Range): nat {
    if r.start <= x <= r.end then 1 else 0
  }

  function TimesIn(x: int, ranges: seq<Range>): nat {
    if ranges == [] then 0 else TimesIn(x, ranges[..|ranges| - 1]) + In(x, ranges[|ranges| - 1])
  }

  function Covered(b: EntryBatch): Range {
    Range(b.start, b.start + |b.entries| - 1)
  }

  /** How many of the entries delivered have index `x`. */
  function TimesDelivered(x: int, batches: seq<EntryBatch>): nat {
    if batches == [] then 0
    else TimesDelivered(x, batches[..|batches| - 1]) + In(x, Covered(batches[|batches| - 1]))
  }

  function Left(w: Worker): Range {
    match w
    case Idle => Range(0, -1)
    case Busy(r) => r
    case Exited(r) => r
  }

  /** How many workers were handed index `x` and have not delivered it. */
  function TimesPending(x: int, workers: seq<Worker>): nat {
    if workers == [] then 0 else In(x, Left(workers[0])) + TimesPending(x, workers[1..])
  }

  lemma {:induction false} PendingUpdate(x: int, workers: seq<Worker>, i: nat, w: Worker)
    requires i < |workers|
    ensures TimesPending(x, workers[i := w]) + In(x, Left(workers[i])) == TimesPending(x, workers) + In(x, Left(w))
    decreases |workers|
  {
    if i == 0 {
      assert workers[i := w][1..] == workers[1..];
    } else {
      PendingUpdate(x, workers[1..], i - 1, w);
      assert workers[i := w][1..] == workers[1..][i - 1 := w];
    }
  }

  lemma DeliveredMore(x: int, batches: seq<EntryBatch>, b: EntryBatch)
    ensures TimesDelivered(x, batches + [b]) == TimesDelivered(x, batches) + In(x, Covered(b))
  {
    assert (batches + [b])[..|batches|] == batches;
  }

  lemma TimesInMore(x: int, ranges: seq<Range>, r: Range)
    ensures TimesIn(x, ranges + [r]) == TimesIn(x, ranges) + In(x, r)
  {
    assert (ranges + [r])[..|ranges|] == ranges;
  }

  /** The indices handed out so far end here. */
  function Frontier(y: State): int {
    if y.start < y.end then y.start else y.end
  }

  /** Where the fetching begins: the start index, or the end of the tree if that comes first. */
  function Base(startIndex: int, endIndex: int): int {
    if startIndex < endIndex then startIndex else endIndex
  }

  /** Delivered and pending together are the indices handed out, and what came unasked. */
  ghost predicate Conserved(y: State, base: int) {
    base <= Frontier(y) && forall x :: Balances(x, y, base)
  }

  predicate Balances(x: int, y: State, base: int) {
    TimesDelivered(x, y.delivered) + TimesPending(x, y.workers)
    == In(x, Range(base, Frontier(y) - 1)) + TimesIn(x, y.excess)
  }

  lemma SendConserved(y: State, base: int, i: nat)
    requires y.batchSize > 0 && Conserved(y, base) && Enabled(y, Send(i))
    ensures Conserved(Next(y, Send(i)), base)
  {
    var z := Next(y, Send(i));
    forall x ensures Balances(x, z, base) {
      assert Balances(x, y, base);
      PendingUpdate(x, y.workers, i, z.workers[i]);
    }
  }

  lemma AnswerMoves(x: int, y: State, i: nat, entries: seq<Leaf>)
    requires Enabled(y, Answer(i, entries))
    ensures var z := Next(y, Answer(i, entries));
            TimesDelivered(x, z.delivered) + TimesPending(x, z.workers) + TimesIn(x, y.excess)
            == TimesDelivered(x, y.delivered) + TimesPending(x, y.workers) + TimesIn(x, z.excess)
  {
    var z := Next(y, Answer(i, entries));
    var r := y.workers[i].range;
    PendingUpdate(x, y.workers, i, z.workers[i]);
    DeliveredMore(x, y.delivered, EntryBatch(r.start, entries));
    TimesInMore(x, y.excess, Range(r.end + 1, r.start + |entries| - 1));
  }

  lemma AnswerConserved(y: State, base: int, i: nat, entries: seq<Leaf>)
    requires Conserved(y, base) && Enabled(y, Answer(i, entries))
    ensures Conserved(Next(y, Answer(i, entries)), base)
  {
    var z := Next(y, Answer(i, entries));
    forall x ensures Balances(x, z, base) {
      assert Balances(x, y, base);
      AnswerMoves(x, y, i, entries);
    }
  }

  lemma IdleConserved(y: State, base: int, step: Step)
    requires Conserved(y, base) && Enabled(y, step) && (step.Finish? || step.Abandon? || step.Leave?)
    ensures Conserved(Next(y, step), base)
  {
    var z := Next(y, step);
    forall x ensures Balances(x, z, base) {
      assert Balances(x, y, base);
      PendingUpdate(x, y.workers, step.i, z.workers[step.i]);
    }
  }

  lemma QuietConserved(y: State, base: int, step: Step)
    requires Conserved(y, base) && Enabled(y, step) && (step.Cancel? || step.Stop? || step.Grow? || step.Close?)
    ensures Conserved(Next(y, step), base)
  {
    forall x ensures Balances(x, Next(y, step), base) {
      assert Balances(x, y, base);
    }
  }

  // ----- The other invariants -----

  /** A tree can be bigger: the index is not negative and not the greatest there is. */
  predicate CanGrow(endIndex: int) {
    0 <= endIndex < TWO_63 - 1
  }

  /** What the generator has sent: contiguous ranges, none empty and none too long, up to its next index. */
  ghost predicate SentRight(y: State, startIndex: int, endIndex: int) {
    && y.batchSize > 0 && endIndex <= y.end && IsInt64(endIndex)
    && Tiles(startIndex, y.sent, y.start)
    && (y.sent == [] ==> y.start == startIndex && (startIndex > endIndex ==> y.end == endIndex))
    && (y.sent != [] || startIndex <= endIndex ==> y.start <= y.end)
    && AllProper(y.sent, if startIndex <= endIndex then 0 else 1, y.batchSize)
    && (startIndex > endIndex && y.sent != [] ==> y.sent[0] == Range(startIndex, endIndex - 1))
    && (!y.continuous || !CanGrow(endIndex) ==> y.end == endIndex)
  }

  /** Why goroutines end. */
  ghost predicate EndsRight(y: State) {
    && (y.closed ==> y.ctxDone || y.stopped || y.start == y.end || (!y.continuous && y.start >= y.end))
    && (forall i :: 0 <= i < |y.workers| && y.workers[i].Exited? ==>
          y.ctxDone || (y.closed && y.workers[i].left.start > y.workers[i].left.end))
    && (forall i :: 0 <= i < |y.excess| ==> y.excess[i].start <= y.excess[i].end)
  }

  ghost predicate Safe(y: State, startIndex: int, endIndex: int) {
    Conserved(y, Base(startIndex, endIndex)) && SentRight(y, startIndex, endIndex) && EndsRight(y)
  }

  lemma {:induction false} RestingPending(x: int, n: nat)
    ensures TimesPending(x, Resting(n)) == 0
  {
    if n > 0 {
      RestingPending(x, n - 1);
      assert Resting(n)[1..] == Resting(n - 1);
    }
  }

  lemma InitSafe(batchSize: int, startIndex: int, endIndex: int, continuous: bool, parallelFetch: nat)
    requires batchSize > 0 && IsInt64(endIndex)
    ensures Safe(Init(batchSize, startIndex, endIndex, continuous, parallelFetch), startIndex, endIndex)
  {
    var y := Init(batchSize, startIndex, endIndex, continuous, parallelFetch);
    forall x ensures Balances(x, y, Base(startIndex, endIndex)) {
      RestingPending(x, parallelFetch);
    }
  }

  lemma StepConserved(y: State, step: Step, startIndex: int, endIndex: int)
    requires Safe(y, startIndex, endIndex) && Enabled(y, step)
    ensures Conserved(Next(y, step), Base(startIndex, endIndex))
  {
    match step
    case Send(i) => SendConserved(y, Base(startIndex, endIndex), i);
    case Answer(i, entries) => AnswerConserved(y, Base(startIndex, endIndex), i, entries);
    case Finish(i) => IdleConserved(y, Base(startIndex, endIndex), step);
    case Abandon(i) => IdleConserved(y, Base(startIndex, endIndex), step);
    case Leave(i) => IdleConserved(y, Base(startIndex, endIndex), step);
    case Cancel => QuietConserved(y, Base(startIndex, endIndex), step);
    case Stop => QuietConserved(y, Base(startIndex, endIndex), step);
    case Grow(size) => QuietConserved(y, Base(startIndex, endIndex), step);
    case Close => QuietConserved(y, Base(startIndex, endIndex), step);
  }

  lemma SendSentRight(y: State, i: nat, startIndex: int, endIndex: int)
    requires SentRight(y, startIndex, endIndex) && Enabled(y, Send(i))
    ensures SentRight(Next(y, Send(i)), startIndex, endIndex)
  {
    var batchEnd := BatchEnd(y.start, y.end, y.batchSize);
    TilesOn(startIndex, y.sent, y.start, batchEnd);
    AllProperMore(y.sent, if startIndex <= endIndex then 0 else 1, y.batchSize, Range(y.start, batchEnd - 1));
  }

  lemma AllProperMore(ranges: seq<Range>, from: nat, batchSize: int, r: Range)
    requires AllProper(ranges, from, batchSize) && (|ranges| >= from ==> Proper(r, batchSize))
    ensures AllProper(ranges + [r], from, batchSize)
  {
  }

  lemma StepSentRight(y: State, step: Step, startIndex: int, endIndex: int)
    requires SentRight(y, startIndex, endIndex) && Enabled(y, step)
    ensures SentRight(Next(y, step), startIndex, endIndex)
  {
    if step.Send? {
      SendSentRight(y, step.i, startIndex, endIndex);
    } else {
      assert Next(y, step).sent == y.sent && Next(y, step).start == y.start;
    }
  }

  lemma StepEndsRight(y: State, step: Step)
    requires EndsRight(y) && Enabled(y, step)
    ensures EndsRight(Next(y, step))
  {
  }

  lemma {:induction false} RunSafe(y: State, steps: seq<Step>, y': State, startIndex: int, endIndex: int)
    requires Safe(y, startIndex, endIndex) && Runs(y, steps, y')
    ensures Safe(y', startIndex, endIndex)
    decreases |steps|
  {
    if steps != [] {
      StepConserved(y, steps[0], startIndex, endIndex);
      StepSentRight(y, steps[0], startIndex, endIndex);
      StepEndsRight(y, steps[0]);
      RunSafe(Next(y, steps[0]), steps[1..], y', startIndex, endIndex);
    }
  }

  // ----- The theorems -----

  ghost predicate Reachable(batchSize: int, startIndex: int, endIndex: int, continuous: bool, parallelFetch: nat,
                            y: State) {
    batchSize > 0 && IsInt64(endIndex) &&
    exists steps :: Runs(Init(batchSize, startIndex, endIndex, continuous, parallelFetch), steps, y)
  }

  lemma ReachableIsSafe(batchSize: int, startIndex: int, endIndex: int, continuous: bool, parallelFetch: nat, y: State)
    requires Reachable(batchSize, startIndex, endIndex, continuous, parallelFetch, y)
    ensures Safe(y, startIndex, endIndex)
    ensures y.batchSize == batchSize && y.continuous == continuous && |y.workers| == parallelFetch
  {
    var steps :| Runs(Init(batchSize, startIndex, endIndex, continuous, parallelFetch), steps, y);
    InitSafe(batchSize, startIndex, endIndex, continuous, parallelFetch);
    RunSafe(Init(batchSize, startIndex, endIndex, continuous, parallelFetch), steps, y, startIndex, endIndex);
    RunKeeps(Init(batchSize, startIndex, endIndex, continuous, parallelFetch), steps, y);
  }

  lemma {:induction false} RunKeeps(y: State, steps: seq<Step>, y': State)
    requires Runs(y, steps, y')
    ensures y'.batchSize == y.batchSize && y'.continuous == y.continuous && |y'.workers| == |y.workers|
    decreases |steps|
  {
    if steps != [] {
      RunKeeps(Next(y, steps[0]), steps[1..], y');
    }
  }

  /**
   The ranges sent follow each other from the start index to the generator's next
   index, however the tree grows; each is non-empty and no longer than a batch, except
   the first when the start index lies beyond the end.
   */
  lemma RangesTile(batchSize: int, startIndex: int, endIndex: int, continuous: bool, parallelFetch: nat, y: State)
    requires Reachable(batchSize, startIndex, endIndex, continuous, parallelFetch, y)
    ensures Tiles(startIndex, y.sent, y.start)
    ensures AllProper(y.sent, if startIndex <= endIndex then 0 else 1, batchSize)
    ensures startIndex > endIndex && y.sent != [] ==> y.sent[0] == Range(startIndex, endIndex - 1)
  {
    ReachableIsSafe(batchSize, startIndex, endIndex, continuous, parallelFetch, y);
  }

  /** In every state: if no answer was longer than asked, no index was delivered twice or from outside. */
  lemma NothingIsDeliveredTwice(batchSize: int, startIndex: int, endIndex: int, continuous: bool, parallelFetch: nat,
                                y: State, x: int)
    requires Reachable(batchSize, startIndex, endIndex, continuous, parallelFetch, y) && y.excess == []
    ensures TimesDelivered(x, y.delivered) <= In(x, Range(Base(startIndex, endIndex), Frontier(y) - 1))
  {
    ReachableIsSafe(batchSize, startIndex, endIndex, continuous, parallelFetch, y);
    assert Balances(x, y, Base(startIndex, endIndex));
  }

  lemma {:induction false} NothingPending(x: int, workers: seq<Worker>)
    requires forall i :: 0 <= i < |workers| ==> Left(workers[i]).start > Left(workers[i]).end
    ensures TimesPending(x, workers) == 0
  {
    if workers != [] {
      assert Left(workers[0]).start > Left(workers[0]).end;
      NothingPending(x, workers[1..]);
    }
  }

  /** Run returns when all its workers have. */
  predicate Returned(y: State) {
    forall i :: 0 <= i < |y.workers| ==> y.workers[i].Exited?
  }

  /**
   When Run returns and its context was not cancelled, be it because all is fetched, because of
   Stop or because the tree head could not be had: every index handed out has been delivered, and
   what came unasked.
   */
  lemma ReturnAccounts(batchSize: int, startIndex: int, endIndex: int, continuous: bool, parallelFetch: nat, y: State,
                       x: int)
    requires Reachable(batchSize, startIndex, endIndex, continuous, parallelFetch, y)
    requires Returned(y) && parallelFetch > 0 && !y.ctxDone
    ensures TimesDelivered(x, y.delivered)
            == In(x, Range(Base(startIndex, endIndex), Frontier(y) - 1)) + TimesIn(x, y.excess)
  {
    ReachableIsSafe(batchSize, startIndex, endIndex, continuous, parallelFetch, y);
    assert Balances(x, y, Base(startIndex, endIndex));
    NothingPending(x, y.workers);
  }

  /** How far a run has come when it returns: in one go to the end, else as far as ranges were sent. */
  lemma ReturnFrontier(batchSize: int, startIndex: int, endIndex: int, continuous: bool, parallelFetch: nat, y: State)
    requires Reachable(batchSize, startIndex, endIndex, continuous, parallelFetch, y)
    requires Returned(y) && parallelFetch > 0 && !y.ctxDone
    ensures startIndex <= endIndex ==> Frontier(y) == y.start && Base(startIndex, endIndex) == startIndex
    ensures !y.stopped && !continuous ==> Frontier(y) == y.end == endIndex
    ensures !y.stopped && continuous ==> y.start == y.end
  {
    ReachableIsSafe(batchSize, startIndex, endIndex, continuous, parallelFetch, y);
    assert y.workers[0].Exited?;
  }

  lemma {:induction false} ExcessShows(ranges: seq<Range>)
    requires ranges != [] && forall i :: 0 <= i < |ranges| ==> ranges[i].start <= ranges[i].end
    ensures TimesIn(ranges[|ranges| - 1].start, ranges) > 0
  {
  }

  /**
   Exactly-once delivery: when Run returns uncancelled, the entries delivered are those of the
   interval from the base to the frontier, each once, if and only if no answer was longer than
   asked. The frontier is where the ranges sent end, however often the tree has grown.
   */
  lemma DeliveryIsExactlyOnce(batchSize: int, startIndex: int, endIndex: int, continuous: bool, parallelFetch: nat,
                              y: State)
    requires Reachable(batchSize, startIndex, endIndex, continuous, parallelFetch, y)
    requires Returned(y) && parallelFetch > 0 && !y.ctxDone
    ensures (forall x :: TimesDelivered(x, y.delivered) == In(x, Range(Base(startIndex, endIndex), Frontier(y) - 1)))
            <==> y.excess == []
  {
    ReachableIsSafe(batchSize, startIndex, endIndex, continuous, parallelFetch, y);
    var span := Range(Base(startIndex, endIndex), Frontier(y) - 1);
    forall x ensures TimesDelivered(x, y.delivered) == In(x, span) + TimesIn(x, y.excess) {
      ReturnAccounts(batchSize, startIndex, endIndex, continuous, parallelFetch, y, x);
    }
    if y.excess != [] {
      ExcessShows(y.excess);
      var x := y.excess[|y.excess| - 1].start;
      assert TimesDelivered(x, y.delivered) != In(x, span);
    }
  }

  /** Without continuous mode or Stop, that interval is the one asked for. */
  lemma WholeIntervalIsDelivered(batchSize: int, startIndex: int, endIndex: int, parallelFetch: nat, y: State)
    requires Reachable(batchSize, startIndex, endIndex, false, parallelFetch, y)
    requires Returned(y) && parallelFetch > 0 && !y.ctxDone && !y.stopped
    ensures (forall x :: TimesDelivered(x, y.delivered) == In(x, Range(startIndex, endIndex - 1))) <==> y.excess == []
  {
    DeliveryIsExactlyOnce(batchSize, startIndex, endIndex, false, parallelFetch, y);
    ReturnFrontier(batchSize, startIndex, endIndex, false, parallelFetch, y);
    forall x ensures TimesDelivered(x, y.delivered) == In(x, Range(startIndex, endIndex - 1))
                     <==> TimesDelivered(x, y.delivered) == In(x, Range(Base(startIndex, endIndex), Frontier(y) - 1))
    {
    }
  }

  /** Without workers nothing is fetched, and Run returns at once. */
  lemma NoWorkersFetchNothing(batchSize: int, startIndex: int, endIndex: int, continuous: bool, y: State)
    requires Reachable(batchSize, startIndex, endIndex, continuous, 0, y)
    ensures Returned(y) && y.delivered == []
  {
    var steps :| Runs(Init(batchSize, startIndex, endIndex, continuous, 0), steps, y);
    RunWithoutWorkers(Init(batchSize, startIndex, endIndex, continuous, 0), steps, y);
  }

  lemma {:induction false} RunWithoutWorkers(y: State, steps: seq<Step>, y': State)
    requires y.workers == [] && y.delivered == [] && Runs(y, steps, y')
    ensures y'.workers == [] && y'.delivered == []
    decreases |steps|
  {
    if steps != [] {
      RunWithoutWorkers(Next(y, steps[0]), steps[1..], y');
    }
  }

  /** With a batch size below one only empty ranges are sent, and nothing is fetched. */
  lemma NoBatchFetchesNothing(batchSize: int, startIndex: int, endIndex: int, continuous: bool, parallelFetch: nat,
                              steps: seq<Step>, y: State)
    requires batchSize <= 0 && Runs(Init(batchSize, startIndex, endIndex, continuous, parallelFetch), steps, y)
    ensures y.delivered == []
  {
    RunWithoutBatch(Init(batchSize, startIndex, endIndex, continuous, parallelFetch), steps, y);
  }

  predicate NothingAsked(y: State) {
    && y.batchSize <= 0 && y.delivered == []
    && forall i :: 0 <= i < |y.workers| ==> Left(y.workers[i]).start > Left(y.workers[i]).end
  }

  lemma StepWithoutBatch(y: State, step: Step)
    requires NothingAsked(y) && Enabled(y, step)
    ensures NothingAsked(Next(y, step))
  {
  }

  lemma {:induction false} RunWithoutBatch(y: State, steps: seq<Step>, y': State)
    requires NothingAsked(y) && Runs(y, steps, y')
    ensures NothingAsked(y')
    decreases |steps|
  {
    if steps != [] {
      StepWithoutBatch(y, steps[0]);
      RunWithoutBatch(Next(y, steps[0]), steps[1..], y');
    }
  }

  // ----- The contents -----

  /** The entries of the batch are those the tree has at its indices. */
  predicate Faithful(tree: seq<Leaf>, b: EntryBatch) {
    0 <= b.start && b.start + |b.entries| <= |tree| && b.entries == tree[b.start..b.start + |b.entries|]
  }

  /** A step whose answer, if it is one, holds the entries asked for or a first part of them. */
  predicate Honest(y: State, step: Step, tree: seq<Leaf>)
    requires Enabled(y, step)
  {
    step.Answer? ==>
      var r := y.workers[step.i].range;
      r.start + |step.entries| <= r.end + 1 && Faithful(tree, EntryBatch(r.start, step.entries))
  }

  predicate HonestRuns(y: State, steps: seq<Step>, tree: seq<Leaf>, y': State)
    decreases |steps|
  {
    if steps == [] then y == y'
    else Enabled(y, steps[0]) && Honest(y, steps[0], tree) && HonestRuns(Next(y, steps[0]), steps[1..], tree, y')
  }

  ghost predicate Copied(y: State, tree: seq<Leaf>) {
    y.excess == [] && forall i :: 0 <= i < |y.delivered| ==> Faithful(tree, y.delivered[i])
  }

  lemma {:induction false} HonestRunCopies(y: State, steps: seq<Step>, tree: seq<Leaf>, y': State)
    requires HonestRuns(y, steps, tree, y') && Copied(y, tree)
    ensures Runs(y, steps, y') && Copied(y', tree)
    decreases |steps|
  {
    if steps != [] {
      assert Copied(Next(y, steps[0]), tree);
      HonestRunCopies(Next(y, steps[0]), steps[1..], tree, y');
    }
  }

  /** From an honest log, a run that returns uncancelled has delivered the entries of that interval at their indices. */
  lemma HonestLogIsCopied(batchSize: int, startIndex: int, endIndex: int, continuous: bool, parallelFetch: nat,
                          steps: seq<Step>, tree: seq<Leaf>, y: State)
    requires batchSize > 0 && parallelFetch > 0 && IsInt64(endIndex)
    requires HonestRuns(Init(batchSize, startIndex, endIndex, continuous, parallelFetch), steps, tree, y)
    requires Returned(y) && !y.ctxDone
    ensures forall x :: TimesDelivered(x, y.delivered) == In(x, Range(Base(startIndex, endIndex), Frontier(y) - 1))
    ensures forall i :: 0 <= i < |y.delivered| ==> Faithful(tree, y.delivered[i])
  {
    HonestRunCopies(Init(batchSize, startIndex, endIndex, continuous, parallelFetch), steps, tree, y);
    DeliveryIsExactlyOnce(batchSize, startIndex, endIndex, continuous, parallelFetch, y);
  }

  // ----- A start index beyond the end -----

  function Waiting(batchSize: int, startIndex: int, endIndex: int): State {
    State(batchSize, true, endIndex, endIndex + 1, false, [Idle], false, false,
          [Range(startIndex, endIndex - 1)], [], [])
  }

  lemma FallsBack(batchSize: int, startIndex: int, endIndex: int, rest: seq<Step>, y: State)
    requires batchSize > 0 && startIndex > endIndex && CanGrow(endIndex)
    requires Runs(Waiting(batchSize, startIndex, endIndex), rest, y)
    ensures Reachable(batchSize, startIndex, endIndex, true, 1, y)
  {
    var y0 := Init(batchSize, startIndex, endIndex, true, 1);
    assert y0.workers == [Idle];
    var y1 := Next(y0, Send(0));
    var y2 := Next(y1, Finish(0));
    assert Next(y2, Grow(endIndex + 1)) == Waiting(batchSize, startIndex, endIndex);
    RunsBack(y2, Grow(endIndex + 1), rest, y);
    RunsBack(y1, Finish(0), [Grow(endIndex + 1)] + rest, y);
    RunsBack(y0, Send(0), [Finish(0)] + ([Grow(endIndex + 1)] + rest), y);
  }

  /**
   In continuous mode a start index beyond the end of the tree is not honoured: the
   generator falls back to the end, and indices below the start index are delivered.
   */
  lemma LateStartIsIgnored(batchSize: int, startIndex: int, endIndex: int, leaf: Leaf)
    requires batchSize > 0 && startIndex > endIndex && CanGrow(endIndex)
    ensures exists y :: Reachable(batchSize, startIndex, endIndex, true, 1, y) && y.excess == []
              && TimesDelivered(endIndex, y.delivered) == 1
  {
    var y3 := Waiting(batchSize, startIndex, endIndex);
    var y4 := Next(y3, Send(0));
    var y5 := Next(y4, Answer(0, [leaf]));
    assert y5.delivered == [] + [EntryBatch(endIndex, [leaf])];
    DeliveredMore(endIndex, [], EntryBatch(endIndex, [leaf]));
    RunsBack(y4, Answer(0, [leaf]), [], y5);
    RunsBack(y3, Send(0), [Answer(0, [leaf])] + [], y5);
    FallsBack(batchSize, startIndex, endIndex, [Send(0)] + ([Answer(0, [leaf])] + []), y5);
  }

  lemma RunsBack(y: State, step: Step, steps: seq<Step>, y': State)
    requires Enabled(y, step) && Runs(Next(y, step), steps, y')
    ensures Runs(y, [step] + steps, y')
  {
    assert ([step] + steps)[1..] == steps;
  }

  /**
   The start index is honoured by every run exactly when it does not lie beyond the end in
   continuous mode, or the end can never move.
   */
  lemma StartIsHonouredIff(batchSize: int, startIndex: int, endIndex: int, continuous: bool, leaf: Leaf)
    requires batchSize > 0 && IsInt64(endIndex)
    ensures !(continuous && startIndex > endIndex && CanGrow(endIndex))
            <==> forall n, y, x ::
                   Reachable(batchSize, startIndex, endIndex, continuous, n, y) && y.excess == [] && x < startIndex
                   ==> TimesDelivered(x, y.delivered) == 0
  {
    if continuous && startIndex > endIndex && CanGrow(endIndex) {
      LateStartIsIgnored(batchSize, startIndex, endIndex, leaf);
    } else {
      forall n, y, x | Reachable(batchSize, startIndex, endIndex, continuous, n, y) && y.excess == [] && x < startIndex
        ensures TimesDelivered(x, y.delivered) == 0
      {
        ReachableIsSafe(batchSize, startIndex, endIndex, continuous, n, y);
        NothingIsDeliveredTwice(batchSize, startIndex, endIndex, continuous, n, y, x);
      }
    }
  }
}
