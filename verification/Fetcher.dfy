/**
 The log fetcher (scanner/fetcher.go), one goroutine at a time: the options and the
 tree head it keeps, the loop that cuts the index range into batches, and the loop
 that fetches one batch from a log that may answer with fewer entries than asked.
 */
module Fetcher {
  import opened Bytes

  datatype Leaf = Leaf(leafInput: seq<Byte>, extraData: seq<Byte>)

  /** Both ends inclusive. */
  datatype Range = Range(start: int, end: int)

  datatype EntryBatch = EntryBatch(start: int, entries: seq<Leaf>)

  datatype EntryInfo = EntryInfo(index: int, entry: Leaf)

  /** The indices from `lo` up to but excluding `hi`, in order. */
  function Interval(lo: int, hi: int): (s: seq<int>)
    ensures |s| == if lo < hi then hi - lo else 0
    ensures forall i :: 0 <= i < |s| ==> s[i] == lo + i
    decreases hi - lo
  {
    if lo < hi then [lo] + Interval(lo + 1, hi) else []
  }

  lemma IntervalSplit(lo: int, mid: int, hi: int)
    requires lo <= mid <= hi
    ensures Interval(lo, hi) == Interval(lo, mid) + Interval(mid, hi)
  {
  }

  // ----- The tree head -----

  /** Go's conversion of an int64 to uint64. */
  function AsUint64(x: int): int {
    if x < 0 then x + TWO_64 else x
  }

  /** And back: big numbers become negative. */
  function AsInt64(x: Uint64): int {
    var n: int := x;
    if n < TWO_63 then n else n - TWO_64
  }

  /**
   One answer to a tree head request: an error that ends the waiting or is retried, which the
   back-off library decides, or a size, and whether it came before the quick deadline.
   */
  datatype Poll = Failed(final: bool) | Size(treeSize: Uint64, quick: bool)

  /** The answers good enough to go on with: bigger, and by a full batch while there is time. */
  predicate Acceptable(lastSize: int, batchSize: int, poll: Poll) {
    && poll.Size? && poll.treeSize > lastSize
    && (poll.quick ==> poll.treeSize >= (lastSize + AsUint64(batchSize)) % TWO_64)
  }

  /** The size of the first acceptable answer, unless the waiting ends before. */
  function FirstAcceptable(lastSize: int, batchSize: int, polls: seq<Poll>): Option<Uint64> {
    if polls == [] || polls[0] == Failed(true) then None
    else if Acceptable(lastSize, batchSize, polls[0]) then Some(polls[0].treeSize)
    else FirstAcceptable(lastSize, batchSize, polls[1..])
  }

  // ----- The ranges -----

  /** Where the batch that starts at `start` ends. */
  function BatchEnd(start: int, end: int, batchSize: int): int {
    start + if end - start < batchSize then end - start else batchSize
  }

  /** The ranges follow each other from `lo` to `hi`. */
  ghost predicate Tiles(lo: int, ranges: seq<Range>, hi: int) {
    if ranges == [] then lo == hi
    else Tiles(lo, ranges[..|ranges| - 1], ranges[|ranges| - 1].start) && ranges[|ranges| - 1].end + 1 == hi
  }

  lemma TilesOn(lo: int, ranges: seq<Range>, mid: int, hi: int)
    requires Tiles(lo, ranges, mid)
    ensures Tiles(lo, ranges + [Range(mid, hi - 1)], hi)
  {
    assert (ranges + [Range(mid, hi - 1)])[..|ranges|] == ranges;
  }

  ghost predicate Proper(r: Range, batchSize: int) {
    r.start <= r.end && r.end + 1 - r.start <= batchSize
  }

  /**
   What the generator meets in one turn: the tree head requests, if any, and then a taker or the end
   of its context.
   */
  datatype Turn = Turn(polls: seq<Poll>, taken: bool)

  /** Tree sizes fit the signed type that indices have. */
  ghost predicate Sane(polls: seq<Poll>) {
    forall j :: 0 <= j < |polls| && polls[j].Size? ==> polls[j].treeSize < TWO_63
  }

  ghost predicate AllProper(ranges: seq<Range>, from: nat, batchSize: int) {
    forall k :: from <= k < |ranges| ==> Proper(ranges[k], batchSize)
  }

  ghost predicate AllSane(turns: seq<Turn>) {
    forall i :: 0 <= i < |turns| ==> Sane(turns[i].polls)
  }

  /** What the ranges sent satisfy, from a start index and the end index there was at first. */
  ghost predicate Orderly(startIndex: int, endIndex: int, batchSize: int, ranges: seq<Range>, start: int, end: int) {
    && endIndex <= end
    && (ranges != [] || startIndex <= endIndex ==> start <= end)
    && (startIndex <= endIndex ==> startIndex <= start)
    && AllProper(ranges, if startIndex <= endIndex then 0 else 1, batchSize)
    && (startIndex > endIndex && ranges != [] ==> ranges[0] == Range(startIndex, endIndex - 1))
  }

  class Fetcher {
    const batchSize: int
    const startIndex: int
    const continuous: bool
    var endIndex: int
    var sth: Option<Uint64>

    constructor (batchSize: int, startIndex: int, endIndex: int, continuous: bool)
      ensures this.batchSize == batchSize && this.startIndex == startIndex && this.continuous == continuous
      ensures this.endIndex == endIndex && sth == None
    {
      this.batchSize, this.startIndex, this.continuous := batchSize, startIndex, continuous;
      this.endIndex, sth := endIndex, None;
    }

    /** Fetches the tree head once and fits the range to the tree; an end of 0 means the whole tree. */
    method Prepare(reply: Result<Uint64, string>) returns (r: Result<Uint64, string>)
      modifies this
      ensures old(sth).Some? ==> r == Ok(old(sth).value) && sth == old(sth) && endIndex == old(endIndex)
      ensures old(sth).None? && reply.Err? ==> r == reply && sth == None && endIndex == old(endIndex)
      ensures old(sth).None? && reply.Ok? ==>
                && r == reply && sth == Some(reply.value) && endIndex <= AsInt64(reply.value)
                && (endIndex == AsInt64(reply.value) || (endIndex == old(endIndex) && endIndex != 0))
                && (0 != old(endIndex) <= AsInt64(reply.value) ==> endIndex == old(endIndex))
    {
      if sth.Some? {
        return Ok(sth.value);
      }
      if reply.Err? {
        return reply;
      }
      var size := AsInt64(reply.value);
      if endIndex == 0 || endIndex > size {
        endIndex := size;
      }
      sth := Some(reply.value);
      return reply;
    }

    /**
     Asks for tree heads until one is acceptable; fails when the waiting ends. The end index grows,
     unless the size is too big for the signed type of indices.
     */
    method UpdateSth(polls: seq<Poll>) returns (ok: bool)
      requires IsInt64(endIndex)
      modifies this
      ensures ok == FirstAcceptable(AsUint64(old(endIndex)), batchSize, polls).Some?
      ensures ok ==> sth == FirstAcceptable(AsUint64(old(endIndex)), batchSize, polls) && endIndex == AsInt64(sth.value)
      ensures ok ==> (endIndex > old(endIndex) <==> old(endIndex) < 0 || sth.value < TWO_63)
      ensures ok && Sane(polls) ==> endIndex > old(endIndex) >= 0
      ensures !ok ==> sth == old(sth) && endIndex == old(endIndex)
      ensures IsInt64(endIndex)
    {
      var lastSize := AsUint64(endIndex);
      var targetSize := (lastSize + AsUint64(batchSize)) % TWO_64;
      var i := 0;
      while i < |polls|
        invariant 0 <= i <= |polls| && endIndex == old(endIndex) && sth == old(sth)
        invariant FirstAcceptable(lastSize, batchSize, polls) == FirstAcceptable(lastSize, batchSize, polls[i..])
      {
        match polls[i] {
          case Failed(final) =>
            if final {
              return false;
            }
          case Size(treeSize, quick) =>
            if !(treeSize <= lastSize || (quick && treeSize < targetSize)) {
              sth := Some(treeSize);
              endIndex := AsInt64(treeSize);
              return true;
            }
        }
        i := i + 1;
      }
      return false;
    }

    /**
     One turn of the generator: waits for a bigger tree if all is sent, and sends the next range
     unless cancelled. It is empty if the start lies beyond the end or the batch size is below one.
     */
    method SendRange(start: int, turn: Turn) returns (sent: Option<Range>)
      requires IsInt64(endIndex)
      modifies this
      ensures IsInt64(endIndex) && (start != old(endIndex) ==> endIndex == old(endIndex))
      ensures Sane(turn.polls) ==> endIndex >= old(endIndex)
      ensures Sane(turn.polls) ==> (sent.Some? <==> turn.taken && (start == old(endIndex) ==> endIndex > old(endIndex)))
      ensures sent.Some? ==> sent.value.start == start && sent.value.end + 1 <= endIndex
      ensures sent.Some? ==> (Proper(sent.value, batchSize) <==> start < endIndex && batchSize > 0)
      ensures sent.Some? && batchSize > 0 && start > endIndex ==> sent.value.end + 1 == endIndex
    {
      if start == endIndex {
        var ok := UpdateSth(turn.polls);
        if !ok {
          return None;
        }
      }
      var batchEnd := BatchEnd(start, endIndex, batchSize);
      if !turn.taken {
        return None;
      }
      return Some(Range(start, batchEnd - 1));
    }

    /**
     The range generator. The ranges sent follow each other from the start index. With a positive
     batch size and tree sizes that fit, however often the tree grows, each holds at least one and
     at most a batch of indices. If the start lies beyond the end in continuous mode, the first
     range is empty and the tiling goes on from the end.
     */
    method GenRanges(turns: seq<Turn>) returns (ranges: seq<Range>, start: int, finished: bool)
      requires IsInt64(endIndex)
      modifies this
      ensures Tiles(startIndex, ranges, start)
      ensures finished ==> !continuous && start >= endIndex
      ensures !continuous ==> endIndex == old(endIndex)
      ensures batchSize > 0 && AllSane(turns) ==> Orderly(startIndex, old(endIndex), batchSize, ranges, start, endIndex)
    {
      start := startIndex;
      ranges := [];
      var i := 0;
      while start < endIndex || continuous
        invariant 0 <= i <= |turns| && IsInt64(endIndex)
        invariant Tiles(startIndex, ranges, start)
        invariant ranges == [] ==> start == startIndex && endIndex == old(endIndex)
        invariant !continuous ==> endIndex == old(endIndex)
        invariant batchSize > 0 && AllSane(turns) ==>
                  Orderly(startIndex, old(endIndex), batchSize, ranges, start, endIndex)
        decreases |turns| - i
      {
        if i == |turns| {
          return ranges, start, false;
        }
        var sent := SendRange(start, turns[i]);
        if sent.None? {
          return ranges, start, false;
        }
        TilesOn(startIndex, ranges, start, sent.value.end + 1);
        ranges := ranges + [sent.value];
        start := sent.value.end + 1;
        i := i + 1;
      }
      finished := true;
    }
  }

  // ----- A worker on one range -----

  datatype Reply = Error | Entries(entries: seq<Leaf>) | ContextDone

  /** The indices of all entries of the batches, in order. */
  function Indices(batches: seq<EntryBatch>): seq<int> {
    if batches == [] then []
    else
      var last := batches[|batches| - 1];
      Indices(batches[..|batches| - 1]) + Interval(last.start, last.start + |last.entries|)
  }

  lemma IndicesMore(batches: seq<EntryBatch>, b: EntryBatch)
    ensures Indices(batches + [b]) == Indices(batches) + Interval(b.start, b.start + |b.entries|)
  {
    assert (batches + [b])[..|batches|] == batches;
  }

  /**
   Asks again from where the last answer stopped until the range is covered. Whatever
   the lengths of the answers, the indices delivered are consecutive from the start.
   */
  method FetchRange(range: Range, replies: seq<Reply>) returns (delivered: seq<EntryBatch>, rest: Range, finished: bool)
    ensures rest.end == range.end && range.start <= rest.start
    ensures Indices(delivered) == Interval(range.start, rest.start)
    ensures finished ==> rest.start > rest.end
  {
    delivered, rest := [], range;
    var i := 0;
    while rest.start <= rest.end
      invariant 0 <= i <= |replies| && rest.end == range.end && range.start <= rest.start
      invariant Indices(delivered) == Interval(range.start, rest.start)
      decreases |replies| - i
    {
      if i == |replies| {
        return delivered, rest, false;
      }
      match replies[i] {
        case ContextDone =>
          return delivered, rest, false;
        case Error =>
        case Entries(entries) =>
          IndicesMore(delivered, EntryBatch(rest.start, entries));
          IntervalSplit(range.start, rest.start, rest.start + |entries|);
          delivered := delivered + [EntryBatch(rest.start, entries)];
          rest := Range(rest.start + |entries|, rest.end);
      }
      i := i + 1;
    }
    finished := true;
  }

  /** Gives each entry of a batch its index (scanner/scanner.go). */
  method Flatten(b: EntryBatch) returns (infos: seq<EntryInfo>)
    ensures |infos| == |b.entries|
    ensures forall i :: 0 <= i < |infos| ==> infos[i] == EntryInfo(b.start + i, b.entries[i])
  {
    infos := [];
    for i := 0 to |b.entries|
      invariant |infos| == i
      invariant forall k :: 0 <= k < i ==> infos[k] == EntryInfo(b.start + k, b.entries[k])
    {
      infos := infos + [EntryInfo(b.start + i, b.entries[i])];
    }
  }
}
