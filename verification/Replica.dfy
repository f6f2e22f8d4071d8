/**
 A replica (fluvio-storage, replica.rs): batches go to the active segment, which is closed and replaced
 when it is full, and reads are served from the active or a closed segment.
 */
module Replica {
  import opened Wrappers
  import opened Bytes
  import opened BatchFormat
  import opened BatchStream
  import opened OffsetIndex
  import opened SegmentLog
  import opened SegmentReads
  import S = SegmentList
  import C = Cleaner

  // The batches of closed segments, oldest first.
  function ClosedBatches(logs: seq<seq<Batch>>): seq<Batch> {
    if logs == [] then [] else ClosedBatches(logs[..|logs| - 1]) + logs[|logs| - 1]
  }

  // Log and index files of the closed segments hold these batches.
  predicate Backed(segments: seq<S.Closed>, logs: seq<seq<Batch>>, picks: seq<seq<nat>>) {
    && |logs| == |picks| == |segments|
    && forall i :: 0 <= i < |segments| ==> Backs(segments[i], logs[i], picks[i])
  }

  // Closed segments follow each other and the active one without gaps.
  ghost predicate Follows(segments: seq<S.Closed>, base: int) {
    S.Contiguous(segments) && (segments != [] ==> segments[|segments| - 1].end == base)
  }

  // Only a rollover of an empty segment, whose batch then does not fit either, closes an empty one.
  predicate LastFull(segments: seq<S.Closed>) {
    segments != [] ==> segments[|segments| - 1].base < segments[|segments| - 1].end
  }

  ghost predicate Stacked(segments: seq<S.Closed>, logs: seq<seq<Batch>>, picks: seq<seq<nat>>, base: int, limit: nat) {
    Backed(segments, logs, picks) && C.AtMost(segments, limit) && Follows(segments, base)
  }

  // occupied_memory of the active segment
  function OccupiedBytes(segment: Segment): nat
    reads segment, segment.index, segment.log
  {
    8 * segment.index.firstEmptySlot + segment.log.len
  }

  class FileReplica {
    const indexMaxBytes: nat
    const interval: Size
    const maxLen: Size
    const prev: S.SegmentList
    const size: C.ReplicaSize
    var active: Segment
    var shortCircuit: bool
    ghost var logs: seq<seq<Batch>>
    ghost var picks: seq<seq<nat>>

    ghost predicate Valid()
      reads this, prev, size, active, active.log, active.index, active.index.slots
    {
      && active.Valid() && prev.Valid()
      && active.log.maxLen == maxLen && interval + maxLen <= U32_LIMIT
      && active.index.slots.Length == indexMaxBytes / 8
      && 0 <= active.baseOffset
      && Stacked(prev.segments, logs, picks, active.baseOffset, maxLen + IndexLimit())
      && size.prev == S.Occupied(prev.segments)
      && (!shortCircuit ==> LastFull(prev.segments) && size.active == OccupiedBytes(active))
    }

    // Bytes an index file takes at most.
    function IndexLimit(): nat {
      8 * Larger(1, indexMaxBytes / 8)
    }

    // All batches of the replica.
    ghost function Batches(): seq<Batch>
      reads this, active
    {
      ClosedBatches(logs) + active.batches
    }

    constructor (base: int, indexMaxBytes: nat, interval: Size, maxLen: Size)
      requires 0 <= base && interval + maxLen <= U32_LIMIT
      ensures Valid() && Batches() == [] && !shortCircuit && active.endOffset == base
    {
      hide Segment.Valid, Segment.Grown, S.SegmentList.Valid, S.Occupied, Stacked, LastFull;
      NothingStacked(base, maxLen + 8 * Larger(1, indexMaxBytes / 8));
      this.indexMaxBytes := indexMaxBytes;
      this.interval := interval;
      this.maxLen := maxLen;
      prev := new S.SegmentList();
      size := new C.ReplicaSize();
      active := new Segment(base, indexMaxBytes, interval, maxLen);
      shortCircuit := false;
      logs, picks := [], [];
    }

    // The batches of the first k closed segments are gone.
    ghost method Forget(before: seq<S.Closed>, k: nat)
      requires active.Valid() && prev.Valid()
      requires active.log.maxLen == maxLen && interval + maxLen <= U32_LIMIT
      requires active.index.slots.Length == indexMaxBytes / 8 && 0 <= active.baseOffset
      requires Stacked(before, logs, picks, active.baseOffset, maxLen + IndexLimit())
      requires k <= |before| && prev.segments == before[k..] && size.prev == S.Occupied(prev.segments)
      requires !shortCircuit ==> LastFull(before) && size.active == OccupiedBytes(active)
      modifies this`logs, this`picks
      ensures Valid() && |old(logs)| == |before| && logs == old(logs)[k..]
    {
      hide Segment.Valid, S.SegmentList.Valid, Stacked, LastFull, S.Occupied;
      SuffixKeeps(before, logs, picks, active.baseOffset, k, maxLen + IndexLimit());
      logs, picks := logs[k..], picks[k..];
    }

    // roll_over: the active segment becomes the last closed one, and a new one starts where it ends.
    method RollOver()
      requires Valid() && !shortCircuit
      modifies this, prev, size`prev
      ensures fresh(active) && fresh(active.log) && fresh(active.index) && fresh(active.index.slots)
      ensures active.Valid() && prev.Valid() && !shortCircuit
      ensures active.log.maxLen == maxLen && active.log.len == 0 && active.batches == []
      ensures active.index.slots.Length == indexMaxBytes / 8
      ensures active.baseOffset == active.endOffset == old(active.endOffset) >= old(active.baseOffset)
      ensures logs == old(logs) + [old(active.batches)]
      ensures Stacked(prev.segments, logs, picks, active.baseOffset, maxLen + IndexLimit())
      ensures old(active.log.len) > 0 ==> LastFull(prev.segments)
      ensures |prev.segments| == |old(prev.segments)| + 1 && prev.segments[..|old(prev.segments)|] == old(prev.segments)
      ensures var c := prev.segments[|old(prev.segments)|];
              && c.base == old(active.baseOffset) && c.end == old(active.endOffset)
              && c.Size() == old(size.active) + if old(active.index.firstEmptySlot) == 0 then 8 else 0
      ensures size.prev == S.Occupied(prev.segments)
    {
      hide Segment.Valid, S.Occupied, S.Insert, S.MaxOffset, S.MinOffset, LastFull, Backs, Stacked;
      ghost var before, limit := prev.segments, maxLen + IndexLimit();
      NotEmpty(active);
      var closed, closedPicks := Close(active);
      S.OccupiedPush(before, closed);
      StackedPush(before, logs, picks, closed, active.batches, closedPicks, limit);
      S.InsertLast(before, closed);
      logs, picks := logs + [active.batches], picks + [closedPicks];
      size.prev := size.prev + closed.Size();
      prev.AddSegment(closed);
      active := new Segment(closed.end, indexMaxBytes, interval, maxLen);
      assert prev.segments == before + [closed];
    }

    // The second attempt, in a new segment.
    method RollOverAndAppend(b: Batch) returns (ok: bool)
      requires Valid() && !shortCircuit
      requires ValidBatch(b.(baseOffset := active.endOffset)) && !b.HasSchema() && b.header.lastOffsetDelta >= 0
      requires maxLen < WriteSizeOf(b) + active.log.len < U32_LIMIT
      modifies this, prev, size
      ensures fresh(active) && fresh(active.log) && fresh(active.index) && fresh(active.index.slots)
      ensures Valid()
      ensures ok <==> WriteSizeOf(b) <= maxLen
      ensures shortCircuit <==> !ok
      ensures ok ==>
              && Batches() == old(Batches()) + [Batch(old(active.endOffset), b.header, 0, b.records)]
              && active.endOffset == old(active.endOffset) + b.header.lastOffsetDelta + 1
      ensures !ok ==> Batches() == old(Batches()) && active.endOffset == old(active.endOffset)
    {
      hide Segment.Valid, ValidBatch, S.Ordered, S.Offsets, S.MaxOffset, S.MinOffset, S.Occupied;
      hide Stacked, ClosedBatches, LastFull;
      RollOver();
      LogJoined(old(logs), old(active.batches));
      var appended := active.AppendBatch(b);
      ok := appended.Ok? && appended.value;
      if ok {
        size.active := OccupiedBytes(active);
      } else {
        shortCircuit := true;
      }
    }

    // A batch is stored at the next offset if and only if it has records and fits a segment; otherwise
    // nothing is stored then or later.
    method WriteBatch(b: Batch) returns (ok: bool)
      requires Valid()
      requires ValidBatch(b.(baseOffset := active.endOffset)) && !b.HasSchema()
      requires WriteSizeOf(b) + active.log.len < U32_LIMIT && active.endOffset - active.baseOffset < TWO31
      modifies this, prev, size, active, active.log, active.index, active.index.slots
      ensures Valid()
      ensures ok <==> !old(shortCircuit) && b.header.lastOffsetDelta >= 0 && WriteSizeOf(b) <= maxLen
      ensures shortCircuit <==> !ok
      ensures ok ==>
              && Batches() == old(Batches()) + [Batch(old(active.endOffset), b.header, 0, b.records)]
              && active.endOffset == old(active.endOffset) + b.header.lastOffsetDelta + 1
      ensures !ok ==> Batches() == old(Batches()) && active.endOffset == old(active.endOffset)
    {
      hide Segment.Valid, ValidBatch, S.Ordered, S.Offsets, S.MaxOffset, S.MinOffset, S.Occupied;
      hide Stacked, ClosedBatches, LastFull;
      if shortCircuit {
        return false;
      }
      var first := active.AppendBatch(b);
      ok := first.Ok? && first.value;
      ghost var stored := Batch(old(active.endOffset), b.header, 0, b.records);
      assert ClosedBatches(logs) + (old(active.batches) + [stored]) == old(Batches()) + [stored];
      if ok {
        size.active := OccupiedBytes(active);
      } else if first.Ok? {
        ok := RollOverAndAppend(b);
      } else {
        shortCircuit := true;
      }
    }
  }

  // A segment with bytes in its log holds offsets.
  lemma {:induction false} NotEmpty(segment: Segment)
    requires segment.Valid()
    ensures segment.log.len > 0 ==> segment.baseOffset < segment.endOffset
    ensures segment.baseOffset <= segment.endOffset
  {
    hide Picked;
    var bs := segment.batches;
    if bs != [] {
      AtLeastBase(bs, segment.baseOffset, segment.endOffset, 0);
      BelowEnd(bs, segment.baseOffset, segment.endOffset, 0);
    }
  }

  lemma {:induction false} LogJoined(logs: seq<seq<Batch>>, log: seq<Batch>)
    ensures ClosedBatches(logs + [log]) == ClosedBatches(logs) + log
  {
    assert (logs + [log])[..|logs|] == logs;
  }

  lemma {:induction false} NothingStacked(base: int, limit: nat)
    ensures Stacked([], [], [], base, limit) && LastFull([]) && S.Occupied([]) == 0
  {
  }

  // Pushing the closed segment that follows.
  lemma {:induction false} StackedPush(
    segments: seq<S.Closed>, logs: seq<seq<Batch>>, picks: seq<seq<nat>>,
    c: S.Closed, log: seq<Batch>, pick: seq<nat>, limit: nat)
    requires Stacked(segments, logs, picks, c.base, limit) && LastFull(segments)
    requires Backs(c, log, pick) && c.Size() <= limit && c.base <= c.end
    ensures forall i :: 0 <= i < |segments| ==> segments[i].base < c.base
    ensures Stacked(segments + [c], logs + [log], picks + [pick], c.end, limit)
    ensures LastFull(segments + [c]) <==> c.base < c.end
  {
    hide Backs;
  }

  // ----- reading -----

  // get_log_start_offset
  function LogStart(segments: seq<S.Closed>, activeBase: int): int {
    if S.MinOffset(segments) < 0 then activeBase else S.MinOffset(segments)
  }

  datatype ReadError = BeyondEnd | OffsetEvicted | SliceFailed(error: SliceError)

  function Limited(bytes: seq<Byte>, maxLen: nat): seq<Byte> {
    if maxLen < |bytes| then bytes[..maxLen] else bytes
  }

  // The outcome of a read in a segment with these batches.
  predicate Serves(
    r: Result<Option<seq<Byte>>, ReadError>, bs: seq<Batch>,
    base: int, end: int, start: int, max: Option<int>, maxLen: nat)
  {
    && AllLoggable(bs)
    && match ServedRange(bs, base, end, start, max)
       case Err(e) => r == Err(SliceFailed(e))
       case Ok(None) => false
       case Ok(Some((i, j))) => i <= j <= |bs| && r == Ok(Some(Limited(BytesOf(bs, i, j), maxLen)))
  }

  // The outcome of a read in the segment that contains the start.
  ghost predicate Answered(
    r: FileReplica, start: int, max: Option<int>, maxLen: nat, out: Result<Option<seq<Byte>>, ReadError>)
    reads r, r.prev, r.active
  {
    if r.active.baseOffset <= start then
      Serves(out, r.active.batches, r.active.baseOffset, r.active.endOffset, start, max, maxLen)
    else
      exists k ::
        && 0 <= k < |r.prev.segments| == |r.logs|
        && S.Contains(r.prev.segments[k], start)
        && Serves(out, r.logs[k], r.prev.segments[k].base, r.prev.segments[k].end, start, max, maxLen)
  }

  // The bytes behind a position and a length, cut to the length asked for.
  method SliceBytes(file: seq<Byte>, slice: Result<Option<(nat, nat)>, SliceError>, maxLen: nat,
                    ghost bs: seq<Batch>, ghost base: int, ghost end: int, ghost start: int, ghost max: Option<int>)
    returns (r: Result<Option<seq<Byte>>, ReadError>)
    requires Layout(bs, base, end) && file == LogBytes(bs) && base <= start < end
    requires IsSlice(slice, ServedRange(bs, base, end, start, max), bs)
    ensures Serves(r, bs, base, end, start, max, maxLen)
    ensures r.Ok? && r.value.Some? ==> |r.value.value| <= maxLen
  {
    hide FirstServed, EndServed, BytesOf, LogBytes, Start, CoverIndex;
    match slice
    case Err(e) => return Err(SliceFailed(e));
    case Ok(None) => return Ok(None);
    case Ok(Some((pos, len))) =>
      ghost var range := ServedRange(bs, base, end, start, max).value.value;
      SliceIsBatches(bs, slice, range.0, range.1);
      return Ok(Some(Limited(file[pos..pos + len], maxLen)));
  }

  // read_records: from the active segment at or above its base, else from the closed segment that the
  // lookup finds.
  method ReadRecords(r: FileReplica, start: int, max: Option<int>, maxLen: nat, schedule: nat -> Schedule)
    returns (out: Result<Option<seq<Byte>>, ReadError>)
    requires r.Valid()
    ensures start == r.active.endOffset ==> out == Ok(None)
    ensures start > r.active.endOffset ==> out == Err(BeyondEnd)
    ensures start < LogStart(r.prev.segments, r.active.baseOffset) ==> out == Err(OffsetEvicted)
    ensures LogStart(r.prev.segments, r.active.baseOffset) <= start < r.active.endOffset ==>
            Answered(r, start, max, maxLen, out)
    ensures out.Ok? && out.value.Some? ==> |out.value.value| <= maxLen
  {
    hide Segment.Valid, Serves, S.Occupied, S.MaxOffset, S.Find, Stacked;
    NotEmpty(r.active);
    StartNotPast(r);
    if start < r.active.baseOffset {
      out := ReadClosed(r, start, max, maxLen, schedule);
    } else if start == r.active.endOffset {
      out := Ok(None);
    } else if start > r.active.endOffset {
      out := Err(BeyondEnd);
    } else {
      out := ReadActive(r.active, start, max, maxLen, schedule);
    }
  }

  method ReadActive(segment: Segment, start: int, max: Option<int>, maxLen: nat, schedule: nat -> Schedule)
    returns (out: Result<Option<seq<Byte>>, ReadError>)
    requires segment.Valid() && segment.baseOffset <= start < segment.endOffset
    ensures Serves(out, segment.batches, segment.baseOffset, segment.endOffset, start, max, maxLen)
    ensures out.Ok? && out.value.Some? ==> |out.value.value| <= maxLen
  {
    hide Layout, LogBytes, Picked, Serves, IsSlice, ServedRange;
    var slice := RecordsSlice(segment, start, max, schedule);
    out := SliceBytes(segment.log.file, slice, maxLen,
                      segment.batches, segment.baseOffset, segment.endOffset, start, max);
  }

  method ReadClosed(r: FileReplica, start: int, max: Option<int>, maxLen: nat, schedule: nat -> Schedule)
    returns (out: Result<Option<seq<Byte>>, ReadError>)
    requires r.Valid() && start < r.active.baseOffset
    ensures start < LogStart(r.prev.segments, r.active.baseOffset) ==> out == Err(OffsetEvicted)
    ensures LogStart(r.prev.segments, r.active.baseOffset) <= start ==> Answered(r, start, max, maxLen, out)
    ensures out.Ok? && out.value.Some? ==> |out.value.value| <= maxLen
  {
    hide Segment.Valid, Layout, LogBytes, Picked, Serves, IsSlice, ServedRange;
    hide S.Occupied, S.MaxOffset, S.Find, Stacked;
    var found := r.prev.FindSegment(start);
    if found.None? {
      NothingBefore(r, start);
      return Err(OffsetEvicted);
    }
    var c := found.value;
    ghost var k := WhereFound(r, start, c);
    var slice := ClosedSlice(c, start, max, schedule, r.logs[k], r.picks[k]);
    out := SliceBytes(c.file, slice, maxLen, r.logs[k], c.base, c.end, start, max);
  }

  lemma {:induction false} StartNotPast(r: FileReplica)
    requires r.Valid()
    ensures LogStart(r.prev.segments, r.active.baseOffset) <= r.active.baseOffset
  {
    hide Segment.Valid, S.MaxOffset, S.Occupied, Backed;
  }

  lemma {:induction false} NothingBefore(r: FileReplica, start: int)
    requires r.Valid() && start < r.active.baseOffset
    requires S.Find(r.prev.segments, r.prev.minOffset, r.prev.maxOffset, start) == None
    ensures start < LogStart(r.prev.segments, r.active.baseOffset)
  {
    hide Segment.Valid, S.Find, S.MaxOffset, S.Occupied, Backed;
    S.NoGapFinds(r.prev.segments, start);
  }

  lemma {:induction false} WhereFound(r: FileReplica, start: int, c: S.Closed) returns (k: nat)
    requires r.Valid() && start < r.active.baseOffset
    requires S.Find(r.prev.segments, r.prev.minOffset, r.prev.maxOffset, start) == Some(c)
    ensures k < |r.prev.segments| == |r.logs| == |r.picks| && r.prev.segments[k] == c && S.Contains(c, start)
    ensures Backs(c, r.logs[k], r.picks[k])
    ensures start >= LogStart(r.prev.segments, r.active.baseOffset)
  {
    hide Segment.Valid, S.Find, S.MaxOffset, S.Occupied, Backs;
    S.NoGapFinds(r.prev.segments, start);
    k :| 0 <= k < |r.prev.segments| && r.prev.segments[k] == c;
  }

  // ----- what a consumer gets -----

  lemma {:induction false} LimitedCuts(whole: seq<Byte>, maxLen: nat)
    ensures var bytes := Limited(whole, maxLen);
            bytes <= whole && |bytes| == if |whole| <= maxLen then |whole| else maxLen
  {
  }

  // The segment that holds a start, as its batches and its offsets.
  ghost predicate HoldsStart(r: FileReplica, start: int, bs: seq<Batch>, base: int, end: int)
    reads r, r.prev, r.active
  {
    if r.active.baseOffset <= start then
      bs == r.active.batches && base == r.active.baseOffset && end == r.active.endOffset
    else
      exists k ::
        && 0 <= k < |r.prev.segments| == |r.logs| && S.Contains(r.prev.segments[k], start)
        && bs == r.logs[k] && base == r.prev.segments[k].base && end == r.prev.segments[k].end
  }

  // A consumer that parses an answer gets the batches of the range in order, whole, as far as the maximum
  // length reaches, and an error if and only if it ends inside a batch.
  lemma {:induction false} AnswerParses(
    r: FileReplica, start: int, max: Option<int>, maxLen: nat, bytes: seq<Byte>)
    returns (bs: seq<Batch>, base: int, end: int, i: nat, j: nat)
    requires r.Valid() && LogStart(r.prev.segments, r.active.baseOffset) <= start < r.active.endOffset
    requires Answered(r, start, max, maxLen, Ok(Some(bytes)))
    ensures HoldsStart(r, start, bs, base, end) && AllLoggable(bs)
    ensures ServedRange(bs, base, end, start, max) == Ok(Some((i, j))) && i <= j <= |bs|
    ensures bytes <= BytesOf(bs, i, j)
    ensures |bytes| == if |BytesOf(bs, i, j)| <= maxLen then |BytesOf(bs, i, j)| else maxLen
    ensures var whole := WholeBefore(bs[i..j], |bytes|, 0);
            var (items, error) := Drain(bytes, 0);
            && items == Positioned(bs[i..j], 0)[..whole]
            && (error.None? <==> Start(bs[i..j], whole) == |bytes|)
  {
    hide FileReplica.Valid, AllLoggable, BytesOf, ServedRange, WholeBefore, Drain, Positioned, Start, LogStart;
    if r.active.baseOffset <= start {
      bs, base, end := r.active.batches, r.active.baseOffset, r.active.endOffset;
    } else {
      var k :| 0 <= k < |r.prev.segments| == |r.logs|
            && S.Contains(r.prev.segments[k], start)
            && Serves(Ok(Some(bytes)), r.logs[k], r.prev.segments[k].base, r.prev.segments[k].end, start, max, maxLen);
      bs, base, end := r.logs[k], r.prev.segments[k].base, r.prev.segments[k].end;
    }
    var range := ServedRange(bs, base, end, start, max).value.value;
    i, j := range.0, range.1;
    LimitedCuts(BytesOf(bs, i, j), maxLen);
    ConsumerParses(bs, i, j, maxLen);
    assert bytes == BytesOf(bs, i, j)[..|bytes|];
  }

  // ----- the segments as one log -----

  lemma {:induction false} OffsetJoined(a: seq<Batch>, b: seq<Batch>, base: int, mid: int, i: nat)
    requires i <= |a + b| && OffsetAt(a, base, |a|) == mid
    ensures OffsetAt(a + b, base, i) == if i < |a| then OffsetAt(a, base, i) else OffsetAt(b, mid, i - |a|)
  {
  }

  lemma {:induction false} LayoutJoined(a: seq<Batch>, b: seq<Batch>, base: int, mid: int, end: int)
    requires Layout(a, base, mid) && Layout(b, mid, end)
    ensures Layout(a + b, base, end)
  {
    hide Loggable, OffsetAt;
    forall i | 0 <= i < |a + b|
      ensures Loggable((a + b)[i]) && (a + b)[i].header.lastOffsetDelta >= 0
      ensures (a + b)[i].baseOffset == OffsetAt(a + b, base, i)
    {
      OffsetJoined(a, b, base, mid, i);
      assert (a + b)[i] == if i < |a| then a[i] else b[i - |a|];
    }
    OffsetJoined(a, b, base, mid, |a + b|);
  }

  lemma {:induction false} ClosedLayout(
    segments: seq<S.Closed>, logs: seq<seq<Batch>>, picks: seq<seq<nat>>, k: nat)
    requires Backed(segments, logs, picks) && S.Contiguous(segments) && 0 < k <= |segments|
    ensures Layout(ClosedBatches(logs[..k]), segments[0].base, segments[k - 1].end)
    decreases k
  {
    hide Layout, S.Ordered;
    assert logs[..k][..k - 1] == logs[..k - 1];
    assert Backs(segments[k - 1], logs[k - 1], picks[k - 1]);
    if k == 1 {
      assert ClosedBatches(logs[..1]) == ClosedBatches([]) + logs[0] == logs[0];
    } else {
      ClosedLayout(segments, logs, picks, k - 1);
      LayoutJoined(ClosedBatches(logs[..k - 1]), logs[k - 1],
                   segments[0].base, segments[k - 1].base, segments[k - 1].end);
    }
  }

  lemma {:induction false} StackedLayout(
    segments: seq<S.Closed>, logs: seq<seq<Batch>>, picks: seq<seq<nat>>, base: int, limit: nat,
    active: seq<Batch>, end: int)
    requires Stacked(segments, logs, picks, base, limit) && Layout(active, base, end) && S.Offsets(segments)
    ensures Layout(ClosedBatches(logs) + active, LogStart(segments, base), end)
  {
    hide Layout, S.Ordered, C.AtMost, Backs;
    var n := |segments|;
    if n == 0 {
      assert ClosedBatches(logs) + active == active;
    } else {
      ClosedLayout(segments, logs, picks, n);
      assert logs[..n] == logs;
      LayoutJoined(ClosedBatches(logs), active, segments[0].base, base, end);
    }
  }

  lemma {:induction false} ClosedPart(logs: seq<seq<Batch>>, k: nat) returns (n: nat)
    requires k < |logs|
    ensures n + |logs[k]| <= |ClosedBatches(logs)| && ClosedBatches(logs)[n..n + |logs[k]|] == logs[k]
    decreases |logs|
  {
    var last := |logs| - 1;
    if k == last {
      n := |ClosedBatches(logs[..last])|;
    } else {
      n := ClosedPart(logs[..last], k);
    }
  }

  // Serving from a part of a log is serving from the log.
  lemma {:induction false} PartOfLog(
    whole: seq<Batch>, first: int, last: int, n: nat, bs: seq<Batch>, base: int, end: int, start: int)
    requires Layout(whole, first, last) && Layout(bs, base, end) && base <= start < end
    requires n + |bs| <= |whole| && whole[n..n + |bs|] == bs
    ensures ServedFrom(bs, start) && FirstServed(whole, start) == n + FirstServed(bs, start)
  {
    hide Layout, FirstServed;
    InSegment(bs, base, end, start);
    FirstIsCover(whole, start);
    var i := n + FirstServed(bs, start);
    assert whole[i] == bs[FirstServed(bs, start)];
    hide CoverIndex;
    BeforeCover(whole, first, last, start, i);
    if i > 0 {
      BaseAt(whole, first, last, i);
      BeforeCover(whole, first, last, start, i - 1);
    }
  }

  lemma {:induction false} FirstIsCover(bs: seq<Batch>, start: int)
    ensures FirstServed(bs, start) == CoverIndex(bs, start, 0)
  {
  }

  lemma {:induction false} PartServed(
    whole: seq<Batch>, first: int, last: int, n: nat, bs: seq<Batch>, base: int, end: int, start: int,
    maxLen: nat, out: Result<Option<seq<Byte>>, ReadError>)
    requires Layout(whole, first, last) && Layout(bs, base, end) && base <= start < end
    requires n + |bs| <= |whole| && whole[n..n + |bs|] == bs
    requires Serves(out, bs, base, end, start, None, maxLen)
    ensures var i := FirstServed(whole, start);
            && i < n + |bs| && AllLoggable(whole) && whole[n + |bs| - 1].LastOffset() + 1 == end
            && whole[i].baseOffset <= start <= whole[i].LastOffset()
            && out == Ok(Some(Limited(BytesOf(whole, i, n + |bs|), maxLen)))
  {
    hide OffsetAt, FirstServed, CoverIndex, LogBytes, Loggable;
    assert AllLoggable(whole);
    LastEnds(bs, base, end);
    hide Layout, AllLoggable;
    PartOfLog(whole, first, last, n, bs, base, end, start);
    var i := FirstServed(bs, start);
    assert whole[n + i] == bs[i] && whole[n + |bs| - 1] == bs[|bs| - 1];
    assert whole[n + i..n + |bs|] == bs[i..|bs|];
  }

  lemma {:induction false} LastEnds(bs: seq<Batch>, base: int, end: int)
    requires Layout(bs, base, end)
    ensures bs != [] ==> bs[|bs| - 1].LastOffset() + 1 == end
  {
    hide AllLoggable;
  }

  // The batches of all segments form one log from its start to its end, without gaps.
  lemma {:induction false} OneLog(r: FileReplica)
    requires r.Valid()
    ensures Layout(r.Batches(), LogStart(r.prev.segments, r.active.baseOffset), r.active.endOffset)
  {
    hide Layout, Stacked, S.Ordered, S.MaxOffset, S.Occupied, LogStart, LastFull, Picked, LogBytes, WritesOf;
    StackedLayout(r.prev.segments, r.logs, r.picks, r.active.baseOffset, r.maxLen + r.IndexLimit(),
                  r.active.batches, r.active.endOffset);
  }

  // The offset at which the segment with a start ends.
  ghost predicate EndsSegment(r: FileReplica, start: int, offset: int)
    reads r, r.prev, r.active
  {
    if r.active.baseOffset <= start then offset == r.active.endOffset
    else
      exists k ::
        0 <= k < |r.prev.segments| && S.Contains(r.prev.segments[k], start) && offset == r.prev.segments[k].end
  }

  // Every offset of the log is served, after every run: without a maximum the bytes are those of the
  // batch of the whole log that contains it, and of those that follow up to the end of its segment.
  lemma {:induction false} EveryOffsetServed(
    r: FileReplica, start: int, maxLen: nat, out: Result<Option<seq<Byte>>, ReadError>) returns (j: nat)
    requires r.Valid() && LogStart(r.prev.segments, r.active.baseOffset) <= start < r.active.endOffset
    requires Answered(r, start, None, maxLen, out)
    ensures var i := FirstServed(r.Batches(), start);
            && i < j <= |r.Batches()| && AllLoggable(r.Batches())
            && r.Batches()[i].baseOffset <= start <= r.Batches()[i].LastOffset()
            && EndsSegment(r, start, r.Batches()[j - 1].LastOffset() + 1)
            && out.Ok? && out.value.Some?
            && var bytes, whole := out.value.value, BytesOf(r.Batches(), i, j);
               bytes <= whole && |bytes| == if |whole| <= maxLen then |whole| else maxLen
  {
    hide Serves, Layout, AllLoggable, FirstServed, BytesOf, S.Contiguous, S.SegmentList.Valid, S.Occupied;
    hide ClosedBatches, LogStart, LastFull, Picked, LogBytes, WritesOf, C.AtMost, Follows;
    OneLog(r);
    var closed, active := ClosedBatches(r.logs), r.active.batches;
    var first, last := LogStart(r.prev.segments, r.active.baseOffset), r.active.endOffset;
    if r.active.baseOffset <= start {
      j := |closed| + |active|;
      assert (closed + active)[|closed|..j] == active;
      PartServed(r.Batches(), first, last, |closed|, active, r.active.baseOffset, last, start, maxLen, out);
    } else {
      var k :| 0 <= k < |r.prev.segments| == |r.logs|
            && S.Contains(r.prev.segments[k], start)
            && Serves(out, r.logs[k], r.prev.segments[k].base, r.prev.segments[k].end, start, None, maxLen);
      assert Backs(r.prev.segments[k], r.logs[k], r.picks[k]);
      var n := ClosedPart(r.logs, k);
      j := n + |r.logs[k]|;
      assert (closed + active)[n..j] == closed[n..j];
      PartServed(r.Batches(), first, last, n, r.logs[k], r.prev.segments[k].base, r.prev.segments[k].end,
                 start, maxLen, out);
    }
  }

  // ----- retention -----

  // The pass on the list of closed segments.
  method CleanList(r: FileReplica, cleaner: C.Cleaner) returns (ghost k: nat)
    requires r.Valid() && cleaner.list == r.prev && cleaner.size == r.size && cleaner.segmentMax == r.maxLen > 0
    modifies r.size`prev, r.prev
    ensures r.prev.Valid() && r.size.prev == S.Occupied(r.prev.segments)
    ensures k <= |old(r.prev.segments)| && r.prev.segments == old(r.prev.segments)[k..]
    ensures old(r.size.active + r.size.prev) > cleaner.maxPartition ==>
            r.size.active + r.size.prev >
            C.PassFloor(old(r.size.active + r.size.prev), cleaner.maxPartition, r.maxLen, r.IndexLimit())
  {
    hide FileReplica.Valid, S.SegmentList.Valid, S.Occupied, C.AtMost;
    hide C.CountToRemove, C.PassFloor, C.Kept, FileReplica.IndexLimit;
    ghost var before, total := r.prev.segments, r.size.active + r.size.prev;
    ExactSizes(r);
    if total > cleaner.maxPartition {
      C.PassKeeps(before, r.size.active, cleaner.maxPartition, r.maxLen, r.IndexLimit());
    }
    cleaner.EnforceSize();
    ghost var count := if total <= cleaner.maxPartition then 0
                       else C.CountToRemove(total, cleaner.maxPartition, cleaner.segmentMax);
    k := KeptFrom(before, count);
  }

  // A size pass of the cleaner drops whole segments from the front of the log, keeps the replica valid
  // with exact sizes, and leaves more than the limit less one segment and the index files it removed.
  method Clean(r: FileReplica, cleaner: C.Cleaner)
    requires r.Valid() && cleaner.list == r.prev && cleaner.size == r.size && cleaner.segmentMax == r.maxLen > 0
    modifies r.size`prev, r.prev, r`logs, r`picks
    ensures r.Valid() && r.active.batches == old(r.active.batches)
    ensures exists k :: 0 <= k <= |old(r.logs)| == |old(r.prev.segments)|
              && r.logs == old(r.logs)[k..] && r.prev.segments == old(r.prev.segments)[k..]
    ensures old(r.size.active + r.size.prev) > cleaner.maxPartition ==>
            r.size.active + r.size.prev >
            C.PassFloor(old(r.size.active + r.size.prev), cleaner.maxPartition, r.maxLen, r.IndexLimit())
  {
    hide Segment.Valid, S.SegmentList.Valid, S.Occupied, C.PassFloor, FileReplica.IndexLimit, Stacked, LastFull;
    ghost var before := r.prev.segments;
    ghost var k := CleanList(r, cleaner);
    r.Forget(before, k);
  }

  lemma {:induction false} KeptFrom(segments: seq<S.Closed>, count: nat) returns (k: nat)
    ensures k <= |segments| && C.Kept(segments, count) == segments[k..]
    ensures count == 0 ==> segments[k..] == segments
  {
    k := C.Smaller(count, |segments|);
  }

  lemma {:induction false} ExactSizes(r: FileReplica)
    requires r.Valid()
    ensures r.prev.Valid() && r.size.prev == S.Occupied(r.prev.segments)
    ensures C.AtMost(r.prev.segments, r.maxLen + r.IndexLimit())
  {
    hide Segment.Valid, S.SegmentList.Valid, S.Occupied, C.AtMost, FileReplica.IndexLimit, Backed, Follows, LastFull;
  }

  lemma {:induction false} SuffixKeeps(
    segments: seq<S.Closed>, logs: seq<seq<Batch>>, picks: seq<seq<nat>>, base: int, k: nat, limit: nat)
    requires Stacked(segments, logs, picks, base, limit) && k <= |segments|
    ensures |logs| == |picks| == |segments|
    ensures Stacked(segments[k..], logs[k..], picks[k..], base, limit)
    ensures LastFull(segments) ==> LastFull(segments[k..])
  {
    hide Backs;
  }

  // A segment that is filled to the segment size takes its index on top, and a pass over it alone then
  // goes below the limit less one segment.
  method OversizedSegmentCutsDeep(b: Batch) returns (c: S.Closed)
    requires ValidBatch(b.(baseOffset := 0)) && !b.HasSchema()
    requires b.header.lastOffsetDelta >= 0 && WriteSizeOf(b) < U32_LIMIT
    ensures var segmentMax, maxPartition := WriteSizeOf(b), c.Size() - 1;
            && c.Size() > segmentMax > 0 && c.file == EncodeBatch(b.(baseOffset := 0, schemaId := 0))
            && C.Kept([c], C.CountToRemove(S.Occupied([c]), maxPartition, segmentMax)) == []
            && S.Occupied([]) <= maxPartition - segmentMax
  {
    hide ValidBatch, EncodeBatch, Layout, Picked, LogBytes;
    ghost var stored := b.(baseOffset := 0, schemaId := 0);
    StoredBatch(b.(baseOffset := 0));
    var segment := new Segment(0, 8, 0, WriteSizeOf(b));
    var appended := segment.AppendBatch(b);
    assert segment.batches == [stored];
    LogOfOne(stored);
    ghost var picks;
    c, picks := Close(segment);
    C.CountPositive(c.Size(), c.Size() - 1, WriteSizeOf(b));
  }

  lemma {:induction false} LogOfOne(b: Batch)
    requires Loggable(b)
    ensures AllLoggable([b]) && LogBytes([b]) == EncodeBatch(b)
  {
    hide EncodeBatch, Loggable;
    assert [b][..0] == [];
  }
}
