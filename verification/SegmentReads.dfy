/**
 Serving a range of offsets (fluvio-storage, segment.rs and replica.rs): the file slice returned for a
 start offset and an exclusive maximum, as bytes and as the batches a consumer parses from it.
 */
module SegmentReads {
  import opened Wrappers
  import opened Bytes
  import opened BatchFormat
  import opened BatchStream
  import opened OffsetIndex
  import opened SegmentLog
  import S = SegmentList

  /** `Underflow` is the subtraction of a later position from an earlier one. */
  datatype SliceError = MaxOffsetNotFound | Underflow | ReadFailed(error: StreamError)

  // Index of the first batch from i on that reaches the offset, |bs| if there is none.
  function CoverIndex(bs: seq<Batch>, offset: int, i: nat): (k: nat)
    requires i <= |bs|
    ensures i <= k <= |bs|
    ensures forall j :: i <= j < k ==> bs[j].LastOffset() < offset
    ensures k < |bs| ==> bs[k].LastOffset() >= offset
    decreases |bs| - i
  {
    if i == |bs| || bs[i].LastOffset() >= offset then i else CoverIndex(bs, offset, i + 1)
  }

  lemma {:induction false} CoveringAt(bs: seq<Batch>, offset: int, i: nat)
    requires i <= |bs|
    ensures var k := CoverIndex(bs, offset, i);
            Covering(bs, offset, i) == if k == |bs| then None else Some((bs[k], Start(bs, k)))
    decreases |bs| - i
  {
    hide Start;
    if i < |bs| && bs[i].LastOffset() < offset {
      CoveringAt(bs, offset, i + 1);
    }
  }

  // The batches served for a start offset and an exclusive maximum.
  function FirstServed(bs: seq<Batch>, start: int): nat {
    CoverIndex(bs, start, 0)
  }

  function EndServed(bs: seq<Batch>, end: int, max: Option<int>): (k: nat)
    ensures k <= |bs|
  {
    if max.None? || max.value >= end then |bs| else CoverIndex(bs, max.value, 0)
  }

  // The batches before the covering one are exactly those that end below the offset.
  lemma {:induction false} BeforeCover(bs: seq<Batch>, base: int, end: int, offset: int, k: nat)
    requires Layout(bs, base, end) && k < |bs|
    ensures k < CoverIndex(bs, offset, 0) <==> bs[k].LastOffset() < offset
  {
    var i := CoverIndex(bs, offset, 0);
    if i < k {
      OffsetsIncrease(bs, base, end, i, k);
    }
    hide Layout, CoverIndex;
  }

  // Exactly the batches that reach the start and end below the maximum.
  lemma {:induction false} ServedIff(bs: seq<Batch>, base: int, end: int, start: int, max: Option<int>, k: nat)
    requires Layout(bs, base, end) && k < |bs|
    ensures FirstServed(bs, start) <= k < EndServed(bs, end, max) <==>
            start <= bs[k].LastOffset() && (max.Some? && max.value < end ==> bs[k].LastOffset() < max.value)
  {
    hide Layout, CoverIndex;
    BeforeCover(bs, base, end, start, k);
    if max.Some? {
      BeforeCover(bs, base, end, max.value, k);
    }
  }

  // No offset at or above the maximum is served, and an offset below it is withheld if and only if
  // its batch reaches the maximum.
  lemma {:induction false} OffsetServedIff(
    bs: seq<Batch>, base: int, end: int, start: int, max: int, k: nat, offset: int)
    requires Layout(bs, base, end) && k < |bs| && base <= start < end && start <= max < end
    requires bs[k].baseOffset <= offset <= bs[k].LastOffset() && start <= offset
    ensures FirstServed(bs, start) <= k < EndServed(bs, end, Some(max)) <==> bs[k].LastOffset() < max
    ensures FirstServed(bs, start) <= k < EndServed(bs, end, Some(max)) ==> offset < max
  {
    hide FirstServed, EndServed;
    ServedIff(bs, base, end, start, Some(max), k);
  }

  // A maximum inside the batch of the start serves nothing.
  lemma {:induction false} MaxInsideFirstBatch(bs: seq<Batch>, base: int, end: int, start: int, max: int, k: nat)
    requires Layout(bs, base, end) && k < |bs| && start <= max
    requires bs[k].baseOffset <= start && max <= bs[k].LastOffset()
    ensures FirstServed(bs, start) == EndServed(bs, end, Some(max)) == k
  {
    BelowEnd(bs, base, end, k);
    BeforeCover(bs, base, end, start, k);
    BeforeCover(bs, base, end, max, k);
    if k > 0 {
      OffsetsIncrease(bs, base, end, k - 1, k);
      BeforeCover(bs, base, end, start, k - 1);
      BeforeCover(bs, base, end, max, k - 1);
    }
    hide Layout, CoverIndex;
  }

  // The bytes of batches i to j.
  function BytesOf(bs: seq<Batch>, i: nat, j: nat): seq<Byte>
    requires AllLoggable(bs) && i <= j <= |bs|
  {
    LogBytes(bs[i..j])
  }

  lemma {:induction false} BytesGrow(bs: seq<Batch>, i: nat, j: nat)
    requires AllLoggable(bs) && i <= j < |bs|
    ensures BytesOf(bs, i, j + 1) == BytesOf(bs, i, j) + EncodeBatch(bs[j])
  {
    hide EncodeBatch, LogBytes, ValidBatch;
    AppendLogBytes(bs[i..j], bs[j]);
    assert bs[i..j + 1] == bs[i..j] + [bs[j]];
  }

  lemma {:induction false} BytesBetween(bs: seq<Batch>, i: nat, j: nat)
    requires AllLoggable(bs) && i <= j <= |bs|
    ensures Start(bs, i) <= Start(bs, j) <= |LogBytes(bs)|
    ensures LogBytes(bs)[Start(bs, i)..Start(bs, j)] == BytesOf(bs, i, j)
    decreases j
  {
    hide EncodeBatch, WriteSizeOf, AllLoggable, Start, LogBytes;
    LogLength(bs);
    if j < |bs| { StartsIncrease(bs, j, |bs|); }
    if i == j {
      NoBytes(bs, i);
    } else {
      BytesBetween(bs, i, j - 1);
      BatchBytes(bs, j - 1);
      BytesGrow(bs, i, j - 1);
      Joined(LogBytes(bs), Start(bs, i), Start(bs, j - 1), Start(bs, j));
    }
  }

  lemma {:induction false} NoBytes(bs: seq<Batch>, i: nat)
    requires AllLoggable(bs) && i <= |bs|
    ensures BytesOf(bs, i, i) == []
  {
    assert bs[i..i] == [];
  }

  lemma {:induction false} Joined(s: seq<Byte>, a: nat, b: nat, c: nat)
    requires a <= b <= c <= |s|
    ensures s[a..c] == s[a..b] + s[b..c]
  {
  }

  // ----- records_slice -----

  // The batches that records_slice asks for: first and end index, or why it fails.
  function ServedRange(bs: seq<Batch>, base: int, end: int, start: int, max: Option<int>)
    : Result<Option<(nat, nat)>, SliceError>
  {
    if !(base <= start < end) then Ok(None)
    else if max.Some? && max.value < base then Err(MaxOffsetNotFound)
    else
      var i, j := FirstServed(bs, start), EndServed(bs, end, max);
      if j < i then Err(Underflow) else Ok(Some((i, j)))
  }

  // A position and a length stand for a range of batches.
  predicate IsSlice(
    r: Result<Option<(nat, nat)>, SliceError>, range: Result<Option<(nat, nat)>, SliceError>, bs: seq<Batch>)
  {
    match range
    case Err(e) => r == Err(e)
    case Ok(None) => r == Ok(None)
    case Ok(Some((i, j))) =>
      && i <= j <= |bs| && r.Ok? && r.value.Some?
      && r.value.value.0 == Start(bs, i) && r.value.value.0 + r.value.value.1 == Start(bs, j)
  }

  // What records_slice does with the positions it finds.
  method Between(
    first: Result<Option<(Batch, nat)>, StreamError>, last: Result<Option<(Batch, nat)>, StreamError>,
    start: int, max: Option<int>, fileLen: nat, ghost bs: seq<Batch>, ghost base: int, end: int)
    returns (r: Result<Option<(nat, nat)>, SliceError>)
    requires Layout(bs, base, end) && fileLen == |LogBytes(bs)|
    requires first == Ok(if base <= start < end then Covering(bs, start, 0) else None)
    requires max.Some? ==> last == Ok(if base <= max.value < end then Covering(bs, max.value, 0) else None)
    ensures IsSlice(r, ServedRange(bs, base, end, start, max), bs)
  {
    hide Layout, LogBytes, Start, FirstServed, EndServed, Covering, CoverIndex;
    CoveredStart(bs, base, end, start);
    match first
    case Err(error) => return Err(ReadFailed(error));
    case Ok(None) => return Ok(None);
    case Ok(Some((_, pos))) =>
      RangePositions(bs, base, end, start, max);
      if max.None? || max.value >= end {
        return Ok(Some((pos, fileLen - pos)));
      }
      CoveredStart(bs, base, end, max.value);
      match last
      case Err(error) => return Err(ReadFailed(error));
      case Ok(None) => return Err(MaxOffsetNotFound);
      case Ok(Some((_, endPos))) =>
        if endPos < pos {
          return Err(Underflow);
        }
        return Ok(Some((pos, endPos - pos)));
  }

  // The active segment.
  method RecordsSlice(segment: Segment, start: int, max: Option<int>, schedule: nat -> Schedule)
    returns (r: Result<Option<(nat, nat)>, SliceError>)
    requires segment.Valid()
    ensures IsSlice(r, ServedRange(segment.batches, segment.baseOffset, segment.endOffset, start, max), segment.batches)
  {
    hide Layout, LogBytes, Picked, IsSlice, ServedRange, Covering;
    var first := segment.FindOffsetPosition(start, schedule);
    var last := first;
    if max.Some? {
      last := segment.FindOffsetPosition(max.value, schedule);
    }
    r := Between(first, last, start, max, segment.log.len, segment.batches, segment.baseOffset, segment.endOffset);
  }

  // ----- closed segments -----

  // Log and index of a closed segment hold these batches and these picks of them.
  predicate Backs(c: S.Closed, bs: seq<Batch>, picks: seq<nat>) {
    && Layout(bs, c.base, c.end) && c.file == LogBytes(bs)
    && |c.file| < U32_LIMIT && c.end - c.base <= U32_LIMIT
    && |c.slots| > 0
    && (bs != [] ==> Picked(bs, c.base, picks, Stored(c.slots)))
  }

  // close and as_segment: the index file keeps the slots in use; mapping an empty one extends it to
  // one slot of zeroes, which stands for the start of the log.
  method Close(segment: Segment) returns (c: S.Closed, ghost picks: seq<nat>)
    requires segment.Valid()
    ensures c.base == segment.baseOffset && c.end == segment.endOffset && Backs(c, segment.batches, picks)
    ensures c.Size() <= segment.log.maxLen + 8 * Larger(1, segment.index.slots.Length)
    ensures c.Size() == segment.log.len + 8 * Larger(1, segment.index.firstEmptySlot)
  {
    hide Layout, LogBytes, Picked, ToBe;
    var slots := segment.index.Shrink();
    picks := segment.picks;
    if slots == [] {
      slots := [EMPTY_SLOT];
      picks := [0];
      StartsAtZero(segment.batches, segment.baseOffset, segment.endOffset);
    }
    c := S.Closed(segment.baseOffset, segment.endOffset, segment.log.file, slots);
  }

  function Larger(a: nat, b: nat): nat {
    if a < b then b else a
  }

  lemma {:induction false} StartsAtZero(bs: seq<Batch>, base: int, end: int)
    requires Layout(bs, base, end)
    ensures bs != [] ==> Picked(bs, base, [0], Stored([EMPTY_SLOT]))
  {
    hide AllLoggable;
    if bs != [] {
      BaseAt(bs, base, end, 0);
    }
    SwapZero();
    assert Stored([EMPTY_SLOT]) == [EMPTY_SLOT];
  }

  // find_offset_position on a closed segment.
  method FindInClosed(c: S.Closed, offset: int, schedule: nat -> Schedule, ghost bs: seq<Batch>, ghost picks: seq<nat>)
    returns (r: Result<Option<(Batch, nat)>, StreamError>)
    requires Backs(c, bs, picks)
    ensures r == Ok(if c.base <= offset < c.end then Covering(bs, offset, 0) else None)
  {
    hide LogBytes, Layout, Picked, AllLoggable;
    if offset < c.base || offset >= c.end {
      return Ok(None);
    }
    CoveredStart(bs, c.base, c.end, offset);
    PickedIncreasing(bs, c.base, c.end, picks, Stored(c.slots));
    var index := new LogIndex(c.slots);
    var entry := index.FindOffset(offset - c.base);
    var position := if entry.None? then 0 else entry.value.position;
    ghost var k := ScanFrom(bs, c.base, picks, Stored(c.slots), offset);
    IndexedScanAgrees(bs, c.base, c.end, picks, Stored(c.slots), offset);
    r := Scan(c.file, position, offset, schedule, bs, c.base, c.end, k);
  }

  // records_slice on a closed segment; its length never exceeds the file, which is tested there.
  method ClosedSlice(
    c: S.Closed, start: int, max: Option<int>, schedule: nat -> Schedule, ghost bs: seq<Batch>, ghost picks: seq<nat>)
    returns (r: Result<Option<(nat, nat)>, SliceError>)
    requires Backs(c, bs, picks)
    ensures IsSlice(r, ServedRange(bs, c.base, c.end, start, max), bs)
  {
    hide Layout, LogBytes, Picked, IsSlice, ServedRange, Covering;
    var first := FindInClosed(c, start, schedule, bs, picks);
    var last := first;
    if max.Some? {
      last := FindInClosed(c, max.value, schedule, bs, picks);
    }
    r := Between(first, last, start, max, |c.file|, bs, c.base, c.end);
  }

  // ----- what a range means -----

  // The bytes of a slice are those of its batches.
  lemma {:induction false} SliceIsBatches(bs: seq<Batch>, r: Result<Option<(nat, nat)>, SliceError>, i: nat, j: nat)
    requires AllLoggable(bs) && IsSlice(r, Ok(Some((i, j))), bs)
    ensures var (pos, len) := r.value.value;
            pos + len <= |LogBytes(bs)| && LogBytes(bs)[pos..pos + len] == BytesOf(bs, i, j)
  {
    hide BytesOf, LogBytes, Start, AllLoggable;
    BytesBetween(bs, i, j);
  }

  // With a maximum inside the segment, the positions are subtracted the wrong way round if and only if
  // the maximum lies before the batch of the start; below the start in the same batch nothing is served.
  lemma {:induction false} UnderflowIff(bs: seq<Batch>, base: int, end: int, start: int, max: int)
    requires Layout(bs, base, end) && base <= start < end && base <= max < end
    ensures FirstServed(bs, start) < |bs|
    ensures ServedRange(bs, base, end, start, Some(max)) == Err(Underflow) <==>
            max < bs[FirstServed(bs, start)].baseOffset
    ensures max < start && max >= bs[FirstServed(bs, start)].baseOffset ==>
            ServedRange(bs, base, end, start, Some(max)) == Ok(Some((FirstServed(bs, start), FirstServed(bs, start))))
  {
    hide Layout, CoverIndex, Covering, Start;
    CoveredStart(bs, base, end, start);
    var i := FirstServed(bs, start);
    BeforeCover(bs, base, end, max, i);
    if i > 0 {
      OffsetsIncrease(bs, base, end, i - 1, i);
      BeforeCover(bs, base, end, max, i - 1);
      BaseAt(bs, base, end, i);
    } else {
      BaseAt(bs, base, end, 0);
    }
  }

  // Every segment of two batches has such a read: from the second batch, up to the first.
  lemma {:induction false} UnderflowHappens(bs: seq<Batch>, base: int, end: int)
    requires Layout(bs, base, end) && |bs| >= 2
    ensures base <= bs[0].baseOffset < bs[1].baseOffset < end
    ensures ServedRange(bs, base, end, bs[1].baseOffset, Some(bs[0].baseOffset)) == Err(Underflow)
  {
    OffsetsIncrease(bs, base, end, 0, 1);
    MaxInsideFirstBatch(bs, base, end, bs[1].baseOffset, bs[1].baseOffset, 1);
    UnderflowIff(bs, base, end, bs[1].baseOffset, bs[0].baseOffset);
  }

  // Which positions the ends of a range have.
  lemma {:induction false} RangePositions(bs: seq<Batch>, base: int, end: int, start: int, max: Option<int>)
    requires Layout(bs, base, end) && base <= start < end
    ensures var i, j := FirstServed(bs, start), EndServed(bs, end, max);
            && i < |bs| && j <= |bs|
            && (j < i <==> Start(bs, j) < Start(bs, i))
            && Start(bs, i) <= |LogBytes(bs)|
            && (max.None? || max.value >= end ==> i <= j && Start(bs, j) == |LogBytes(bs)|)
            && (max.Some? && max.value < end ==> j == FirstServed(bs, max.value))
  {
    hide Start, LogBytes, Covering, CoverIndex, WriteSizeOf, AllLoggable;
    CoveredStart(bs, base, end, start);
    LogLength(bs);
    hide Layout;
    var i, j := FirstServed(bs, start), EndServed(bs, end, max);
    StartsCompare(bs, i, j);
    StartsCompare(bs, |bs|, i);
  }

  lemma {:induction false} StartsCompare(bs: seq<Batch>, i: nat, j: nat)
    requires i <= |bs| && j <= |bs|
    ensures j < i <==> Start(bs, j) < Start(bs, i)
  {
    hide Start;
    if i < j {
      StartsIncrease(bs, i, j);
    } else if j < i {
      StartsIncrease(bs, j, i);
    }
  }

  // An offset of the segment has a batch, at the position of the first one that reaches it.
  lemma {:induction false} CoveredStart(bs: seq<Batch>, base: int, end: int, offset: int)
    requires Layout(bs, base, end)
    ensures base <= offset < end ==>
            && FirstServed(bs, offset) < |bs|
            && Covering(bs, offset, 0) == Some((bs[FirstServed(bs, offset)], Start(bs, FirstServed(bs, offset))))
  {
    hide Layout, Start;
    if base <= offset < end {
      CoveringContains(bs, base, end, offset, 0);
      CoveringAt(bs, offset, 0);
    }
  }

  // A consumer that parses the slice, cut to any length, gets its first batches whole, and an error
  // unless the cut falls between batches.
  lemma {:induction false} ConsumerParses(bs: seq<Batch>, i: nat, j: nat, maxLen: nat)
    requires AllLoggable(bs) && i <= j <= |bs|
    ensures var slice := BytesOf(bs, i, j);
            var limited := slice[..if maxLen < |slice| then maxLen else |slice|];
            var whole := WholeBefore(bs[i..j], |limited|, 0);
            var (items, error) := Drain(limited, 0);
            && items == Positioned(bs[i..j], 0)[..whole]
            && (error.None? <==> Start(bs[i..j], whole) == |limited|)
  {
    hide LogBytes, Drain, Positioned;
    var slice := BytesOf(bs, i, j);
    var cut := if maxLen < |slice| then maxLen else |slice|;
    assert Start(bs[i..j], 0) == 0;
    DrainCutLog(bs[i..j], cut, 0);
  }

  lemma {:induction false} InSegment(bs: seq<Batch>, base: int, end: int, offset: int)
    requires Layout(bs, base, end) && base <= offset < end
    ensures ServedFrom(bs, offset)
  {
    hide Layout, Start;
    CoveringContains(bs, base, end, offset, 0);
    CoveredStart(bs, base, end, offset);
  }

  // The first batch served contains the offset.
  predicate ServedFrom(bs: seq<Batch>, offset: int) {
    var i := FirstServed(bs, offset);
    i < |bs| && bs[i].baseOffset <= offset <= bs[i].LastOffset()
  }
}
