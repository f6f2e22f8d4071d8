/**
 The active segment (fluvio-storage, segment.rs and mut_records.rs): a log of batches and its sparse
 index, written together, and the lookup that must agree with a scan from the start.
 */
module SegmentLog {
  import opened Wrappers
  import opened Bytes
  import opened BatchFormat
  import opened BatchStream
  import opened OffsetIndex
  import opened IndexSpacing

  datatype LogError = InvalidBaseOffsetMinimum(offset: int) | EmptyBatch

  const TWO31: int := 0x8000_0000

  /** MutFileRecords: the log file and its length. */
  class MutFileRecords {
    const baseOffset: int
    const maxLen: Size
    var file: seq<Byte>
    var len: Size
    var writeCount: nat
    var flushCount: Size

    constructor (baseOffset: int, maxLen: Size)
      ensures this.baseOffset == baseOffset && this.maxLen == maxLen
      ensures file == [] && len == 0 && writeCount == 0 && flushCount == 0
    {
      this.baseOffset := baseOffset;
      this.maxLen := maxLen;
      file, len, writeCount, flushCount := [], 0, 0, 0;
    }

    // create over a file that is already there
    constructor Over(baseOffset: int, maxLen: Size, file: seq<Byte>)
      requires |file| < U32_LIMIT
      ensures this.baseOffset == baseOffset && this.maxLen == maxLen && this.file == file && len == |file|
      ensures writeCount == 0 && flushCount == 0
    {
      this.baseOffset := baseOffset;
      this.maxLen := maxLen;
      this.file, len, writeCount, flushCount := file, |file|, 0, 0;
    }

    method SetLen(len: Size)
      requires len <= |file|
      modifies this
      ensures file == old(file)[..len] && this.len == len
    {
      file := file[..len];
      this.len := len;
    }

    // A batch is appended when it fits.  A schema id would fail the size assertion (see
    // BatchFormat.WriteSizeIffNoSchema), and the u32 sum must not wrap.
    method WriteBatch(b: Batch) returns (r: Result<(bool, nat, nat), LogError>)
      requires ValidBatch(b) && !b.HasSchema()
      requires WriteSizeOf(b) + len < U32_LIMIT
      modifies this
      ensures b.baseOffset < baseOffset ==> r == Err(InvalidBaseOffsetMinimum(b.baseOffset))
      ensures b.baseOffset >= baseOffset && WriteSizeOf(b) + old(len) > maxLen ==>
              r == Ok((false, WriteSizeOf(b), old(len)))
      ensures !(r.Ok? && r.value.0) ==>
              file == old(file) && len == old(len) && writeCount == old(writeCount) && flushCount == old(flushCount)
      ensures b.baseOffset >= baseOffset && WriteSizeOf(b) + old(len) <= maxLen ==>
              && file == old(file) + EncodeBatch(b)
              && len == old(len) + |EncodeBatch(b)|
              && r == Ok((true, |EncodeBatch(b)|, len))
              && flushCount == (old(flushCount) + 1) % U32_LIMIT
              && writeCount == if old(writeCount) < 0xFFFF_FFFF_FFFF_FFFF then old(writeCount) + 1 else old(writeCount)
    {
      hide ValidBatch, EncodeHeader;
      if b.baseOffset < baseOffset {
        return Err(InvalidBaseOffsetMinimum(b.baseOffset));
      }
      var batchLen := WriteSizeOf(b);
      if batchLen + len > maxLen {
        return Ok((false, batchLen, len));
      }
      var buffer := EncodeBatch(b);
      assert |buffer| == batchLen;
      file := file + buffer;
      len := len + batchLen;
      if writeCount < 0xFFFF_FFFF_FFFF_FFFF {
        writeCount := writeCount + 1;
      }
      flushCount := (flushCount + 1) % U32_LIMIT;
      return Ok((true, batchLen, len));
    }
  }

  // ----- the batches of a segment -----

  // Batches follow each other without gaps from the base offset to the end offset.
  predicate Layout(bs: seq<Batch>, base: int, end: int) {
    && AllLoggable(bs)
    && (forall i :: 0 <= i < |bs| ==> bs[i].header.lastOffsetDelta >= 0)
    && (forall i {:trigger OffsetAt(bs, base, i)} :: 0 <= i < |bs| ==> bs[i].baseOffset == OffsetAt(bs, base, i))
    && end == OffsetAt(bs, base, |bs|)
  }

  // The offset that follows the first i batches.
  function OffsetAt(bs: seq<Batch>, base: int, i: nat): int
    requires i <= |bs|
  {
    if i == 0 then base else bs[i - 1].LastOffset() + 1
  }

  // The first batch from i on that reaches the offset, with its position.
  function Covering(bs: seq<Batch>, offset: int, i: nat): Option<(Batch, nat)>
    requires i <= |bs|
    decreases |bs| - i
  {
    if i == |bs| then None
    else if bs[i].LastOffset() >= offset then Some((bs[i], Start(bs, i)))
    else Covering(bs, offset, i + 1)
  }

  // The index entries are the (relative offset, position) pairs of the picked batches.
  predicate Picked(bs: seq<Batch>, base: int, picks: seq<nat>, entries: seq<Entry>) {
    && |picks| == |entries|
    && (forall i :: 0 <= i < |picks| ==> picks[i] < |bs|)
    && (forall i, j :: 0 <= i < j < |picks| ==> picks[i] < picks[j])
    && (forall i :: 0 <= i < |picks| ==>
          entries[i].offset == bs[picks[i]].baseOffset - base && entries[i].position == Start(bs, picks[i]))
  }

  // Each batch starts at the offset that follows the one before it.
  lemma {:induction false} BaseAt(bs: seq<Batch>, base: int, end: int, i: nat)
    requires Layout(bs, base, end) && i < |bs|
    ensures bs[i].baseOffset == if i == 0 then base else bs[i - 1].LastOffset() + 1
  {
    hide AllLoggable;
    assert bs[i].baseOffset == OffsetAt(bs, base, i);
  }

  lemma {:induction false} OffsetsIncrease(bs: seq<Batch>, base: int, end: int, i: nat, j: nat)
    requires Layout(bs, base, end) && i < j < |bs|
    ensures base <= bs[i].baseOffset <= bs[i].LastOffset() < bs[j].baseOffset <= bs[j].LastOffset() < end
    decreases j - i
  {
    hide AllLoggable;
    AtLeastBase(bs, base, end, i);
    BelowEnd(bs, base, end, j);
    BaseAt(bs, base, end, i + 1);
    if i + 1 < j { OffsetsIncrease(bs, base, end, i + 1, j); }
  }

  lemma {:induction false} AtLeastBase(bs: seq<Batch>, base: int, end: int, i: nat)
    requires Layout(bs, base, end) && i < |bs|
    ensures base <= bs[i].baseOffset <= bs[i].LastOffset()
  {
    hide AllLoggable;
    BaseAt(bs, base, end, i);
    if i > 0 {
      AtLeastBase(bs, base, end, i - 1);
    }
  }

  lemma {:induction false} BelowEnd(bs: seq<Batch>, base: int, end: int, i: nat)
    requires Layout(bs, base, end) && i < |bs|
    ensures bs[i].LastOffset() < end
    decreases |bs| - i
  {
    hide AllLoggable;
    if i + 1 < |bs| {
      BaseAt(bs, base, end, i + 1);
      BelowEnd(bs, base, end, i + 1);
    }
  }

  // Entries of picked batches increase in both parts.
  lemma {:induction false} PickedIncreasing(bs: seq<Batch>, base: int, end: int, picks: seq<nat>, entries: seq<Entry>)
    requires Layout(bs, base, end) && Picked(bs, base, picks, entries)
    ensures Increasing(entries)
  {
    forall i, j | 0 <= i < j < |entries|
      ensures entries[i].offset < entries[j].offset && entries[i].position < entries[j].position
    {
      OffsetsIncrease(bs, base, end, picks[i], picks[j]);
      StartsIncrease(bs, picks[i], picks[j]);
    }
  }

  lemma {:induction false} FloorIsEntry(entries: seq<Entry>, offset: Size)
    requires Floor(entries, offset).Some?
    ensures Floor(entries, offset).value in entries
    ensures Floor(entries, offset).value.offset <= offset
  {
    if entries[|entries| - 1].offset > offset {
      FloorIsEntry(entries[..|entries| - 1], offset);
    }
  }

  // Where a lookup starts to scan: the batch of the floor entry, or the first one.
  function ScanFrom(bs: seq<Batch>, base: int, picks: seq<nat>, entries: seq<Entry>, offset: int): (k: nat)
    requires Picked(bs, base, picks, entries) && 0 <= offset - base < U32_LIMIT
    ensures k <= |bs|
    ensures match Floor(entries, offset - base)
            case None => k == 0
            case Some(e) => e.position == Start(bs, k) && k < |bs| && bs[k].baseOffset <= offset
  {
    match Floor(entries, offset - base)
    case None => 0
    case Some(e) =>
      FloorIsEntry(entries, offset - base);
      var j := EntryAt(entries, e);
      picks[j]
  }

  function EntryAt(entries: seq<Entry>, e: Entry): (j: nat)
    requires e in entries
    ensures j < |entries| && entries[j] == e
  {
    if entries[|entries| - 1] == e then |entries| - 1 else EntryAt(entries[..|entries| - 1], e)
  }

  // Scanning from the indexed batch finds what a scan from the start finds.
  lemma {:induction false} IndexedScanAgrees(
    bs: seq<Batch>, base: int, end: int, picks: seq<nat>, entries: seq<Entry>, offset: int)
    requires Layout(bs, base, end) && Picked(bs, base, picks, entries) && 0 <= offset - base < U32_LIMIT
    ensures Covering(bs, offset, ScanFrom(bs, base, picks, entries, offset)) == Covering(bs, offset, 0)
  {
    var k := ScanFrom(bs, base, picks, entries, offset);
    if Floor(entries, offset - base).Some? {
      SkipEarlier(bs, base, end, offset, 0, k);
    }
  }

  lemma {:induction false} SkipEarlier(bs: seq<Batch>, base: int, end: int, offset: int, i: nat, k: nat)
    requires Layout(bs, base, end) && i <= k < |bs| && bs[k].baseOffset <= offset
    ensures Covering(bs, offset, i) == Covering(bs, offset, k)
    decreases k - i
  {
    hide Layout, Start;
    if i < k {
      OffsetsIncrease(bs, base, end, i, k);
      SkipEarlier(bs, base, end, offset, i + 1, k);
    }
  }

  // An offset of the segment is found in exactly the batch that contains it; others are not found.
  lemma {:induction false} CoveringContains(bs: seq<Batch>, base: int, end: int, offset: int, i: nat)
    requires Layout(bs, base, end) && i <= |bs|
    requires i > 0 ==> bs[i - 1].LastOffset() < offset
    requires base <= offset
    ensures Covering(bs, offset, i).Some? <==> offset < end
    ensures Covering(bs, offset, i).Some? ==>
            var (b, pos) := Covering(bs, offset, i).value;
            && b.baseOffset <= offset <= b.LastOffset()
            && exists j :: i <= j < |bs| && b == bs[j] && pos == Start(bs, j)
    decreases |bs| - i
  {
    hide AllLoggable, Start;
    if i < |bs| {
      BaseAt(bs, base, end, i);
      BelowEnd(bs, base, end, i);
      if bs[i].LastOffset() < offset {
        CoveringContains(bs, base, end, offset, i + 1);
      }
    }
  }

  // At the start of batch i the stream yields batch i, and at the end nothing.
  lemma {:induction false} ScanStep(bs: seq<Batch>, base: int, end: int, i: nat)
    requires Layout(bs, base, end) && i <= |bs|
    ensures StepAt(LogBytes(bs), Start(bs, i)) ==
            if i == |bs| then AtEnd else Next(bs[i], Start(bs, i), Start(bs, i + 1))
  {
    hide ValidBatch, StepAt, LogBytes;
    LogLength(bs);
    if i == |bs| {
      StepAtEnd(LogBytes(bs));
    } else {
      BatchBytes(bs, i);
      StepAtBatch(bs, i, LogBytes(bs));
    }
  }

  // The scanning loop of find_offset_position, from a position where a batch starts.
  method Scan(file: seq<Byte>, position: nat, offset: int, schedule: nat -> Schedule,
              ghost bs: seq<Batch>, ghost base: int, ghost end: int, ghost k: nat)
    returns (r: Result<Option<(Batch, nat)>, StreamError>)
    requires Layout(bs, base, end) && file == LogBytes(bs) && k <= |bs| && position == Start(bs, k)
    ensures r == Ok(Covering(bs, offset, k))
  {
    hide Layout, LogBytes, StepAt, Start;
    var stream := new FileBatchStream(file, schedule, position);
    ghost var i := k;
    while true
      invariant i <= |bs| && fresh(stream) && fresh(stream.iter) && stream.iter.file == file
      invariant !stream.invalid && stream.iter.pos == Start(bs, i)
      invariant Covering(bs, offset, i) == Covering(bs, offset, k)
      decreases |bs| - i
    {
      ScanStep(bs, base, end, i);
      var next := stream.TryNext();
      match next
      case Err(error) => return Err(error);
      case Ok(None) => return Ok(None);
      case Ok(Some((batch, pos))) =>
        if batch.LastOffset() >= offset {
          return Ok(Some((batch, pos)));
        }
        i := i + 1;
    }
  }

  // ----- appending -----

  lemma {:induction false} AppendKeepsLayout(bs: seq<Batch>, base: int, end: int, b: Batch)
    requires Layout(bs, base, end) && Loggable(b)
    requires b.baseOffset == end && b.header.lastOffsetDelta >= 0
    ensures Layout(bs + [b], base, b.LastOffset() + 1)
  {
    hide Loggable;
    var cs := bs + [b];
    forall i | 0 <= i < |cs|
      ensures cs[i].header.lastOffsetDelta >= 0 && cs[i].baseOffset == OffsetAt(cs, base, i)
    {
      if i < |bs| {
        assert cs[i] == bs[i] && bs[i].baseOffset == OffsetAt(bs, base, i);
      }
    }
  }

  lemma {:induction false} AppendLogBytes(bs: seq<Batch>, b: Batch)
    requires AllLoggable(bs) && Loggable(b)
    ensures AllLoggable(bs + [b]) && LogBytes(bs + [b]) == LogBytes(bs) + EncodeBatch(b)
  {
    hide EncodeBatch, Loggable;
    var cs := bs + [b];
    assert cs[..|cs| - 1] == bs;
  }

  lemma {:induction false} AppendKeepsPicked(bs: seq<Batch>, base: int, picks: seq<nat>, entries: seq<Entry>, b: Batch)
    requires Picked(bs, base, picks, entries)
    ensures Picked(bs + [b], base, picks, entries)
  {
    var cs := bs + [b];
    forall i | 0 <= i < |picks|
      ensures Start(cs, picks[i]) == Start(bs, picks[i])
    {
      StartOfPrefix(cs, bs, picks[i]);
    }
  }

  lemma {:induction false} AddPick(bs: seq<Batch>, base: int, picks: seq<nat>, entries: seq<Entry>, k: nat, e: Entry)
    requires Picked(bs, base, picks, entries) && k < |bs|
    requires forall i :: 0 <= i < |picks| ==> picks[i] < k
    requires e.offset == bs[k].baseOffset - base && e.position == Start(bs, k)
    ensures Picked(bs, base, picks + [k], entries + [e])
  {
    hide Start;
  }

  lemma {:induction false} AppendPicks(
    bs: seq<Batch>, base: int, picks: seq<nat>, entries: seq<Entry>, b: Batch, e: Entry)
    requires Picked(bs, base, picks, entries)
    requires e.offset == b.baseOffset - base && e.position == Start(bs, |bs|)
    ensures Picked(bs + [b], base, picks + [|bs|], entries + [e])
  {
    AppendKeepsPicked(bs, base, picks, entries, b);
    StartOfPrefix(bs + [b], bs, |bs|);
    assert forall i :: 0 <= i < |picks| ==> picks[i] < |bs|;
    hide Picked, Start;
    AddPick(bs + [b], base, picks, entries, |bs|, e);
  }

  ghost function GrownPicks(bs: seq<Batch>, picks: seq<nat>, s: IndexState, interval: nat, capacity: nat): seq<nat> {
    if s.accumulated >= interval && |s.entries| < capacity then picks + [|bs|] else picks
  }

  // Whether or not write_index records the batch, the entries stay those of real batches.
  lemma {:induction false} GrowIndex(bs: seq<Batch>, base: int, picks: seq<nat>, s: IndexState, b: Batch, e: Entry,
                  interval: nat, capacity: nat, batchLen: nat)
    requires Picked(bs, base, picks, s.entries)
    requires e.offset == b.baseOffset - base && e.position == Start(bs, |bs|)
    ensures Picked(bs + [b], base, GrownPicks(bs, picks, s, interval, capacity),
                   WriteStep(s, interval, capacity, e, batchLen).entries)
  {
    AppendKeepsPicked(bs, base, picks, s.entries, b);
    AppendPicks(bs, base, picks, s.entries, b, e);
  }

  // A batch without a schema id is stored without one.
  lemma {:induction false} StoredBatch(b: Batch)
    requires ValidBatch(b) && !b.HasSchema()
    ensures Loggable(b.(schemaId := 0)) && EncodeBatch(b.(schemaId := 0)) == EncodeBatch(b)
    ensures |EncodeBatch(b)| == WriteSizeOf(b) && b.header.lastOffsetDelta < TWO31
  {
    Pow256Values();
    assert HeaderValue(b.(schemaId := 0)) == HeaderValue(b);
  }

  // The write_index calls for the batches of a segment.
  predicate WritesOf(writes: seq<(Entry, nat)>, bs: seq<Batch>, base: int) {
    && |writes| == |bs|
    && forall i :: 0 <= i < |bs| ==>
         && writes[i].0.offset == bs[i].baseOffset - base && writes[i].0.position == Start(bs, i)
         && writes[i].1 == WriteSizeOf(bs[i])
  }

  lemma {:induction false} AppendWrites(writes: seq<(Entry, nat)>, bs: seq<Batch>, base: int, b: Batch, e: Entry)
    requires WritesOf(writes, bs, base) && e.offset == b.baseOffset - base && e.position == Start(bs, |bs|)
    ensures WritesOf(writes + [(e, WriteSizeOf(b))], bs + [b], base)
  {
    hide Start, WriteSizeOf;
    var cs := bs + [b];
    forall i | 0 <= i < |cs| ensures Start(cs, i) == Start(bs, i) {
      StartOfPrefix(cs, bs, i);
    }
  }

  lemma {:induction false} RunSnoc(
    s: IndexState, interval: nat, capacity: nat, writes: seq<(Entry, nat)>, w: (Entry, nat))
    ensures Run(s, interval, capacity, writes + [w]) ==
            WriteStep(Run(s, interval, capacity, writes), interval, capacity, w.0, w.1)
  {
    hide WriteStep;
    assert (writes + [w])[..|writes|] == writes;
  }

  const NEW_INDEX := IndexState([], 0, 0)

  // The state of an index after the writes for these batches.
  ghost predicate GrownFrom(
    writes: seq<(Entry, nat)>, bs: seq<Batch>, base: int, s: IndexState, interval: nat, capacity: nat)
  {
    WritesOf(writes, bs, base) && s == Run(NEW_INDEX, interval, capacity, writes)
  }

  lemma {:induction false} GrownStep(
    writes: seq<(Entry, nat)>, bs: seq<Batch>, base: int, s: IndexState, interval: nat, capacity: nat,
    b: Batch, e: Entry)
    requires e.offset == b.baseOffset - base && e.position == Start(bs, |bs|)
    ensures GrownFrom(writes, bs, base, s, interval, capacity) ==>
            GrownFrom(writes + [(e, WriteSizeOf(b))], bs + [b], base,
                      WriteStep(s, interval, capacity, e, WriteSizeOf(b)), interval, capacity)
  {
    hide WritesOf, Run, WriteStep, Start, WriteSizeOf;
    if GrownFrom(writes, bs, base, s, interval, capacity) {
      AppendWrites(writes, bs, base, b, e);
      RunSnoc(NEW_INDEX, interval, capacity, writes, (e, WriteSizeOf(b)));
    }
  }

  // A segment without batches.
  lemma {:induction false} NothingYet(base: int, interval: nat, capacity: nat)
    ensures Layout([], base, base) && LogBytes([]) == [] && Picked([], base, [], [])
    ensures GrownFrom([], [], base, NEW_INDEX, interval, capacity)
  {
    assert Layout([], base, base) && LogBytes([]) == [];
    hide Layout, LogBytes, Start, WriteStep;
  }

  /** MutableSegment */
  class Segment {
    const baseOffset: int
    const log: MutFileRecords
    const index: MutLogIndex
    var endOffset: int
    ghost var batches: seq<Batch>
    ghost var picks: seq<nat>
    ghost var writes: seq<(Entry, nat)>

    ghost predicate Valid()
      reads this, log, index, index.slots
    {
      && index.Valid()
      && log.baseOffset == baseOffset
      && index.maxIndexInterval + log.maxLen <= U32_LIMIT
      && Layout(batches, baseOffset, endOffset)
      && endOffset - baseOffset <= U32_LIMIT
      && log.file == LogBytes(batches)
      && log.len == |log.file| <= log.maxLen
      && Picked(batches, baseOffset, picks, index.Entries())
      && index.lastOffsetDelta <= if batches == [] then 0 else batches[|batches| - 1].baseOffset - baseOffset
    }

    // The index is what appending the batches to a new segment leaves.
    ghost predicate Grown()
      reads this, index, index.slots
    {
      && index.Valid() && index.Zeroed()
      && GrownFrom(writes, batches, baseOffset, index.State(), index.maxIndexInterval, index.slots.Length)
    }

    // create
    constructor (base: int, indexMaxBytes: nat, interval: Size, maxLen: Size)
      requires interval + maxLen <= U32_LIMIT
      ensures Valid() && Grown() && batches == [] && baseOffset == base && endOffset == base
      ensures fresh(log) && fresh(index) && fresh(index.slots)
      ensures log.maxLen == maxLen && log.len == 0
      ensures index.maxIndexInterval == interval && index.slots.Length == indexMaxBytes / 8
      ensures index.firstEmptySlot == 0
    {
      hide Layout, LogBytes, Picked, GrownFrom;
      NothingYet(base, interval, indexMaxBytes / 8);
      baseOffset := base;
      log := new MutFileRecords(base, maxLen);
      index := new MutLogIndex(indexMaxBytes, interval);
      endOffset := base;
      batches, picks, writes := [], [], [];
    }

    // A segment over files that are already there.
    constructor Over(
      log: MutFileRecords, index: MutLogIndex, endOffset: int, ghost bs: seq<Batch>, ghost picks: seq<nat>)
      ensures baseOffset == log.baseOffset && this.log == log && this.index == index && this.endOffset == endOffset
      ensures batches == bs && this.picks == picks
    {
      baseOffset := log.baseOffset;
      this.log, this.index, this.endOffset := log, index, endOffset;
      batches, this.picks, writes := bs, picks, [];
    }

    // append_batch: the batch gets the next offset, and log and index grow together.
    method AppendBatch(b: Batch) returns (r: Result<bool, LogError>)
      requires Valid()
      requires ValidBatch(b.(baseOffset := endOffset)) && !b.HasSchema()
      requires WriteSizeOf(b) + log.len < U32_LIMIT && endOffset - baseOffset < TWO31
      modifies this, log, index, index.slots
      ensures Valid() && (old(Grown()) ==> Grown())
      ensures r.Err? <==> b.header.lastOffsetDelta < 0
      ensures r == Ok(true) <==> b.header.lastOffsetDelta >= 0 && WriteSizeOf(b) + old(log.len) <= log.maxLen
      ensures r == Ok(true) ==>
              && batches == old(batches) + [Batch(old(endOffset), b.header, 0, b.records)]
              && endOffset == old(endOffset) + b.header.lastOffsetDelta + 1
      ensures r != Ok(true) ==>
              && batches == old(batches) && endOffset == old(endOffset)
              && log.file == old(log.file) && log.len == old(log.len)
              && index.Entries() == old(index.Entries()) && index.firstEmptySlot == old(index.firstEmptySlot)
    {
      hide ValidBatch, EncodeBatch, LogBytes, Layout, Picked, Start, WriteStep, GrownPicks, GrownFrom;
      if b.RecordsLen() == 0 {
        return Err(EmptyBatch);
      }
      var b' := b.(baseOffset := endOffset);
      var nextEndOffset := b'.LastOffset();
      var relativeOffset := endOffset - baseOffset;
      var startFilePos := log.len;
      var batchLen := WriteSizeOf(b');
      DeltaIncreases();
      StoredBatch(b');
      var written := log.WriteBatch(b');
      if written.Err? || !written.value.0 {
        return Ok(false);
      }
      index.WriteIndex(relativeOffset, startFilePos, batchLen);
      endOffset := nextEndOffset + 1;
      ghost var stored := b'.(schemaId := 0);
      GrowIndex(batches, baseOffset, picks, old(index.State()), stored, Entry(relativeOffset, startFilePos),
                index.maxIndexInterval, index.slots.Length, batchLen);
      AppendKeepsLayout(batches, baseOffset, old(endOffset), stored);
      AppendLogBytes(batches, stored);
      GrownStep(writes, batches, baseOffset, old(index.State()), index.maxIndexInterval, index.slots.Length,
                stored, Entry(relativeOffset, startFilePos));
      writes := writes + [(Entry(relativeOffset, startFilePos), batchLen)];
      picks := GrownPicks(batches, picks, old(index.State()), index.maxIndexInterval, index.slots.Length);
      batches := batches + [stored];
      r := Ok(true);
    }

    // find_offset_position: index lookup, then a scan of the file under any schedule of short reads.
    method FindOffsetPosition(offset: int, schedule: nat -> Schedule)
      returns (r: Result<Option<(Batch, nat)>, StreamError>)
      requires Valid()
      ensures r == Ok(if baseOffset <= offset < endOffset then Covering(batches, offset, 0) else None)
    {
      hide ValidBatch, LogBytes, Layout, AllLoggable, Picked, Start, Floor, Covering, Increasing;
      if offset < baseOffset || offset >= endOffset {
        return Ok(None);
      }
      PickedIncreasing(batches, baseOffset, endOffset, picks, index.Entries());
      var entry := index.FindOffset(offset - baseOffset);
      var position := if entry.None? then 0 else entry.value.position;
      StartOfFirst(batches);
      ghost var k := ScanFrom(batches, baseOffset, picks, index.Entries(), offset);
      IndexedScanAgrees(batches, baseOffset, endOffset, picks, index.Entries(), offset);
      r := Scan(log.file, position, offset, schedule, batches, baseOffset, endOffset, k);
    }

    lemma {:induction false} DeltaIncreases()
      requires Valid()
      ensures endOffset - baseOffset > 0 ==> endOffset - baseOffset > index.lastOffsetDelta
      ensures endOffset - baseOffset == 0 ==> index.lastOffsetDelta == 0
      ensures endOffset >= baseOffset && log.len == Start(batches, |batches|) && AllLoggable(batches)
    {
      LogLength(batches);
      if batches != [] { AtLeastBase(batches, baseOffset, endOffset, |batches| - 1); }
    }
  }

  // ----- the index of a segment -----

  lemma {:induction false} SumUnfolds(sizes: seq<nat>, bs: seq<Batch>, i: nat)
    requires i <= |sizes| == |bs|
    ensures i == 0 ==> Position(sizes, i) == 0 && Start(bs, i) == 0
    ensures i > 0 ==> Position(sizes, i) == Position(sizes, i - 1) + sizes[i - 1]
    ensures i > 0 ==> Start(bs, i) == Start(bs, i - 1) + WriteSizeOf(bs[i - 1])
  {
    hide WriteSizeOf;
  }

  lemma {:induction false} PositionIsStart(writes: seq<(Entry, nat)>, bs: seq<Batch>, base: int, i: nat)
    requires WritesOf(writes, bs, base) && i <= |bs|
    ensures Position(Sizes(writes), i) == Start(bs, i)
  {
    hide WriteSizeOf, Start, Position;
    SumUnfolds(Sizes(writes), bs, i);
    if i > 0 {
      PositionIsStart(writes, bs, base, i - 1);
    }
  }

  // After every run of appends, consecutive entries lie at least the interval plus the first batch
  // apart, and less than that plus the last batch between them.
  lemma {:induction false} SegmentSpacing(segment: Segment, i: nat) returns (a: nat, b: nat)
    requires segment.Grown() && i + 1 < |segment.index.Entries()|
    ensures var bs, entries, interval := segment.batches, segment.index.Entries(), segment.index.maxIndexInterval;
            && a < b < |bs|
            && entries[i].position == Start(bs, a) && entries[i + 1].position == Start(bs, b)
            && Start(bs, b) - Start(bs, a) >= interval + WriteSizeOf(bs[a])
            && (interval > 0 ==> Start(bs, b) - Start(bs, a) < interval + WriteSizeOf(bs[a]) + WriteSizeOf(bs[b - 1]))
  {
    hide Run, Follow, Start, Position, WriteSizeOf, Layout, Picked, LogBytes;
    var writes, interval, room := segment.writes, segment.index.maxIndexInterval, segment.index.slots.Length;
    RunFollows(NEW_INDEX, interval, room, writes);
    var picks := Follow(Sizes(writes), interval, room).picks;
    Spacing(Sizes(writes), interval, room, i);
    a, b := picks[i], picks[i + 1];
    PositionIsStart(writes, segment.batches, segment.baseOffset, a);
    PositionIsStart(writes, segment.batches, segment.baseOffset, b);
  }

  // Reopening the index of a segment finds all its entries if and only if a slot is free and, unless
  // there are none, the interval is positive.
  lemma {:induction false} SegmentReopensIff(segment: Segment)
    requires segment.Grown()
    ensures var n, slots := segment.index.firstEmptySlot, segment.index.slots[..];
            && (FirstEmpty(slots) == Some(n) <==> n < |slots| && (n == 0 || segment.index.maxIndexInterval > 0))
            && (FirstEmpty(slots) == None <==> n == |slots| && (n == 0 || segment.index.maxIndexInterval > 0))
  {
    hide Run, WritesOf, Layout, Picked, LogBytes, FirstEmpty, OffStart;
    var n, slots := segment.index.firstEmptySlot, segment.index.slots[..];
    assert slots[..n] == segment.index.slots[..n];
    ReopenIff(slots, n);
    OffStartIff(segment.writes, segment.batches, segment.baseOffset, segment.index.maxIndexInterval, |slots|);
  }

  lemma {:induction false} OffStartIff(
    writes: seq<(Entry, nat)>, bs: seq<Batch>, base: int, interval: nat, room: nat)
    requires WritesOf(writes, bs, base)
    ensures var entries := Run(NEW_INDEX, interval, room, writes).entries;
            OffStart(entries) <==> entries == [] || interval > 0
  {
    hide Run, Follow, Start, Position, WriteSizeOf;
    if interval > 0 {
      forall i | 0 <= i < |writes| ensures writes[i].0.position == 0 + Position(Sizes(writes), i) {
        PositionIsStart(writes, bs, base, i);
      }
      RunStaysOffStart(NEW_INDEX, interval, room, writes, 0);
    } else {
      FirstAlwaysRecorded(writes, room);
      RunFollows(NEW_INDEX, 0, room, writes);
      PicksInRange(Sizes(writes), 0, room);
      StartOfFirst(bs);
      var entries := Run(NEW_INDEX, interval, room, writes).entries;
      assert entries == EntriesAt(writes, Follow(Sizes(writes), 0, room).picks);
      assert entries != [] ==> entries[0] == writes[0].0;
    }
  }

  lemma {:induction false} StartOfFirst(bs: seq<Batch>)
    ensures Start(bs, 0) == 0
  {
  }

  // With interval 0 the first batch is recorded, at position 0.
  lemma {:induction false} FirstAlwaysRecorded(writes: seq<(Entry, nat)>, room: nat)
    ensures writes != [] && room > 0 ==>
            var picks := Follow(Sizes(writes), 0, room).picks;
            picks != [] && picks[0] == 0
    ensures writes == [] ==> Follow(Sizes(writes), 0, room).picks == []
  {
    if writes != [] {
      FirstAlwaysRecorded(writes[..|writes| - 1], room);
      assert Sizes(writes)[..|writes| - 1] == Sizes(writes[..|writes| - 1]);
    }
  }
}
