/**
 Opening the active segment again (fluvio-storage, segment.rs and validator.rs) when its log was cut
 off anywhere: which batches come back, and when the index still fits them.
 */
module SegmentRecovery {
  import opened Wrappers
  import opened Bytes
  import opened BatchFormat
  import opened BatchStream
  import opened OffsetIndex
  import opened SegmentLog

  // ----- validation -----

  /** LogValidator: last offset, end of the last batch, and what was found wrong. */
  datatype Validation = Validation(
    lastOffset: int,
    lastPos: nat,
    below: bool,                  // a batch below the base offset
    error: Option<StreamError>,
    mismatch: bool)               // an index entry for a batch at another position

  const NOTHING := Validation(-1, 0, false, None, false)

  predicate Mismatches(entries: seq<Entry>, delta: int, pos: nat) {
    var found := Floor(entries, delta % U32_LIMIT);
    found.Some? && found.value.offset == delta % U32_LIMIT && found.value.position != pos
  }

  // One batch more.
  function Seen(v: Validation, b: Batch, pos: nat, after: nat, base: int, entries: seq<Entry>): Validation {
    Validation(b.LastOffset(), after, false, None, v.mismatch || Mismatches(entries, b.baseOffset - base, pos))
  }

  function ValidatedFrom(file: seq<Byte>, pos: nat, base: int, entries: seq<Entry>, v: Validation): Validation
    decreases |file| - pos
  {
    match StepAt(file, pos)
    case AtEnd => v
    case Broken(error) => v.(error := Some(error))
    case Next(b, at, after) =>
      if b.baseOffset < base then v.(below := true)
      else ValidatedFrom(file, after, base, entries, Seen(v, b, at, after, base, entries))
  }

  // validate_with_stream, under any schedule of short reads.
  method Validate(file: seq<Byte>, base: int, index: MutLogIndex, schedule: nat -> Schedule) returns (v: Validation)
    requires index.Valid() && Increasing(index.Entries())
    ensures v == ValidatedFrom(file, 0, base, index.Entries(), NOTHING)
  {
    hide StepAt, Floor, ValidatedFrom, Increasing;
    var stream := new FileBatchStream(file, schedule, 0);
    v := NOTHING;
    while true
      invariant fresh(stream) && fresh(stream.iter) && stream.iter.file == file && !stream.invalid
      invariant ValidatedFrom(file, stream.iter.pos, base, index.Entries(), v) ==
                ValidatedFrom(file, 0, base, index.Entries(), NOTHING)
      decreases |file| - stream.iter.pos
    {
      ValidatedUnfolds(file, stream.iter.pos, base, index.Entries(), v);
      var next := stream.TryNext();
      match next
      case Err(error) => return v.(error := Some(error));
      case Ok(None) => return v;
      case Ok(Some((b, pos))) =>
        if b.baseOffset < base {
          return v.(below := true);
        }
        var delta := (b.baseOffset - base) % U32_LIMIT;
        var found := index.FindOffset(delta);
        var wrong := found.Some? && found.value.offset == delta && found.value.position != pos;
        v := Validation(b.LastOffset(), stream.iter.pos, false, None, v.mismatch || wrong);
    }
  }

  lemma {:induction false} ValidatedUnfolds(
    file: seq<Byte>, pos: nat, base: int, entries: seq<Entry>, v: Validation)
    ensures match StepAt(file, pos)
            case AtEnd => ValidatedFrom(file, pos, base, entries, v) == v
            case Broken(error) => ValidatedFrom(file, pos, base, entries, v) == v.(error := Some(error))
            case Next(b, at, after) =>
              && at == pos && pos < after <= |file|
              && ValidatedFrom(file, pos, base, entries, v) ==
                   if b.baseOffset < base then v.(below := true)
                   else ValidatedFrom(file, after, base, entries, Seen(v, b, at, after, base, entries))
  {
    hide Mismatches;
  }

  // leo
  function EndOffset(v: Validation, base: int): int {
    if v.lastOffset == -1 then base else v.lastOffset + 1
  }

  // A stream that breaks off in the middle of a batch can be repaired by cutting it there.
  predicate Recoverable(error: StreamError) {
    error.NotEnoughHeader? || error.NotEnoughContent?
  }

  // ----- a log that was cut -----

  // An entry for a batch of the log is never at another position.
  lemma {:induction false} NoMismatch(
    bs: seq<Batch>, base: int, end: int, picks: seq<nat>, entries: seq<Entry>, i: nat)
    requires Layout(bs, base, end) && Picked(bs, base, picks, entries) && i < |bs| && end - base <= U32_LIMIT
    ensures base <= bs[i].baseOffset && !Mismatches(entries, bs[i].baseOffset - base, Start(bs, i))
  {
    hide Layout, Floor, Start;
    AtLeastBase(bs, base, end, i);
    BelowEnd(bs, base, end, i);
    var delta := bs[i].baseOffset - base;
    var found := Floor(entries, delta);
    if found.Some? && found.value.offset == delta {
      FloorIsEntry(entries, delta);
      var j := EntryAt(entries, found.value);
      SameBatch(bs, base, end, picks[j], i);
    }
  }

  lemma {:induction false} SameBatch(bs: seq<Batch>, base: int, end: int, i: nat, j: nat)
    requires Layout(bs, base, end) && i < |bs| && j < |bs| && bs[i].baseOffset == bs[j].baseOffset
    ensures i == j
  {
    hide Layout;
    if i < j {
      OffsetsIncrease(bs, base, end, i, j);
    } else if j < i {
      OffsetsIncrease(bs, base, end, j, i);
    }
  }

  // What validation knows after the first i batches.
  function After(bs: seq<Batch>, i: nat): Validation
    requires i <= |bs|
  {
    Validation(if i == 0 then -1 else bs[i - 1].LastOffset(), Start(bs, i), false, None, false)
  }

  // Validation of a cut log sees the whole batches before the cut and nothing wrong but the cut.
  lemma {:induction false} CutValidates(
    bs: seq<Batch>, base: int, end: int, picks: seq<nat>, entries: seq<Entry>, cut: nat, i: nat)
    requires Layout(bs, base, end) && Picked(bs, base, picks, entries) && end - base <= U32_LIMIT
    requires i <= |bs| && AllLoggable(bs) && Start(bs, i) <= cut <= |LogBytes(bs)|
    ensures var v := ValidatedFrom(LogBytes(bs)[..cut], Start(bs, i), base, entries, After(bs, i));
            var k := WholeBefore(bs, cut, i);
            && v == After(bs, k).(error := v.error)
            && (v.error.None? <==> Start(bs, k) == cut)
            && (v.error.Some? ==> Recoverable(v.error.value))
    decreases |bs| - i
  {
    hide Layout, Picked, StepAt, LogBytes, Start, ValidatedFrom, AllLoggable, After;
    LogLength(bs);
    if i < |bs| && Start(bs, i + 1) <= cut {
      CutStep(bs, base, end, picks, entries, cut, i);
      CutValidates(bs, base, end, picks, entries, cut, i + 1);
      NoError(bs, i);
    } else {
      CutEnds(bs, base, entries, cut, i);
    }
  }

  lemma {:induction false} NoError(bs: seq<Batch>, i: nat)
    requires i <= |bs|
    ensures After(bs, i).(error := None) == After(bs, i)
  {
    hide Start;
  }

  // A whole batch before the cut.
  lemma {:induction false} CutStep(
    bs: seq<Batch>, base: int, end: int, picks: seq<nat>, entries: seq<Entry>, cut: nat, i: nat)
    requires Layout(bs, base, end) && Picked(bs, base, picks, entries) && end - base <= U32_LIMIT
    requires i < |bs| && AllLoggable(bs) && Start(bs, i + 1) <= cut <= |LogBytes(bs)|
    ensures var file := LogBytes(bs)[..cut];
            ValidatedFrom(file, Start(bs, i), base, entries, After(bs, i)) ==
            ValidatedFrom(file, Start(bs, i + 1), base, entries, After(bs, i + 1))
  {
    hide Layout, Picked, StepAt, LogBytes, Start, ValidatedFrom, Mismatches, AllLoggable;
    var file := LogBytes(bs)[..cut];
    assert file[..Start(bs, i + 1)] == LogBytes(bs)[..Start(bs, i + 1)];
    StepAtBatch(bs, i, file);
    NoMismatch(bs, base, end, picks, entries, i);
    ValidatedUnfolds(file, Start(bs, i), base, entries, After(bs, i));
  }

  // Where the cut is.
  lemma {:induction false} CutEnds(bs: seq<Batch>, base: int, entries: seq<Entry>, cut: nat, i: nat)
    requires i <= |bs| && AllLoggable(bs) && Start(bs, i) <= cut <= |LogBytes(bs)|
    requires i < |bs| ==> cut < Start(bs, i + 1)
    ensures var v := ValidatedFrom(LogBytes(bs)[..cut], Start(bs, i), base, entries, After(bs, i));
            && v == After(bs, i).(error := v.error)
            && (v.error.None? <==> Start(bs, i) == cut)
            && (v.error.Some? ==> Recoverable(v.error.value))
  {
    hide StepAt, LogBytes, Start, ValidatedFrom, AllLoggable;
    var file := LogBytes(bs)[..cut];
    LogLength(bs);
    ValidatedUnfolds(file, Start(bs, i), base, entries, After(bs, i));
    if i < |bs| && Start(bs, i) < cut {
      BatchBytes(bs, i);
      StepAtCut(bs, i, cut);
    } else {
      AtTheCut(bs, cut, i);
      StepAtEnd(file);
    }
  }

  lemma {:induction false} AtTheCut(bs: seq<Batch>, cut: nat, i: nat)
    requires AllLoggable(bs) && i <= |bs| && Start(bs, i) <= cut <= |LogBytes(bs)|
    requires !(i < |bs| && Start(bs, i) < cut)
    ensures cut == Start(bs, i)
  {
    hide LogBytes, Start;
    LogLength(bs);
  }

  // ----- any index -----

  // An entry has the offset of the batch but another position.
  ghost predicate WrongEntry(bs: seq<Batch>, base: int, entries: seq<Entry>, i: nat)
    requires i < |bs|
  {
    exists j ::
      0 <= j < |entries| && entries[j].offset == bs[i].baseOffset - base && entries[j].position != Start(bs, i)
  }

  lemma {:induction false} MismatchesIff(bs: seq<Batch>, base: int, end: int, entries: seq<Entry>, i: nat)
    requires Layout(bs, base, end) && Increasing(entries) && i < |bs| && end - base <= U32_LIMIT
    ensures base <= bs[i].baseOffset
    ensures Mismatches(entries, bs[i].baseOffset - base, Start(bs, i)) <==> WrongEntry(bs, base, entries, i)
  {
    hide Layout, Floor, Start;
    AtLeastBase(bs, base, end, i);
    BelowEnd(bs, base, end, i);
    var delta := bs[i].baseOffset - base;
    if j :| 0 <= j < |entries| && entries[j].offset == delta {
      FloorAt(entries, delta, j);
    } else if Floor(entries, delta).Some? {
      FloorIsEntry(entries, delta);
    }
  }

  ghost predicate WrongFrom(bs: seq<Batch>, base: int, entries: seq<Entry>, i: nat, k: nat)
    requires k <= |bs|
  {
    exists n :: i <= n < k && WrongEntry(bs, base, entries, n)
  }

  lemma {:induction false} MismatchFrom(
    bs: seq<Batch>, base: int, end: int, entries: seq<Entry>, cut: nat, i: nat, v: Validation)
    requires Layout(bs, base, end) && Increasing(entries) && end - base <= U32_LIMIT
    requires i <= |bs| && AllLoggable(bs) && Start(bs, i) <= cut <= |LogBytes(bs)|
    ensures ValidatedFrom(LogBytes(bs)[..cut], Start(bs, i), base, entries, v).mismatch <==>
            v.mismatch || WrongFrom(bs, base, entries, i, WholeBefore(bs, cut, i))
    decreases |bs| - i
  {
    hide Layout, StepAt, LogBytes, Start, ValidatedFrom, AllLoggable, Mismatches, Increasing, WrongEntry;
    LogLength(bs);
    var file := LogBytes(bs)[..cut];
    ValidatedUnfolds(file, Start(bs, i), base, entries, v);
    if i < |bs| && Start(bs, i + 1) <= cut {
      assert file[..Start(bs, i + 1)] == LogBytes(bs)[..Start(bs, i + 1)];
      StepAtBatch(bs, i, file);
      MismatchesIff(bs, base, end, entries, i);
      var w := Seen(v, bs[i], Start(bs, i), Start(bs, i + 1), base, entries);
      MismatchFrom(bs, base, end, entries, cut, i + 1, w);
    } else if i < |bs| && Start(bs, i) < cut {
      BatchBytes(bs, i);
      StepAtCut(bs, i, cut);
    } else {
      AtTheCut(bs, cut, i);
      StepAtEnd(file);
    }
  }

  // Of a log cut anywhere, with any increasing index, validation reports a mismatch if and only if an entry
  // has the offset of a whole batch before the cut but not its position.
  lemma {:induction false} MismatchIff(bs: seq<Batch>, base: int, end: int, entries: seq<Entry>, cut: nat)
    requires Layout(bs, base, end) && Increasing(entries) && end - base <= U32_LIMIT
    requires AllLoggable(bs) && cut <= |LogBytes(bs)|
    ensures ValidatedFrom(LogBytes(bs)[..cut], 0, base, entries, NOTHING).mismatch <==>
            exists n :: 0 <= n < WholeBefore(bs, cut, 0) && WrongEntry(bs, base, entries, n)
  {
    hide Layout, LogBytes, ValidatedFrom, AllLoggable, Increasing, WrongEntry;
    assert Start(bs, 0) == 0;
    hide Start;
    MismatchFrom(bs, base, end, entries, cut, 0, NOTHING);
  }

  // ----- what is left of log and index -----

  // No entry points at or behind the end of the log.
  predicate EntriesBefore(entries: seq<Entry>, len: nat) {
    forall i :: 0 <= i < |entries| ==> entries[i].position < len
  }

  lemma {:induction false} PrefixLog(bs: seq<Batch>, base: int, end: int, k: nat)
    requires Layout(bs, base, end) && k <= |bs|
    ensures Layout(bs[..k], base, OffsetAt(bs, base, k))
    ensures Start(bs, k) <= |LogBytes(bs)| && LogBytes(bs[..k]) == LogBytes(bs)[..Start(bs, k)]
    decreases |bs|
  {
    hide Loggable, EncodeBatch, Start;
    PrefixLayout(bs, base, end, k);
    LogLength(bs);
    if k < |bs| {
      var init := bs[..|bs| - 1];
      PrefixLayout(bs, base, end, |bs| - 1);
      PrefixLog(init, base, OffsetAt(bs, base, |bs| - 1), k);
      assert init[..k] == bs[..k];
      StartOfPrefix(bs, init, k);
    } else {
      assert bs[..k] == bs;
    }
  }

  lemma {:induction false} PrefixLayout(bs: seq<Batch>, base: int, end: int, k: nat)
    requires Layout(bs, base, end) && k <= |bs|
    ensures Layout(bs[..k], base, OffsetAt(bs, base, k))
  {
    hide Loggable;
    forall i | 0 <= i < k
      ensures bs[..k][i].baseOffset == OffsetAt(bs[..k], base, i)
    {
      assert bs[i].baseOffset == OffsetAt(bs, base, i);
    }
  }

  // The entries belong to the batches that are left if and only if none points behind them.
  lemma {:induction false} PrefixPickedIff(
    bs: seq<Batch>, base: int, picks: seq<nat>, entries: seq<Entry>, k: nat)
    requires Picked(bs, base, picks, entries) && k <= |bs|
    ensures Picked(bs[..k], base, picks, entries) <==> EntriesBefore(entries, Start(bs, k))
  {
    hide Start;
    forall i | 0 <= i < |picks|
      ensures entries[i].position < Start(bs, k) <==> picks[i] < k
      ensures picks[i] < k ==> Start(bs[..k], picks[i]) == Start(bs, picks[i])
    {
      if picks[i] < k {
        StartsIncrease(bs, picks[i], k);
        StartOfPrefix(bs, bs[..k], picks[i]);
      } else if k < picks[i] {
        StartsIncrease(bs, k, picks[i]);
      }
    }
  }

  // ----- opening -----

  lemma {:induction false} LastBatch(bs: seq<Batch>, base: int, end: int, k: nat)
    requires Layout(bs, base, end) && k <= |bs| && base >= 0
    ensures EndOffset(After(bs, k), base) == OffsetAt(bs, base, k) && base <= OffsetAt(bs, base, k) <= end
    ensures k > 0 ==> bs[k - 1].baseOffset >= base
  {
    hide Layout, Start;
    if k > 0 {
      AtLeastBase(bs, base, end, k - 1);
      BelowEnd(bs, base, end, k - 1);
    } else if bs != [] {
      AtLeastBase(bs, base, end, 0);
      BelowEnd(bs, base, end, 0);
    } else {
      EmptyLayout(base, end);
    }
  }

  lemma {:induction false} EmptyLayout(base: int, end: int)
    ensures Layout([], base, end) ==> base == end
  {
  }

  // The files of a segment with these batches, the log cut anywhere.
  ghost predicate CutFiles(
    base: int, file: seq<Byte>, stored: seq<Entry>, bs: seq<Batch>, end: int, picks: seq<nat>)
  {
    && 0 <= base && Layout(bs, base, end) && end - base <= U32_LIMIT
    && |file| <= |LogBytes(bs)| && file == LogBytes(bs)[..|file|]
    && (FirstEmpty(stored).Some? ==> Picked(bs, base, picks, Stored(stored[..FirstEmpty(stored).value])))
  }

  // The whole batches before the cut are back.
  ghost predicate Recovered(segment: Segment, base: int, file: seq<Byte>, bs: seq<Batch>)
    reads segment, segment.log
  {
    var k := WholeBefore(bs, |file|, 0);
    && segment.baseOffset == base && segment.endOffset == OffsetAt(bs, base, k) && segment.batches == bs[..k]
    && Start(bs, k) <= |file| && segment.log.file == file[..Start(bs, k)]
  }

  // open_for_write and validate_and_repair: the whole batches before the cut come back, and the segment
  // is valid, so that appends and lookups go on as before, if and only if no index entry points at or
  // behind what is left.
  method OpenForWrite(
    base: int, file: seq<Byte>, stored: array<Entry>, interval: Size, maxLen: Size, schedule: nat -> Schedule,
    ghost bs: seq<Batch>, ghost end: int, ghost picks: seq<nat>)
    returns (r: Option<Segment>, v: Validation)
    requires CutFiles(base, file, stored[..], bs, end, picks) && |file| <= maxLen && interval + maxLen <= U32_LIMIT
    ensures r.None? <==> FirstEmpty(stored[..]).None?
    ensures r.Some? ==>
            && fresh(r.value) && Recovered(r.value, base, file, bs)
            && r.value.index.slots == stored && r.value.index.Valid()
            && (r.value.Valid() <==> EntriesBefore(r.value.index.Entries(), |r.value.log.file|))
  {
    hide Layout, LogBytes, Picked, Start, ValidatedFrom, AllLoggable, FirstEmpty, EntriesBefore, WholeBefore;
    hide CutFiles, Increasing, OffsetAt;
    LogNoLonger(base, file, stored[..], bs, end, picks);
    v := NOTHING;
    var log := new MutFileRecords.Over(base, maxLen, file);
    var index := Open(stored, interval);
    if index.None? {
      return None, v;
    }
    ghost var k := Salvaged(base, file, stored[..], index.value.Entries(), bs, end, picks);
    v := Validate(file, base, index.value, schedule);
    if v.error.Some? {
      log.SetLen(v.lastPos);
    }
    var segment := new Segment.Over(log, index.value, EndOffset(v, base), bs[..k], picks);
    r := Some(segment);
  }

  lemma {:induction false} LogNoLonger(
    base: int, file: seq<Byte>, stored: seq<Entry>, bs: seq<Batch>, end: int, picks: seq<nat>)
    requires CutFiles(base, file, stored, bs, end, picks)
    ensures end - base <= U32_LIMIT
  {
  }

  // What is known of the files.
  lemma {:induction false} Salvaged(
    base: int, file: seq<Byte>, stored: seq<Entry>, entries: seq<Entry>, bs: seq<Batch>, end: int, picks: seq<nat>)
    returns (k: nat)
    requires CutFiles(base, file, stored, bs, end, picks) && FirstEmpty(stored).Some?
    requires entries == Stored(stored[..FirstEmpty(stored).value])
    ensures k == WholeBefore(bs, |file|, 0) && k <= |bs| && Start(bs, k) <= |file|
    ensures Increasing(entries)
    ensures var v := ValidatedFrom(file, 0, base, entries, NOTHING);
            && v == After(bs, k).(error := v.error) && (v.error.None? <==> Start(bs, k) == |file|)
            && EndOffset(v, base) == OffsetAt(bs, base, k) <= end
    ensures Layout(bs[..k], base, OffsetAt(bs, base, k)) && LogBytes(bs[..k]) == file[..Start(bs, k)]
    ensures Picked(bs[..k], base, picks, entries) <==> EntriesBefore(entries, Start(bs, k))
    ensures k > 0 ==> bs[..k][k - 1].baseOffset >= base
  {
    hide LogBytes, Picked, Start, ValidatedFrom, FirstEmpty, EntriesBefore, WholeBefore, OffsetAt;
    hide Layout, AllLoggable;
    LoggableOf(bs, base, end);
    k := WholeBefore(bs, |file|, 0);
    PickedIncreasing(bs, base, end, picks, entries);
    FromTheStart(bs);
    WholeFits(bs, |file|);
    CutValidates(bs, base, end, picks, entries, |file|, 0);
    LastBatch(bs, base, end, k);
    PrefixLog(bs, base, end, k);
    assert LogBytes(bs)[..Start(bs, k)] == file[..Start(bs, k)];
    PrefixPickedIff(bs, base, picks, entries, k);
  }

  lemma {:induction false} FromTheStart(bs: seq<Batch>)
    ensures Start(bs, 0) == 0 && After(bs, 0) == NOTHING
  {
  }

  lemma {:induction false} WholeFits(bs: seq<Batch>, cut: nat)
    ensures Start(bs, WholeBefore(bs, cut, 0)) <= cut
  {
    WholeFitsFrom(bs, cut, 0);
  }

  lemma {:induction false} WholeFitsFrom(bs: seq<Batch>, cut: nat, i: nat)
    requires i <= |bs| && Start(bs, i) <= cut
    ensures Start(bs, WholeBefore(bs, cut, i)) <= cut
    decreases |bs| - i
  {
    hide Start;
    if i < |bs| && Start(bs, i + 1) <= cut {
      WholeFitsFrom(bs, cut, i + 1);
    }
  }

  // Every segment that grew by appends leaves such files, wherever its log is cut; without a cut it is
  // valid again.
  lemma {:induction false} OwnFiles(segment: Segment, cut: nat) returns (picks: seq<nat>)
    requires segment.Valid() && segment.Grown() && 0 <= segment.baseOffset && cut <= |segment.log.file|
    ensures CutFiles(segment.baseOffset, segment.log.file[..cut], segment.index.slots[..],
                     segment.batches, segment.endOffset, picks)
    ensures var stored, file := segment.index.slots[..], segment.log.file;
            FirstEmpty(stored).Some? && cut == |file| ==>
              EntriesBefore(Stored(stored[..FirstEmpty(stored).value]), |file|)
  {
    hide GrownFrom, Layout, LogBytes, Picked, EntriesBefore, FirstEmpty, ToBe;
    var bs, base, slots := segment.batches, segment.baseOffset, segment.index.slots[..];
    LoggableOf(bs, base, segment.endOffset);
    assert segment.log.file[..cut] == LogBytes(bs)[..|segment.log.file[..cut]|];
    picks := [];
    if FirstEmpty(slots).Some? {
      var m := FirstEmpty(slots).value;
      FirstEmptyInside(slots, segment.index.firstEmptySlot);
      assert Stored(slots[..m]) == segment.index.Entries()[..m];
      picks := FirstPicks(bs, base, segment.picks, segment.index.Entries(), m);
      PickedBefore(bs, base, segment.endOffset, picks, Stored(slots[..m]));
    }
  }

  lemma {:induction false} FirstEmptyInside(slots: seq<Entry>, n: nat)
    requires n <= |slots| && forall i :: n <= i < |slots| ==> slots[i] == EMPTY_SLOT
    ensures FirstEmpty(slots).Some? ==> FirstEmpty(slots).value <= n
  {
    hide FirstEmpty;
    assert n < |slots| ==> slots[n].position == 0;
  }

  lemma {:induction false} LoggableOf(bs: seq<Batch>, base: int, end: int)
    requires Layout(bs, base, end)
    ensures AllLoggable(bs)
  {
  }

  lemma {:induction false} FirstPicks(
    bs: seq<Batch>, base: int, picks: seq<nat>, entries: seq<Entry>, m: nat) returns (first: seq<nat>)
    requires Picked(bs, base, picks, entries) && m <= |entries|
    ensures Picked(bs, base, first, entries[..m])
  {
    hide Start;
    first := picks[..m];
  }

  lemma {:induction false} PickedBefore(
    bs: seq<Batch>, base: int, end: int, picks: seq<nat>, entries: seq<Entry>)
    requires Layout(bs, base, end) && Picked(bs, base, picks, entries)
    ensures AllLoggable(bs) && EntriesBefore(entries, |LogBytes(bs)|)
  {
    hide Layout, AllLoggable, LogBytes, Start, EntriesBefore;
    LoggableOf(bs, base, end);
    LogLength(bs);
    PrefixPickedIff(bs, base, picks, entries, |bs|);
    assert bs[..|bs|] == bs;
  }

  // An entry at or below an offset that points behind the batch with that offset: the lookup starts to
  // scan behind that batch.
  lemma {:induction false} StaleEntryMisleads(
    bs: seq<Batch>, base: int, end: int, entries: seq<Entry>, i: nat, offset: int)
    requires Layout(bs, base, end) && base <= offset < end && offset - base < U32_LIMIT && Increasing(entries)
    requires Covering(bs, offset, 0).Some? && i < |entries| && entries[i].offset <= offset - base
    requires Covering(bs, offset, 0).value.1 < entries[i].position
    ensures var found := Floor(entries, offset - base);
            found.Some? && Covering(bs, offset, 0).value.1 < found.value.position
  {
    hide Layout, Covering;
    FloorAtOrAbove(entries, offset - base, i);
  }

  lemma {:induction false} FloorAtOrAbove(entries: seq<Entry>, offset: Size, i: nat)
    requires Increasing(entries) && i < |entries| && entries[i].offset <= offset
    ensures Floor(entries, offset).Some? && Floor(entries, offset).value.position >= entries[i].position
  {
    var n := |entries| - 1;
    if entries[n].offset > offset {
      FloorAtOrAbove(entries[..n], offset, i);
    }
  }
}
