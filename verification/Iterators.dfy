/**
 Iterating over the batches and records of a file slice (fluvio-storage, iterators.rs).
 */
module Iterators {
  import opened Wrappers
  import opened Bytes
  import opened BatchFormat
  import opened BatchStream
  import opened Records

  datatype FileBatch = FileBatch(batch: Batch, records: seq<Byte>)

  datatype RecordItem = RecordItem(record: Record, offset: int, timestamp: int)

  datatype IterError = ReadError | CompressionError | DecodeError

  /** The decompressor: codec number and bytes; None is its failure. */
  type Decompressor = (int, seq<Byte>) -> Option<seq<Byte>>

  /** The kernel: at most how many bytes a read of a length at a position moves. */
  type Kernel = (nat, nat) -> nat

  // What one pread call returns.
  function Moved(kernel: Kernel, file: seq<Byte>, position: nat, len: nat): (n: nat)
    ensures n <= len
  {
    Min(if position < |file| then Min(len, |file| - position) else 0, kernel(position, len))
  }

  // Reads are never cut short.
  ghost predicate NeverShort(kernel: Kernel) {
    forall position: nat, len: nat :: kernel(position, len) >= len
  }

  // attributes & 0x07
  function Codec(b: Batch): int {
    b.header.attributes % 8
  }

  function Uncompressed(d: Decompressor, b: Batch): Option<seq<Byte>> {
    if Codec(b) == 0 then Some(b.records) else d(Codec(b), b.records)
  }

  /** What one call to FileBatchIterator::next returns. */
  datatype Turn = Exhausted | Yield(item: FileBatch, after: nat) | Failed(error: IterError)

  // Unlike the stream, the iterator reads once, and a short read is an error.
  function TurnAt(file: seq<Byte>, offset: nat, end: nat, d: Decompressor, kernel: Kernel): (t: Turn)
    ensures t.Yield? ==> offset < t.after <= |file|
  {
    if offset >= end then Exhausted
    else if Moved(kernel, file, offset, BATCH_FILE_HEADER_SIZE) < BATCH_FILE_HEADER_SIZE then Failed(ReadError)
    else
      match StepAt(file, offset)
      case AtEnd => Failed(ReadError)
      case Broken(_) => Failed(ReadError)
      case Next(b, _, after) =>
        if Moved(kernel, file, offset + BATCH_FILE_HEADER_SIZE, |b.records|) < |b.records| then Failed(ReadError)
        else
          match Uncompressed(d, b)
          case None => Failed(CompressionError)
          case Some(records) => Yield(FileBatch(b, records), after)
  }

  class FileBatchIterator {
    const file: seq<Byte>
    const decompressor: Decompressor
    const kernel: Kernel
    const end: nat
    var offset: nat

    constructor (file: seq<Byte>, decompressor: Decompressor, kernel: Kernel, position: nat, len: nat)
      ensures this.file == file && this.decompressor == decompressor && this.kernel == kernel
      ensures offset == position && end == position + len
    {
      this.file := file;
      this.decompressor := decompressor;
      this.kernel := kernel;
      this.offset := position;
      this.end := position + len;
    }

    method Next() returns (r: Option<Result<FileBatch, IterError>>)
      modifies this
      ensures match TurnAt(file, old(offset), end, decompressor, kernel)
              case Exhausted => r == None && offset == old(offset)
              case Yield(item, after) => r == Some(Ok(item)) && offset == after
              case Failed(error) => r == Some(Err(error))
    {
      hide DecodeHeader;
      if offset >= end {
        return None;
      }
      if Moved(kernel, file, offset, BATCH_FILE_HEADER_SIZE) < BATCH_FILE_HEADER_SIZE {
        return Some(Err(ReadError));
      }
      var header := DecodeHeader(file[offset..offset + BATCH_FILE_HEADER_SIZE]);
      if header.Err? || header.value.1 < BATCH_HEADER_SIZE {
        return Some(Err(ReadError));
      }
      var remainder := header.value.1 - BATCH_HEADER_SIZE;
      offset := offset + BATCH_FILE_HEADER_SIZE;
      if Moved(kernel, file, offset, remainder) < remainder {
        return Some(Err(ReadError));
      }
      var raw := file[offset..offset + remainder];
      var batch := Batch(header.value.0, header.value.2, 0, raw);
      var records := Uncompressed(decompressor, batch);
      if records.None? {
        return Some(Err(CompressionError));
      }
      offset := offset + remainder;
      return Some(Ok(FileBatch(batch, records.value)));
    }
  }

  // The items of a batch: offsets and timestamps relative to the batch header.
  function Items(b: Batch, rs: seq<Record>): (r: seq<RecordItem>)
    ensures |r| == |rs|
    ensures forall i :: 0 <= i < |rs| ==>
              r[i] == RecordItem(
                rs[i], b.baseOffset + rs[i].offsetDelta, b.header.firstTimestamp + rs[i].timestampDelta)
  {
    seq(|rs|, i requires 0 <= i < |rs| =>
      RecordItem(rs[i], b.baseOffset + rs[i].offsetDelta, b.header.firstTimestamp + rs[i].timestampDelta))
  }

  class FileRecordIterator {
    const inner: FileBatchIterator
    var queue: seq<RecordItem>

    constructor (inner: FileBatchIterator)
      ensures this.inner == inner && queue == []
    {
      this.inner := inner;
      queue := [];
    }

    method Next() returns (r: Option<Result<RecordItem, IterError>>)
      modifies this, inner
      ensures old(queue) != [] ==>
              r == Some(Ok(old(queue)[0])) && queue == old(queue)[1..] && inner.offset == old(inner.offset)
      ensures old(queue) == [] ==>
              match TurnAt(inner.file, old(inner.offset), inner.end, inner.decompressor, inner.kernel)
              case Exhausted => r == None && queue == [] && inner.offset == old(inner.offset)
              case Failed(error) => r == Some(Err(error)) && queue == []
              case Yield(item, after) =>
                inner.offset == after &&
                match DecodeRecords(item.records)
                case Err(_) => r == Some(Err(DecodeError)) && queue == []
                case Ok(rs) =>
                  if rs == [] then r == None && queue == []
                  else r == Some(Ok(Items(item.batch, rs)[0])) && queue == Items(item.batch, rs)[1..]
    {
      hide TurnAt, DecodeRecords;
      if queue != [] {
        r := Some(Ok(queue[0]));
        queue := queue[1..];
        return;
      }
      var next := inner.Next();
      if next.None? {
        return None;
      }
      if next.value.Err? {
        return Some(Err(next.value.error));
      }
      var fileBatch := next.value.value;
      var records := DecodeRecords(fileBatch.records);
      if records.Err? {
        return Some(Err(DecodeError));
      }
      queue := Items(fileBatch.batch, records.value);
      if queue == [] {
        return None;
      }
      r := Some(Ok(queue[0]));
      queue := queue[1..];
    }
  }

  // ----- whole slices -----

  // Batches of a log, each with its records, which the decompressor gives back if it does not fail.
  predicate HoldRecords(bs: seq<Batch>, rss: seq<seq<Record>>, d: Decompressor) {
    && |rss| == |bs| && AllLoggable(bs)
    && forall i :: 0 <= i < |bs| ==>
         && AllStorable(rss[i]) && |rss[i]| < 0x8000_0000
         && (Uncompressed(d, bs[i]).Some? ==> Uncompressed(d, bs[i]).value == EncodeRecords(rss[i]))
  }

  // A batch with what it contains; nothing if it cannot be decompressed.
  function Opened(d: Decompressor, b: Batch): FileBatch {
    FileBatch(b, match Uncompressed(d, b) case Some(records) => records case None => [])
  }

  // The batches from k on that start before `end`.
  function StartingBefore(bs: seq<Batch>, k: nat, end: nat, d: Decompressor): seq<FileBatch>
    requires k <= |bs|
    decreases |bs| - k
  {
    if k == |bs| || Start(bs, k) >= end then [] else [Opened(d, bs[k])] + StartingBefore(bs, k + 1, end, d)
  }

  // Both reads of the batch at k are complete.
  predicate ReadsBatch(kernel: Kernel, bs: seq<Batch>, k: nat)
    requires k < |bs|
  {
    && kernel(Start(bs, k), BATCH_FILE_HEADER_SIZE) >= BATCH_FILE_HEADER_SIZE
    && kernel(Start(bs, k) + BATCH_FILE_HEADER_SIZE, |bs[k].records|) >= |bs[k].records|
  }

  // The batch at k is read and decompressed.
  predicate Opens(kernel: Kernel, d: Decompressor, bs: seq<Batch>, k: nat)
    requires k < |bs|
  {
    ReadsBatch(kernel, bs, k) && Uncompressed(d, bs[k]).Some?
  }

  // At a batch that starts inside the slice the iterator yields it, or an error if a read is short or the
  // decompressor fails.
  lemma {:induction false} TurnAtBatch(bs: seq<Batch>, k: nat, end: nat, d: Decompressor, kernel: Kernel)
    requires AllLoggable(bs) && k <= |bs| && end <= |LogBytes(bs)|
    ensures TurnAt(LogBytes(bs), Start(bs, k), end, d, kernel) ==
            if k == |bs| || Start(bs, k) >= end then Exhausted
            else if !ReadsBatch(kernel, bs, k) then Failed(ReadError)
            else if !Opens(kernel, d, bs, k) then Failed(CompressionError)
            else Yield(Opened(d, bs[k]), Start(bs, k + 1))
  {
    hide Loggable, AllLoggable, LogBytes, StepAt, Start, Uncompressed;
    LogLength(bs);
    if k < |bs| {
      InLog(bs, k);
    }
  }

  // Where a batch of a log lies.
  lemma {:induction false} InLog(bs: seq<Batch>, k: nat)
    requires AllLoggable(bs) && k < |bs|
    ensures Start(bs, k) + BATCH_FILE_HEADER_SIZE + |bs[k].records| == Start(bs, k + 1) <= |LogBytes(bs)|
    ensures StepAt(LogBytes(bs), Start(bs, k)) == Next(bs[k], Start(bs, k), Start(bs, k + 1))
  {
    hide Loggable, LogBytes, StepAt, Start, EncodeBatch;
    BatchBytes(bs, k);
    StepAtBatch(bs, k, LogBytes(bs));
    BatchSize(bs[k]);
  }

  lemma {:induction false} BatchSize(b: Batch)
    requires Loggable(b)
    ensures WriteSizeOf(b) == BATCH_FILE_HEADER_SIZE + |b.records|
  {
    hide ValidBatch;
  }

  // ----- accounting for what is yielded -----

  // What was yielded, what is queued and what comes later make up all items.
  predicate Accounted<T(==)>(items: seq<T>, queue: seq<T>, later: seq<T>, all: seq<T>) {
    items + (queue + later) == all
  }

  lemma {:induction false} NothingTaken<T>(all: seq<T>)
    ensures Accounted([], [], all, all)
  {
  }

  // One item moves from the queue to the result.
  lemma {:induction false} Taken<T>(items: seq<T>, queue: seq<T>, later: seq<T>, all: seq<T>)
    requires Accounted(items, queue, later, all) && queue != []
    ensures Accounted(items + [queue[0]], queue[1..], later, all)
  {
    assert queue == [queue[0]] + queue[1..];
    assert items + (([queue[0]] + queue[1..]) + later) == (items + [queue[0]]) + (queue[1..] + later);
  }

  lemma {:induction false} Refilled<T>(items: seq<T>, queue: seq<T>, later: seq<T>, all: seq<T>)
    requires Accounted(items, [], queue + later, all)
    ensures Accounted(items, queue, later, all)
  {
    assert [] + (queue + later) == queue + later;
  }

  lemma {:induction false} AllTaken<T>(items: seq<T>, all: seq<T>)
    ensures Accounted(items, [], [], all) ==> items == all
  {
    assert items + ([] + []) == items;
  }

  lemma {:induction false} SomeTaken<T>(items: seq<T>, queue: seq<T>, later: seq<T>, all: seq<T>)
    requires Accounted(items, queue, later, all)
    ensures items <= all
  {
  }

  // Every batch from k on that starts before `end` is read completely and decompressed.
  predicate AllOpen(kernel: Kernel, d: Decompressor, bs: seq<Batch>, k: nat, end: nat) {
    forall i :: k <= i < |bs| && Start(bs, i) < end ==> Opens(kernel, d, bs, i)
  }

  lemma {:induction false} StartingUnfolds(bs: seq<Batch>, k: nat, end: nat, d: Decompressor)
    requires k < |bs| && Start(bs, k) < end
    ensures StartingBefore(bs, k, end, d) == [Opened(d, bs[k])] + StartingBefore(bs, k + 1, end, d)
  {
    hide Opened;
  }

  lemma {:induction false} StartingEnds(bs: seq<Batch>, k: nat, end: nat, d: Decompressor)
    requires k <= |bs| && (k == |bs| || Start(bs, k) >= end)
    ensures StartingBefore(bs, k, end, d) == []
  {
  }

  // What is opened so far, one batch more and the end.
  lemma {:induction false} AllOpenSplit(kernel: Kernel, d: Decompressor, bs: seq<Batch>, k: nat, i: nat, end: nat)
    requires k <= i <= |bs| && forall j :: k <= j < i ==> Opens(kernel, d, bs, j)
    ensures i == |bs| || Start(bs, i) >= end ==> AllOpen(kernel, d, bs, k, end)
    ensures i < |bs| && Start(bs, i) < end && !Opens(kernel, d, bs, i) ==> !AllOpen(kernel, d, bs, k, end)
  {
    hide Start, Opens;
    StartsBeyond(bs, i, end);
  }

  // What an item holds: the stored records if the compression bits of the attributes are 0, else what the
  // decompressor gives for them.
  predicate Holds(item: FileBatch, b: Batch, d: Decompressor) {
    && item.batch == b
    && (b.header.attributes % 8 == 0 ==> item.records == b.records)
    && (b.header.attributes % 8 != 0 ==> d(b.header.attributes % 8, b.records) == Some(item.records))
  }

  lemma {:induction false} OpenedHolds(kernel: Kernel, d: Decompressor, bs: seq<Batch>, k: nat)
    requires k < |bs|
    ensures Opens(kernel, d, bs, k) ==> Holds(Opened(d, bs[k]), bs[k], d)
    ensures ReadsBatch(kernel, bs, k) && !Opens(kernel, d, bs, k) ==>
            bs[k].header.attributes % 8 != 0 && d(bs[k].header.attributes % 8, bs[k].records) == None
  {
    hide Start;
  }

  // Over a slice that starts at a batch, the iterator yields exactly the batches that start inside it, each
  // with its decompressed records, and fails at the first one that is not read completely or that the
  // decompressor refuses.
  method CollectBatches(bs: seq<Batch>, k: nat, len: nat, d: Decompressor, kernel: Kernel)
    returns (items: seq<FileBatch>, failed: bool)
    requires AllLoggable(bs) && k <= |bs| && Start(bs, k) + len <= |LogBytes(bs)|
    ensures failed <==> !AllOpen(kernel, d, bs, k, Start(bs, k) + len)
    ensures !failed ==> items == StartingBefore(bs, k, Start(bs, k) + len, d)
    ensures k + |items| <= |bs| && forall j :: 0 <= j < |items| ==> Holds(items[j], bs[k + j], d)
    ensures failed ==>
            var i, end := k + |items|, Start(bs, k) + len;
            && i < |bs| && Start(bs, i) < end
            && (|| !ReadsBatch(kernel, bs, i)
                || (&& bs[i].header.attributes % 8 != 0
                    && d(bs[i].header.attributes % 8, bs[i].records) == None))
            && Accounted(items, [], StartingBefore(bs, i, end, d), StartingBefore(bs, k, end, d))
    ensures NeverShort(kernel) && (forall i :: k <= i < |bs| ==> Uncompressed(d, bs[i]).Some?) ==> !failed
  {
    hide Loggable, LogBytes, TurnAt, Start, StartingBefore, ReadsBatch, Opens, Opened, AllOpen, NeverShort, Accounted;
    hide Holds, Uncompressed;
    var file := LogBytes(bs);
    var end := Start(bs, k) + len;
    var iter := new FileBatchIterator(file, d, kernel, Start(bs, k), len);
    items := [];
    ghost var i := k;
    ghost var all := StartingBefore(bs, k, end, d);
    NothingTaken(all);
    while true
      invariant fresh(iter) && iter.file == file && iter.decompressor == d && iter.kernel == kernel && iter.end == end
      invariant k <= i == k + |items| <= |bs| && iter.offset == Start(bs, i)
      invariant Accounted(items, [], StartingBefore(bs, i, end, d), all)
      invariant forall j :: k <= j < i ==> Opens(kernel, d, bs, j)
      invariant forall j :: 0 <= j < |items| ==> Holds(items[j], bs[k + j], d)
      decreases |bs| - i
    {
      TurnAtBatch(bs, i, end, d, kernel);
      AllOpenSplit(kernel, d, bs, k, i, end);
      NeverShortReads(kernel, bs, i);
      if i < |bs| {
        OpensIff(kernel, d, bs, i);
        OpenedHolds(kernel, d, bs, i);
      }
      var next := iter.Next();
      match next
      case None =>
        StartingEnds(bs, i, end, d);
        AllTaken(items, all);
        return items, false;
      case Some(Err(_)) => return items, true;
      case Some(Ok(item)) =>
        StartingUnfolds(bs, i, end, d);
        Refilled(items, [item], StartingBefore(bs, i + 1, end, d), all);
        Taken(items, [item], StartingBefore(bs, i + 1, end, d), all);
        items := items + [item];
        i := i + 1;
    }
  }

  lemma {:induction false} OpensIff(kernel: Kernel, d: Decompressor, bs: seq<Batch>, k: nat)
    requires k < |bs|
    ensures Opens(kernel, d, bs, k) <==> ReadsBatch(kernel, bs, k) && Uncompressed(d, bs[k]).Some?
  {
    hide ReadsBatch, Uncompressed;
  }

  lemma {:induction false} NeverShortReads(kernel: Kernel, bs: seq<Batch>, i: nat)
    ensures NeverShort(kernel) && i < |bs| ==> ReadsBatch(kernel, bs, i)
  {
  }

  // The records a caller sees until next() first returns None: all of them up to the first empty
  // batch, which ends the iteration early.
  function UntilEmpty(bs: seq<Batch>, rss: seq<seq<Record>>, k: nat, end: nat): seq<RecordItem>
    requires |rss| == |bs| && k <= |bs|
    decreases |bs| - k
  {
    if k == |bs| || Start(bs, k) >= end || rss[k] == [] then []
    else Items(bs[k], rss[k]) + UntilEmpty(bs, rss, k + 1, end)
  }

  lemma {:induction false} UntilEmptyUnfolds(bs: seq<Batch>, rss: seq<seq<Record>>, k: nat, end: nat)
    requires |rss| == |bs| && k <= |bs|
    ensures UntilEmpty(bs, rss, k, end) ==
            if k == |bs| || Start(bs, k) >= end || rss[k] == [] then []
            else Items(bs[k], rss[k]) + UntilEmpty(bs, rss, k + 1, end)
  {
  }

  // The iterator stands at batch i of a log.
  ghost predicate StandsAt(
    iter: FileRecordIterator, bs: seq<Batch>, end: nat, kernel: Kernel, d: Decompressor, i: nat)
    reads iter, iter.inner
    requires AllLoggable(bs)
  {
    && i <= |bs| && iter.inner.offset == Start(bs, i) && iter.inner.end == end && iter.inner.kernel == kernel
    && iter.inner.file == LogBytes(bs) && end <= |LogBytes(bs)| && iter.inner.decompressor == d
  }

  // What the next call on the record iterator does: it serves the queue, or goes to the next batch.
  method NextRecord(
    iter: FileRecordIterator, ghost bs: seq<Batch>, ghost rss: seq<seq<Record>>, ghost end: nat,
    ghost kernel: Kernel, ghost d: Decompressor, ghost i: nat)
    returns (r: Option<Result<RecordItem, IterError>>)
    requires HoldRecords(bs, rss, d) && StandsAt(iter, bs, end, kernel, d, i)
    modifies iter, iter.inner
    ensures old(iter.queue) != [] ==>
            && r == Some(Ok(old(iter.queue)[0])) && iter.queue == old(iter.queue)[1..]
            && StandsAt(iter, bs, end, kernel, d, i)
    ensures old(iter.queue) == [] ==>
            if i == |bs| || Start(bs, i) >= end then r == None
            else if !ReadsBatch(kernel, bs, i) then r == Some(Err(ReadError))
            else if !Opens(kernel, d, bs, i) then r == Some(Err(CompressionError))
            else if rss[i] == [] then r == None
            else
              && r == Some(Ok(Items(bs[i], rss[i])[0])) && iter.queue == Items(bs[i], rss[i])[1..]
              && StandsAt(iter, bs, end, kernel, d, i + 1)
  {
    hide Loggable, LogBytes, TurnAt, Start, DecodeRecords, EncodeRecords, Storable, ReadsBatch, Items, Uncompressed;
    TurnAtBatch(bs, i, end, d, kernel);
    if i < |bs| {
      RecordsBack(rss[i]);
    }
    r := iter.Next();
  }

  // The batch at which the record iteration fails: not read or decompressed, and no empty one before it.
  predicate FailsAt(
    kernel: Kernel, d: Decompressor, bs: seq<Batch>, rss: seq<seq<Record>>, k: nat, end: nat, i: nat)
    requires |rss| == |bs|
  {
    && k <= i < |bs| && Start(bs, i) < end && !Opens(kernel, d, bs, i)
    && forall j :: k <= j < i ==> rss[j] != []
  }

  ghost predicate Fails(kernel: Kernel, d: Decompressor, bs: seq<Batch>, rss: seq<seq<Record>>, k: nat, end: nat)
    requires |rss| == |bs|
  {
    exists i :: FailsAt(kernel, d, bs, rss, k, end, i)
  }

  // From k up to i, batches are read and decompressed and none is empty.
  predicate ReadSoFar(kernel: Kernel, d: Decompressor, bs: seq<Batch>, rss: seq<seq<Record>>, k: nat, i: nat)
    requires i <= |rss| == |bs|
  {
    && (forall j :: k <= j < i ==> rss[j] != [])
    && (forall j :: k <= j < i ==> Opens(kernel, d, bs, j))
  }

  // Calls to next until it returns None or an error.
  method CollectRecords(
    bs: seq<Batch>, rss: seq<seq<Record>>, k: nat, len: nat, d: Decompressor, kernel: Kernel)
    returns (items: seq<RecordItem>, failed: bool)
    requires HoldRecords(bs, rss, d) && k <= |bs| && Start(bs, k) + len <= |LogBytes(bs)|
    ensures failed <==> Fails(kernel, d, bs, rss, k, Start(bs, k) + len)
    ensures items <= UntilEmpty(bs, rss, k, Start(bs, k) + len)
    ensures !failed ==> items == UntilEmpty(bs, rss, k, Start(bs, k) + len)
    ensures NeverShort(kernel) && (forall i :: k <= i < |bs| ==> Uncompressed(d, bs[i]).Some?) ==> !failed
  {
    hide NeverShort;
    hide Loggable, LogBytes, Start, EncodeRecords, Storable, UntilEmpty, Items, ReadsBatch, Opens, Fails, Uncompressed;
    var end := Start(bs, k) + len;
    var inner := new FileBatchIterator(LogBytes(bs), d, kernel, Start(bs, k), len);
    var iter := new FileRecordIterator(inner);
    assert StandsAt(iter, bs, end, kernel, d, k);
    items := [];
    ghost var i := k;
    assert ReadSoFar(kernel, d, bs, rss, k, k);
    hide HoldRecords, StandsAt, AllLoggable, Accounted, ReadSoFar, TurnAt, DecodeRecords;
    ghost var all := UntilEmpty(bs, rss, k, end);
    NothingTaken(all);
    while true
      invariant fresh(iter) && fresh(iter.inner) && k <= i <= |bs| == |rss| && StandsAt(iter, bs, end, kernel, d, i)
      invariant Accounted(items, iter.queue, UntilEmpty(bs, rss, i, end), all)
      invariant ReadSoFar(kernel, d, bs, rss, k, i)
      decreases |bs| - i, |iter.queue|
    {
      UntilEmptyUnfolds(bs, rss, i, end);
      FailsOrNot(kernel, d, bs, rss, k, i, end);
      NeverShortReads(kernel, bs, i);
      if i < |bs| {
        OpensIff(kernel, d, bs, i);
      }
      ghost var queue := iter.queue;
      SomeTaken(items, queue, UntilEmpty(bs, rss, i, end), all);
      var next := NextRecord(iter, bs, rss, end, kernel, d, i);
      match next
      case None =>
        AllTaken(items, all);
        return items, false;
      case Some(Err(_)) => return items, true;
      case Some(Ok(item)) =>
        if queue == [] {
          Refilled(items, Items(bs[i], rss[i]), UntilEmpty(bs, rss, i + 1, end), all);
          Taken(items, Items(bs[i], rss[i]), UntilEmpty(bs, rss, i + 1, end), all);
          i := i + 1;
        } else {
          Taken(items, queue, UntilEmpty(bs, rss, i, end), all);
        }
        items := items + [item];
    }
  }

  // With everything before i opened and not empty, the iteration fails at i, or it does not fail.
  lemma {:induction false} FailsOrNot(
    kernel: Kernel, d: Decompressor, bs: seq<Batch>, rss: seq<seq<Record>>, k: nat, i: nat, end: nat)
    requires |rss| == |bs| && k <= i <= |bs| && ReadSoFar(kernel, d, bs, rss, k, i)
    ensures i < |bs| && Opens(kernel, d, bs, i) && rss[i] != [] ==> ReadSoFar(kernel, d, bs, rss, k, i + 1)
    ensures i < |bs| && Start(bs, i) < end && !Opens(kernel, d, bs, i) ==> Fails(kernel, d, bs, rss, k, end)
    ensures i == |bs| || Start(bs, i) >= end || (Opens(kernel, d, bs, i) && rss[i] == []) ==>
            !Fails(kernel, d, bs, rss, k, end)
  {
    hide Start, Opens;
    StartsBeyond(bs, i, end);
    if i < |bs| && Start(bs, i) < end && !Opens(kernel, d, bs, i) {
      assert FailsAt(kernel, d, bs, rss, k, end, i);
    }
  }

  // Without empty batches nothing is cut off: the records of all batches in the slice, in order.
  function AllItems(bs: seq<Batch>, rss: seq<seq<Record>>, k: nat, end: nat): seq<RecordItem>
    requires |rss| == |bs| && k <= |bs|
    decreases |bs| - k
  {
    if k == |bs| || Start(bs, k) >= end then [] else Items(bs[k], rss[k]) + AllItems(bs, rss, k + 1, end)
  }

  // From k on, no batch of the slice has records.
  predicate NoRecords(bs: seq<Batch>, rss: seq<seq<Record>>, k: nat, end: nat)
    requires |rss| == |bs|
  {
    forall j :: k <= j < |bs| && Start(bs, j) < end ==> rss[j] == []
  }

  // From k on, no batch of the slice with records follows an empty one.
  predicate EmptyLast(bs: seq<Batch>, rss: seq<seq<Record>>, k: nat, end: nat)
    requires |rss| == |bs|
  {
    forall i :: k <= i < |bs| && rss[i] == [] ==> NoRecords(bs, rss, i + 1, end)
  }

  lemma {:induction false} EmptyLastStep(bs: seq<Batch>, rss: seq<seq<Record>>, k: nat, end: nat)
    requires |rss| == |bs| && k < |bs|
    ensures EmptyLast(bs, rss, k, end) <==>
            EmptyLast(bs, rss, k + 1, end) && (rss[k] == [] ==> NoRecords(bs, rss, k + 1, end))
  {
    hide NoRecords;
  }

  lemma {:induction false} NoRecordsStep(bs: seq<Batch>, rss: seq<seq<Record>>, k: nat, end: nat)
    requires |rss| == |bs| && k < |bs| && Start(bs, k) < end
    ensures NoRecords(bs, rss, k, end) <==> rss[k] == [] && NoRecords(bs, rss, k + 1, end)
  {
    hide Start;
  }

  lemma {:induction false} BeyondSlice(bs: seq<Batch>, rss: seq<seq<Record>>, k: nat, end: nat)
    requires |rss| == |bs| && k <= |bs| && (k == |bs| || Start(bs, k) >= end)
    ensures NoRecords(bs, rss, k, end) && EmptyLast(bs, rss, k, end)
  {
    hide Start;
    StartsBeyond(bs, k, end);
  }

  // The iteration is complete if and only if no non-empty batch of the slice follows an empty one.
  lemma {:induction false} CompleteIff(bs: seq<Batch>, rss: seq<seq<Record>>, k: nat, end: nat)
    requires |rss| == |bs| && k <= |bs|
    ensures UntilEmpty(bs, rss, k, end) == AllItems(bs, rss, k, end) <==> EmptyLast(bs, rss, k, end)
    decreases |bs| - k
  {
    hide Start, Items, EmptyLast, NoRecords;
    if k < |bs| && Start(bs, k) < end {
      CompleteIff(bs, rss, k + 1, end);
      EmptyLastStep(bs, rss, k, end);
      if rss[k] == [] {
        NoItemsIff(bs, rss, k + 1, end);
        NoItems(bs[k], rss[k], AllItems(bs, rss, k + 1, end));
        BothComplete(bs, rss, k + 1, end);
      } else {
        Cancel(Items(bs[k], rss[k]), UntilEmpty(bs, rss, k + 1, end), AllItems(bs, rss, k + 1, end));
      }
    } else {
      BeyondSlice(bs, rss, k, end);
    }
  }

  // Without records there is nothing to cut off.
  lemma {:induction false} BothComplete(bs: seq<Batch>, rss: seq<seq<Record>>, k: nat, end: nat)
    requires |rss| == |bs|
    ensures NoRecords(bs, rss, k, end) ==> EmptyLast(bs, rss, k, end)
  {
    hide Start;
  }

  lemma {:induction false} NoItems(b: Batch, rs: seq<Record>, later: seq<RecordItem>)
    ensures rs == [] ==> Items(b, rs) + later == later
    ensures Items(b, rs) + later == [] <==> rs == [] && later == []
  {
    assert |Items(b, rs) + later| == |rs| + |later|;
  }

  lemma {:induction false} Cancel(a: seq<RecordItem>, b: seq<RecordItem>, c: seq<RecordItem>)
    ensures a + b == a + c <==> b == c
  {
    assert (a + b)[|a|..] == b && (a + c)[|a|..] == c;
  }

  lemma {:induction false} StartsBeyond(bs: seq<Batch>, k: nat, end: nat)
    requires k <= |bs|
    ensures k < |bs| && Start(bs, k) >= end ==> forall j :: k <= j < |bs| ==> Start(bs, j) >= end
  {
    hide Start;
    forall j | k < j < |bs|
      ensures Start(bs, j) > Start(bs, k)
    {
      StartsIncrease(bs, k, j);
    }
  }

  lemma {:induction false} AllItemsEmpty(bs: seq<Batch>, rss: seq<seq<Record>>, k: nat, end: nat)
    requires |rss| == |bs| && k <= |bs|
    ensures if k < |bs| && Start(bs, k) < end then
              AllItems(bs, rss, k, end) == [] <==> rss[k] == [] && AllItems(bs, rss, k + 1, end) == []
            else AllItems(bs, rss, k, end) == []
  {
    hide Start, Items;
    if k < |bs| && Start(bs, k) < end {
      NoItems(bs[k], rss[k], AllItems(bs, rss, k + 1, end));
    }
  }

  lemma {:induction false} NoItemsIff(bs: seq<Batch>, rss: seq<seq<Record>>, k: nat, end: nat)
    requires |rss| == |bs| && k <= |bs|
    ensures AllItems(bs, rss, k, end) == [] <==> NoRecords(bs, rss, k, end)
    decreases |bs| - k
  {
    hide Start, NoRecords, AllItems;
    AllItemsEmpty(bs, rss, k, end);
    if k < |bs| && Start(bs, k) < end {
      NoItemsIff(bs, rss, k + 1, end);
      NoRecordsStep(bs, rss, k, end);
    } else {
      BeyondSlice(bs, rss, k, end);
    }
  }
}
