/**
 Reading batches back from a segment file (fluvio-storage, file.rs and batch.rs).  A file is a byte
 sequence; how many bytes each system call returns is an arbitrary schedule.
 */
module BatchStream {
  import opened Wrappers
  import opened Bytes
  import opened BatchFormat

  function Min(a: nat, b: nat): nat {
    if a < b then a else b
  }

  /** Kernel behaviour: the n-th call returns 1 + schedule(n) % m bytes when m > 0 are wanted and there. */
  type Schedule = nat -> nat

  datatype ReadOutput = NothingRead | Read(buffer: seq<Byte>, eof: bool)

  // What one positioned read is to deliver: every byte of the range that the file has.
  function ReadAt(file: seq<Byte>, offset: nat, len: nat): ReadOutput {
    if len > 0 && offset >= |file| then NothingRead
    else if len == 0 then Read([], false)
    else Read(file[offset..Min(offset + len, |file|)], offset + len > |file|)
  }

  // The pread loop delivers the range under every schedule of short calls.
  method Pread(file: seq<Byte>, offset: nat, len: nat, schedule: Schedule) returns (r: ReadOutput)
    ensures r == ReadAt(file, offset, len)
  {
    var eof := false;
    var buf: seq<Byte> := [];
    var bufLen: nat := len;
    var totalRead: nat := 0;
    var calls: nat := 0;
    while bufLen > 0
      invariant !eof && bufLen + totalRead == len && |buf| == totalRead
      invariant totalRead > 0 ==> offset + totalRead <= |file| && buf == file[offset..offset + totalRead]
      decreases bufLen
    {
      var position := offset + totalRead;
      var wanted := if position >= |file| then 0 else Min(bufLen, |file| - position);
      var read := if wanted == 0 then 0 else 1 + schedule(calls) % wanted;
      calls := calls + 1;
      if read == 0 {
        if totalRead == 0 {
          return NothingRead;
        }
        eof := true;
        break;
      }
      buf := buf + file[position..position + read];
      bufLen := bufLen - read;
      totalRead := totalRead + read;
    }
    assert len > 0 ==> buf == file[offset..Min(offset + len, |file|)];
    return Read(buf, eof);
  }

  datatype StreamError =
    | NotEnoughHeader(pos: nat, actual: nat)
    | NotEnoughContent(pos: nat, actual: nat, expected: nat)
    | BadHeader
    | Invalidated

  // The outcome of reading one batch at a position.
  datatype Step =
    | AtEnd
    | Next(batch: Batch, pos: nat, after: nat)
    | Broken(error: StreamError)

  // A batch is parsed at `pos`; its content is returned as raw records (schema id included).
  function StepAt(file: seq<Byte>, pos: nat): (s: Step)
    ensures s.Next? ==> s.pos == pos && pos + BATCH_FILE_HEADER_SIZE <= s.after <= |file|
  {
    if pos >= |file| then AtEnd
    else if |file| - pos < BATCH_FILE_HEADER_SIZE then Broken(NotEnoughHeader(pos, |file| - pos))
    else
      match DecodeHeader(file[pos..pos + BATCH_FILE_HEADER_SIZE])
      case Err(_) => Broken(BadHeader)
      case Ok((baseOffset, batchLen, header)) =>
        if batchLen < BATCH_HEADER_SIZE then Broken(BadHeader)
        else
          var start := pos + BATCH_FILE_HEADER_SIZE;
          var content := batchLen - BATCH_HEADER_SIZE;
          if start + content > |file| then Broken(NotEnoughContent(pos, |file| - start, content))
          else Next(Batch(baseOffset, header, 0, file[start..start + content]), pos, start + content)
  }

  /** FileBytesIterator over an unchanging file. */
  class FileBytesIterator {
    const file: seq<Byte>
    const schedule: nat -> Schedule
    var pos: nat
    var end: bool
    var calls: nat

    constructor (file: seq<Byte>, schedule: nat -> Schedule)
      ensures this.file == file && pos == 0 && !end
    {
      this.file := file;
      this.schedule := schedule;
      pos, end, calls := 0, false, 0;
    }

    // The position moves by the requested length even when fewer bytes were there.
    method ReadBytes(len: nat) returns (r: Option<seq<Byte>>)
      modifies this
      ensures match ReadAt(file, old(pos), len)
              case NothingRead => r == None && pos == old(pos) && end
              case Read(buffer, eof) => r == Some(buffer) && pos == old(pos) + len && end == eof
    {
      var output := Pread(file, pos, len, schedule(calls));
      calls := calls + 1;
      match output
      case Read(buffer, eof) =>
        pos := pos + len;
        end := eof;
        r := Some(buffer);
      case NothingRead =>
        end := true;
        r := None;
    }

    method SetAbsolute(offset: nat)
      modifies this
      ensures pos == offset && end == old(end)
    {
      pos := offset;
    }
  }

  // FileBatchPos::read_from
  method ReadFrom(iter: FileBytesIterator) returns (r: Result<Option<(Batch, nat)>, StreamError>)
    modifies iter
    ensures match StepAt(iter.file, old(iter.pos))
            case AtEnd => r == Ok(None) && iter.pos == old(iter.pos)
            case Next(batch, pos, after) => r == Ok(Some((batch, pos))) && iter.pos == after
            case Broken(error) => r == Err(error)
  {
    hide DecodeHeader;
    var pos := iter.pos;
    var bytes := iter.ReadBytes(BATCH_FILE_HEADER_SIZE);
    if bytes.None? {
      return Ok(None);
    }
    if |bytes.value| < BATCH_FILE_HEADER_SIZE {
      return Err(NotEnoughHeader(pos, |bytes.value|));
    }
    var head := DecodeHeader(bytes.value);
    if head.Err? || head.value.1 < BATCH_HEADER_SIZE {
      return Err(BadHeader);
    }
    var (baseOffset, batchLen, header) := head.value;
    var contentLen := batchLen - BATCH_HEADER_SIZE;
    var content := iter.ReadBytes(contentLen);
    if content.None? {
      return Err(NotEnoughContent(pos, 0, contentLen));
    }
    if |content.value| < contentLen {
      return Err(NotEnoughContent(pos, |content.value|, contentLen));
    }
    return Ok(Some((Batch(baseOffset, header, 0, content.value), pos)));
  }

  class FileBatchStream {
    const iter: FileBytesIterator
    var invalid: bool

    constructor (file: seq<Byte>, schedule: nat -> Schedule, start: nat)
      ensures fresh(iter) && iter.file == file && iter.pos == start && !invalid
    {
      iter := new FileBytesIterator(file, schedule);
      invalid := false;
      new;
      iter.SetAbsolute(start);
    }

    // One step of the stream; after an error every call fails.
    method TryNext() returns (r: Result<Option<(Batch, nat)>, StreamError>)
      modifies this, iter
      ensures old(invalid) ==> r == Err(Invalidated) && invalid && iter.pos == old(iter.pos)
      ensures !old(invalid) ==>
              match StepAt(iter.file, old(iter.pos))
              case AtEnd => r == Ok(None) && !invalid && iter.pos == old(iter.pos)
              case Next(batch, pos, after) => r == Ok(Some((batch, pos))) && !invalid && iter.pos == after
              case Broken(error) => r == Err(error) && invalid
    {
      if invalid {
        return Err(Invalidated);
      }
      r := ReadFrom(iter);
      if r.Err? {
        invalid := true;
      }
    }
  }

  // ----- whole files -----

  // The batches a stream yields from `pos` on, and the error that ends it, if any.
  function Drain(file: seq<Byte>, pos: nat): (seq<(Batch, nat)>, Option<StreamError>)
    decreases |file| - pos
  {
    match StepAt(file, pos)
    case AtEnd => ([], None)
    case Broken(error) => ([], Some(error))
    case Next(batch, at, after) =>
      var (tail, e) := Drain(file, after);
      ([(batch, at)] + tail, e)
  }

  lemma {:induction false} DrainUnfolds(file: seq<Byte>, pos: nat)
    ensures match StepAt(file, pos)
            case AtEnd => Drain(file, pos) == ([], None)
            case Broken(error) => Drain(file, pos) == ([], Some(error))
            case Next(batch, at, after) =>
              Drain(file, pos) == ([(batch, at)] + Drain(file, after).0, Drain(file, after).1)
  {
    hide StepAt;
  }

  // Reading until None or an error, then once more.
  method ReadAll(file: seq<Byte>, start: nat, schedule: nat -> Schedule)
    returns (items: seq<(Batch, nat)>, error: Option<StreamError>, again: Result<Option<(Batch, nat)>, StreamError>)
    ensures (items, error) == Drain(file, start)
    ensures again == if error.Some? then Err(Invalidated) else Ok(None)
  {
    hide StepAt, Drain;
    var stream := new FileBatchStream(file, schedule, start);
    items, error := [], None;
    assert [] + Drain(file, start).0 == Drain(file, start).0;
    while true
      invariant fresh(stream) && fresh(stream.iter) && stream.iter.file == file && !stream.invalid
      invariant var (tail, e) := Drain(file, stream.iter.pos);
                Drain(file, start) == (items + tail, e)
      decreases |file| - stream.iter.pos
    {
      DrainUnfolds(file, stream.iter.pos);
      var r := stream.TryNext();
      assert items + [] == items;
      if r.Err? {
        error := Some(r.error);
        break;
      }
      if r.value.None? {
        break;
      }
      var item := r.value.value;
      ghost var tail := Drain(file, stream.iter.pos).0;
      assert items + ([item] + tail) == (items + [item]) + tail;
      items := items + [item];
    }
    again := stream.TryNext();
  }

  // A log of batches without schema ids, as write_batch produces it.
  predicate Loggable(b: Batch) {
    ValidBatch(b) && !b.HasSchema() && b.schemaId == 0
  }

  predicate AllLoggable(bs: seq<Batch>) {
    forall i :: 0 <= i < |bs| ==> Loggable(bs[i])
  }

  function LogBytes(bs: seq<Batch>): seq<Byte>
    requires AllLoggable(bs)
  {
    if bs == [] then [] else LogBytes(bs[..|bs| - 1]) + EncodeBatch(bs[|bs| - 1])
  }

  // Start position of batch i: the sum of the sizes before it.
  function Start(bs: seq<Batch>, i: nat): nat
    requires i <= |bs|
  {
    if i == 0 then 0 else Start(bs, i - 1) + WriteSizeOf(bs[i - 1])
  }

  function Positioned(bs: seq<Batch>, i: nat): (r: seq<(Batch, nat)>)
    requires i <= |bs|
    ensures |r| == |bs| - i
    ensures forall j :: 0 <= j < |r| ==> r[j] == (bs[i + j], Start(bs, i + j))
    decreases |bs| - i
  {
    if i == |bs| then [] else [(bs[i], Start(bs, i))] + Positioned(bs, i + 1)
  }

  lemma {:induction false} LogLength(bs: seq<Batch>)
    requires AllLoggable(bs)
    ensures |LogBytes(bs)| == Start(bs, |bs|)
  {
    if bs != [] {
      var init := bs[..|bs| - 1];
      LogLength(init);
      StartOfPrefix(bs, init, |init|);
    }
  }

  lemma {:induction false} StartOfPrefix(bs: seq<Batch>, cs: seq<Batch>, i: nat)
    requires i <= |cs| <= |bs| && cs == bs[..|cs|]
    ensures Start(bs, i) == Start(cs, i)
  {
    if i > 0 { StartOfPrefix(bs, cs, i - 1); }
  }

  lemma {:induction false} StartsIncrease(bs: seq<Batch>, i: nat, j: nat)
    requires i < j <= |bs|
    ensures Start(bs, i) < Start(bs, j)
    decreases j
  {
    if i < j - 1 { StartsIncrease(bs, i, j - 1); }
  }

  // The bytes of batch i sit between its start and the next one.
  lemma {:induction false} BatchBytes(bs: seq<Batch>, i: nat)
    requires AllLoggable(bs) && i < |bs|
    ensures Start(bs, i) + WriteSizeOf(bs[i]) == Start(bs, i + 1) <= |LogBytes(bs)|
    ensures LogBytes(bs)[Start(bs, i)..Start(bs, i + 1)] == EncodeBatch(bs[i])
    decreases |bs|
  {
    hide EncodeHeader, ValidBatch;
    var init := bs[..|bs| - 1];
    LogLength(bs);
    LogLength(init);
    StartOfPrefix(bs, init, |init|);
    if i < |init| {
      BatchBytes(init, i);
      StartOfPrefix(bs, init, i);
      StartOfPrefix(bs, init, i + 1);
      assert LogBytes(bs)[Start(bs, i)..Start(bs, i + 1)] == LogBytes(init)[Start(bs, i)..Start(bs, i + 1)];
    }
  }

  // Any file that agrees with the log up to the end of batch i yields batch i at its start.
  lemma {:induction false} StepAtBatch(bs: seq<Batch>, i: nat, file: seq<Byte>)
    requires AllLoggable(bs) && i < |bs|
    requires Start(bs, i + 1) <= |file| && Start(bs, i + 1) <= |LogBytes(bs)|
    requires file[..Start(bs, i + 1)] == LogBytes(bs)[..Start(bs, i + 1)]
    ensures StepAt(file, Start(bs, i)) == Next(bs[i], Start(bs, i), Start(bs, i + 1))
  {
    hide DecodeHeader, EncodeHeader, ValidBatch;
    var b := bs[i];
    var p, q := Start(bs, i), Start(bs, i + 1);
    BatchBytes(bs, i);
    var e := EncodeBatch(b);
    assert file[p..q] == file[..q][p..q] == LogBytes(bs)[..q][p..q] == e;
    assert file[p..p + BATCH_FILE_HEADER_SIZE] == file[p..q][..BATCH_FILE_HEADER_SIZE] == EncodeHeader(b) + [];
    assert file[p + BATCH_FILE_HEADER_SIZE..q] == file[p..q][BATCH_FILE_HEADER_SIZE..] == b.records;
    HeaderRoundTrip(b, []);
  }

  lemma {:induction false} CutSlice(log: seq<Byte>, p: nat, h: nat, q: nat, cut: nat)
    requires p <= h <= cut <= |log| && h <= q <= |log|
    ensures log[..cut][p..h] == log[p..q][..h - p]
  {
  }

  lemma {:induction false} HeaderFirst(b: Batch)
    requires Loggable(b)
    ensures |EncodeBatch(b)| >= BATCH_FILE_HEADER_SIZE
    ensures EncodeBatch(b)[..BATCH_FILE_HEADER_SIZE] == EncodeHeader(b)
    ensures EncodeBatch(b)[BATCH_FILE_HEADER_SIZE..] == b.records
  {
    hide ValidBatch, EncodeHeader;
  }

  // Cutting inside batch i leaves an error there.
  lemma {:induction false} StepAtCut(bs: seq<Batch>, i: nat, cut: nat)
    requires AllLoggable(bs) && i < |bs|
    requires Start(bs, i) < cut < Start(bs, i + 1) <= |LogBytes(bs)|
    ensures var s := StepAt(LogBytes(bs)[..cut], Start(bs, i));
            s.Broken? && (s.error.NotEnoughHeader? || s.error.NotEnoughContent?)
  {
    hide DecodeHeader, EncodeHeader, ValidBatch;
    var b := bs[i];
    var p, q := Start(bs, i), Start(bs, i + 1);
    var file := LogBytes(bs)[..cut];
    BatchBytes(bs, i);
    if cut - p >= BATCH_FILE_HEADER_SIZE {
      var h := p + BATCH_FILE_HEADER_SIZE;
      CutSlice(LogBytes(bs), p, h, q, cut);
      HeaderFirst(b);
      HeaderRoundTrip(b, []);
      hide LogBytes, Start, EncodeBatch;
      assert file[p..h] == EncodeHeader(b) + [];
    }
  }

  lemma {:induction false} StepAtEnd(file: seq<Byte>)
    ensures StepAt(file, |file|) == AtEnd
  {
  }

  lemma {:induction false} DrainLog(bs: seq<Batch>, i: nat)
    requires AllLoggable(bs) && i <= |bs|
    ensures Drain(LogBytes(bs), Start(bs, i)) == (Positioned(bs, i), None)
    decreases |bs| - i
  {
    hide ValidBatch, StepAt, LogBytes, EncodeBatch;
    LogLength(bs);
    StepAtEnd(LogBytes(bs));
    if i < |bs| {
      BatchBytes(bs, i);
      StepAtBatch(bs, i, LogBytes(bs));
      DrainLog(bs, i + 1);
    }
  }

  // Batches that end at or before the cut.
  function WholeBefore(bs: seq<Batch>, cut: nat, i: nat): (k: nat)
    requires i <= |bs|
    ensures i <= k <= |bs|
    decreases |bs| - i
  {
    if i < |bs| && Start(bs, i + 1) <= cut then WholeBefore(bs, cut, i + 1) else i
  }

  // A log cut anywhere yields the whole batches before the cut, and then an error unless the cut
  // falls on a batch boundary.
  lemma {:induction false} DrainCutLog(bs: seq<Batch>, cut: nat, i: nat)
    requires AllLoggable(bs) && i <= |bs|
    requires Start(bs, i) <= cut <= |LogBytes(bs)|
    ensures var k := WholeBefore(bs, cut, i);
            var (items, error) := Drain(LogBytes(bs)[..cut], Start(bs, i));
            && items == Positioned(bs, i)[..k - i]
            && (error.None? <==> Start(bs, k) == cut)
    decreases |bs| - i
  {
    hide ValidBatch, StepAt, LogBytes, EncodeBatch, Positioned, WriteSizeOf, Start;
    LogLength(bs);
    var file := LogBytes(bs)[..cut];
    var k := WholeBefore(bs, cut, i);
    if i < |bs| && Start(bs, i + 1) <= cut {
      assert file[..Start(bs, i + 1)] == LogBytes(bs)[..Start(bs, i + 1)];
      StepAtBatch(bs, i, file);
      DrainCutLog(bs, cut, i + 1);
      PositionedTake(bs, i, k - i);
    } else {
      StepAtEnd(file);
      if i < |bs| && Start(bs, i) < cut {
        BatchBytes(bs, i);
        StepAtCut(bs, i, cut);
      }
    }
  }

  lemma {:induction false} PositionedTake(bs: seq<Batch>, i: nat, n: nat)
    requires i < |bs| && 0 < n <= |bs| - i
    ensures Positioned(bs, i)[..n] == [(bs[i], Start(bs, i))] + Positioned(bs, i + 1)[..n - 1]
  {
    hide Start;
  }
}
