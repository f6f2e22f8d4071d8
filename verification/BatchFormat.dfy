/**
 The batch layout of a segment file (fluvio-protocol, record/batch.rs): a 12-byte preamble, the
 45-byte header and the records.
 */
module BatchFormat {
  import opened Wrappers
  import opened Bytes
  import opened Codec
  import opened CodecLaws

  const BATCH_HEADER_SIZE: nat := 45
  const BATCH_FILE_HEADER_SIZE: nat := 57

  datatype Header = Header(
    partitionLeaderEpoch: int,
    magic: int,
    crc: int,
    attributes: int,
    lastOffsetDelta: int,
    firstTimestamp: int,
    maxTimestamp: int,
    producerId: int,
    producerEpoch: int,
    firstSequence: int)

  /** A batch; `records` are its encoded records and `schemaId` is written only when the header says so. */
  datatype Batch = Batch(baseOffset: int, header: Header, schemaId: int, records: seq<Byte>) {
    function LastOffset(): int {
      baseOffset + header.lastOffsetDelta
    }

    function RecordsLen(): nat {
      if header.lastOffsetDelta < 0 then 0 else header.lastOffsetDelta + 1
    }

    // attributes & 0x10
    predicate HasSchema() {
      header.attributes / 16 % 2 == 1
    }
  }

  function Fixed(signed: bool, width: nat): Field {
    Field(Int(signed, width), false, 0, None, VInt(0))
  }

  // Every field of the file header: base offset, batch length and the derived BatchHeader.
  function FileHeaderFields(): List<Field> {
    Cons(Fixed(true, 8), Cons(Fixed(true, 4),
    Cons(Fixed(true, 4), Cons(Fixed(true, 1), Cons(Fixed(false, 4), Cons(Fixed(true, 2),
    Cons(Fixed(true, 4), Cons(Fixed(true, 8), Cons(Fixed(true, 8), Cons(Fixed(true, 8),
    Cons(Fixed(true, 2), Cons(Fixed(true, 4), Nil))))))))))))
  }

  function FileHeaderValues(baseOffset: int, batchLen: int, h: Header): List<Value> {
    Cons(VInt(baseOffset), Cons(VInt(batchLen),
    Cons(VInt(h.partitionLeaderEpoch), Cons(VInt(h.magic), Cons(VInt(h.crc), Cons(VInt(h.attributes),
    Cons(VInt(h.lastOffsetDelta), Cons(VInt(h.firstTimestamp), Cons(VInt(h.maxTimestamp), Cons(VInt(h.producerId),
    Cons(VInt(h.producerEpoch), Cons(VInt(h.firstSequence), Nil))))))))))))
  }

  lemma {:induction false} FileHeaderIsProper()
    ensures ProperFields(FileHeaderFields())
    ensures TypedFields(FileHeaderFields(), Initials(FileHeaderFields()))
  {
    Pow256Values();
  }

  function FileHeaderDesc(): (d: Desc)
    ensures Proper(d) && Typed(d, DefaultOf(d))
  {
    FileHeaderIsProper();
    Struct(FileHeaderFields())
  }

  predicate ValidHeader(h: Header) {
    && InRange(h.partitionLeaderEpoch, true, 4)
    && InRange(h.magic, true, 1)
    && InRange(h.crc, false, 4)
    && InRange(h.attributes, true, 2)
    && InRange(h.lastOffsetDelta, true, 4)
    && InRange(h.firstTimestamp, true, 8)
    && InRange(h.maxTimestamp, true, 8)
    && InRange(h.producerId, true, 8)
    && InRange(h.producerEpoch, true, 2)
    && InRange(h.firstSequence, true, 4)
  }

  // A batch whose fields have their Rust types and whose length fits the i32 length field.
  predicate ValidBatch(b: Batch) {
    && InRange(b.baseOffset, true, 8)
    && ValidHeader(b.header)
    && InRange(b.schemaId, false, 4)
    && BatchLen(b) < 0x8000_0000
  }

  // calc_batch_len
  function BatchLen(b: Batch): nat {
    BATCH_HEADER_SIZE + |b.records| + if b.HasSchema() then 4 else 0
  }

  function HeaderValue(b: Batch): (x: Value)
    requires ValidBatch(b)
    ensures Typed(FileHeaderDesc(), x)
  {
    Pow256Values();
    VStruct(FileHeaderValues(b.baseOffset, BatchLen(b), b.header))
  }

  function EncodeHeader(b: Batch): (r: seq<Byte>)
    requires ValidBatch(b)
    ensures |r| == BATCH_FILE_HEADER_SIZE
  {
    WriteSizeIsLength(FileHeaderDesc(), HeaderValue(b), 0);
    HeaderSize(b);
    Encode(FileHeaderDesc(), HeaderValue(b), 0)
  }

  lemma {:induction false} HeaderSize(b: Batch)
    requires ValidBatch(b)
    ensures WriteSize(FileHeaderDesc(), HeaderValue(b), 0) == BATCH_FILE_HEADER_SIZE
  {
    FixedSize(FileHeaderFields(), HeaderValue(b).fields);
  }

  function Widths(fields: List<Field>): nat
    requires AllFixed(fields)
  {
    match fields
    case Nil => 0
    case Cons(f, tail) => f.desc.width + Widths(tail)
  }

  lemma {:induction false} FixedSize(fields: List<Field>, xs: List<Value>)
    requires AllFixed(fields) && ProperFields(fields) && TypedFields(fields, xs)
    ensures FieldsSize(fields, xs, 0, false) == Widths(fields)
  {
    if fields.Cons? {
      var f := fields.head;
      assert WriteSize(f.desc, xs.head, 0) == f.desc.width;
      FixedSize(fields.tail, xs.tail);
    }
  }

  function EncodeBatch(b: Batch): seq<Byte>
    requires ValidBatch(b)
  {
    EncodeHeader(b) + (if b.HasSchema() then EncodeInt(b.schemaId, false, 4) else []) + b.records
  }

  // Batch::write_size does not count the schema id.
  function WriteSizeOf(b: Batch): nat {
    BATCH_FILE_HEADER_SIZE + |b.records|
  }

  // The size test in write_batch passes exactly for batches without a schema id, which bit 4 of the
  // attributes announces and which takes four bytes.
  lemma {:induction false} WriteSizeIffNoSchema(b: Batch)
    requires ValidBatch(b)
    ensures WriteSizeOf(b) == |EncodeBatch(b)| <==> !b.HasSchema()
    ensures |EncodeBatch(b)| == 57 + |b.records| + (if b.header.attributes / 16 % 2 == 1 then 4 else 0)
    ensures b.header.attributes / 16 % 2 == 1 ==> EncodeBatch(b)[57..61] == EncodeInt(b.schemaId, false, 4)
  {
    hide ValidBatch, EncodeHeader;
  }

  lemma {:induction false} FixedFirst(fields: List<Field>, xs: List<Value>)
    requires fields.Cons? && AllFixed(fields) && ProperFields(fields) && TypedFields(fields, xs)
    ensures xs.Cons? && xs.head.VInt? && InRange(xs.head.n, fields.head.desc.signed, fields.head.desc.width)
    ensures AllFixed(fields.tail) && ProperFields(fields.tail) && TypedFields(fields.tail, xs.tail)
    ensures EncodeFields(fields, xs, 0, false)
         == EncodeInt(xs.head.n, fields.head.desc.signed, fields.head.desc.width)
            + EncodeFields(fields.tail, xs.tail, 0, false)
  {
    var d := fields.head.desc;
    assert Typed(d, xs.head) && Encode(d, xs.head, 0) == EncodeInt(xs.head.n, d.signed, d.width);
  }

  lemma {:induction false} NoFields()
    ensures EncodeFields(Nil, Nil, 0, false) == []
  {
  }

  // The file header byte by byte: every number in its place, most significant byte first.
  lemma {:induction false} HeaderBytes(b: Batch)
    requires ValidBatch(b)
    ensures var h, len := b.header, 45 + |b.records| + if b.header.attributes / 16 % 2 == 1 then 4 else 0;
            EncodeHeader(b) ==
              EncodeInt(b.baseOffset, true, 8) + (EncodeInt(len, true, 4) + (EncodeInt(h.partitionLeaderEpoch, true, 4)
              + (EncodeInt(h.magic, true, 1) + (EncodeInt(h.crc, false, 4) + (EncodeInt(h.attributes, true, 2)
              + (EncodeInt(h.lastOffsetDelta, true, 4) + (EncodeInt(h.firstTimestamp, true, 8)
              + (EncodeInt(h.maxTimestamp, true, 8) + (EncodeInt(h.producerId, true, 8)
              + (EncodeInt(h.producerEpoch, true, 2) + EncodeInt(h.firstSequence, true, 4)))))))))))
  {
    var f0, x0 := FileHeaderFields(), HeaderValue(b).fields;
    FileHeaderIsProper();
    FixedFirst(f0, x0);
    var f1, x1 := f0.tail, x0.tail;
    FixedFirst(f1, x1);
    var f2, x2 := f1.tail, x1.tail;
    FixedFirst(f2, x2);
    var f3, x3 := f2.tail, x2.tail;
    FixedFirst(f3, x3);
    var f4, x4 := f3.tail, x3.tail;
    FixedFirst(f4, x4);
    var f5, x5 := f4.tail, x4.tail;
    FixedFirst(f5, x5);
    var f6, x6 := f5.tail, x5.tail;
    FixedFirst(f6, x6);
    var f7, x7 := f6.tail, x6.tail;
    FixedFirst(f7, x7);
    var f8, x8 := f7.tail, x7.tail;
    FixedFirst(f8, x8);
    var f9, x9 := f8.tail, x8.tail;
    FixedFirst(f9, x9);
    var f10, x10 := f9.tail, x9.tail;
    FixedFirst(f10, x10);
    FixedFirst(f10.tail, x10.tail);
    NoFields();
  }

  // decode_from_file_buf: base offset, batch length and header.
  function DecodeHeader(src: seq<Byte>): Result<(int, int, Header), CodecError> {
    var (x, rest) :- Decode(FileHeaderDesc(), DefaultOf(FileHeaderDesc()), src, 0);
    Ok(HeaderOf(x.fields))
  }

  function HeaderOf(xs: List<Value>): (int, int, Header)
    requires TypedFields(FileHeaderFields(), xs)
  {
    var a := xs.tail.tail;
    var c := a.tail.tail.tail.tail;
    var e := c.tail.tail.tail.tail;
    (xs.head.n, xs.tail.head.n,
     Header(a.head.n, a.tail.head.n, a.tail.tail.head.n, a.tail.tail.tail.head.n,
            c.head.n, c.tail.head.n, c.tail.tail.head.n, c.tail.tail.tail.head.n,
            e.head.n, e.tail.head.n))
  }

  predicate AllFixed(fields: List<Field>) {
    match fields
    case Nil => true
    case Cons(f, tail) => f.desc.Int? && f == Fixed(f.desc.signed, f.desc.width) && AllFixed(tail)
  }

  lemma {:induction false} FixedIsClean(fields: List<Field>)
    requires AllFixed(fields) && ProperFields(fields) && TypedFields(fields, Initials(fields))
    ensures CleanFields(fields) && AllLiveFields(fields, 0, false) && EmptyFields(fields, Initials(fields))
  {
    if fields.Cons? { FixedIsClean(fields.tail); }
  }

  lemma {:induction false} HeaderClean()
    ensures Proper(FileHeaderDesc()) && Typed(FileHeaderDesc(), DefaultOf(FileHeaderDesc()))
    ensures Clean(FileHeaderDesc()) && Empty(FileHeaderDesc(), DefaultOf(FileHeaderDesc()))
    ensures AllLive(FileHeaderDesc(), 0)
  {
    FixedIsClean(FileHeaderFields());
  }

  lemma {:induction false} HeaderFits(b: Batch)
    requires ValidBatch(b)
    ensures Fits(FileHeaderDesc(), HeaderValue(b), 0)
  {
  }

  lemma {:induction false} HeaderOfValue(b: Batch)
    requires ValidBatch(b)
    ensures HeaderOf(HeaderValue(b).fields) == (b.baseOffset, BatchLen(b), b.header)
  {
  }

  // The integer that stands in a file at a position.
  function NumberAt(src: seq<Byte>, position: nat, signed: bool, width: nat): int
    requires 0 < width && position + width <= |src|
  {
    DecodeInt(src[position..], signed, width).value.0
  }

  // The integers of fixed fields that follow each other from a position on.
  function Numbers(fields: List<Field>, file: seq<Byte>, at: nat): List<Value>
    requires AllFixed(fields) && ProperFields(fields) && at + Widths(fields) <= |file|
  {
    match fields
    case Nil => Nil
    case Cons(f, tail) =>
      assert ProperField(f) && Proper(f.desc);
      Cons(VInt(NumberAt(file, at, f.desc.signed, f.desc.width)), Numbers(tail, file, at + f.desc.width))
  }

  // Decoding one fixed field and then the others.
  lemma {:induction false} FixedRead(fields: List<Field>, priors: List<Value>, src: seq<Byte>)
    requires fields.Cons? && AllFixed(fields) && ProperFields(fields) && TypedFields(fields, priors)
    requires |src| >= Widths(fields)
    ensures fields.head.desc.Int? && fields.head.desc.width > 0 && priors.Cons?
    ensures AllFixed(fields.tail) && ProperFields(fields.tail) && TypedFields(fields.tail, priors.tail)
    ensures Widths(fields) == fields.head.desc.width + Widths(fields.tail)
    ensures var f := fields.head.desc;
            var tail := DecodeFields(fields.tail, priors.tail, src[f.width..], 0, false);
            tail.Ok? ==>
              DecodeFields(fields, priors, src, 0, false) ==
              Ok((Cons(VInt(NumberAt(src, 0, f.signed, f.width)), tail.value.0), tail.value.1))
  {
    hide DecodeInt;
    var f := fields.head;
    assert ProperField(f) && Proper(f.desc) && src[0..] == src;
    assert DecodeField(f, priors.head, src, 0, false)
        == Ok((VInt(NumberAt(src, 0, f.desc.signed, f.desc.width)), src[f.desc.width..]));
  }

  lemma {:induction false} ReadsNumbers(fields: List<Field>, priors: List<Value>, file: seq<Byte>, at: nat)
    requires AllFixed(fields) && ProperFields(fields) && TypedFields(fields, priors)
    requires at + Widths(fields) <= |file|
    ensures DecodeFields(fields, priors, file[at..], 0, false)
         == Ok((Numbers(fields, file, at), file[at + Widths(fields)..]))
  {
    if fields.Cons? {
      hide AllFixed, ProperFields, TypedFields, DecodeFields, DecodeInt, Numbers, Widths;
      var src := file[at..];
      FixedRead(fields, priors, src);
      NumbersFirst(fields, file, at);
      var next := at + fields.head.desc.width;
      assert src[fields.head.desc.width..] == file[next..] && src[0..] == file[at..];
      ReadsNumbers(fields.tail, priors.tail, file, next);
    }
  }

  lemma {:induction false} NumbersFirst(fields: List<Field>, file: seq<Byte>, at: nat)
    requires fields.Cons? && AllFixed(fields) && ProperFields(fields) && at + Widths(fields) <= |file|
    ensures var f := fields.head.desc;
            && f.Int? && 0 < f.width && AllFixed(fields.tail) && ProperFields(fields.tail)
            && at + f.width + Widths(fields.tail) <= |file|
            && Numbers(fields, file, at) ==
                 Cons(VInt(NumberAt(file, at, f.signed, f.width)), Numbers(fields.tail, file, at + f.width))
  {
    hide NumberAt;
  }

  // The same for reading: 57 bytes are always a header, and each of its numbers is the signed integer at
  // its place, the checksum an unsigned one.
  lemma {:induction false} HeaderNumbers(src: seq<Byte>)
    requires |src| >= 57
    ensures DecodeHeader(src) ==
            Ok((NumberAt(src, 0, true, 8), NumberAt(src, 8, true, 4),
                Header(NumberAt(src, 12, true, 4), NumberAt(src, 16, true, 1), NumberAt(src, 17, false, 4),
                       NumberAt(src, 21, true, 2), NumberAt(src, 23, true, 4), NumberAt(src, 27, true, 8),
                       NumberAt(src, 35, true, 8), NumberAt(src, 43, true, 8), NumberAt(src, 51, true, 2),
                       NumberAt(src, 53, true, 4))))
  {
    hide NumberAt, Widths, ProperFields, TypedFields, AllFixed, DecodeFields, Numbers, FileHeaderFields, HeaderOf;
    hide Initials;
    FileHeaderIsProper();
    HeaderPlaces(src);
    assert src[0..] == src;
    ReadsNumbers(FileHeaderFields(), Initials(FileHeaderFields()), src, 0);
  }

  lemma {:induction false} HeaderPlaces(src: seq<Byte>)
    requires |src| >= 57
    ensures AllFixed(FileHeaderFields()) && ProperFields(FileHeaderFields()) && Widths(FileHeaderFields()) == 57
    ensures TypedFields(FileHeaderFields(), Numbers(FileHeaderFields(), src, 0))
    ensures HeaderOf(Numbers(FileHeaderFields(), src, 0)) ==
            (NumberAt(src, 0, true, 8), NumberAt(src, 8, true, 4),
             Header(NumberAt(src, 12, true, 4), NumberAt(src, 16, true, 1), NumberAt(src, 17, false, 4),
                    NumberAt(src, 21, true, 2), NumberAt(src, 23, true, 4), NumberAt(src, 27, true, 8),
                    NumberAt(src, 35, true, 8), NumberAt(src, 43, true, 8), NumberAt(src, 51, true, 2),
                    NumberAt(src, 53, true, 4)))
  {
    var f0 := FileHeaderFields();
    FileHeaderIsProper();
    HeaderWidths();
    assert src[0..] == src;
    ReadsNumbers(f0, Initials(f0), src, 0);
    hide NumberAt, Widths, ProperFields, TypedFields, AllFixed, Numbers, DecodeFields, Initials;
    NumbersFirst(f0, src, 0);
    var f1 := f0.tail;
    NumbersFirst(f1, src, 8);
    var f2 := f1.tail;
    NumbersFirst(f2, src, 12);
    var f3 := f2.tail;
    NumbersFirst(f3, src, 16);
    var f4 := f3.tail;
    NumbersFirst(f4, src, 17);
    var f5 := f4.tail;
    NumbersFirst(f5, src, 21);
    var f6 := f5.tail;
    NumbersFirst(f6, src, 23);
    var f7 := f6.tail;
    NumbersFirst(f7, src, 27);
    var f8 := f7.tail;
    NumbersFirst(f8, src, 35);
    var f9 := f8.tail;
    NumbersFirst(f9, src, 43);
    var f10 := f9.tail;
    NumbersFirst(f10, src, 51);
    NumbersFirst(f10.tail, src, 53);
  }

  lemma {:induction false} HeaderWidths()
    ensures AllFixed(FileHeaderFields()) && Widths(FileHeaderFields()) == 57
  {
  }

  lemma {:induction false} HeaderRoundTrip(b: Batch, rest: seq<Byte>)
    requires ValidBatch(b)
    ensures DecodeHeader(EncodeHeader(b) + rest) == Ok((b.baseOffset, BatchLen(b), b.header))
  {
    var d, x := FileHeaderDesc(), HeaderValue(b);
    HeaderClean();
    HeaderFits(b);
    HeaderOfValue(b);
    hide FileHeaderFields, Proper, Typed, Clean, Empty, AllLive, Fits, Encode, Decode, ValidBatch, HeaderOf;
    FullRoundTrip(d, x, 0, rest);
  }
}
