/**
 Records inside a batch (fluvio-protocol, record/data.rs): each is prefixed with its length and
 carries varint deltas, and a batch holds a counted vector of them.
 */
module Records {
  import opened Wrappers
  import opened Bytes
  import opened Varint
  import opened Codec

  datatype Record = Record(
    attributes: int,
    timestampDelta: int,
    offsetDelta: int,
    key: Option<seq<Byte>>,
    value: seq<Byte>,
    headers: int)

  // RecordData: a varint length and the bytes
  function EncodeData(bytes: seq<Byte>): seq<Byte> {
    VarintBytes(|bytes|) + bytes
  }

  function EncodeInner(r: Record): seq<Byte>
    requires InRange(r.attributes, true, 1)
  {
    EncodeInt(r.attributes, true, 1)
    + (VarintBytes(r.timestampDelta)
    + (VarintBytes(r.offsetDelta)
    + ((match r.key
        case None => [0]
        case Some(k) => [1] + EncodeData(k))
    + (EncodeData(r.value)
    + VarintBytes(r.headers)))))
  }

  // A length that is too long takes what is there.  A negative one, cast to usize, asks for a buffer
  // of more than isize::MAX bytes, which panics; the model reports it as invalid data.
  function DecodeData(src: seq<Byte>): Result<(seq<Byte>, seq<Byte>), CodecError> {
    var (len, rest) :- DecodeVarint(src);
    if len < 0 then Err(InvalidData)
    else if len <= |rest| then Ok((rest[..len], rest[len..]))
    else Ok((rest, []))
  }

  function DecodeKey(src: seq<Byte>): Result<(Option<seq<Byte>>, seq<Byte>), CodecError> {
    if src == [] then Err(UnexpectedEof)
    else if src[0] == 0 then Ok((None, src[1..]))
    else if src[0] == 1 then
      var (k, rest) :- DecodeData(src[1..]);
      Ok((Some(k), rest))
    else Err(InvalidData)
  }

  function DecodeRecord(src: seq<Byte>): Result<(Record, seq<Byte>), CodecError> {
    var (len, s0) :- DecodeVarint(src);
    if |s0| < len then Err(UnexpectedEof)
    else
      var (attributes, s1) :- DecodeInt(s0, true, 1);
      var (timestampDelta, s2) :- DecodeVarint(s1);
      var (offsetDelta, s3) :- DecodeVarint(s2);
      var (key, s4) :- DecodeKey(s3);
      var (value, s5) :- DecodeData(s4);
      var (headers, s6) :- DecodeVarint(s5);
      Ok((Record(attributes, timestampDelta, offsetDelta, key, value, headers), s6))
  }

  // Records whose deltas and lengths survive the 32-bit varints.
  predicate Storable(r: Record) {
    && InRange(r.attributes, true, 1)
    && IsI32(r.timestampDelta) && IsI32(r.offsetDelta) && IsI32(r.headers)
    && (r.key.Some? ==> |r.key.value| < TWO31) && |r.value| < TWO31
    && |EncodeInner(r)| < TWO31
  }

  function EncodeRecord(r: Record): seq<Byte>
    requires Storable(r)
  {
    VarintBytes(|EncodeInner(r)|) + EncodeInner(r)
  }

  lemma {:induction false} VarintBack(n: int, rest: seq<Byte>)
    requires IsI32(n)
    ensures DecodeVarint(VarintBytes(n) + rest) == Ok((n, rest))
  {
    VarintSmall(n, rest);
  }

  lemma {:induction false} DataBack(bytes: seq<Byte>, rest: seq<Byte>)
    requires |bytes| < TWO31
    ensures DecodeData(EncodeData(bytes) + rest) == Ok((bytes, rest))
  {
    hide DecodeVarint, VarintBytes;
    VarintBack(|bytes|, bytes + rest);
    assert EncodeData(bytes) + rest == VarintBytes(|bytes|) + (bytes + rest);
  }

  lemma {:induction false} KeyBack(key: Option<seq<Byte>>, rest: seq<Byte>)
    requires key.Some? ==> |key.value| < TWO31
    ensures var bytes := match key case None => [0] case Some(k) => [1] + EncodeData(k);
            DecodeKey(bytes + rest) == Ok((key, rest))
  {
    hide DecodeData, EncodeData;
    if key.Some? {
      DataBack(key.value, rest);
      assert ([1] + EncodeData(key.value) + rest)[1..] == EncodeData(key.value) + rest;
    } else {
      assert ([0] + rest)[1..] == rest;
    }
  }

  lemma {:induction false} RecordBack(r: Record, rest: seq<Byte>)
    requires Storable(r)
    ensures DecodeRecord(EncodeRecord(r) + rest) == Ok((r, rest))
  {
    hide DecodeVarint, VarintBytes, DecodeKey, DecodeData, EncodeData, EncodeInt, DecodeInt, InRange;
    var key := match r.key case None => [0] case Some(k) => [1] + EncodeData(k);
    var s6 := rest;
    var s5 := VarintBytes(r.headers) + s6;
    var s4 := EncodeData(r.value) + s5;
    var s3 := key + s4;
    var s2 := VarintBytes(r.offsetDelta) + s3;
    var s1 := VarintBytes(r.timestampDelta) + s2;
    var s0 := EncodeInt(r.attributes, true, 1) + s1;
    assert EncodeInner(r) + rest == s0;
    assert EncodeRecord(r) + rest == VarintBytes(|EncodeInner(r)|) + s0;
    VarintBack(|EncodeInner(r)|, s0);
    IntRoundTrip(r.attributes, true, 1, s1);
    VarintBack(r.timestampDelta, s2);
    VarintBack(r.offsetDelta, s3);
    KeyBack(r.key, s4);
    DataBack(r.value, s5);
    VarintBack(r.headers, s6);
  }

  // ----- the records of a batch: Vec<Record> -----

  predicate AllStorable(rs: seq<Record>) {
    forall i :: 0 <= i < |rs| ==> Storable(rs[i])
  }

  function EncodeRecords(rs: seq<Record>): seq<Byte>
    requires AllStorable(rs)
  {
    BigEndian(|rs|, 4) + EncodeAll(rs)
  }

  function EncodeAll(rs: seq<Record>): seq<Byte>
    requires AllStorable(rs)
  {
    if rs == [] then [] else EncodeRecord(rs[0]) + EncodeAll(rs[1..])
  }

  function DecodeRecords(src: seq<Byte>): Result<seq<Record>, CodecError> {
    var (len, rest) :- DecodeInt(src, true, 4);
    if len < 1 then Ok([])
    else
      var (rs, _) :- DecodeCount(len, rest);
      Ok(rs)
  }

  function DecodeCount(count: nat, src: seq<Byte>): Result<(seq<Record>, seq<Byte>), CodecError> {
    if count == 0 then Ok(([], src))
    else
      var (r, rest) :- DecodeRecord(src);
      var (rs, rest') :- DecodeCount(count - 1, rest);
      Ok(([r] + rs, rest'))
  }

  lemma {:induction false} CountBack(rs: seq<Record>, rest: seq<Byte>)
    requires AllStorable(rs)
    ensures DecodeCount(|rs|, EncodeAll(rs) + rest) == Ok((rs, rest))
  {
    hide DecodeRecord, EncodeRecord, Storable;
    if rs == [] {
      assert EncodeAll(rs) + rest == rest;
    } else {
      var after := EncodeAll(rs[1..]) + rest;
      assert EncodeAll(rs) + rest == EncodeRecord(rs[0]) + after;
      RecordBack(rs[0], after);
      CountBack(rs[1..], rest);
      assert [rs[0]] + rs[1..] == rs;
    }
  }

  // The count is signed: a negative one stands for no records, whatever follows.
  lemma {:induction false} NegativeCount(src: seq<Byte>)
    requires |src| >= 4 && src[0] >= 128
    ensures DecodeRecords(src) == Ok([])
  {
    hide DecodeCount;
    FromFour(src[0], src[1], src[2], src[3]);
    assert src[..4] == [src[0], src[1], src[2], src[3]];
    Pow256Values();
  }

  // A batch's records are decoded exactly as they were encoded.
  lemma {:induction false} RecordsBack(rs: seq<Record>)
    requires AllStorable(rs) && |rs| < TWO31
    ensures DecodeRecords(EncodeRecords(rs)) == Ok(rs)
  {
    hide DecodeCount, EncodeAll, Storable, BigEndian;
    Pow256Values();
    IntRoundTrip(|rs|, true, 4, EncodeAll(rs));
    CountBack(rs, []);
    assert EncodeAll(rs) + [] == EncodeAll(rs);
  }
}
