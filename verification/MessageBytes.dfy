/**
 The derived encodings of the messages in FileMessages, number by number: which integers stand where, with
 their widths and signs, and which field joins at which version.
 */
module MessageBytes {
  import opened Wrappers
  import opened Bytes
  import opened Codec
  import opened CodecLaws
  import opened FileShapes
  import opened FileMessages

  // One field in front of others.
  lemma {:induction false} InFront(d: Desc, since: int, x: Value, fields: List<Field>, xs: List<Value>, version: int)
    requires Proper(d) && Typed(d, DefaultOf(d)) && Typed(d, x) && ProperFields(fields) && TypedFields(fields, xs)
    ensures ProperFields(Cons(Since(d, since), fields)) && TypedFields(Cons(Since(d, since), fields), Cons(x, xs))
    ensures EncodeFields(Cons(Since(d, since), fields), Cons(x, xs), version, false)
         == (if since <= version then Encode(d, x, version) else []) + EncodeFields(fields, xs, version, false)
  {
    hide Encode, Typed, Proper, DefaultOf;
  }

  lemma {:induction false} NumberInFront(
    signed: bool, width: nat, since: int, n: int, fields: List<Field>, xs: List<Value>, version: int)
    requires (width == 2 || width == 4 || width == 8) && InRange(n, signed, width)
    requires ProperFields(fields) && TypedFields(fields, xs)
    ensures var all := Cons(Since(Int(signed, width), since), fields);
            && ProperFields(all) && TypedFields(all, Cons(VInt(n), xs))
            && EncodeFields(all, Cons(VInt(n), xs), version, false)
               == (if since <= version then EncodeInt(n, signed, width) else [])
                  + EncodeFields(fields, xs, version, false)
  {
    hide EncodeFields, ProperFields, TypedFields;
    Pow256Values();
    InFront(Int(signed, width), since, VInt(n), fields, xs, version);
  }

  lemma {:induction false} RecordsLast(bytes: seq<Byte>, version: int)
    requires version >= 0
    ensures ProperFields(Cons(Always(Blob), Nil)) && TypedFields(Cons(Always(Blob), Nil), Cons(VBlob(bytes), Nil))
    ensures EncodeFields(Cons(Always(Blob), Nil), Cons(VBlob(bytes), Nil), version, false)
         == BigEndian(|bytes|, 4) + bytes
  {
    hide BigEndian;
    assert BigEndian(|bytes|, 4) + bytes + [] == BigEndian(|bytes|, 4) + bytes;
  }

  predicate HasDefault(d: Desc) {
    Proper(d) && Typed(d, DefaultOf(d))
  }

  // A partition of a fetch response: index, error, high watermark, from version 11 on the next offset of a
  // filter, log start, aborted transactions, and the records behind their length.
  lemma {:induction false} PartitionBytes(
    error: Desc, index: int, code: Value, highWatermark: int, nextFilter: int, logStart: int, aborted: Value,
    records: seq<Byte>, version: int)
    requires HasDefault(error) && Typed(error, code) && version >= 0
    requires InRange(index, false, 4) && InRange(highWatermark, true, 8) && InRange(nextFilter, true, 8)
    requires InRange(logStart, true, 8) && Proper(Opt(Vec(AbortedDesc()))) && Typed(Opt(Vec(AbortedDesc())), aborted)
    ensures var xs := Cons(VInt(index), Cons(code, Cons(VInt(highWatermark), Cons(VInt(nextFilter), Cons(VInt(logStart),
                      Cons(aborted, Cons(VBlob(records), Nil)))))));
            && ProperFields(PartitionFields(error)) && TypedFields(PartitionFields(error), xs)
            && Encode(Struct(PartitionFields(error)), VStruct(xs), version) ==
                 EncodeInt(index, false, 4) + (Encode(error, code, version) + (EncodeInt(highWatermark, true, 8)
                 + ((if version >= 11 then EncodeInt(nextFilter, true, 8) else []) + (EncodeInt(logStart, true, 8)
                 + (Encode(Opt(Vec(AbortedDesc())), aborted, version) + (BigEndian(|records|, 4) + records))))))
  {
    hide EncodeFields, ProperFields, TypedFields, Proper, Typed, BigEndian, EncodeInt, DefaultOf;
    RecordsLast(records, version);
    var f6, x6 := Cons(Always(Blob), Nil), Cons(VBlob(records), Nil);
    OptDefault(Vec(AbortedDesc()));
    InFront(Opt(Vec(AbortedDesc())), 0, aborted, f6, x6, version);
    var f5, x5 := Cons(Always(Opt(Vec(AbortedDesc()))), f6), Cons(aborted, x6);
    NumberInFront(true, 8, 0, logStart, f5, x5, version);
    var f4, x4 := Cons(Always(Int(true, 8)), f5), Cons(VInt(logStart), x5);
    NumberInFront(true, 8, 11, nextFilter, f4, x4, version);
    var f3, x3 := Cons(Since(Int(true, 8), 11), f4), Cons(VInt(nextFilter), x4);
    NumberInFront(true, 8, 0, highWatermark, f3, x3, version);
    var f2, x2 := Cons(Always(Int(true, 8)), f3), Cons(VInt(highWatermark), x3);
    InFront(error, 0, code, f2, x2, version);
    NumberInFront(false, 4, 0, index, Cons(Always(error), f2), Cons(code, x2), version);
  }

  lemma {:induction false} OptDefault(d: Desc)
    ensures Typed(Opt(d), DefaultOf(Opt(d)))
  {
  }

  lemma {:induction false} VecDefault(d: Desc)
    ensures Typed(Vec(d), DefaultOf(Vec(d)))
  {
  }

  // An aborted transaction: two offsets.
  lemma {:induction false} AbortedBytes(producer: int, firstOffset: int, version: int)
    requires InRange(producer, true, 8) && InRange(firstOffset, true, 8) && version >= 0
    ensures var x := VStruct(Cons(VInt(producer), Cons(VInt(firstOffset), Nil)));
            && Proper(AbortedDesc()) && Typed(AbortedDesc(), x)
            && Encode(AbortedDesc(), x, version) ==
                 EncodeInt(producer, true, 8) + (EncodeInt(firstOffset, true, 8) + [])
  {
    hide EncodeInt;
    NumberInFront(true, 8, 0, firstOffset, Nil, Nil, version);
    NumberInFront(true, 8, 0, producer, Cons(Always(Int(true, 8)), Nil), Cons(VInt(firstOffset), Nil), version);
  }

  // A topic: its name and its partitions.
  lemma {:induction false} TopicBytes(partition: Desc, name: seq<Byte>, partitions: List<Value>, version: int)
    requires Proper(Vec(partition)) && TypedItems(partition, partitions) && version >= 0
    ensures var x := VStruct(Cons(VStr(name), Cons(VVec(partitions), Nil)));
            && Proper(Struct(TopicFields(partition))) && Typed(Struct(TopicFields(partition)), x)
            && Encode(Struct(TopicFields(partition)), x, version) ==
                 (BigEndian(|name|, 2) + name)
                 + (BigEndian(Length(partitions), 4) + EncodeItems(partition, partitions, version) + [])
  {
    VecDefault(partition);
    VecOnWire(partition, partitions, version);
    InFront(Vec(partition), 0, VVec(partitions), Nil, Nil, version);
    hide BigEndian, EncodeItems, TypedItems;
    InFront(Str, 0, VStr(name), Cons(Always(Vec(partition)), Nil), Cons(VVec(partitions), Nil), version);
  }

  // A fetch response: throttle time, error, session and topics.
  lemma {:induction false} FetchBytes(
    error: Desc, throttle: int, code: Value, session: int, topics: List<Value>, version: int)
    requires HasDefault(error) && Typed(error, code) && version >= 0
    requires InRange(throttle, true, 4) && InRange(session, true, 4)
    requires var topic := Struct(TopicFields(Struct(PartitionFields(error))));
             Proper(Vec(topic)) && TypedItems(topic, topics)
    ensures var topic := Struct(TopicFields(Struct(PartitionFields(error))));
            var x := VStruct(Cons(VInt(throttle), Cons(code, Cons(VInt(session), Cons(VVec(topics), Nil)))));
            && Proper(FetchDesc(error)) && Typed(FetchDesc(error), x)
            && Encode(FetchDesc(error), x, version) ==
                 EncodeInt(throttle, true, 4) + (Encode(error, code, version) + (EncodeInt(session, true, 4)
                 + (BigEndian(Length(topics), 4) + EncodeItems(topic, topics, version) + [])))
  {
    var topic := Struct(TopicFields(Struct(PartitionFields(error))));
    VecDefault(topic);
    InFront(Vec(topic), 0, VVec(topics), Nil, Nil, version);
    VecOnWire(topic, topics, version);
    hide PartitionFields, TopicFields, Typed, Proper, TypedItems, EncodeItems, BigEndian, EncodeInt, DefaultOf;
    var f3, x3 := Cons(Always(Vec(topic)), Nil), Cons(VVec(topics), Nil);
    NumberInFront(true, 4, 0, session, f3, x3, version);
    var f2, x2 := Cons(Always(Int(true, 4)), f3), Cons(VInt(session), x3);
    InFront(error, 0, code, f2, x2, version);
    NumberInFront(true, 4, 0, throttle, Cons(Always(error), f2), Cons(code, x2), version);
    StructOnWire(Cons(Always(Int(true, 4)), Cons(Always(error), f2)), Cons(VInt(throttle), Cons(code, x2)), version);
  }

  // A stream fetch response: topic, stream and one partition.
  lemma {:induction false} StreamFetchBytes(
    error: Desc, topic: seq<Byte>, stream: int, partition: List<Value>, version: int)
    requires HasDefault(Struct(PartitionFields(error))) && TypedFields(PartitionFields(error), partition)
    requires InRange(stream, false, 4) && version >= 0
    ensures var x := VStruct(Cons(VStr(topic), Cons(VInt(stream), Cons(VStruct(partition), Nil))));
            && Proper(StreamFetchDesc(error)) && Typed(StreamFetchDesc(error), x)
            && Encode(StreamFetchDesc(error), x, version) ==
                 (BigEndian(|topic|, 2) + topic) + (EncodeInt(stream, false, 4)
                 + (Encode(Struct(PartitionFields(error)), VStruct(partition), version) + []))
  {
    var d := Struct(PartitionFields(error));
    StructOnWire(PartitionFields(error), partition, version);
    NoFieldsOnWire(version);
    StrOnWire(topic, version);
    hide PartitionFields, EncodeInt, BigEndian, Encode, Typed, Proper, EncodeFields, ProperFields, TypedFields, InRange;
    hide DefaultOf;
    InFront(d, 0, VStruct(partition), Nil, Nil, version);
    var f2, x2 := Cons(Always(d), Nil), Cons(VStruct(partition), Nil);
    NumberInFront(false, 4, 0, stream, f2, x2, version);
    var f1, x1 := Cons(Always(Int(false, 4)), f2), Cons(VInt(stream), x2);
    InFront(Str, 0, VStr(topic), f1, x1, version);
    StructOnWire(Cons(Always(Str), f1), Cons(VStr(topic), x1), version);
  }

  // A partition of a sync request between replicas: index, error, high watermark, end of the log, records.
  lemma {:induction false} PeerPartitionBytes(
    error: Desc, index: int, code: Value, highWatermark: int, logEnd: int, records: seq<Byte>, version: int)
    requires HasDefault(error) && Typed(error, code) && version >= 0
    requires InRange(index, false, 4) && InRange(highWatermark, true, 8) && InRange(logEnd, true, 8)
    ensures var fields := PeerPartitionFields(error);
            var xs := Cons(VInt(index), Cons(code, Cons(VInt(highWatermark), Cons(VInt(logEnd),
                      Cons(VBlob(records), Nil)))));
            && Proper(Struct(fields)) && Typed(Struct(fields), VStruct(xs))
            && Encode(Struct(fields), VStruct(xs), version) ==
                 EncodeInt(index, false, 4) + (Encode(error, code, version) + (EncodeInt(highWatermark, true, 8)
                 + (EncodeInt(logEnd, true, 8) + (BigEndian(|records|, 4) + records))))
  {
    hide EncodeFields, ProperFields, TypedFields, Proper, Typed, BigEndian, EncodeInt, DefaultOf;
    RecordsLast(records, version);
    var f4, x4 := Cons(Always(Blob), Nil), Cons(VBlob(records), Nil);
    NumberInFront(true, 8, 0, logEnd, f4, x4, version);
    var f3, x3 := Cons(Always(Int(true, 8)), f4), Cons(VInt(logEnd), x4);
    NumberInFront(true, 8, 0, highWatermark, f3, x3, version);
    var f2, x2 := Cons(Always(Int(true, 8)), f3), Cons(VInt(highWatermark), x3);
    InFront(error, 0, code, f2, x2, version);
    NumberInFront(false, 4, 0, index, Cons(Always(error), f2), Cons(code, x2), version);
    StructOnWire(PeerPartitionFields(error), Cons(VInt(index), Cons(code, x2)), version);
  }

  // A mirroring request: high watermark, end of the log and records; its wrapper adds nothing.
  lemma {:induction false} MirrorBytes(highWatermark: int, logEnd: int, records: seq<Byte>, version: int)
    requires InRange(highWatermark, true, 8) && InRange(logEnd, true, 8) && version >= 0
    ensures var x := VStruct(Cons(VInt(highWatermark), Cons(VInt(logEnd), Cons(VBlob(records), Nil))));
            var wrapped := VStruct(Cons(x, Nil));
            && Proper(MirrorDesc()) && Typed(MirrorDesc(), x)
            && Proper(HomeMirrorDesc()) && Typed(HomeMirrorDesc(), wrapped)
            && Encode(MirrorDesc(), x, version) ==
                 EncodeInt(highWatermark, true, 8) + (EncodeInt(logEnd, true, 8) + (BigEndian(|records|, 4) + records))
            && Encode(HomeMirrorDesc(), wrapped, version) == Encode(MirrorDesc(), x, version)
  {
    hide EncodeFields, ProperFields, TypedFields, BigEndian, EncodeInt, InRange;
    RecordsLast(records, version);
    var f2, x2 := Cons(Always(Blob), Nil), Cons(VBlob(records), Nil);
    NumberInFront(true, 8, 0, logEnd, f2, x2, version);
    var f1, x1 := Cons(Always(Int(true, 8)), f2), Cons(VInt(logEnd), x2);
    NumberInFront(true, 8, 0, highWatermark, f1, x1, version);
    var xs := Cons(VInt(highWatermark), x1);
    StructOnWire(Cons(Always(Int(true, 8)), f1), xs, version);
    MirrorDefault();
    NoFieldsOnWire(version);
    InFront(MirrorDesc(), 0, VStruct(xs), Nil, Nil, version);
    StructOnWire(Cons(Always(MirrorDesc()), Nil), Cons(VStruct(xs), Nil), version);
    assert Encode(MirrorDesc(), VStruct(xs), version) + [] == Encode(MirrorDesc(), VStruct(xs), version);
  }

  lemma {:induction false} MirrorDefault()
    ensures HasDefault(MirrorDesc())
  {
    Pow256Values();
  }

  lemma {:induction false} NoFieldsOnWire(version: int)
    ensures ProperFields(Nil) && TypedFields(Nil, Nil) && EncodeFields(Nil, Nil, version, false) == []
  {
  }

  // A partition of a produce request: index and records.
  lemma {:induction false} ProducePartitionBytes(index: int, records: seq<Byte>, version: int)
    requires InRange(index, false, 4) && version >= 0
    ensures var fields := ProducePartitionFields();
            var xs := Cons(VInt(index), Cons(VBlob(records), Nil));
            && Proper(Struct(fields)) && Typed(Struct(fields), VStruct(xs))
            && Encode(Struct(fields), VStruct(xs), version) ==
                 EncodeInt(index, false, 4) + (BigEndian(|records|, 4) + records)
  {
    hide EncodeFields, ProperFields, TypedFields, BigEndian, EncodeInt;
    RecordsLast(records, version);
    NumberInFront(false, 4, 0, index, Cons(Always(Blob), Nil), Cons(VBlob(records), Nil), version);
  }

  // A produce request: transaction, isolation, timeout, topics and smart modules.
  lemma {:induction false} ProduceBytes(
    smartModule: Desc, transaction: Value, isolation: int, timeout: int, topics: List<Value>, modules: List<Value>,
    version: int)
    requires Typed(Opt(Str), transaction) && InRange(isolation, true, 2) && InRange(timeout, true, 4) && version >= 0
    requires var topic := Struct(TopicFields(Struct(ProducePartitionFields())));
             Proper(Vec(topic)) && TypedItems(topic, topics)
    requires Proper(Vec(smartModule)) && TypedItems(smartModule, modules)
    ensures var topic := Struct(TopicFields(Struct(ProducePartitionFields())));
            var fields := ProduceFields(smartModule);
            var xs := Cons(transaction, Cons(VInt(isolation), Cons(VInt(timeout), Cons(VVec(topics),
                      Cons(VVec(modules), Nil)))));
            && Proper(Struct(fields)) && Typed(Struct(fields), VStruct(xs))
            && Encode(Struct(fields), VStruct(xs), version) ==
                 Encode(Opt(Str), transaction, version) + (EncodeInt(isolation, true, 2) + (EncodeInt(timeout, true, 4)
                 + ((BigEndian(Length(topics), 4) + EncodeItems(topic, topics, version))
                 + (BigEndian(Length(modules), 4) + EncodeItems(smartModule, modules, version) + []))))
  {
    var topic := Struct(TopicFields(Struct(ProducePartitionFields())));
    VecDefault(topic);
    VecOnWire(topic, topics, version);
    VecDefault(smartModule);
    VecOnWire(smartModule, modules, version);
    OptDefault(Str);
    InFront(Vec(smartModule), 0, VVec(modules), Nil, Nil, version);
    NoFieldsOnWire(version);
    assert Proper(Opt(Str));
    hide ProducePartitionFields, TopicFields, Typed, Proper, TypedItems, EncodeItems, BigEndian, EncodeInt, DefaultOf;
    hide EncodeFields, ProperFields, TypedFields, InRange;
    var f4, x4 := Cons(Always(Vec(smartModule)), Nil), Cons(VVec(modules), Nil);
    InFront(Vec(topic), 0, VVec(topics), f4, x4, version);
    var f3, x3 := Cons(Always(Vec(topic)), f4), Cons(VVec(topics), x4);
    NumberInFront(true, 4, 0, timeout, f3, x3, version);
    var f2, x2 := Cons(Always(Int(true, 4)), f3), Cons(VInt(timeout), x3);
    NumberInFront(true, 2, 0, isolation, f2, x2, version);
    var f1, x1 := Cons(Always(Int(true, 2)), f2), Cons(VInt(isolation), x2);
    InFront(Opt(Str), 0, transaction, f1, x1, version);
    StructOnWire(ProduceFields(smartModule), Cons(transaction, x1), version);
  }

  lemma {:induction false} StructOnWire(fields: List<Field>, xs: List<Value>, version: int)
    requires ProperFields(fields) && TypedFields(fields, xs)
    ensures Proper(Struct(fields)) && Typed(Struct(fields), VStruct(xs))
    ensures Encode(Struct(fields), VStruct(xs), version) == EncodeFields(fields, xs, version, false)
  {
    hide EncodeFields, ProperFields, TypedFields;
  }

  lemma {:induction false} StrOnWire(s: seq<Byte>, version: int)
    ensures Proper(Str) && Typed(Str, DefaultOf(Str)) && Typed(Str, VStr(s))
    ensures Encode(Str, VStr(s), version) == BigEndian(|s|, 2) + s
  {
    hide BigEndian;
  }

  lemma {:induction false} VecOnWire(elem: Desc, items: List<Value>, version: int)
    requires Proper(Vec(elem)) && TypedItems(elem, items)
    ensures Typed(Vec(elem), VVec(items))
    ensures Encode(Vec(elem), VVec(items), version) == BigEndian(Length(items), 4) + EncodeItems(elem, items, version)
  {
    hide BigEndian, EncodeItems, TypedItems;
  }
}
