/**
 The log-based key/value store (fluvio-kv-storage, log.rs): a cache over a log of encoded entries.
 Keys and values are values of described types, encoded with the derived codec at version 0.
 */
module KvStore {
  import opened Wrappers
  import opened Bytes
  import opened Codec
  import opened CodecLaws

  datatype Entry =
    | RecordUpdated(key: seq<Byte>, value: seq<Byte>)
    | RecordDeleted(key: seq<Byte>)
    | Checkpoint

  // ----- entries on the wire -----

  function BlobField(): Field {
    Field(Blob, false, 0, None, VBlob([]))
  }

  function OneBlob(): List<Field> {
    Cons(BlobField(), Nil)
  }

  function TwoBlobs(): List<Field> {
    Cons(BlobField(), OneBlob())
  }

  // The derived enum: tags 0, 1 and 2 in one byte.
  function EntryVariants(): List<Variant> {
    Cons(Variant(0, TwoBlobs()), Cons(Variant(1, OneBlob()), Cons(Variant(2, Nil), Nil)))
  }

  lemma {:induction false} BlobsAreClean()
    ensures ProperFields(OneBlob()) && ProperFields(TwoBlobs())
    ensures TypedFields(OneBlob(), Initials(OneBlob())) && TypedFields(TwoBlobs(), Initials(TwoBlobs()))
    ensures CleanFields(OneBlob()) && CleanFields(TwoBlobs())
    ensures EmptyFields(OneBlob(), Initials(OneBlob())) && EmptyFields(TwoBlobs(), Initials(TwoBlobs()))
    ensures AllLiveFields(OneBlob(), 0, true) && AllLiveFields(TwoBlobs(), 0, true)
  {
  }

  predicate CleanAll(variants: List<Variant>) {
    ProperVariants(variants, false, 1) && CleanVariants(variants, false, 1) && AllLiveVariants(variants, 0)
  }

  lemma {:induction false} ConsVariant(v: Variant, tail: List<Variant>)
    requires InRange(v.tag, false, 1) && ProperFields(v.fields) && TypedFields(v.fields, Initials(v.fields))
    requires CleanFields(v.fields) && EmptyFields(v.fields, Initials(v.fields)) && AllLiveFields(v.fields, 0, true)
    requires CleanAll(tail)
    ensures CleanAll(Cons(v, tail))
  {
  }

  lemma {:induction false} VariantsAreClean()
    ensures CleanAll(EntryVariants())
  {
    hide CleanAll, OneBlob, TwoBlobs;
    Pow256Values();
    BlobsAreClean();
    NoVariants();
    ConsVariant(Variant(2, Nil), Nil);
    ConsVariant(Variant(1, OneBlob()), Cons(Variant(2, Nil), Nil));
    ConsVariant(Variant(0, TwoBlobs()), Cons(Variant(1, OneBlob()), Cons(Variant(2, Nil), Nil)));
  }

  lemma {:induction false} NoVariants()
    ensures CleanAll(Nil)
  {
  }

  // The default entry is the checkpoint.
  function EntryDesc(): (d: Desc)
    ensures Proper(d) && Typed(d, DefaultOf(d))
  {
    VariantsAreClean();
    Enum(false, 1, EntryVariants(), VEnum(2, Nil))
  }

  function EntryValue(e: Entry): (x: Value)
    ensures Typed(EntryDesc(), x)
  {
    match e
    case RecordUpdated(key, value) => VEnum(0, Cons(VBlob(key), Cons(VBlob(value), Nil)))
    case RecordDeleted(key) => VEnum(1, Cons(VBlob(key), Nil))
    case Checkpoint => VEnum(2, Nil)
  }

  function EntryOf(x: Value): Entry
    requires Typed(EntryDesc(), x)
  {
    if x.index == 0 then RecordUpdated(x.payload.head.bytes, x.payload.tail.head.bytes)
    else if x.index == 1 then RecordDeleted(x.payload.head.bytes)
    else Checkpoint
  }

  function EncodeEntry(e: Entry): seq<Byte> {
    Encode(EntryDesc(), EntryValue(e), 0)
  }

  function DecodeEntry(bytes: seq<Byte>): Result<Entry, CodecError> {
    var (x, _) :- Decode(EntryDesc(), DefaultOf(EntryDesc()), bytes, 0);
    Ok(EntryOf(x))
  }

  // Byte strings of an entry must fit their i32 length.
  predicate Sized(e: Entry) {
    && (e.RecordUpdated? ==> |e.key| < 0x8000_0000 && |e.value| < 0x8000_0000)
    && (e.RecordDeleted? ==> |e.key| < 0x8000_0000)
  }

  lemma {:induction false} EntryRoundTrip(e: Entry)
    requires Sized(e)
    ensures DecodeEntry(EncodeEntry(e)) == Ok(e)
  {
    VariantsAreClean();
    EntryFits(e);
    FullRoundTrip(EntryDesc(), EntryValue(e), 0, []);
    EntryOfValue(e);
    assert EncodeEntry(e) + [] == EncodeEntry(e);
  }

  lemma {:induction false} EntryFits(e: Entry)
    requires Sized(e)
    ensures Fits(EntryDesc(), EntryValue(e), 0)
  {
    var x := EntryValue(e);
    match e
    case RecordUpdated(key, value) =>
      assert FitsFields(OneBlob(), x.payload.tail, 0, true);
      assert FitsFields(TwoBlobs(), x.payload, 0, true);
    case RecordDeleted(key) =>
      assert FitsFields(OneBlob(), x.payload, 0, true);
      assert FitsVariant(EntryVariants().tail, 0, x.payload, false, 1, 0);
      assert TagAt(EntryVariants().tail, 0, x.payload) == 1 == TagAt(EntryVariants(), 1, x.payload);
    case Checkpoint =>
      assert FitsVariant(EntryVariants().tail.tail, 0, x.payload, false, 1, 0);
      assert FitsVariant(EntryVariants().tail, 1, x.payload, false, 1, 0);
  }

  lemma {:induction false} EntryOfValue(e: Entry)
    ensures EntryOf(EntryValue(e)) == e
  {
  }

  lemma {:induction false} BlobsOnWire(key: seq<Byte>, value: seq<Byte>)
    ensures ProperFields(OneBlob()) && ProperFields(TwoBlobs())
    ensures EncodeFields(OneBlob(), Cons(VBlob(key), Nil), 0, true) == BigEndian(|key|, 4) + key
    ensures EncodeFields(TwoBlobs(), Cons(VBlob(key), Cons(VBlob(value), Nil)), 0, true)
         == BigEndian(|key|, 4) + key + (BigEndian(|value|, 4) + value)
  {
    hide BigEndian;
    assert EncodeFields(OneBlob(), Cons(VBlob(key), Nil), 0, true) == BigEndian(|key|, 4) + key + [];
    assert EncodeFields(OneBlob(), Cons(VBlob(value), Nil), 0, true) == BigEndian(|value|, 4) + value + [];
  }

  lemma {:induction false} TagOnWire(tag: int)
    requires 0 <= tag < 128
    ensures InRange(tag, false, 1) && EncodeInt(tag, false, 1) == [tag]
  {
    Pow256Values();
    assert BigEndian(tag / 256, 0) == [];
  }

  // An entry is its tag in one byte and then its byte strings, each behind a length of four bytes.
  lemma {:induction false} EntryBytes(e: Entry)
    ensures EncodeEntry(e) ==
            match e
            case RecordUpdated(key, value) =>
              [0] + (BigEndian(|key|, 4) + key + (BigEndian(|value|, 4) + value))
            case RecordDeleted(key) => [1] + (BigEndian(|key|, 4) + key)
            case Checkpoint => [2]
  {
    VariantsAreClean();
    TagOnWire(0);
    TagOnWire(1);
    TagOnWire(2);
    match e
    case RecordUpdated(key, value) => BlobsOnWire(key, value);
    case RecordDeleted(key) =>
      BlobsOnWire(key, []);
      assert EncodeVariant(EntryVariants().tail, 0, EntryValue(e).payload, false, 1, 0)
          == [1] + (BigEndian(|key|, 4) + key);
    case Checkpoint =>
      assert EncodeVariant(EntryVariants().tail.tail, 0, Nil, false, 1, 0) == [2] + [];
      assert EncodeVariant(EntryVariants().tail, 1, Nil, false, 1, 0) == [2];
  }

  // ----- keys and values -----

  /** The described types of keys and values. */
  datatype Schema = Schema(keys: Desc, values: Desc)

  // A value that survives the codec at version 0 and fits an entry.
  predicate Codable(d: Desc, x: Value) {
    && Proper(d) && Typed(d, DefaultOf(d)) && Typed(d, x)
    && Clean(d) && Empty(d, DefaultOf(d)) && AllLive(d, 0) && Fits(d, x, 0)
    && |Encode(d, x, 0)| < 0x8000_0000
  }

  predicate Usable(d: Desc) {
    Proper(d) && Typed(d, DefaultOf(d))
  }

  function EncodeItem(d: Desc, x: Value): seq<Byte>
    requires Codable(d, x)
  {
    Encode(d, x, 0)
  }

  function DecodeItem(d: Desc, bytes: seq<Byte>): Result<Value, CodecError>
    requires Usable(d)
  {
    var (x, _) :- Decode(d, DefaultOf(d), bytes, 0);
    Ok(x)
  }

  lemma {:induction false} ItemRoundTrip(d: Desc, x: Value)
    requires Codable(d, x)
    ensures Usable(d) && DecodeItem(d, EncodeItem(d, x)) == Ok(x) && |EncodeItem(d, x)| < 0x8000_0000
  {
    FullRoundTrip(d, x, 0, []);
    assert Encode(d, x, 0) + [] == Encode(d, x, 0);
  }

  function Updated(schema: Schema, key: Value, value: Value): seq<Byte>
    requires Codable(schema.keys, key) && Codable(schema.values, value)
  {
    EncodeEntry(RecordUpdated(EncodeItem(schema.keys, key), EncodeItem(schema.values, value)))
  }

  function Deleted(schema: Schema, key: Value): seq<Byte>
    requires Codable(schema.keys, key)
  {
    EncodeEntry(RecordDeleted(EncodeItem(schema.keys, key)))
  }

  // ----- replay -----

  type Cache = map<Value, Value>

  predicate IsCheckpoint(raw: seq<Byte>) {
    DecodeEntry(raw) == Ok(Checkpoint)
  }

  // The entries after the last checkpoint, oldest first.
  function AfterCheckpoint(log: seq<seq<Byte>>): seq<seq<Byte>> {
    if log == [] || IsCheckpoint(log[|log| - 1]) then [] else AfterCheckpoint(log[..|log| - 1]) + [log[|log| - 1]]
  }

  // They are a suffix of the log, and what stands before it is a checkpoint.
  lemma {:induction false} AfterCheckpointIsSuffix(log: seq<seq<Byte>>, raw: seq<Byte>)
    ensures var r := AfterCheckpoint(log);
            && |r| <= |log| && log[|log| - |r|..] == r
            && (|r| < |log| ==> IsCheckpoint(log[|log| - |r| - 1]))
            && (raw in r ==> !IsCheckpoint(raw))
  {
    hide IsCheckpoint, AfterCheckpoint;
    CheckpointLast(log);
    if log != [] && !IsCheckpoint(log[|log| - 1]) {
      var front, last := log[..|log| - 1], log[|log| - 1];
      AfterCheckpointIsSuffix(front, raw);
      assert log == front + [last];
      SuffixSnoc(front, last, |AfterCheckpoint(front)|);
    }
  }

  lemma {:induction false} CheckpointLast(log: seq<seq<Byte>>)
    ensures log == [] || IsCheckpoint(log[|log| - 1]) ==> AfterCheckpoint(log) == []
    ensures log != [] && !IsCheckpoint(log[|log| - 1]) ==>
            AfterCheckpoint(log) == AfterCheckpoint(log[..|log| - 1]) + [log[|log| - 1]]
  {
    hide IsCheckpoint;
  }

  lemma {:induction false} SuffixSnoc<T>(front: seq<T>, last: T, n: nat)
    requires n <= |front|
    ensures (front + [last])[|front| - n..] == front[|front| - n..] + [last]
    ensures n < |front| ==> (front + [last])[|front| - n - 1] == front[|front| - n - 1]
  {
  }

  function ApplyEntry(schema: Schema, cache: Cache, raw: seq<Byte>): Result<Cache, CodecError>
    requires Usable(schema.keys) && Usable(schema.values)
  {
    var entry :- DecodeEntry(raw);
    match entry
    case RecordUpdated(k, v) =>
      var key :- DecodeItem(schema.keys, k);
      var value :- DecodeItem(schema.values, v);
      Ok(cache[key := value])
    case RecordDeleted(k) =>
      var key :- DecodeItem(schema.keys, k);
      Ok(cache - {key})
    case Checkpoint => Err(InvalidData)
  }

  function Fold(schema: Schema, entries: seq<seq<Byte>>): Result<Cache, CodecError>
    requires Usable(schema.keys) && Usable(schema.values)
  {
    if entries == [] then Ok(map[])
    else
      var cache :- Fold(schema, entries[..|entries| - 1]);
      ApplyEntry(schema, cache, entries[|entries| - 1])
  }

  // What replaying a log yields.
  function Replayed(schema: Schema, log: seq<seq<Byte>>): Result<Cache, CodecError>
    requires Usable(schema.keys) && Usable(schema.values)
  {
    Fold(schema, AfterCheckpoint(log))
  }

  // Entries before a checkpoint never matter, not even undecodable ones.
  lemma {:induction false} CheckpointCutsLog(before: seq<seq<Byte>>, mark: seq<Byte>, after: seq<seq<Byte>>)
    requires IsCheckpoint(mark)
    ensures AfterCheckpoint(before + [mark] + after) == AfterCheckpoint([mark] + after)
  {
    hide IsCheckpoint;
    var log, short := before + [mark] + after, [mark] + after;
    if after == [] {
      assert log[|log| - 1] == mark == short[|short| - 1];
    } else {
      var n := |after| - 1;
      assert log[..|log| - 1] == before + [mark] + after[..n];
      assert short[..|short| - 1] == [mark] + after[..n];
      assert log[|log| - 1] == after[n] == short[|short| - 1];
      CheckpointCutsLog(before, mark, after[..n]);
    }
  }

  lemma {:induction false} DiscardBeforeCheckpoint(
    schema: Schema, before: seq<seq<Byte>>, mark: seq<Byte>, after: seq<seq<Byte>>)
    requires Usable(schema.keys) && Usable(schema.values) && IsCheckpoint(mark)
    ensures Replayed(schema, before + [mark] + after) == Replayed(schema, [mark] + after)
  {
    CheckpointCutsLog(before, mark, after);
  }

  // Appending one entry that is no checkpoint applies it to the replay.
  lemma {:induction false} ReplayAppend(schema: Schema, log: seq<seq<Byte>>, raw: seq<Byte>)
    requires Usable(schema.keys) && Usable(schema.values) && !IsCheckpoint(raw)
    ensures Replayed(schema, log + [raw]) ==
            if Replayed(schema, log).Ok? then ApplyEntry(schema, Replayed(schema, log).value, raw)
            else Replayed(schema, log)
  {
    hide IsCheckpoint, ApplyEntry;
    var longer := log + [raw];
    assert longer[..|longer| - 1] == log;
    var tail := AfterCheckpoint(log);
    assert (tail + [raw])[..|tail|] == tail;
  }

  lemma {:induction false} ApplyUpdated(schema: Schema, cache: Cache, key: Value, value: Value)
    requires Usable(schema.keys) && Usable(schema.values)
    requires Codable(schema.keys, key) && Codable(schema.values, value)
    ensures !IsCheckpoint(Updated(schema, key, value))
    ensures ApplyEntry(schema, cache, Updated(schema, key, value)) == Ok(cache[key := value])
  {
    hide Codable, EncodeEntry, DecodeEntry, EncodeItem, DecodeItem;
    ItemRoundTrip(schema.keys, key);
    ItemRoundTrip(schema.values, value);
    EntryRoundTrip(RecordUpdated(EncodeItem(schema.keys, key), EncodeItem(schema.values, value)));
  }

  lemma {:induction false} ApplyDeleted(schema: Schema, cache: Cache, key: Value)
    requires Usable(schema.keys) && Usable(schema.values) && Codable(schema.keys, key)
    ensures !IsCheckpoint(Deleted(schema, key))
    ensures ApplyEntry(schema, cache, Deleted(schema, key)) == Ok(cache - {key})
  {
    hide Codable, EncodeEntry, DecodeEntry, EncodeItem, DecodeItem;
    ItemRoundTrip(schema.keys, key);
    EntryRoundTrip(RecordDeleted(EncodeItem(schema.keys, key)));
  }

  lemma {:induction false} CheckpointEntry()
    ensures IsCheckpoint(EncodeEntry(Checkpoint))
  {
    EntryRoundTrip(Checkpoint);
  }

  // ----- flush -----

  predicate CodableAll(schema: Schema, cache: Cache) {
    && Usable(schema.keys) && Usable(schema.values)
    && forall k :: k in cache ==> Codable(schema.keys, k) && Codable(schema.values, cache[k])
  }

  // An order in which the hash map may iterate over its keys.
  predicate IterationOrder(cache: Cache, order: seq<Value>) {
    && (forall i :: 0 <= i < |order| ==> order[i] in cache)
    && (forall k :: k in cache ==> k in order)
  }

  function Updates(schema: Schema, cache: Cache, order: seq<Value>): seq<seq<Byte>>
    requires CodableAll(schema, cache)
    requires forall i :: 0 <= i < |order| ==> order[i] in cache
  {
    if order == [] then []
    else
      var n := |order| - 1;
      Updates(schema, cache, order[..n]) + [Updated(schema, order[n], cache[order[n]])]
  }

  function FlushRecords(schema: Schema, cache: Cache, order: seq<Value>): seq<seq<Byte>>
    requires CodableAll(schema, cache) && IterationOrder(cache, order)
  {
    [EncodeEntry(Checkpoint)] + Updates(schema, cache, order)
  }

  function Restricted(cache: Cache, order: seq<Value>): Cache {
    map k | k in cache && k in order :: cache[k]
  }

  lemma {:induction false} ReplayAtCheckpoint(schema: Schema, log: seq<seq<Byte>>)
    requires Usable(schema.keys) && Usable(schema.values)
    ensures Replayed(schema, log + [EncodeEntry(Checkpoint)]) == Ok(map[])
  {
    hide EncodeEntry, IsCheckpoint;
    CheckpointEntry();
    var whole := log + [EncodeEntry(Checkpoint)];
    assert whole[|whole| - 1] == EncodeEntry(Checkpoint);
  }

  lemma {:induction false} ReplayUpdates(schema: Schema, log: seq<seq<Byte>>, cache: Cache, order: seq<Value>)
    requires CodableAll(schema, cache)
    requires forall i :: 0 <= i < |order| ==> order[i] in cache
    ensures Replayed(schema, log + [EncodeEntry(Checkpoint)] + Updates(schema, cache, order))
         == Ok(Restricted(cache, order))
  {
    hide Codable, IsCheckpoint, ApplyEntry, Updated, EncodeEntry, Replayed;
    var mark := EncodeEntry(Checkpoint);
    if order == [] {
      ReplayAtCheckpoint(schema, log);
      assert log + [mark] + Updates(schema, cache, order) == log + [mark];
      assert Restricted(cache, order).Keys == {};
    } else {
      var n := |order| - 1;
      var key := order[n];
      ReplayUpdates(schema, log, cache, order[..n]);
      var shorter := log + [mark] + Updates(schema, cache, order[..n]);
      var raw := Updated(schema, key, cache[key]);
      var part := Restricted(cache, order[..n]);
      ApplyUpdated(schema, part, key, cache[key]);
      ReplayAppend(schema, shorter, raw);
      assert log + [mark] + Updates(schema, cache, order) == shorter + [raw];
      assert part[key := cache[key]] == Restricted(cache, order);
    }
  }

  // A flush makes the log replay to the cache, whatever was in the log and whatever the order.
  lemma {:induction false} FlushThenReplay(schema: Schema, log: seq<seq<Byte>>, cache: Cache, order: seq<Value>)
    requires CodableAll(schema, cache) && IterationOrder(cache, order)
    ensures Replayed(schema, log + FlushRecords(schema, cache, order)) == Ok(cache)
  {
    hide Codable, IsCheckpoint, Updates, Fold, AfterCheckpoint, EncodeEntry;
    ReplayUpdates(schema, log, cache, order);
    assert log + FlushRecords(schema, cache, order)
        == log + [EncodeEntry(Checkpoint)] + Updates(schema, cache, order);
    assert Restricted(cache, order) == cache;
  }

  // ----- runs -----

  datatype Store = Store(cache: Cache, log: seq<seq<Byte>>)

  /** Operations; `accepted` says whether the log took the append. */
  datatype Op =
    | Put(key: Value, value: Value, accepted: bool)
    | Delete(key: Value, accepted: bool)
    | Flush(order: seq<Value>, accepted: bool)
    | Sync

  predicate Legal(schema: Schema, s: Store, op: Op)
    requires CodableAll(schema, s.cache)
  {
    match op
    case Put(key, value, _) => Codable(schema.keys, key) && Codable(schema.values, value)
    case Delete(key, _) => Codable(schema.keys, key)
    case Flush(order, _) => IterationOrder(s.cache, order)
    case Sync => true
  }

  function Step(schema: Schema, s: Store, op: Op): Store
    requires CodableAll(schema, s.cache) && Legal(schema, s, op)
  {
    match op
    case Put(key, value, accepted) =>
      if accepted then Store(s.cache[key := value], s.log + [Updated(schema, key, value)]) else s
    case Delete(key, accepted) =>
      Store(s.cache - {key}, if accepted then s.log + [Deleted(schema, key)] else s.log)
    case Flush(order, accepted) =>
      if accepted then s.(log := s.log + FlushRecords(schema, s.cache, order)) else s
    case Sync =>
      match Replayed(schema, s.log)
      case Ok(cache) => s.(cache := cache)
      case Err(_) => s
  }

  // The cache is the replay of the log without the keys whose delete reached the cache only.
  ghost predicate Tracks(schema: Schema, s: Store, dropped: set<Value>) {
    && Usable(schema.keys) && Usable(schema.values)
    && var replayed := Replayed(schema, s.log);
    && replayed.Ok? && CodableAll(schema, replayed.value)
    && dropped <= replayed.value.Keys
    && s.cache == replayed.value - dropped
  }

  function DroppedAfter(schema: Schema, s: Store, dropped: set<Value>, op: Op): set<Value> {
    match op
    case Put(key, _, accepted) => if accepted then dropped - {key} else dropped
    case Delete(key, accepted) =>
      if accepted then dropped - {key} else if key in s.cache then dropped + {key} else dropped
    case Flush(_, accepted) => if accepted then {} else dropped
    case Sync => {}
  }

  lemma {:induction false} TracksCodable(schema: Schema, s: Store, dropped: set<Value>)
    requires Tracks(schema, s, dropped)
    ensures CodableAll(schema, s.cache)
  {
    hide Codable, Replayed, Usable;
  }

  lemma {:induction false} StepTracks(schema: Schema, s: Store, dropped: set<Value>, op: Op)
    requires Tracks(schema, s, dropped) && CodableAll(schema, s.cache) && Legal(schema, s, op)
    ensures Tracks(schema, Step(schema, s, op), DroppedAfter(schema, s, dropped, op))
  {
    hide Codable, Replayed, Usable, ApplyEntry, Updated, Deleted, FlushRecords, IsCheckpoint, IterationOrder;
    var replay := Replayed(schema, s.log).value;
    match op
    case Put(key, value, accepted) =>
      ApplyUpdated(schema, replay, key, value);
      ReplayAppend(schema, s.log, Updated(schema, key, value));
    case Delete(key, accepted) =>
      ApplyDeleted(schema, replay, key);
      ReplayAppend(schema, s.log, Deleted(schema, key));
    case Flush(order, accepted) => FlushThenReplay(schema, s.log, s.cache, order);
    case Sync =>
  }

  // A schedule of operations, each legal where it runs.
  ghost predicate LegalRun(schema: Schema, s: Store, dropped: set<Value>, ops: seq<Op>)
    requires Tracks(schema, s, dropped) && CodableAll(schema, s.cache)
    decreases |ops|
  {
    ops == [] ||
    (Legal(schema, s, ops[0])
     && (StepTracks(schema, s, dropped, ops[0]);
         var s', d := Step(schema, s, ops[0]), DroppedAfter(schema, s, dropped, ops[0]);
         TracksCodable(schema, s', d);
         LegalRun(schema, s', d, ops[1..])))
  }

  ghost function AfterRun(schema: Schema, s: Store, dropped: set<Value>, ops: seq<Op>): (Store, set<Value>)
    requires Tracks(schema, s, dropped) && CodableAll(schema, s.cache) && LegalRun(schema, s, dropped, ops)
    decreases |ops|
  {
    if ops == [] then (s, dropped)
    else
      StepTracks(schema, s, dropped, ops[0]);
      var s', d := Step(schema, s, ops[0]), DroppedAfter(schema, s, dropped, ops[0]);
      TracksCodable(schema, s', d);
      AfterRun(schema, s', d, ops[1..])
  }

  lemma {:induction false} ConsistentIff(schema: Schema, s: Store, dropped: set<Value>)
    requires Tracks(schema, s, dropped)
    ensures Replayed(schema, s.log) == Ok(s.cache) <==> dropped == {}
  {
    hide Replayed, Codable, Usable;
    if dropped != {} {
      var k :| k in dropped;
      assert k !in s.cache && k in Replayed(schema, s.log).value;
    } else {
      assert Replayed(schema, s.log).value - {} == Replayed(schema, s.log).value;
    }
  }

  // After every run the cache equals the replay of the log exactly when no failed delete is outstanding.
  lemma {:induction false} RunTracks(schema: Schema, s: Store, dropped: set<Value>, ops: seq<Op>)
    requires Tracks(schema, s, dropped) && CodableAll(schema, s.cache) && LegalRun(schema, s, dropped, ops)
    ensures var (s', d) := AfterRun(schema, s, dropped, ops);
            Tracks(schema, s', d) && (Replayed(schema, s'.log) == Ok(s'.cache) <==> d == {})
    decreases |ops|
  {
    hide Replayed, Codable, Usable;
    if ops == [] {
      ConsistentIff(schema, s, dropped);
      assert AfterRun(schema, s, dropped, ops) == (s, dropped);
    } else {
      StepTracks(schema, s, dropped, ops[0]);
      var s', d := Step(schema, s, ops[0]), DroppedAfter(schema, s, dropped, ops[0]);
      TracksCodable(schema, s', d);
      RunTracks(schema, s', d, ops[1..]);
      assert AfterRun(schema, s, dropped, ops) == AfterRun(schema, s', d, ops[1..]);
    }
  }

  predicate Accepted(op: Op) {
    match op
    case Put(_, _, accepted) => accepted
    case Delete(_, accepted) => accepted
    case Flush(_, accepted) => accepted
    case Sync => true
  }

  // When every append succeeds, the cache always equals the replay.
  lemma {:induction false} AcceptedRunConsistent(schema: Schema, s: Store, ops: seq<Op>)
    requires Tracks(schema, s, {}) && CodableAll(schema, s.cache) && LegalRun(schema, s, {}, ops)
    requires forall i :: 0 <= i < |ops| ==> Accepted(ops[i])
    ensures var s' := AfterRun(schema, s, {}, ops).0;
            Replayed(schema, s'.log) == Ok(s'.cache)
    decreases |ops|
  {
    hide Replayed, Codable, Usable;
    if ops == [] {
      RunTracks(schema, s, {}, ops);
    } else {
      StepTracks(schema, s, {}, ops[0]);
      var s', d := Step(schema, s, ops[0]), DroppedAfter(schema, s, {}, ops[0]);
      assert d == {};
      TracksCodable(schema, s', d);
      AcceptedRunConsistent(schema, s', ops[1..]);
    }
  }

  // An empty store tracks its log.
  lemma {:induction false} EmptyTracks(schema: Schema)
    requires Usable(schema.keys) && Usable(schema.values)
    ensures Tracks(schema, Store(map[], []), {})
  {
  }

  // From the empty store, cache and replay agree after a run if and only if no failed delete is
  // outstanding, so always when every append succeeds.
  lemma {:induction false} FromEmptyStore(schema: Schema, ops: seq<Op>)
    requires Usable(schema.keys) && Usable(schema.values)
    requires LegalRun(schema, Store(map[], []), {}, ops)
    ensures var (s, dropped) := AfterRun(schema, Store(map[], []), {}, ops);
            && (Replayed(schema, s.log) == Ok(s.cache) <==> dropped == {})
            && ((forall i :: 0 <= i < |ops| ==> Accepted(ops[i])) ==> dropped == {})
  {
    hide Replayed, Codable, Usable, Tracks, LegalRun;
    EmptyTracks(schema);
    RunTracks(schema, Store(map[], []), {}, ops);
    if forall i :: 0 <= i < |ops| ==> Accepted(ops[i]) {
      AcceptedRunConsistent(schema, Store(map[], []), ops);
    }
  }

  // ----- what the store holds -----

  function Get(cache: Cache, k: Value): Option<Value> {
    if k in cache then Some(cache[k]) else None
  }

  /** One key as the operations leave it: what the cache holds for it, and what the log does. */
  datatype View = View(cached: Option<Value>, logged: Option<Value>)

  // An operation as seen by one key.
  function Seen(view: View, op: Op, k: Value): View {
    match op
    case Put(key, value, accepted) => if key == k && accepted then View(Some(value), Some(value)) else view
    case Delete(key, accepted) => if key != k then view else View(None, if accepted then None else view.logged)
    case Flush(_, accepted) => if accepted then View(view.cached, view.cached) else view
    case Sync => View(view.logged, view.logged)
  }

  function SeenAll(view: View, ops: seq<Op>, k: Value): View
    decreases |ops|
  {
    if ops == [] then view else SeenAll(Seen(view, ops[0], k), ops[1..], k)
  }

  ghost predicate Views(schema: Schema, s: Store, view: View, k: Value) {
    && Usable(schema.keys) && Usable(schema.values) && Replayed(schema, s.log).Ok?
    && view == View(Get(s.cache, k), Get(Replayed(schema, s.log).value, k))
  }

  lemma {:induction false} StepViews(schema: Schema, s: Store, dropped: set<Value>, op: Op, view: View, k: Value)
    requires Tracks(schema, s, dropped) && CodableAll(schema, s.cache) && Legal(schema, s, op)
    requires Views(schema, s, view, k)
    ensures Views(schema, Step(schema, s, op), Seen(view, op, k), k)
  {
    hide Codable, Replayed, Usable, ApplyEntry, Updated, Deleted, FlushRecords, IsCheckpoint, IterationOrder;
    var replay := Replayed(schema, s.log).value;
    match op
    case Put(key, value, accepted) =>
      ApplyUpdated(schema, replay, key, value);
      ReplayAppend(schema, s.log, Updated(schema, key, value));
    case Delete(key, accepted) =>
      ApplyDeleted(schema, replay, key);
      ReplayAppend(schema, s.log, Deleted(schema, key));
    case Flush(order, accepted) => FlushThenReplay(schema, s.log, s.cache, order);
    case Sync =>
  }

  lemma {:induction false} RunViews(schema: Schema, s: Store, dropped: set<Value>, ops: seq<Op>, view: View, k: Value)
    requires Tracks(schema, s, dropped) && CodableAll(schema, s.cache) && LegalRun(schema, s, dropped, ops)
    requires Views(schema, s, view, k)
    ensures Views(schema, AfterRun(schema, s, dropped, ops).0, SeenAll(view, ops, k), k)
    decreases |ops|
  {
    hide Replayed, Codable, Usable, Views, Seen;
    if ops != [] {
      StepTracks(schema, s, dropped, ops[0]);
      StepViews(schema, s, dropped, ops[0], view, k);
      var s', d := Step(schema, s, ops[0]), DroppedAfter(schema, s, dropped, ops[0]);
      TracksCodable(schema, s', d);
      RunViews(schema, s', d, ops[1..], Seen(view, ops[0], k), k);
    }
  }

  // Over every run from the empty store, accepted or not, a key holds what the operations on it leave.
  lemma {:induction false} HoldsWhatIsSeen(schema: Schema, ops: seq<Op>, k: Value)
    requires Usable(schema.keys) && Usable(schema.values)
    requires LegalRun(schema, Store(map[], []), {}, ops)
    ensures var s := AfterRun(schema, Store(map[], []), {}, ops).0;
            var view := SeenAll(View(None, None), ops, k);
            Get(s.cache, k) == view.cached && Replayed(schema, s.log).Ok?
            && Get(Replayed(schema, s.log).value, k) == view.logged
  {
    var empty := Store(map[], []);
    EmptyTracks(schema);
    assert Views(schema, empty, View(None, None), k);
    RunViews(schema, empty, {}, ops, View(None, None), k);
  }

  predicate Touches(op: Op, k: Value) {
    (op.Put? && op.key == k) || (op.Delete? && op.key == k)
  }

  // The i-th operation is the last Put or Delete of the key.
  ghost predicate LastTouch(ops: seq<Op>, i: nat, k: Value) {
    i < |ops| && Touches(ops[i], k) && forall j :: i < j < |ops| ==> !Touches(ops[j], k)
  }

  lemma {:induction false} AcceptedSeen(ops: seq<Op>, k: Value, x: Option<Value>, i: nat)
    requires forall j :: 0 <= j < |ops| ==> Accepted(ops[j])
    requires LastTouch(ops, i, k) || forall j :: 0 <= j < |ops| ==> !Touches(ops[j], k)
    ensures SeenAll(View(x, x), ops, k).cached ==
            if !LastTouch(ops, i, k) then x else if ops[i].Put? then Some(ops[i].value) else None
    decreases |ops|
  {
    if ops != [] {
      var next := Seen(View(x, x), ops[0], k);
      assert next == View(next.cached, next.cached);
      if LastTouch(ops, i, k) && i > 0 {
        assert LastTouch(ops[1..], i - 1, k);
        AcceptedSeen(ops[1..], k, next.cached, i - 1);
      } else {
        forall j | 0 <= j < |ops[1..]|
          ensures !Touches(ops[1..][j], k) && Accepted(ops[1..][j])
        {
          assert ops[1..][j] == ops[j + 1];
        }
        AcceptedSeen(ops[1..], k, next.cached, 0);
      }
    }
  }

  // When every append succeeds the last write wins: a key holds the value of the last Put or Delete of it
  // if that is a Put, and is absent if it is a Delete.
  lemma {:induction false} LastWriteWins(schema: Schema, ops: seq<Op>, k: Value, i: nat)
    requires Usable(schema.keys) && Usable(schema.values)
    requires LegalRun(schema, Store(map[], []), {}, ops)
    requires forall j :: 0 <= j < |ops| ==> Accepted(ops[j])
    requires LastTouch(ops, i, k)
    ensures var cache := AfterRun(schema, Store(map[], []), {}, ops).0.cache;
            if ops[i].Put? then k in cache && cache[k] == ops[i].value else k !in cache
  {
    HoldsWhatIsSeen(schema, ops, k);
    AcceptedSeen(ops, k, None, i);
  }

  // A key that no Put or Delete names is absent.
  lemma {:induction false} UntouchedAbsent(schema: Schema, ops: seq<Op>, k: Value)
    requires Usable(schema.keys) && Usable(schema.values)
    requires LegalRun(schema, Store(map[], []), {}, ops)
    requires forall j :: 0 <= j < |ops| ==> Accepted(ops[j]) && !Touches(ops[j], k)
    ensures k !in AfterRun(schema, Store(map[], []), {}, ops).0.cache
  {
    HoldsWhatIsSeen(schema, ops, k);
    AcceptedSeen(ops, k, None, 0);
  }

  // A log entry that decodes to an update of the key to the value, or to its removal.
  predicate LogsUpdate(schema: Schema, raw: seq<Byte>, key: Value, value: Value)
    requires Usable(schema.keys) && Usable(schema.values)
  {
    var e := DecodeEntry(raw);
    && e.Ok? && e.value.RecordUpdated?
    && DecodeItem(schema.keys, e.value.key) == Ok(key) && DecodeItem(schema.values, e.value.value) == Ok(value)
  }

  predicate LogsRemoval(schema: Schema, raw: seq<Byte>, key: Value)
    requires Usable(schema.keys)
  {
    var e := DecodeEntry(raw);
    e.Ok? && e.value.RecordDeleted? && DecodeItem(schema.keys, e.value.key) == Ok(key)
  }

  lemma {:induction false} UpdatedLogs(schema: Schema, key: Value, value: Value)
    requires Codable(schema.keys, key) && Codable(schema.values, value)
    ensures Usable(schema.keys) && Usable(schema.values) && LogsUpdate(schema, Updated(schema, key, value), key, value)
  {
    hide Codable, EncodeEntry, DecodeEntry, EncodeItem, DecodeItem;
    ItemRoundTrip(schema.keys, key);
    ItemRoundTrip(schema.values, value);
    EntryRoundTrip(RecordUpdated(EncodeItem(schema.keys, key), EncodeItem(schema.values, value)));
  }

  lemma {:induction false} DeletedLogs(schema: Schema, key: Value)
    requires Codable(schema.keys, key)
    ensures Usable(schema.keys) && LogsRemoval(schema, Deleted(schema, key), key)
  {
    hide Codable, EncodeEntry, DecodeEntry, EncodeItem, DecodeItem;
    ItemRoundTrip(schema.keys, key);
    EntryRoundTrip(RecordDeleted(EncodeItem(schema.keys, key)));
  }

  /** LogBasedKVStorage over an in-memory log. */
  class LogBasedKVStorage {
    const schema: Schema
    var cache: Cache
    var log: seq<seq<Byte>>

    ghost predicate Valid()
      reads this
    {
      CodableAll(schema, cache)
    }

    ghost function State(): Store
      reads this
    {
      Store(cache, log)
    }

    constructor (schema: Schema, log: seq<seq<Byte>>)
      requires Usable(schema.keys) && Usable(schema.values)
      ensures Valid() && this.schema == schema && State() == Store(map[], log)
    {
      this.schema := schema;
      this.cache := map[];
      this.log := log;
    }

    method Put(key: Value, value: Value, accepted: bool) returns (ok: bool)
      requires Valid() && Codable(schema.keys, key) && Codable(schema.values, value)
      modifies this
      ensures Valid() && ok == accepted
      ensures State() == Step(schema, old(State()), Op.Put(key, value, accepted))
      ensures accepted ==>
              && cache == old(cache)[key := value] && |log| == |old(log)| + 1 && log[..|old(log)|] == old(log)
              && LogsUpdate(schema, log[|old(log)|], key, value)
      ensures !accepted ==> cache == old(cache) && log == old(log)
    {
      hide Codable, LogsUpdate, Updated, Usable;
      UpdatedLogs(schema, key, value);
      if !accepted {
        return false;
      }
      log := log + [Updated(schema, key, value)];
      cache := cache[key := value];
      return true;
    }

    // The key leaves the cache before the log is asked.
    method Delete(key: Value, accepted: bool) returns (ok: bool)
      requires Valid() && Codable(schema.keys, key)
      modifies this
      ensures Valid() && ok == accepted
      ensures State() == Step(schema, old(State()), Op.Delete(key, accepted))
      ensures cache == old(cache) - {key}
      ensures accepted ==>
              && |log| == |old(log)| + 1 && log[..|old(log)|] == old(log)
              && LogsRemoval(schema, log[|old(log)|], key)
      ensures !accepted ==> log == old(log)
    {
      hide Codable, LogsRemoval, Deleted, Usable;
      DeletedLogs(schema, key);
      cache := cache - {key};
      if accepted {
        log := log + [Deleted(schema, key)];
      }
      return accepted;
    }

    method Flush(order: seq<Value>, accepted: bool) returns (ok: bool)
      requires Valid() && IterationOrder(cache, order)
      modifies this
      ensures Valid() && ok == accepted
      ensures State() == Step(schema, old(State()), Op.Flush(order, accepted))
      ensures cache == old(cache) && (if accepted then Replayed(schema, log) == Ok(cache) else log == old(log))
    {
      hide Codable, Usable, CodableAll, IterationOrder, FlushRecords, Replayed;
      FlushThenReplay(schema, log, cache, order);
      var records := RecordsOf(schema, cache, order);
      if accepted {
        log := log + records;
      }
      return accepted;
    }

    // Reads back to the last checkpoint, then rebuilds the cache; an error keeps the old one.
    method Replay() returns (ok: bool)
      requires Valid()
      modifies this
      ensures ok <==> Replayed(schema, log).Ok?
      ensures State() == Step(schema, old(State()), Sync)
      ensures log == old(log) && cache == if ok then Replayed(schema, log).value else old(cache)
    {
      hide Codable, Fold, AfterCheckpoint;
      var lastEntries := ReadFromEnd(log);
      var newCache := Rebuild(schema, lastEntries);
      if newCache.Err? {
        return false;
      }
      cache := newCache.value;
      return true;
    }
  }

  // What flush appends: a checkpoint and every pair of the cache.
  method RecordsOf(schema: Schema, cache: Cache, order: seq<Value>) returns (records: seq<seq<Byte>>)
    requires CodableAll(schema, cache) && IterationOrder(cache, order)
    ensures records == FlushRecords(schema, cache, order)
  {
    hide Codable, EncodeEntry, Updated;
    records := [EncodeEntry(Checkpoint)];
    for i := 0 to |order|
      invariant records == [EncodeEntry(Checkpoint)] + Updates(schema, cache, order[..i])
    {
      assert order[..i + 1][..i] == order[..i];
      records := records + [Updated(schema, order[i], cache[order[i]])];
    }
    assert order[..|order|] == order;
  }

  // read_from_end().take_while(not a checkpoint), reversed
  method ReadFromEnd(log: seq<seq<Byte>>) returns (entries: seq<seq<Byte>>)
    ensures entries == AfterCheckpoint(log)
  {
    hide IsCheckpoint;
    entries := [];
    var i := |log|;
    assert log[..i] == log;
    while i > 0 && !IsCheckpoint(log[i - 1])
      invariant 0 <= i <= |log|
      invariant AfterCheckpoint(log) == AfterCheckpoint(log[..i]) + entries
    {
      i := i - 1;
      assert log[..i + 1][..i] == log[..i];
      assert AfterCheckpoint(log[..i + 1]) == AfterCheckpoint(log[..i]) + [log[i]];
      entries := [log[i]] + entries;
    }
  }

  method Rebuild(schema: Schema, entries: seq<seq<Byte>>) returns (r: Result<Cache, CodecError>)
    requires Usable(schema.keys) && Usable(schema.values)
    ensures r.Ok? <==> Fold(schema, entries).Ok?
    ensures r.Ok? ==> r == Fold(schema, entries)
  {
    hide ApplyEntry;
    var newCache: Cache := map[];
    for j := 0 to |entries|
      invariant Fold(schema, entries[..j]) == Ok(newCache)
    {
      assert entries[..j + 1][..j] == entries[..j];
      var next := ApplyEntry(schema, newCache, entries[j]);
      if next.Err? {
        FoldFails(schema, entries, j + 1);
        return next;
      }
      newCache := next.value;
    }
    assert entries[..|entries|] == entries;
    return Ok(newCache);
  }

  // An entry that cannot be applied spoils every longer fold.
  lemma {:induction false} FoldFails(schema: Schema, entries: seq<seq<Byte>>, n: nat)
    requires Usable(schema.keys) && Usable(schema.values)
    requires n <= |entries| && Fold(schema, entries[..n]).Err?
    ensures Fold(schema, entries).Err?
    decreases |entries| - n
  {
    if n == |entries| {
      assert entries[..n] == entries;
    } else {
      assert entries[..n + 1][..n] == entries[..n];
      FoldFails(schema, entries, n + 1);
    }
  }
}
