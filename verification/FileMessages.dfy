/**
 The messages that are sent with file slices (fluvio-spu-schema: fetch/response.rs, stream_fetch.rs,
 produce/request.rs; fluvio-spu: follower/sync.rs, remote/sync.rs, home/sync.rs), each with its derived description
 and with the steps of its own file_encode.  The description of error codes is a parameter.
 */
module FileMessages {
  import opened Wrappers
  import opened Bytes
  import opened Codec
  import opened CodecLaws
  import opened CodecVersions
  import opened FileShapes
  import opened FileWriters
  import opened ZeroCopy

  // ----- numbers -----

  const U32 := Int(false, 4)
  const I16 := Int(true, 2)
  const I32 := Int(true, 4)
  const I64 := Int(true, 8)

  // ----- fetch -----

  function AbortedDesc(): Desc {
    Struct(Cons(Always(I64), Cons(Always(I64), Nil)))
  }

  function PartitionFields(error: Desc): List<Field> {
    Cons(Always(U32), Cons(Always(error), Cons(Always(I64), Cons(Since(I64, 11), Cons(Always(I64),
    Cons(Always(Opt(Vec(AbortedDesc()))), Cons(Always(Blob), Nil)))))))
  }

  function PartitionSteps(): List<Step> {
    Cons(Copy(0, None), Cons(Copy(1, None), Cons(Copy(2, None), Cons(Copy(3, Some(11)), Cons(Copy(4, None),
    Cons(Copy(5, None), Cons(Pass(6, WriteSlice), Nil)))))))
  }

  function TopicFields(partition: Desc): List<Field> {
    Cons(Always(Str), Cons(Always(Vec(partition)), Nil))
  }

  function TopicSteps(partition: Writer): List<Step> {
    Cons(Copy(0, None), Cons(Pass(1, WriteEach(partition)), Nil))
  }

  function FetchDesc(error: Desc): Desc {
    Struct(Cons(Always(I32), Cons(Always(error), Cons(Always(I32),
           Cons(Always(Vec(Struct(TopicFields(Struct(PartitionFields(error)))))), Nil)))))
  }

  function FetchWriter(): Writer {
    WriteSteps(Cons(Copy(0, None), Cons(Copy(1, None), Cons(Copy(2, None),
               Cons(Pass(3, WriteEach(WriteSteps(TopicSteps(WriteSteps(PartitionSteps()))))), Nil)))))
  }

  // ----- stream fetch -----

  function StreamFetchDesc(error: Desc): Desc {
    Struct(Cons(Always(Str), Cons(Always(U32), Cons(Always(Struct(PartitionFields(error))), Nil))))
  }

  function StreamFetchWriter(): Writer {
    WriteSteps(Cons(Copy(0, None), Cons(Copy(1, None), Cons(Pass(2, WriteSteps(PartitionSteps())), Nil))))
  }

  // ----- replication and mirroring -----

  function PeerPartitionFields(error: Desc): List<Field> {
    Cons(Always(U32), Cons(Always(error), Cons(Always(I64), Cons(Always(I64), Cons(Always(Blob), Nil)))))
  }

  function PeerPartitionSteps(): List<Step> {
    Cons(Copy(0, None), Cons(Copy(1, None), Cons(Copy(2, None), Cons(Copy(3, None), Cons(Pass(4, WriteSlice), Nil)))))
  }

  function SyncDesc(error: Desc): Desc {
    Struct(Cons(Always(Vec(Struct(TopicFields(Struct(PeerPartitionFields(error)))))), Nil))
  }

  function SyncWriter(): Writer {
    WriteSteps(Cons(Pass(0, WriteEach(WriteSteps(TopicSteps(WriteSteps(PeerPartitionSteps()))))), Nil))
  }

  function MirrorDesc(): Desc {
    Struct(Cons(Always(I64), Cons(Always(I64), Cons(Always(Blob), Nil))))
  }

  function MirrorWriter(): Writer {
    WriteSteps(Cons(Copy(0, None), Cons(Copy(1, None), Cons(Pass(2, WriteSlice), Nil))))
  }

  // The wrapper of one unnamed field that goes the other way.
  function HomeMirrorDesc(): Desc {
    Struct(Cons(Always(MirrorDesc()), Nil))
  }

  function HomeMirrorWriter(): Writer {
    WriteSteps(Cons(Pass(0, MirrorWriter()), Nil))
  }

  // ----- produce -----

  function ProducePartitionFields(): List<Field> {
    Cons(Always(U32), Cons(Always(Blob), Nil))
  }

  function ProducePartitionSteps(): List<Step> {
    Cons(Copy(0, None), Cons(Pass(1, WriteSlice), Nil))
  }

  // The hand-written encode tests no versions: transaction, isolation, timeout, topics, smart modules.
  function ProduceFields(smartModule: Desc): List<Field> {
    Cons(Always(Opt(Str)), Cons(Always(I16), Cons(Always(I32),
    Cons(Always(Vec(Struct(TopicFields(Struct(ProducePartitionFields()))))), Cons(Always(Vec(smartModule)), Nil)))))
  }

  // Its file_encode ends with the topics.
  function ProduceSteps(): List<Step> {
    Cons(Copy(0, None), Cons(Copy(1, None), Cons(Copy(2, None),
    Cons(Pass(3, WriteEach(WriteSteps(TopicSteps(WriteSteps(ProducePartitionSteps()))))), Nil))))
  }

  // ----- the comparison of descriptions and steps -----

  lemma {:induction false} PartitionMatches(error: Desc)
    ensures Matches(Struct(PartitionFields(error)), WriteSteps(PartitionSteps()), error, 11)
  {
    var f, s := PartitionFields(error).tail, PartitionSteps().tail;
    assert Built(AbortedDesc(), error, 11);
    assert MatchesFrom(f.tail.tail.tail.tail.tail, 6, s.tail.tail.tail.tail.tail, true, error, 11);
    assert MatchesFrom(f.tail.tail.tail.tail, 5, s.tail.tail.tail.tail, true, error, 11);
    assert MatchesFrom(f.tail.tail.tail, 4, s.tail.tail.tail, true, error, 11);
    assert MatchesFrom(f.tail, 2, s.tail, true, error, 11);
    assert MatchesFrom(f, 1, s, true, error, 11);
  }

  lemma {:induction false} TopicMatches(partition: Desc, w: Writer, error: Desc, last: int)
    requires Matches(partition, w, error, last) && last >= 0
    ensures Matches(Vec(Struct(TopicFields(partition))), WriteEach(WriteSteps(TopicSteps(w))), error, last)
  {
    var f, s := TopicFields(partition), TopicSteps(w);
    assert Matches(f.tail.head.desc, s.tail.head.writer, error, last);
    hide Matches;
    assert MatchesFrom(f.tail, 1, s.tail, true, error, last);
    KindStruct(Struct(f), WriteSteps(s), error, last);
    KindVec(Struct(f), WriteSteps(s), error, last);
  }

  lemma {:induction false} KindVec(d: Desc, w: Writer, error: Desc, last: int)
    requires Matches(d, w, error, last)
    ensures Matches(Vec(d), WriteEach(w), error, last)
  {
  }

  lemma {:induction false} PeerMatches(error: Desc)
    ensures Matches(Struct(PeerPartitionFields(error)), WriteSteps(PeerPartitionSteps()), error, 0)
  {
    var f, s := PeerPartitionFields(error).tail, PeerPartitionSteps().tail;
    assert MatchesFrom(f.tail.tail, 3, s.tail.tail, true, error, 0);
    assert MatchesFrom(f, 1, s, true, error, 0);
  }

  lemma {:induction false} MirrorMatches(error: Desc)
    ensures Matches(MirrorDesc(), MirrorWriter(), error, 0)
  {
    var f, s := MirrorDesc().fields, MirrorWriter().steps;
    assert MatchesFrom(f.tail.tail, 2, s.tail.tail, true, error, 0);
    assert MatchesFrom(f.tail, 1, s.tail, true, error, 0);
  }

  // ----- what is sent -----

  /** The messages whose file_encode leaves nothing out. */
  datatype Kind = Fetch | StreamFetch | Sync | Mirror | HomeMirror

  function DescOf(kind: Kind, error: Desc): Desc {
    match kind
    case Fetch => FetchDesc(error)
    case StreamFetch => StreamFetchDesc(error)
    case Sync => SyncDesc(error)
    case Mirror => MirrorDesc()
    case HomeMirror => HomeMirrorDesc()
  }

  function WriterOf(kind: Kind): Writer {
    match kind
    case Fetch => FetchWriter()
    case StreamFetch => StreamFetchWriter()
    case Sync => SyncWriter()
    case Mirror => MirrorWriter()
    case HomeMirror => HomeMirrorWriter()
  }

  predicate IsRequest(kind: Kind) {
    kind.Sync? || kind.Mirror? || kind.HomeMirror?
  }

  // The version at which the last field joins.
  function LastJoin(kind: Kind): int {
    if IsRequest(kind) then 0 else 11
  }

  lemma {:induction false} FetchMatches(error: Desc)
    ensures Matches(FetchDesc(error), FetchWriter(), error, 11)
  {
    var f, s := FetchDesc(error).fields, FetchWriter().steps;
    PartitionMatches(error);
    TopicMatches(Struct(PartitionFields(error)), WriteSteps(PartitionSteps()), error, 11);
    hide Matches;
    assert MatchesFrom(f.tail.tail.tail, 3, s.tail.tail.tail, true, error, 11);
    assert MatchesFrom(f.tail.tail, 2, s.tail.tail, true, error, 11);
    assert MatchesFrom(f.tail, 1, s.tail, true, error, 11);
    KindStruct(FetchDesc(error), FetchWriter(), error, 11);
  }

  lemma {:induction false} StreamFetchMatches(error: Desc)
    ensures Matches(StreamFetchDesc(error), StreamFetchWriter(), error, 11)
  {
    var f, s := StreamFetchDesc(error).fields, StreamFetchWriter().steps;
    PartitionMatches(error);
    hide Matches;
    assert MatchesFrom(f.tail.tail, 2, s.tail.tail, true, error, 11);
    assert MatchesFrom(f.tail, 1, s.tail, true, error, 11);
    KindStruct(StreamFetchDesc(error), StreamFetchWriter(), error, 11);
  }

  lemma {:induction false} SyncMatches(error: Desc)
    ensures Matches(SyncDesc(error), SyncWriter(), error, 0)
  {
    PeerMatches(error);
    TopicMatches(Struct(PeerPartitionFields(error)), WriteSteps(PeerPartitionSteps()), error, 0);
    hide Matches;
    KindStruct(SyncDesc(error), SyncWriter(), error, 0);
  }

  lemma {:induction false} HomeMirrorMatches(error: Desc)
    ensures Matches(HomeMirrorDesc(), HomeMirrorWriter(), error, 0)
  {
    MirrorMatches(error);
    hide Matches;
    KindStruct(HomeMirrorDesc(), HomeMirrorWriter(), error, 0);
  }

  lemma {:induction false} KindMatches(kind: Kind, error: Desc)
    ensures Matches(DescOf(kind, error), WriterOf(kind), error, LastJoin(kind))
  {
    hide Matches;
    match kind
    case Fetch => FetchMatches(error);
    case StreamFetch => StreamFetchMatches(error);
    case Sync => SyncMatches(error);
    case Mirror => MirrorMatches(error);
    case HomeMirror => HomeMirrorMatches(error);
  }

  lemma {:induction false} KindStruct(d: Desc, w: Writer, error: Desc, last: int)
    requires w.WriteSteps? && d.Struct? && MatchesFrom(d.fields, 0, w.steps, true, error, last)
    ensures Matches(d, w, error, last)
  {
    hide MatchesFrom;
  }

  // Each of them is sent as its derived encoding behind a right length, at every version from 0 on.
  lemma {:induction false} SentIsPlain(
    kind: Kind, error: Desc, head: seq<Byte>, c: Content, version: int, file: seq<Byte>)
    requires Sendable(DescOf(kind, error), WriterOf(kind), c, version, file, |head|) && version >= 0
    ensures var d := DescOf(kind, error);
            var sent := Framed(head, d, WriterOf(kind), c, version, version, file);
            PrefixRight(sent) && sent[4..] == head + Encode(d, Read(c, file), version)
  {
    hide DescOf, WriterOf, Framed, Encode, PrefixRight, Matches;
    KindMatches(kind, error);
    MatchesFollows(DescOf(kind, error), WriterOf(kind), error, LastJoin(kind));
    CompleteIsPlain(head, DescOf(kind, error), WriterOf(kind), c, version, file);
  }

  // Below version 0 they differ: the derived code skips every field, file_encode does not.
  lemma {:induction false} NegativeVersionDiffers(kind: Kind, error: Desc, c: Content, version: int, file: seq<Byte>)
    requires Carries(DescOf(kind, error), c, file) && Suits(DescOf(kind, error), WriterOf(kind), c)
    requires version < 0
    ensures var d := DescOf(kind, error);
            Encode(d, Read(c, file), version) == [] && Written(d, WriterOf(kind), c, version, file) != []
  {
    hide Typed, Placed, Suits, Written, Proper, Matches;
    var d, w := DescOf(kind, error), WriterOf(kind);
    KindWrites(kind, error);
    hide DescOf, WriterOf;
    KindMatches(kind, error);
    WritesSomething(d, w, c, version, file);
    KindDead(d, w, error, LastJoin(kind), Read(c, file), version);
  }

  lemma {:induction false} KindWrites(kind: Kind, error: Desc)
    ensures DescOf(kind, error).Struct? && WriterOf(kind).WriteSteps? && Writes(DescOf(kind, error), WriterOf(kind))
  {
  }

  lemma {:induction false} KindDead(d: Desc, w: Writer, error: Desc, last: int, x: Value, version: int)
    requires Proper(d) && Typed(d, x) && Matches(d, w, error, last) && d.Struct? && w.WriteSteps? && version < 0
    ensures Encode(d, x, version) == []
  {
    hide MatchesFrom, BuiltFields, ProperFields, TypedFields, EncodeFields;
    StepsBuilt(d.fields, 0, w.steps, error, last);
    DeadBelowZero(d.fields, x.fields, error, last, version);
  }

  // The receiver gets the value that was sent, records included: all of it from version 11 on, and
  // its live fields at every version from 0 on.
  lemma {:induction false} ReceiverDecodes(
    kind: Kind, error: Desc, head: seq<Byte>, c: Content, version: int, file: seq<Byte>)
    requires Tidy(error) && version >= 0
    requires Sendable(DescOf(kind, error), WriterOf(kind), c, version, file, |head|)
    requires Fits(DescOf(kind, error), Read(c, file), version)
    ensures Tidy(DescOf(kind, error))
    ensures var d := DescOf(kind, error);
            var body := Framed(head, d, WriterOf(kind), c, version, version, file)[4 + |head|..];
            && Decode(d, DefaultOf(d), body, version) == Ok((Merge(d, DefaultOf(d), Read(c, file), version), []))
            && (version >= LastJoin(kind) && AllLive(error, version) ==>
                  Decode(d, DefaultOf(d), body, version) == Ok((Read(c, file), [])))
  {
    hide DescOf, WriterOf, Framed, Encode, PrefixRight, Decode, Merge, Fits, AllLive, Suits, Placed, Typed, Proper;
    hide Matches, Built, LastJoin;
    var d, x, last := DescOf(kind, error), Read(c, file), LastJoin(kind);
    KindMatches(kind, error);
    MatchesBuilt(d, WriterOf(kind), error, last);
    BuiltTidy(d, error, last);
    SentIsPlain(kind, error, head, c, version, file);
    PrefixReads(head, d, WriterOf(kind), c, version, version, file);
    var sent := Framed(head, d, WriterOf(kind), c, version, version, file);
    var body := sent[4 + |head|..];
    assert body == sent[4..][|head|..] == Encode(d, x, version);
    assert Encode(d, x, version) + [] == Encode(d, x, version);
    DecodeEncode(d, DefaultOf(d), x, version, []);
    if version >= last && AllLive(error, version) {
      BuiltLive(d, error, last, version);
      FullRoundTrip(d, x, version, []);
    }
  }

  // Requests for replication and mirroring, in both directions, carry the right length whatever the
  // two versions are.
  lemma {:induction false} RequestPrefixAnyVersions(
    kind: Kind, error: Desc, head: seq<Byte>, c: Content, apiVersion: int, version: int, file: seq<Byte>)
    requires IsRequest(kind) && Steady(error) && apiVersion >= 0 && version >= 0
    requires Sendable(DescOf(kind, error), WriterOf(kind), c, apiVersion, file, |head|)
    ensures PrefixRight(Framed(head, DescOf(kind, error), WriterOf(kind), c, apiVersion, version, file))
  {
    hide DescOf, WriterOf, Framed, PrefixRight, Suits, Placed, Typed, Proper, Matches, Built, Steady, WriteSize;
    hide Encode, Follows, Complete;
    var d, w, x := DescOf(kind, error), WriterOf(kind), Read(c, file);
    KindMatches(kind, error);
    MatchesFollows(d, w, error, 0);
    MatchesBuilt(d, w, error, 0);
    BuiltSteady(d, error);
    SteadySize(d, x, apiVersion, version);
    PrefixReads(head, d, w, c, apiVersion, version, file);
    WriterDifference(d, w, c, version, file);
    WriteSizeIsLength(d, x, version);
  }

  // ----- the produce request -----

  lemma {:induction false} ProduceMatches(smartModule: Desc)
    ensures MatchesFrom(ProduceFields(smartModule), 0, ProduceSteps(), false, Blob, 0)
  {
    var f, s := ProduceFields(smartModule), ProduceSteps();
    var pf, ps := ProducePartitionFields(), ProducePartitionSteps();
    assert MatchesFrom(pf.tail, 1, ps.tail, true, Blob, 0);
    assert MatchesFrom(pf, 0, ps, true, Blob, 0);
    TopicMatches(Struct(pf), WriteSteps(ps), Blob, 0);
    hide Matches;
    assert MatchesFrom(f.tail.tail.tail, 3, s.tail.tail.tail, false, Blob, 0);
    assert MatchesFrom(f.tail.tail, 2, s.tail.tail, false, Blob, 0);
    assert MatchesFrom(f.tail, 1, s.tail, false, Blob, 0);
  }

  lemma {:induction false} ProduceLengths(smartModule: Desc)
    ensures Length(ProduceFields(smartModule)) == 5 && Length(ProduceSteps()) == 4
    ensures At(ProduceFields(smartModule), 4) == Always(Vec(smartModule))
  {
    var f := ProduceFields(smartModule);
    assert Length(f.tail.tail.tail.tail) == 1;
    assert Length(f.tail.tail.tail) == 2;
    assert Length(f.tail.tail) == 3;
    assert Length(ProduceSteps().tail.tail) == 2;
    assert At(f.tail.tail, 2) == At(f.tail.tail.tail, 1);
    assert At(f.tail, 3) == At(f.tail.tail, 2);
  }

  lemma {:induction false} ProduceFollows(smartModule: Desc)
    ensures Follows(Struct(ProduceFields(smartModule)), WriteSteps(ProduceSteps()))
  {
    hide MatchesFrom, FollowsFrom;
    ProduceMatches(smartModule);
    StepsFollow(ProduceFields(smartModule), 0, ProduceSteps(), false, Blob, 0);
  }

  // What is left out of a produce request are its encoded smart modules.
  lemma {:induction false} ProduceMissing(smartModule: Desc, c: Content, version: int, file: seq<Byte>)
    requires version >= 0 && Follows(Struct(ProduceFields(smartModule)), WriteSteps(ProduceSteps()))
    requires Carries(Struct(ProduceFields(smartModule)), c, file)
    requires Suits(Struct(ProduceFields(smartModule)), WriteSteps(ProduceSteps()), c)
    ensures Length(c.fields) == 5 && Carries(Vec(smartModule), At(c.fields, 4), file)
    ensures Missing(Struct(ProduceFields(smartModule)), WriteSteps(ProduceSteps()), c, version, file) ==
            WriteSize(Vec(smartModule), Read(At(c.fields, 4), file), version)
  {
    hide MatchesFrom, FollowsFrom, SuitsSteps, ProduceFields, ProduceSteps, MissingFrom, WriteSize;
    var fields, steps := ProduceFields(smartModule), ProduceSteps();
    ProduceMatches(smartModule);
    ProduceLengths(smartModule);
    TypedFieldsLength(fields, ReadAll(c.fields, file));
    LeadMissing(fields, 0, steps, c.fields, Blob, 0, version, file);
    ProduceRest(smartModule, c, version, file);
  }

  // The fields behind the steps are the smart modules.
  lemma {:induction false} ProduceRest(smartModule: Desc, c: Content, version: int, file: seq<Byte>)
    requires version >= 0 && Carries(Struct(ProduceFields(smartModule)), c, file) && c.Fields?
    ensures Length(c.fields) == Length(ProduceFields(smartModule)) == 5
    ensures Carries(Vec(smartModule), At(c.fields, 4), file)
    ensures var rest, xs := Drop(ProduceFields(smartModule), 4), Drop(ReadAll(c.fields, file), 4);
            && ProperFields(rest) && TypedFields(rest, xs)
            && FieldsSize(rest, xs, version, false) == WriteSize(Vec(smartModule), Read(At(c.fields, 4), file), version)
  {
    hide ProduceFields, WriteSize;
    var fields := ProduceFields(smartModule);
    ProduceLengths(smartModule);
    TypedFieldsLength(fields, ReadAll(c.fields, file));
    RestUnfolds(fields, c.fields, 4, version, file);
    DropAll(fields);
    DropAll(ReadAll(c.fields, file));
  }

  // Whatever version the length is taken at, it exceeds what follows it by the smart modules as they
  // are encoded at that version, at least the four bytes of their number, so it is never right.
  lemma {:induction false} ProduceRequestPrefixWrong(
    smartModule: Desc, head: seq<Byte>, c: Content, apiVersion: int, version: int, file: seq<Byte>)
    requires apiVersion >= 0 && version >= 0
    requires Sendable(Struct(ProduceFields(smartModule)), WriteSteps(ProduceSteps()), c, apiVersion, file, |head|)
    ensures Length(c.fields) == 5 && Carries(Vec(smartModule), At(c.fields, 4), file)
    ensures var d, w := Struct(ProduceFields(smartModule)), WriteSteps(ProduceSteps());
            && WriteSize(d, Read(c, file), apiVersion) ==
                 |Written(d, w, c, version, file)|
                 + WriteSize(Vec(smartModule), Read(At(c.fields, 4), file), apiVersion)
            && !PrefixRight(Framed(head, d, w, c, apiVersion, version, file))
  {
    var d, w := Struct(ProduceFields(smartModule)), WriteSteps(ProduceSteps());
    assert c.Fields?;
    hide ProduceFields, ProduceSteps, Framed, PrefixRight, Missing, Follows, Suits, Proper, Typed, Written;
    ProduceFollows(smartModule);
    ProduceMissing(smartModule, c, version, file);
    WriterDifference(d, w, c, version, file);
    ProduceSizes(smartModule, c, apiVersion, version, file);
    PrefixReads(head, d, w, c, apiVersion, version, file);
  }

  lemma {:induction false} StructSize(fields: List<Field>, xs: List<Value>, version: int)
    requires ProperFields(fields) && TypedFields(fields, xs)
    ensures WriteSize(Struct(fields), VStruct(xs), version) == FieldsSize(fields, xs, version, false)
    ensures Drop(fields, 0) == fields && Drop(xs, 0) == xs
  {
  }

  // Without its smart modules a produce request has the same size at all versions.
  lemma {:induction false} ProduceSizes(smartModule: Desc, c: Content, early: int, late: int, file: seq<Byte>)
    requires early >= 0 && late >= 0 && Carries(Struct(ProduceFields(smartModule)), c, file) && c.Fields?
    ensures Length(c.fields) == 5 && Carries(Vec(smartModule), At(c.fields, 4), file)
    ensures var d, x := Struct(ProduceFields(smartModule)), Read(c, file);
            var modules := Read(At(c.fields, 4), file);
            WriteSize(d, x, early) - WriteSize(Vec(smartModule), modules, early) ==
            WriteSize(d, x, late) - WriteSize(Vec(smartModule), modules, late)
  {
    hide ProduceFields, ProduceSteps, MatchesFrom, WriteSize, FieldsSize, ProperFields, TypedFields, PlacedAll, ReadAll;
    var fields, steps := ProduceFields(smartModule), ProduceSteps();
    StructSize(fields, ReadAll(c.fields, file), early);
    StructSize(fields, ReadAll(c.fields, file), late);
    ProduceMatches(smartModule);
    ProduceLengths(smartModule);
    TypedFieldsLength(fields, ReadAll(c.fields, file));
    LeadSteady(fields, 0, steps, c.fields, Blob, early, late, file);
    ProduceRest(smartModule, c, early, file);
    ProduceRest(smartModule, c, late, file);
  }
}
