/**
 Zero-copy encoding: `file_encode` (fluvio-protocol, store.rs; fluvio-spu-schema, file.rs) splits a
 message into byte chunks and file slices, and the sink (fluvio-socket, sink.rs) writes them out.
 */
module ZeroCopy {
  import opened Wrappers
  import opened Bytes
  import opened Codec
  import opened CodecLaws
  import opened CodecVersions
  import opened FileWriters

  datatype StoreValue = Chunk(bytes: seq<Byte>) | FileSlice(slice: Slice)

  // Store values one after another, slices read from the file.
  function Flatten(values: seq<StoreValue>, file: seq<Byte>): seq<Byte>
    requires InFile(values, file)
  {
    if values == [] then []
    else
      var n := |values| - 1;
      Flatten(values[..n], file) + Whole(values[n], file)
  }

  function Whole(v: StoreValue, file: seq<Byte>): seq<Byte>
    requires v.FileSlice? ==> v.slice.position + v.slice.len <= |file|
  {
    match v
    case Chunk(bytes) => bytes
    case FileSlice(slice) => file[slice.position..slice.position + slice.len]
  }

  function SlicesIn(values: seq<StoreValue>): seq<Slice> {
    if values == [] then []
    else
      var n := |values| - 1;
      SlicesIn(values[..n]) + if values[n].FileSlice? then [values[n].slice] else []
  }

  lemma {:induction false} SlicesSnoc(values: seq<StoreValue>, v: StoreValue)
    ensures SlicesIn(values + [v]) == SlicesIn(values) + if v.FileSlice? then [v.slice] else []
  {
    assert (values + [v])[..|values|] == values;
  }

  predicate InFile(values: seq<StoreValue>, file: seq<Byte>) {
    forall i :: 0 <= i < |values| && values[i].FileSlice? ==>
      values[i].slice.position + values[i].slice.len <= |file|
  }

  lemma {:induction false} FlattenSnoc(values: seq<StoreValue>, v: StoreValue, file: seq<Byte>)
    requires InFile(values, file) && (v.FileSlice? ==> v.slice.position + v.slice.len <= |file|)
    ensures InFile(values + [v], file)
    ensures Flatten(values + [v], file) == Flatten(values, file) + Whole(v, file)
  {
    assert (values + [v])[..|values|] == values;
  }

  lemma {:induction false} Regrouped<T>(a: seq<T>, b: seq<T>, c: seq<T>)
    ensures (a + b) + c == a + (b + c)
  {
  }

  /** The buffer and the list of store values that file_encode fills. */
  class Output {
    const file: seq<Byte>
    var buffer: seq<Byte>
    var data: seq<StoreValue>

    ghost predicate Valid()
      reads this
    {
      InFile(data, file)
    }

    // The bytes in the order they will be sent.
    ghost function Bytes(): seq<Byte>
      reads this
      requires Valid()
    {
      Flatten(data, file) + buffer
    }

    // The slices among the store values.
    ghost function Slices(): seq<Slice>
      reads this
    {
      SlicesIn(data)
    }

    constructor (file: seq<Byte>)
      ensures Valid() && this.file == file && Bytes() == [] && Slices() == []
    {
      this.file := file;
      buffer, data := [], [];
    }

    method Put(bytes: seq<Byte>)
      requires Valid()
      modifies this
      ensures Valid() && Bytes() == old(Bytes()) + bytes && Slices() == old(Slices())
    {
      Regrouped(Flatten(data, file), buffer, bytes);
      buffer := buffer + bytes;
    }

    // FileRecordSet::file_encode: length, then the buffer so far becomes a chunk before the slice.
    method PutSlice(slice: Slice)
      requires Valid() && slice.position + slice.len <= |file|
      modifies this
      ensures Valid()
      ensures Bytes() == old(Bytes()) + BigEndian(slice.len, 4) + file[slice.position..slice.position + slice.len]
      ensures Slices() == old(Slices()) + [slice]
    {
      Put(BigEndian(slice.len, 4));
      ghost var values := data;
      var bytes := buffer;
      buffer := [];
      FlattenSnoc(values, Chunk(bytes), file);
      FlattenSnoc(values + [Chunk(bytes)], FileSlice(slice), file);
      SlicesSnoc(values, Chunk(bytes));
      SlicesSnoc(values + [Chunk(bytes)], FileSlice(slice));
      data := data + [Chunk(bytes)];
      data := data + [FileSlice(slice)];
      assert data == values + [Chunk(bytes)] + [FileSlice(slice)];
    }

    // file_encode of a message: exactly the bytes of its writer, with its record sets as slices.
    method FileEncode(d: Desc, w: Writer, c: Content, version: int)
      requires Valid() && Carries(d, c, file) && Suits(d, w, c)
      modifies this
      ensures Valid() && Bytes() == old(Bytes()) + Written(d, w, c, version, file)
      ensures Slices() == old(Slices()) + WrittenSlices(d, w, c)
      decreases w, 0
    {
      hide Flatten, InFile, SlicesIn, BigEndian, WrittenItems, WrittenSteps, SlicesOfItems, SlicesOfSteps;
      ghost var b := Bytes();
      match w
      case WriteSlice =>
        PutSlice(c.slice);
        Regrouped(b, BigEndian(c.slice.len, 4), file[c.slice.position..c.slice.position + c.slice.len]);
      case WriteEach(elem) =>
        Put(BigEndian(Length(c.items), 4));
        EncodeEach(d.elem, elem, c.items, version);
        Regrouped(b, BigEndian(Length(c.items), 4), WrittenItems(d.elem, elem, c.items, version, file));
      case WriteSteps(steps) => EncodeSteps(d.fields, steps, c.fields, version);
    }

    // Vec::file_encode after its length
    method EncodeEach(elem: Desc, w: Writer, cs: List<Content>, version: int)
      requires Valid() && CarriesItems(elem, cs, file) && SuitsItems(elem, w, cs)
      modifies this
      ensures Valid() && Bytes() == old(Bytes()) + WrittenItems(elem, w, cs, version, file)
      ensures Slices() == old(Slices()) + SlicesOfItems(elem, w, cs)
      decreases w, 1
    {
      hide Suits, Written, Flatten, InFile, WrittenSlices, SlicesIn, Proper, Typed, Placed;
      var rest := cs;
      ghost var all := Bytes() + WrittenItems(elem, w, cs, version, file);
      ghost var slices := Slices() + SlicesOfItems(elem, w, cs);
      while rest.Cons?
        invariant Valid() && CarriesItems(elem, rest, file) && SuitsItems(elem, w, rest)
        invariant Bytes() + WrittenItems(elem, w, rest, version, file) == all
        invariant Slices() + SlicesOfItems(elem, w, rest) == slices
        decreases rest
      {
        Regrouped(Bytes(), Written(elem, w, rest.head, version, file), WrittenItems(elem, w, rest.tail, version, file));
        Regrouped(Slices(), WrittenSlices(elem, w, rest.head), SlicesOfItems(elem, w, rest.tail));
        FileEncode(elem, w, rest.head, version);
        rest := rest.tail;
      }
    }

    // The statements of a hand-written file_encode.
    method EncodeSteps(fields: List<Field>, steps: List<Step>, cs: List<Content>, version: int)
      requires Valid() && CarriesFields(fields, cs, file) && SuitsSteps(fields, steps, cs)
      modifies this
      ensures Valid() && Bytes() == old(Bytes()) + WrittenSteps(fields, steps, cs, version, file)
      ensures Slices() == old(Slices()) + SlicesOfSteps(fields, steps, cs)
      decreases steps, 0
    {
      hide Flatten, InFile, SlicesIn, WrittenStep, SlicesOfStep, SuitsStep, CarriesFields;
      match steps
      case Nil =>
        assert old(Bytes()) + [] == old(Bytes()) && old(Slices()) + [] == old(Slices());
      case Cons(s, tail) =>
        ghost var b, slices := Bytes(), Slices();
        EncodeStep(fields, s, cs, version);
        EncodeSteps(fields, tail, cs, version);
        Regrouped(b, WrittenStep(fields, s, cs, version, file), WrittenSteps(fields, tail, cs, version, file));
        Regrouped(slices, SlicesOfStep(fields, s, cs), SlicesOfSteps(fields, tail, cs));
    }

    method EncodeStep(fields: List<Field>, s: Step, cs: List<Content>, version: int)
      requires Valid() && CarriesFields(fields, cs, file) && SuitsStep(fields, s, cs)
      modifies this
      ensures Valid() && Bytes() == old(Bytes()) + WrittenStep(fields, s, cs, version, file)
      ensures Slices() == old(Slices()) + SlicesOfStep(fields, s, cs)
      decreases s, 0
    {
      hide Flatten, InFile, SlicesIn, Written, WrittenSlices, Encode, CarriesFields, Suits;
      CarriedAt(fields, cs, s.field, file);
      match s
      case Copy(i, since) =>
        if since.None? || version >= since.value {
          Put(Encode(At(fields, i).desc, At(cs, i).value, version));
        } else {
          assert old(Bytes()) + [] == old(Bytes());
        }
        assert old(Slices()) + [] == old(Slices());
      case Pass(i, w) => FileEncode(At(fields, i).desc, w, At(cs, i), version);
    }
  }

  // ----- messages -----

  // A message with its writer, whose size at a version leaves room in the i32 length.
  predicate Sendable(d: Desc, w: Writer, c: Content, sizeVersion: int, file: seq<Byte>, head: nat) {
    && Carries(d, c, file) && Suits(d, w, c)
    && head + WriteSize(d, Read(c, file), sizeVersion) < 0x8000_0000
  }

  lemma {:induction false} LengthInRange(len: nat)
    requires len < 0x8000_0000
    ensures InRange(len, true, 4)
  {
    Pow256Values();
  }

  // Length prefix, header bytes and what file_encode writes; the length is taken at one version and
  // the body is written at another.
  function Framed(
    head: seq<Byte>, d: Desc, w: Writer, c: Content, sizeVersion: int, version: int, file: seq<Byte>): seq<Byte>
    requires Sendable(d, w, c, sizeVersion, file, |head|)
  {
    LengthInRange(|head| + WriteSize(d, Read(c, file), sizeVersion));
    EncodeInt(|head| + WriteSize(d, Read(c, file), sizeVersion), true, 4) + (head + Written(d, w, c, version, file))
  }

  method PutHead(out: Output, prefix: seq<Byte>, head: seq<Byte>)
    requires out.Valid()
    modifies out
    ensures out.Valid()
    ensures out.Bytes() == old(out.Bytes()) + prefix + head && out.Slices() == old(out.Slices())
  {
    hide Flatten, SlicesIn, InFile;
    out.Put(prefix);
    out.Put(head);
  }

  lemma {:induction false} FrameRegrouped(start: seq<Byte>, prefix: seq<Byte>, head: seq<Byte>, body: seq<Byte>)
    ensures start + prefix + head + body == start + (prefix + (head + body))
  {
    Regrouped(start + prefix, head, body);
    Regrouped(start, prefix, head + body);
  }

  method EncodeFramed(
    out: Output, head: seq<Byte>, d: Desc, w: Writer, c: Content, sizeVersion: int, version: int)
    requires out.Valid() && Sendable(d, w, c, sizeVersion, out.file, |head|)
    modifies out
    ensures out.Valid()
    ensures out.Bytes() == old(out.Bytes()) + Framed(head, d, w, c, sizeVersion, version, out.file)
    ensures out.Slices() == old(out.Slices()) + WrittenSlices(d, w, c)
  {
    hide Proper, Typed, Placed, Suits, WriteSize, Written, WrittenSlices, Flatten, SlicesIn, EncodeInt, InFile;
    ghost var start := out.Bytes();
    var len := |head| + WriteSize(d, Read(c, out.file), sizeVersion);
    LengthInRange(len);
    PutHead(out, EncodeInt(len, true, 4), head);
    out.FileEncode(d, w, c, version);
    FrameRegrouped(start, EncodeInt(len, true, 4), head, Written(d, w, c, version, out.file));
  }

  // The reader of the prefix finds it right.
  predicate PrefixRight(sent: seq<Byte>) {
    |sent| >= 4 && DecodeInt(sent, true, 4) == Ok((|sent| - 4, sent[4..]))
  }

  lemma {:induction false} PrefixReads(
    head: seq<Byte>, d: Desc, w: Writer, c: Content, sizeVersion: int, version: int, file: seq<Byte>)
    requires Sendable(d, w, c, sizeVersion, file, |head|)
    ensures var sent := Framed(head, d, w, c, sizeVersion, version, file);
            && |sent| >= 4 && sent[4..] == head + Written(d, w, c, version, file)
            && (PrefixRight(sent) <==> WriteSize(d, Read(c, file), sizeVersion) == |Written(d, w, c, version, file)|)
  {
    hide Proper, Typed, Placed, Suits, WriteSize, Written, BigEndian, FromBigEndian;
    var len := |head| + WriteSize(d, Read(c, file), sizeVersion);
    LengthInRange(len);
    var body := head + Written(d, w, c, version, file);
    var sent := Framed(head, d, w, c, sizeVersion, version, file);
    assert sent == EncodeInt(len, true, 4) + body && sent[4..] == body;
    IntRoundTrip(len, true, 4, body);
  }

  // ResponseMessage::file_encode: the prefix counts the bytes after it if and only if file_encode
  // leaves nothing out that takes bytes.
  lemma {:induction false} ResponsePrefixIff(
    head: seq<Byte>, d: Desc, w: Writer, c: Content, version: int, file: seq<Byte>)
    requires Sendable(d, w, c, version, file, |head|) && Follows(d, w) && version >= 0
    ensures PrefixRight(Framed(head, d, w, c, version, version, file)) <==> Missing(d, w, c, version, file) == 0
  {
    hide Proper, Typed, Placed, Suits, WriteSize, Written, Missing, Framed, PrefixRight;
    PrefixReads(head, d, w, c, version, version, file);
    WriterDifference(d, w, c, version, file);
  }

  // A message whose file_encode leaves nothing out is its derived encoding behind a right prefix.
  lemma {:induction false} CompleteIsPlain(
    head: seq<Byte>, d: Desc, w: Writer, c: Content, version: int, file: seq<Byte>)
    requires Sendable(d, w, c, version, file, |head|) && Follows(d, w) && Complete(d, w) && version >= 0
    ensures var sent := Framed(head, d, w, c, version, version, file);
            PrefixRight(sent) && sent[4..] == head + Encode(d, Read(c, file), version)
  {
    hide Proper, Typed, Placed, Suits, WriteSize, Written, Missing, Framed, PrefixRight, Encode;
    PrefixReads(head, d, w, c, version, version, file);
    WriterDifference(d, w, c, version, file);
    WriteSizeIsLength(d, Read(c, file), version);
  }

  // RequestMessage::file_encode takes the length at the API version in the header: of a request whose
  // fields only ever join, the prefix is right if and only if no field that is live at only one of the
  // two versions takes bytes.
  lemma {:induction false} RequestPrefixIff(
    head: seq<Byte>, d: Desc, w: Writer, c: Content, apiVersion: int, version: int, file: seq<Byte>)
    requires Sendable(d, w, c, apiVersion, file, |head|) && Follows(d, w) && Complete(d, w) && OnlyJoins(d)
    requires version >= 0
    ensures PrefixRight(Framed(head, d, w, c, apiVersion, version, file)) <==>
            if apiVersion <= version then Unchanged(d, Read(c, file), apiVersion, version)
            else Unchanged(d, Read(c, file), version, apiVersion)
  {
    hide Suits, WriteSize, Written, Missing, Framed, PrefixRight, Encode, Unchanged, OnlyJoins, Proper, Typed, Placed;
    PrefixReads(head, d, w, c, apiVersion, version, file);
    WriterDifference(d, w, c, version, file);
    WriteSizeIsLength(d, Read(c, file), version);
    if apiVersion <= version {
      SizeGrows(d, Read(c, file), apiVersion, version);
    } else {
      SizeGrows(d, Read(c, file), version, apiVersion);
    }
  }

  // ----- the sink -----

  // What reaches the wire when the i-th value's read returned moved(i) bytes; zero copy and pread
  // both report how much they moved, and empty slices are skipped.
  function Delivered(values: seq<StoreValue>, file: seq<Byte>, moved: nat -> nat): seq<Byte>
    requires InFile(values, file)
  {
    if values == [] then []
    else
      var n := |values| - 1;
      Delivered(values[..n], file, moved) + DeliveredOne(values[n], file, moved(n))
  }

  function DeliveredOne(v: StoreValue, file: seq<Byte>, read: nat): seq<Byte>
    requires v.FileSlice? ==> v.slice.position + v.slice.len <= |file|
  {
    match v
    case Chunk(bytes) => bytes
    case FileSlice(slice) => file[slice.position..slice.position + if read < slice.len then read else slice.len]
  }

  // write_store_values: the returned count is the number of bytes put on the wire.
  method WriteStoreValues(values: seq<StoreValue>, file: seq<Byte>, moved: nat -> nat)
    returns (wire: seq<Byte>, total: nat)
    requires InFile(values, file)
    ensures wire == Delivered(values, file, moved) && total == |wire|
  {
    wire, total := [], 0;
    for i := 0 to |values|
      invariant wire == Delivered(values[..i], file, moved) && total == |wire|
    {
      assert values[..i + 1][..i] == values[..i];
      match values[i]
      case Chunk(bytes) =>
        wire := wire + bytes;
        total := total + |bytes|;
      case FileSlice(slice) =>
        if slice.len != 0 {
          var bytes := DeliveredOne(values[i], file, moved(i));
          wire := wire + bytes;
          total := total + |bytes|;
        }
    }
    assert values[..|values|] == values;
  }

  predicate CompleteReads(values: seq<StoreValue>, moved: nat -> nat) {
    forall i :: 0 <= i < |values| && values[i].FileSlice? ==> moved(i) >= values[i].slice.len
  }

  lemma {:induction false} DeliveredOneIff(v: StoreValue, file: seq<Byte>, read: nat)
    requires v.FileSlice? ==> v.slice.position + v.slice.len <= |file|
    ensures |DeliveredOne(v, file, read)| <= |Whole(v, file)|
    ensures v.FileSlice? ==> (read < v.slice.len <==> |DeliveredOne(v, file, read)| < |Whole(v, file)|)
    ensures (v.Chunk? || read >= v.slice.len) ==> DeliveredOne(v, file, read) == Whole(v, file)
  {
  }

  // The wire carries the whole message if and only if every slice was read completely.
  lemma {:induction false} DeliveredIff(values: seq<StoreValue>, file: seq<Byte>, moved: nat -> nat)
    requires InFile(values, file)
    ensures |Delivered(values, file, moved)| <= |Flatten(values, file)|
    ensures Delivered(values, file, moved) == Flatten(values, file) <==> CompleteReads(values, moved)
    ensures !CompleteReads(values, moved) ==> |Delivered(values, file, moved)| < |Flatten(values, file)|
  {
    if values != [] {
      var n := |values| - 1;
      var front, last := values[..n], values[n];
      assert Delivered(values, file, moved) == Delivered(front, file, moved) + DeliveredOne(last, file, moved(n));
      DeliveredIff(front, file, moved);
      DeliveredOneIff(last, file, moved(n));
      assert front + [last] == values;
      FlattenSnoc(front, last, file);
      hide Flatten, DeliveredOne, Delivered, Whole;
      CompleteSplit(values, moved);
      SameLengths(Delivered(front, file, moved), DeliveredOne(last, file, moved(n)),
                  Flatten(front, file), Whole(last, file));
    }
  }

  lemma {:induction false} CompleteSplit(values: seq<StoreValue>, moved: nat -> nat)
    requires values != []
    ensures var n := |values| - 1;
            CompleteReads(values, moved) <==>
            CompleteReads(values[..n], moved) && (values[n].FileSlice? ==> moved(n) >= values[n].slice.len)
  {
  }

  lemma {:induction false} SameLengths(a: seq<Byte>, b: seq<Byte>, c: seq<Byte>, d: seq<Byte>)
    requires |a| <= |c| && |b| <= |d|
    ensures a + b == c + d ==> |a| == |c| && |b| == |d| && a == c && b == d
  {
    if a + b == c + d {
      assert |a + b| == |c + d|;
      assert (a + b)[..|a|] == a && (c + d)[..|c|] == c;
      assert (a + b)[|a|..] == b && (c + d)[|c|..] == d;
    }
  }

  // encode_file_slices, end to end.
  method Send(
    head: seq<Byte>, d: Desc, w: Writer, c: Content, sizeVersion: int, version: int, file: seq<Byte>, moved: nat -> nat)
    returns (wire: seq<Byte>, total: nat)
    requires Sendable(d, w, c, sizeVersion, file, |head|)
    ensures total == |wire| <= |Framed(head, d, w, c, sizeVersion, version, file)|
    ensures (forall i: nat :: moved(i) >= |file|) ==> wire == Framed(head, d, w, c, sizeVersion, version, file)
  {
    hide Sendable, Framed, Carries, Suits, WrittenSlices;
    var out := new Output(file);
    EncodeFramed(out, head, d, w, c, sizeVersion, version);
    var values := out.data + [Chunk(out.buffer)];
    FlattenSnoc(out.data, Chunk(out.buffer), file);
    wire, total := WriteStoreValues(values, file, moved);
    DeliveredIff(values, file, moved);
    ghost var sent := Framed(head, d, w, c, sizeVersion, version, file);
    assert [] + sent == sent;
  }
}
