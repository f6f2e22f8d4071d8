/**
 Hand-written `file_encode` implementations (fluvio-spu-schema and fluvio-spu) against the derived
 codec.  A message is a value whose record sets are slices of a file.  What its file_encode does is a
 list of steps of its own, with its own version tests.
 */
module FileWriters {
  import opened Wrappers
  import opened Bytes
  import opened Codec
  import opened CodecLaws

  datatype Slice = Slice(position: nat, len: nat)

  // ----- messages -----

  /** A value with file slices for its record sets. */
  datatype Content =
    | Plain(value: Value)
    | Records(slice: Slice)
    | Many(items: List<Content>)
    | Fields(fields: List<Content>)

  predicate Placed(c: Content, file: seq<Byte>) {
    match c
    case Plain(_) => true
    case Records(slice) => slice.position + slice.len <= |file|
    case Many(items) => PlacedAll(items, file)
    case Fields(fields) => PlacedAll(fields, file)
  }

  predicate PlacedAll(cs: List<Content>, file: seq<Byte>) {
    match cs
    case Nil => true
    case Cons(c, tail) => Placed(c, file) && PlacedAll(tail, file)
  }

  // The value with the slices read from the file.
  function Read(c: Content, file: seq<Byte>): Value
    requires Placed(c, file)
  {
    match c
    case Plain(value) => value
    case Records(slice) => VBlob(file[slice.position..slice.position + slice.len])
    case Many(items) => VVec(ReadAll(items, file))
    case Fields(fields) => VStruct(ReadAll(fields, file))
  }

  function ReadAll(cs: List<Content>, file: seq<Byte>): (r: List<Value>)
    requires PlacedAll(cs, file)
    ensures Length(r) == Length(cs)
  {
    match cs
    case Nil => Nil
    case Cons(c, tail) => Cons(Read(c, file), ReadAll(tail, file))
  }

  // A message of a type; its record sets are described as bytes.
  predicate Carries(d: Desc, c: Content, file: seq<Byte>) {
    Proper(d) && Placed(c, file) && Typed(d, Read(c, file))
  }

  predicate CarriesItems(elem: Desc, cs: List<Content>, file: seq<Byte>) {
    Proper(elem) && PlacedAll(cs, file) && TypedItems(elem, ReadAll(cs, file))
  }

  predicate CarriesFields(fields: List<Field>, cs: List<Content>, file: seq<Byte>) {
    ProperFields(fields) && PlacedAll(cs, file) && TypedFields(fields, ReadAll(cs, file))
  }

  lemma {:induction false} ReadAt(cs: List<Content>, i: nat, file: seq<Byte>)
    requires PlacedAll(cs, file) && i < Length(cs)
    ensures Placed(At(cs, i), file) && At(ReadAll(cs, file), i) == Read(At(cs, i), file)
  {
    if i > 0 {
      ReadAt(cs.tail, i - 1, file);
    }
  }

  lemma {:induction false} ProperAt(fields: List<Field>, i: nat)
    requires ProperFields(fields) && i < Length(fields)
    ensures ProperField(At(fields, i)) && Proper(At(fields, i).desc)
  {
    if i > 0 {
      ProperAt(fields.tail, i - 1);
    }
  }

  lemma {:induction false} CarriedAt(fields: List<Field>, cs: List<Content>, i: nat, file: seq<Byte>)
    requires CarriesFields(fields, cs, file) && i < Length(fields)
    ensures Length(cs) == Length(fields) && ProperField(At(fields, i))
    ensures Carries(At(fields, i).desc, At(cs, i), file)
    ensures At(ReadAll(cs, file), i) == Read(At(cs, i), file)
  {
    TypedFieldAt(fields, ReadAll(cs, file), i);
    ProperAt(fields, i);
    ReadAt(cs, i, file);
  }

  // ----- file_encode -----

  /** What the file_encode of a type does: a record set, a vector, or a struct step by step. */
  datatype Writer = WriteSlice | WriteEach(elem: Writer) | WriteSteps(steps: List<Step>)

  /** Encoding a field, under a version test or none, or calling its file_encode. */
  datatype Step = Copy(field: nat, since: Option<int>) | Pass(field: nat, writer: Writer)

  // The writer is one for this type of message.
  predicate Suits(d: Desc, w: Writer, c: Content)
    decreases w, 0
  {
    match w
    case WriteSlice => d == Blob && c.Records?
    case WriteEach(elem) => d.Vec? && c.Many? && SuitsItems(d.elem, elem, c.items)
    case WriteSteps(steps) => d.Struct? && c.Fields? && SuitsSteps(d.fields, steps, c.fields)
  }

  predicate SuitsItems(elem: Desc, w: Writer, cs: List<Content>)
    decreases w, 1, cs
  {
    match cs
    case Nil => true
    case Cons(c, tail) => Suits(elem, w, c) && SuitsItems(elem, w, tail)
  }

  predicate SuitsSteps(fields: List<Field>, steps: List<Step>, cs: List<Content>)
    decreases steps, 0
  {
    match steps
    case Nil => true
    case Cons(s, tail) => SuitsStep(fields, s, cs) && SuitsSteps(fields, tail, cs)
  }

  predicate SuitsStep(fields: List<Field>, s: Step, cs: List<Content>)
    decreases s, 0
  {
    && s.field < Length(fields) && s.field < Length(cs)
    && match s
       case Copy(i, _) => At(cs, i).Plain?
       case Pass(i, w) => Suits(At(fields, i).desc, w, At(cs, i))
  }

  // The bytes it puts out, slices read from the file.
  function Written(d: Desc, w: Writer, c: Content, version: int, file: seq<Byte>): seq<Byte>
    requires Carries(d, c, file) && Suits(d, w, c)
    decreases w, 0
  {
    match w
    case WriteSlice => BigEndian(c.slice.len, 4) + file[c.slice.position..c.slice.position + c.slice.len]
    case WriteEach(elem) => BigEndian(Length(c.items), 4) + WrittenItems(d.elem, elem, c.items, version, file)
    case WriteSteps(steps) => WrittenSteps(d.fields, steps, c.fields, version, file)
  }

  function WrittenItems(elem: Desc, w: Writer, cs: List<Content>, version: int, file: seq<Byte>): seq<Byte>
    requires CarriesItems(elem, cs, file) && SuitsItems(elem, w, cs)
    decreases w, 1, cs
  {
    match cs
    case Nil => []
    case Cons(c, tail) => Written(elem, w, c, version, file) + WrittenItems(elem, w, tail, version, file)
  }

  function WrittenSteps(fields: List<Field>, steps: List<Step>, cs: List<Content>, version: int, file: seq<Byte>)
    : seq<Byte>
    requires CarriesFields(fields, cs, file) && SuitsSteps(fields, steps, cs)
    decreases steps, 0
  {
    match steps
    case Nil => []
    case Cons(s, tail) => WrittenStep(fields, s, cs, version, file) + WrittenSteps(fields, tail, cs, version, file)
  }

  function WrittenStep(fields: List<Field>, s: Step, cs: List<Content>, version: int, file: seq<Byte>): seq<Byte>
    requires CarriesFields(fields, cs, file) && SuitsStep(fields, s, cs)
    decreases s, 0
  {
    CarriedAt(fields, cs, s.field, file);
    match s
    case Copy(i, since) =>
      if since.Some? && version < since.value then [] else Encode(At(fields, i).desc, At(cs, i).value, version)
    case Pass(i, w) => Written(At(fields, i).desc, w, At(cs, i), version, file)
  }

  // The slices it passes on without copying.
  function WrittenSlices(d: Desc, w: Writer, c: Content): seq<Slice>
    requires Suits(d, w, c)
    decreases w, 0
  {
    match w
    case WriteSlice => [c.slice]
    case WriteEach(elem) => SlicesOfItems(d.elem, elem, c.items)
    case WriteSteps(steps) => SlicesOfSteps(d.fields, steps, c.fields)
  }

  function SlicesOfItems(elem: Desc, w: Writer, cs: List<Content>): seq<Slice>
    requires SuitsItems(elem, w, cs)
    decreases w, 1, cs
  {
    match cs
    case Nil => []
    case Cons(c, tail) => WrittenSlices(elem, w, c) + SlicesOfItems(elem, w, tail)
  }

  function SlicesOfSteps(fields: List<Field>, steps: List<Step>, cs: List<Content>): seq<Slice>
    requires SuitsSteps(fields, steps, cs)
    decreases steps, 0
  {
    match steps
    case Nil => []
    case Cons(s, tail) => SlicesOfStep(fields, s, cs) + SlicesOfSteps(fields, tail, cs)
  }

  function SlicesOfStep(fields: List<Field>, s: Step, cs: List<Content>): seq<Slice>
    requires SuitsStep(fields, s, cs)
    decreases s, 0
  {
    match s
    case Copy(_, _) => []
    case Pass(i, w) => WrittenSlices(At(fields, i).desc, w, At(cs, i))
  }

  // ----- agreement with the derived codec -----

  // The steps treat the fields in order, each under the test that is derived for it, and may leave
  // fields out.  A field without attributes is tested for version 0 by the derived code only.
  predicate Follows(d: Desc, w: Writer)
    decreases w, 0
  {
    match w
    case WriteSlice => d == Blob
    case WriteEach(elem) => d.Vec? && Follows(d.elem, elem)
    case WriteSteps(steps) => d.Struct? && FollowsFrom(d.fields, 0, steps)
  }

  predicate FollowsFrom(fields: List<Field>, i: nat, steps: List<Step>)
    decreases steps, Length(fields) - i
  {
    if i >= Length(fields) then steps.Nil?
    else if steps.Cons? && steps.head.field == i then
      Agrees(At(fields, i), steps.head) && FollowsFrom(fields, i + 1, steps.tail)
    else FollowsFrom(fields, i + 1, steps)
  }

  // A step without a test stands for version 0.
  function FirstVersion(since: Option<int>): int {
    if since.Some? then since.value else 0
  }

  predicate Agrees(f: Field, s: Step)
    decreases s, 0
  {
    && !f.varint && f.maxVersion.None?
    && match s
       case Copy(_, since) => f.minVersion == FirstVersion(since)
       case Pass(_, w) => f.minVersion == 0 && Follows(f.desc, w)
  }

  // No field is left out.
  predicate Complete(d: Desc, w: Writer)
    decreases w, 0
  {
    match w
    case WriteSlice => true
    case WriteEach(elem) => d.Vec? && Complete(d.elem, elem)
    case WriteSteps(steps) => d.Struct? && CompleteFrom(d.fields, 0, steps)
  }

  predicate CompleteFrom(fields: List<Field>, i: nat, steps: List<Step>)
    decreases steps, Length(fields) - i
  {
    i < Length(fields) ==>
      && steps.Cons? && steps.head.field == i
      && CompleteStep(At(fields, i), steps.head)
      && CompleteFrom(fields, i + 1, steps.tail)
  }

  predicate CompleteStep(f: Field, s: Step)
    decreases s, 0
  {
    s.Pass? ==> Complete(f.desc, s.writer)
  }

  // Bytes that write_size counts and file_encode leaves out.
  function Missing(d: Desc, w: Writer, c: Content, version: int, file: seq<Byte>): nat
    requires Carries(d, c, file) && Suits(d, w, c) && Follows(d, w)
    decreases w, 0
  {
    match w
    case WriteSlice => 0
    case WriteEach(elem) => MissingItems(d.elem, elem, c.items, version, file)
    case WriteSteps(steps) => MissingFrom(d.fields, 0, steps, c.fields, version, file)
  }

  function MissingItems(elem: Desc, w: Writer, cs: List<Content>, version: int, file: seq<Byte>): nat
    requires CarriesItems(elem, cs, file) && SuitsItems(elem, w, cs) && Follows(elem, w)
    decreases w, 1, cs
  {
    match cs
    case Nil => 0
    case Cons(c, tail) => Missing(elem, w, c, version, file) + MissingItems(elem, w, tail, version, file)
  }

  function MissingFrom(
    fields: List<Field>, i: nat, steps: List<Step>, cs: List<Content>, version: int, file: seq<Byte>): nat
    requires CarriesFields(fields, cs, file) && SuitsSteps(fields, steps, cs) && FollowsFrom(fields, i, steps)
    decreases steps, Length(fields) - i
  {
    if i >= Length(fields) then 0
    else
      CarriedAt(fields, cs, i, file);
      if steps.Cons? && steps.head.field == i then
        MissingStep(fields, steps.head, cs, version, file)
        + MissingFrom(fields, i + 1, steps.tail, cs, version, file)
      else
        FieldSize(At(fields, i), Read(At(cs, i), file), version, false)
        + MissingFrom(fields, i + 1, steps, cs, version, file)
  }

  function MissingStep(fields: List<Field>, s: Step, cs: List<Content>, version: int, file: seq<Byte>): nat
    requires CarriesFields(fields, cs, file) && SuitsStep(fields, s, cs) && Agrees(At(fields, s.field), s)
    decreases s, 0
  {
    CarriedAt(fields, cs, s.field, file);
    match s
    case Copy(_, _) => 0
    case Pass(i, w) => Missing(At(fields, i).desc, w, At(cs, i), version, file)
  }

  // ----- the remaining fields -----

  lemma {:induction false} DropAt<T>(xs: List<T>, i: nat)
    requires i < Length(xs)
    ensures Drop(xs, i) == Cons(At(xs, i), Drop(xs, i + 1))
  {
    if i > 0 {
      DropAt(xs.tail, i - 1);
    }
  }

  lemma {:induction false} DropAll<T>(xs: List<T>)
    ensures Drop(xs, Length(xs)) == Nil
  {
    if xs.Cons? {
      DropAll(xs.tail);
    }
  }

  lemma {:induction false} DropCarried(fields: List<Field>, xs: List<Value>, i: nat)
    requires ProperFields(fields) && TypedFields(fields, xs) && i <= Length(fields)
    ensures Length(xs) == Length(fields) && ProperFields(Drop(fields, i)) && TypedFields(Drop(fields, i), Drop(xs, i))
  {
    TypedFieldsLength(fields, xs);
    if i > 0 {
      DropCarried(fields.tail, xs.tail, i - 1);
    }
  }

  // One field of the rest.
  lemma {:induction false} RestUnfolds(fields: List<Field>, cs: List<Content>, i: nat, version: int, file: seq<Byte>)
    requires CarriesFields(fields, cs, file) && i < Length(fields)
    ensures Length(cs) == Length(fields) && Carries(At(fields, i).desc, At(cs, i), file) && ProperField(At(fields, i))
    ensures var xs := ReadAll(cs, file);
            && ProperFields(Drop(fields, i)) && TypedFields(Drop(fields, i), Drop(xs, i))
            && ProperFields(Drop(fields, i + 1)) && TypedFields(Drop(fields, i + 1), Drop(xs, i + 1))
            && EncodeFields(Drop(fields, i), Drop(xs, i), version, false) ==
                 EncodeField(At(fields, i), Read(At(cs, i), file), version, false)
                 + EncodeFields(Drop(fields, i + 1), Drop(xs, i + 1), version, false)
            && FieldsSize(Drop(fields, i), Drop(xs, i), version, false) ==
                 FieldSize(At(fields, i), Read(At(cs, i), file), version, false)
                 + FieldsSize(Drop(fields, i + 1), Drop(xs, i + 1), version, false)
  {
    hide Encode, WriteSize, Proper, Typed;
    CarriedAt(fields, cs, i, file);
    var xs := ReadAll(cs, file);
    DropCarried(fields, xs, i);
    DropCarried(fields, xs, i + 1);
    DropAt(fields, i);
    DropAt(xs, i);
  }

  lemma {:induction false} RestCarried(fields: List<Field>, cs: List<Content>, i: nat, file: seq<Byte>)
    requires CarriesFields(fields, cs, file) && i <= Length(fields)
    ensures PlacedAll(cs, file) && Length(cs) == Length(fields)
    ensures ProperFields(Drop(fields, i)) && TypedFields(Drop(fields, i), Drop(ReadAll(cs, file), i))
  {
    DropCarried(fields, ReadAll(cs, file), i);
  }

  // ----- the laws -----

  // What file_encode writes and what it leaves out add up to write_size, and with nothing left out it
  // writes the derived encoding.
  lemma {:induction false} WriterDifference(d: Desc, w: Writer, c: Content, version: int, file: seq<Byte>)
    requires Carries(d, c, file) && Suits(d, w, c) && Follows(d, w) && version >= 0
    ensures |Written(d, w, c, version, file)| + Missing(d, w, c, version, file) ==
            WriteSize(d, Read(c, file), version)
    ensures Complete(d, w) ==> Written(d, w, c, version, file) == Encode(d, Read(c, file), version)
    decreases w, 0
  {
    match w
    case WriteSlice =>
    case WriteEach(elem) => ItemsDifference(d.elem, elem, c.items, version, file);
    case WriteSteps(steps) =>
      TypedFieldsLength(d.fields, ReadAll(c.fields, file));
      StepsDifference(d.fields, 0, steps, c.fields, version, file);
  }

  lemma {:induction false} ItemsDifference(elem: Desc, w: Writer, cs: List<Content>, version: int, file: seq<Byte>)
    requires CarriesItems(elem, cs, file) && SuitsItems(elem, w, cs) && Follows(elem, w) && version >= 0
    ensures |WrittenItems(elem, w, cs, version, file)| + MissingItems(elem, w, cs, version, file) ==
            ItemsSize(elem, ReadAll(cs, file), version)
    ensures Complete(elem, w) ==>
            WrittenItems(elem, w, cs, version, file) == EncodeItems(elem, ReadAll(cs, file), version)
    decreases w, 1, cs
  {
    hide Written, Missing, Encode, WriteSize, Follows, Complete, Suits;
    if cs.Cons? {
      ItemsSplit(elem, w, cs, version, file);
      hide WrittenItems, MissingItems, ItemsSize, EncodeItems, ReadAll, CarriesItems, Carries, Proper;
      WriterDifference(elem, w, cs.head, version, file);
      ItemsDifference(elem, w, cs.tail, version, file);
    }
  }

  // The first item and the others.
  lemma {:induction false} ItemsSplit(elem: Desc, w: Writer, cs: List<Content>, version: int, file: seq<Byte>)
    requires CarriesItems(elem, cs, file) && SuitsItems(elem, w, cs) && Follows(elem, w) && cs.Cons?
    ensures Carries(elem, cs.head, file) && Suits(elem, w, cs.head)
    ensures CarriesItems(elem, cs.tail, file) && SuitsItems(elem, w, cs.tail)
    ensures WrittenItems(elem, w, cs, version, file) ==
            Written(elem, w, cs.head, version, file) + WrittenItems(elem, w, cs.tail, version, file)
    ensures MissingItems(elem, w, cs, version, file) ==
            Missing(elem, w, cs.head, version, file) + MissingItems(elem, w, cs.tail, version, file)
    ensures var x, xs := Read(cs.head, file), ReadAll(cs.tail, file);
            && ItemsSize(elem, ReadAll(cs, file), version) ==
                 WriteSize(elem, x, version) + ItemsSize(elem, xs, version)
            && EncodeItems(elem, ReadAll(cs, file), version) ==
                 Encode(elem, x, version) + EncodeItems(elem, xs, version)
  {
    hide Written, Missing, Encode, WriteSize, Follows, Suits, Proper, Typed;
  }

  lemma {:induction false} StepsDifference(
    fields: List<Field>, i: nat, steps: List<Step>, cs: List<Content>, version: int, file: seq<Byte>)
    requires i <= Length(fields) == Length(cs) && CarriesFields(fields, cs, file)
    requires SuitsSteps(fields, steps, cs) && FollowsFrom(fields, i, steps) && version >= 0
    ensures ProperFields(Drop(fields, i)) && TypedFields(Drop(fields, i), Drop(ReadAll(cs, file), i))
    ensures |WrittenSteps(fields, steps, cs, version, file)| + MissingFrom(fields, i, steps, cs, version, file) ==
            FieldsSize(Drop(fields, i), Drop(ReadAll(cs, file), i), version, false)
    ensures CompleteFrom(fields, i, steps) ==>
            WrittenSteps(fields, steps, cs, version, file) ==
            EncodeFields(Drop(fields, i), Drop(ReadAll(cs, file), i), version, false)
    decreases steps, Length(fields) - i
  {
    hide WrittenStep, MissingStep, EncodeField, FieldSize, Agrees, SuitsStep, CompleteStep, Drop, CarriesFields;
    RestCarried(fields, cs, i, file);
    if i == Length(fields) {
      DropAll(fields);
      DropAll(ReadAll(cs, file));
    } else {
      RestUnfolds(fields, cs, i, version, file);
      if steps.Cons? && steps.head.field == i {
        StepDifference(fields, steps.head, cs, version, file);
        StepsDifference(fields, i + 1, steps.tail, cs, version, file);
      } else {
        StepsDifference(fields, i + 1, steps, cs, version, file);
      }
    }
  }

  lemma {:induction false} StepDifference(
    fields: List<Field>, s: Step, cs: List<Content>, version: int, file: seq<Byte>)
    requires CarriesFields(fields, cs, file) && SuitsStep(fields, s, cs)
    requires Agrees(At(fields, s.field), s) && version >= 0
    ensures Carries(At(fields, s.field).desc, At(cs, s.field), file) && ProperField(At(fields, s.field))
    ensures |WrittenStep(fields, s, cs, version, file)| + MissingStep(fields, s, cs, version, file) ==
            FieldSize(At(fields, s.field), Read(At(cs, s.field), file), version, false)
    ensures CompleteStep(At(fields, s.field), s) ==>
            WrittenStep(fields, s, cs, version, file) ==
            EncodeField(At(fields, s.field), Read(At(cs, s.field), file), version, false)
    decreases s, 0
  {
    hide Written, Missing, Encode, WriteSize, Complete, Suits, Follows, CarriesFields;
    CarriedAt(fields, cs, s.field, file);
    var f, c := At(fields, s.field), At(cs, s.field);
    match s
    case Copy(i, since) =>
      WriteSizeIsLength(f.desc, c.value, version);
    case Pass(i, w) =>
      WriterDifference(f.desc, w, c, version, file);
  }
}
