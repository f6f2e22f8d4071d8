/**
 What the generated codec promises: for every description, value and version, decoding what was
 encoded restores the fields live at that version, keeps the others, and consumes exactly the
 encoded bytes, and it does so exactly for the values that fit their length fields.
 */
module CodecLaws {
  import opened Wrappers
  import opened Bytes
  import opened Varint
  import opened Codec

  // ----- what fits the wire -----

  // Strings are written with a u16 length but read with an i16 one, vectors with u32 and i32,
  // varints survive in 32 bits only, and an enum arm is reachable only through the first use of its tag.
  predicate Fits(d: Desc, x: Value, version: int)
    requires Proper(d) && Typed(d, x)
    decreases d, 0
  {
    match d
    case Str => |x.s| < 0x8000
    case Blob => |x.bytes| < 0x8000_0000
    case Vec(elem) => Length(x.items) < 0x8000_0000 && FitsItems(elem, x.items, version)
    case Opt(inner) => x.content.Some? ==> Fits(inner, x.content.value, version)
    case Struct(fields) => FitsFields(fields, x.fields, version, false)
    case Enum(signed, width, variants, _) => FitsVariant(variants, x.index, x.payload, signed, width, version)
    case _ => true
  }

  predicate FitsItems(elem: Desc, items: List<Value>, version: int)
    requires Proper(elem) && TypedItems(elem, items)
    decreases elem, 1, items
  {
    match items
    case Nil => true
    case Cons(x, tail) => Fits(elem, x, version) && FitsItems(elem, tail, version)
  }

  predicate FitsFields(fields: List<Field>, xs: List<Value>, version: int, inVariant: bool)
    requires ProperFields(fields) && TypedFields(fields, xs)
    decreases fields, 0
  {
    match fields
    case Nil => true
    case Cons(f, tail) => FitsField(f, xs.head, version, inVariant) && FitsFields(tail, xs.tail, version, inVariant)
  }

  predicate FitsField(f: Field, x: Value, version: int, inVariant: bool)
    requires ProperField(f) && Typed(f.desc, x)
    decreases f, 0
  {
    if UsesVarint(f, inVariant) then IsI32(x.n)
    else Live(f, version, inVariant) ==> Fits(f.desc, x, version)
  }

  predicate FitsVariant(variants: List<Variant>, i: nat, xs: List<Value>, signed: bool, width: nat, version: int)
    requires ProperVariants(variants, signed, width) && TypedVariant(variants, i, xs)
    decreases variants, 0
  {
    if i == 0 then FitsFields(variants.head.fields, xs, version, true)
    else
      && variants.head.tag != TagAt(variants, i, xs)
      && FitsVariant(variants.tail, i - 1, xs, signed, width, version)
  }

  function TagAt(variants: List<Variant>, i: nat, xs: List<Value>): int
    requires TypedVariant(variants, i, xs)
  {
    if i == 0 then variants.head.tag else TagAt(variants.tail, i - 1, xs)
  }

  // ----- what decoding leaves in self -----

  function Merge(d: Desc, prior: Value, x: Value, version: int): Value
    requires Proper(d) && Typed(d, prior) && Typed(d, x)
    decreases d, 0
  {
    match d
    case Str => if x.s == [] then prior else x
    case Blob => VBlob(prior.bytes + x.bytes)
    case Vec(elem) => VVec(Append(prior.items, MergeItems(elem, x.items, version)))
    case Opt(inner) =>
      (match x.content
       case None => x
       case Some(y) => VOpt(Some(Merge(inner, DefaultOf(inner), y, version))))
    case Struct(fields) => VStruct(MergeFields(fields, prior.fields, x.fields, version, false))
    case Enum(signed, width, variants, _) =>
      VEnum(x.index, MergeVariant(variants, x.index, x.payload, signed, width, version))
    case _ => x
  }

  function MergeItems(elem: Desc, items: List<Value>, version: int): (r: List<Value>)
    requires Proper(elem) && Typed(elem, DefaultOf(elem)) && TypedItems(elem, items)
    ensures Length(r) == Length(items)
    decreases elem, 1, items
  {
    match items
    case Nil => Nil
    case Cons(x, tail) => Cons(Merge(elem, DefaultOf(elem), x, version), MergeItems(elem, tail, version))
  }

  function MergeFields(
    fields: List<Field>, priors: List<Value>, xs: List<Value>, version: int, inVariant: bool): List<Value>
    requires ProperFields(fields) && TypedFields(fields, priors) && TypedFields(fields, xs)
    decreases fields, 0
  {
    match fields
    case Nil => Nil
    case Cons(f, tail) =>
      Cons(MergeField(f, priors.head, xs.head, version, inVariant),
           MergeFields(tail, priors.tail, xs.tail, version, inVariant))
  }

  function MergeField(f: Field, prior: Value, x: Value, version: int, inVariant: bool): Value
    requires ProperField(f) && Typed(f.desc, prior) && Typed(f.desc, x)
    decreases f, 0
  {
    if UsesVarint(f, inVariant) then x
    else if Live(f, version, inVariant) then Merge(f.desc, prior, x, version)
    else prior
  }

  function MergeVariant(
    variants: List<Variant>, i: nat, xs: List<Value>, signed: bool, width: nat, version: int): List<Value>
    requires ProperVariants(variants, signed, width) && TypedVariant(variants, i, xs)
    decreases variants, 0
  {
    if i == 0 then
      TypedInitials(variants.head.fields);
      MergeFields(variants.head.fields, Initials(variants.head.fields), xs, version, true)
    else
      MergeVariant(variants.tail, i - 1, xs, signed, width, version)
  }

  // ----- decoding an encoding -----

  lemma {:induction false} DecodeEncode(d: Desc, prior: Value, x: Value, version: int, rest: seq<Byte>)
    requires Proper(d) && Typed(d, prior) && Typed(d, x) && Fits(d, x, version)
    ensures Decode(d, prior, Encode(d, x, version) + rest, version) == Ok((Merge(d, prior, x, version), rest))
    decreases d, 0
  {
    var src := Encode(d, x, version) + rest;
    match d
    case Bool => assert src[1..] == rest;
    case Int(signed, width) => IntRoundTrip(x.n, signed, width, rest);
    case Str => StrRoundTrip(prior, x, version, rest);
    case Blob => BlobRoundTrip(prior, x, version, rest);
    case Vec(elem) =>
      DecodeEncodeItems(elem, x.items, version, rest);
      VecRoundTrip(elem, prior, x, version, rest);
    case Opt(inner) =>
      if x.content.Some? {
        assert src[1..] == Encode(inner, x.content.value, version) + rest;
        DecodeEncode(inner, DefaultOf(inner), x.content.value, version, rest);
      } else {
        assert src[1..] == rest;
      }
    case Struct(fields) => DecodeEncodeFields(fields, prior.fields, x.fields, version, false, rest);
    case Enum(signed, width, variants, _) =>
      DecodeEncodeVariant(variants, x.index, x.payload, signed, width, version, rest);
  }

  lemma {:induction false} StrRoundTrip(prior: Value, x: Value, version: int, rest: seq<Byte>)
    requires prior.VStr? && x.VStr? && |x.s| < 0x8000
    ensures Decode(Str, prior, Encode(Str, x, version) + rest, version) == Ok((Merge(Str, prior, x, version), rest))
  {
    LengthRoundTrip(|x.s|, 2, x.s + rest);
    assert Encode(Str, x, version) + rest == BigEndian(|x.s|, 2) + (x.s + rest);
  }

  lemma {:induction false} BlobRoundTrip(prior: Value, x: Value, version: int, rest: seq<Byte>)
    requires prior.VBlob? && x.VBlob? && |x.bytes| < 0x8000_0000
    ensures Decode(Blob, prior, Encode(Blob, x, version) + rest, version) == Ok((Merge(Blob, prior, x, version), rest))
  {
    hide BigEndian, FromBigEndian;
    LengthRoundTrip(|x.bytes|, 4, x.bytes + rest);
    assert Encode(Blob, x, version) + rest == BigEndian(|x.bytes|, 4) + (x.bytes + rest);
    assert prior.bytes + [] == prior.bytes;
  }

  lemma {:induction false} VecRoundTrip(elem: Desc, prior: Value, x: Value, version: int, rest: seq<Byte>)
    requires Proper(Vec(elem)) && Typed(Vec(elem), prior) && Typed(Vec(elem), x)
    requires Length(x.items) < 0x8000_0000
    requires DecodeItems(elem, Length(x.items), EncodeItems(elem, x.items, version) + rest, version)
          == Ok((MergeItems(elem, x.items, version), rest))
    ensures Decode(Vec(elem), prior, Encode(Vec(elem), x, version) + rest, version)
         == Ok((Merge(Vec(elem), prior, x, version), rest))
  {
    hide EncodeItems, DecodeItems, MergeItems, TypedItems, BigEndian, FromBigEndian;
    var len := Length(x.items);
    var after := EncodeItems(elem, x.items, version) + rest;
    LengthRoundTrip(len, 4, after);
    assert Encode(Vec(elem), x, version) + rest == BigEndian(len, 4) + after;
    AppendNil(prior.items);
    NoItems(elem, version);
  }

  lemma {:induction false} NoItems(elem: Desc, version: int)
    requires Proper(elem) && Typed(elem, DefaultOf(elem))
    ensures EncodeItems(elem, Nil, version) == [] && MergeItems(elem, Nil, version) == Nil
  {
  }

  lemma {:induction false} LengthRoundTrip(len: nat, width: nat, rest: seq<Byte>)
    requires (width == 2 && len < 0x8000) || (width == 4 && len < 0x8000_0000)
    ensures DecodeInt(BigEndian(len, width) + rest, true, width) == Ok((len, rest))
  {
    Pow256Values();
    IntRoundTrip(len, true, width, rest);
  }

  lemma {:induction false} AppendNil<T>(xs: List<T>)
    ensures Append(xs, Nil) == xs
  {
    if xs.Cons? { AppendNil(xs.tail); }
  }

  lemma {:induction false} DecodeEncodeItems(elem: Desc, items: List<Value>, version: int, rest: seq<Byte>)
    requires Proper(elem) && Typed(elem, DefaultOf(elem)) && TypedItems(elem, items) && FitsItems(elem, items, version)
    ensures DecodeItems(elem, Length(items), EncodeItems(elem, items, version) + rest, version)
         == Ok((MergeItems(elem, items, version), rest))
    decreases elem, 1, items
  {
    hide Encode, Decode, Merge, Fits, Proper, Typed, DefaultOf;
    match items
    case Nil => assert EncodeItems(elem, items, version) + rest == rest;
    case Cons(x, tail) =>
      var after := EncodeItems(elem, tail, version) + rest;
      assert EncodeItems(elem, items, version) + rest == Encode(elem, x, version) + after;
      DecodeEncode(elem, DefaultOf(elem), x, version, after);
      DecodeEncodeItems(elem, tail, version, rest);
  }

  lemma {:induction false} DecodeEncodeFields(
    fields: List<Field>, priors: List<Value>, xs: List<Value>, version: int, inVariant: bool, rest: seq<Byte>)
    requires ProperFields(fields) && TypedFields(fields, priors) && TypedFields(fields, xs)
    requires FitsFields(fields, xs, version, inVariant)
    ensures DecodeFields(fields, priors, EncodeFields(fields, xs, version, inVariant) + rest, version, inVariant)
         == Ok((MergeFields(fields, priors, xs, version, inVariant), rest))
    decreases fields, 0
  {
    match fields
    case Nil => assert EncodeFields(fields, xs, version, inVariant) + rest == rest;
    case Cons(f, tail) =>
      var after := EncodeFields(tail, xs.tail, version, inVariant) + rest;
      assert EncodeFields(fields, xs, version, inVariant) + rest
          == EncodeField(f, xs.head, version, inVariant) + after;
      DecodeEncodeField(f, priors.head, xs.head, version, inVariant, after);
      DecodeEncodeFields(tail, priors.tail, xs.tail, version, inVariant, rest);
  }

  lemma {:induction false} DecodeEncodeField(
    f: Field, prior: Value, x: Value, version: int, inVariant: bool, rest: seq<Byte>)
    requires ProperField(f) && Typed(f.desc, prior) && Typed(f.desc, x) && FitsField(f, x, version, inVariant)
    ensures DecodeField(f, prior, EncodeField(f, x, version, inVariant) + rest, version, inVariant)
         == Ok((MergeField(f, prior, x, version, inVariant), rest))
    decreases f, 0
  {
    if UsesVarint(f, inVariant) {
      VarintSmall(x.n, rest);
    } else if Live(f, version, inVariant) {
      DecodeEncode(f.desc, prior, x, version, rest);
    } else {
      assert EncodeField(f, x, version, inVariant) + rest == rest;
    }
  }

  lemma {:induction false} DecodeEncodeVariant(
    variants: List<Variant>, i: nat, xs: List<Value>, signed: bool, width: nat, version: int, rest: seq<Byte>)
    requires width > 0 && ProperVariants(variants, signed, width) && TypedVariant(variants, i, xs)
    requires FitsVariant(variants, i, xs, signed, width, version)
    ensures var tag := TagAt(variants, i, xs);
            var src := EncodeVariant(variants, i, xs, signed, width, version) + rest;
            var head := DecodeInt(src, signed, width);
            && head.Ok? && head.value.0 == tag
            && DecodeVariant(variants, tag, head.value.1, signed, width, version)
               == Ok((i, MergeVariant(variants, i, xs, signed, width, version), rest))
    decreases variants, 0
  {
    if i == 0 {
      var v := variants.head;
      var after := EncodeFields(v.fields, xs, version, true) + rest;
      assert EncodeVariant(variants, i, xs, signed, width, version) + rest == EncodeInt(v.tag, signed, width) + after;
      IntRoundTrip(v.tag, signed, width, after);
      TypedInitials(v.fields);
      DecodeEncodeFields(v.fields, Initials(v.fields), xs, version, true, rest);
    } else {
      DecodeEncodeVariant(variants.tail, i - 1, xs, signed, width, version, rest);
    }
  }

  // ----- write_size -----

  lemma {:induction false} WriteSizeIsLength(d: Desc, x: Value, version: int)
    requires Proper(d) && Typed(d, x)
    ensures WriteSize(d, x, version) == |Encode(d, x, version)|
    decreases d, 0
  {
    match d
    case Vec(elem) => ItemsSizeIsLength(elem, x.items, version);
    case Opt(inner) => if x.content.Some? { WriteSizeIsLength(inner, x.content.value, version); }
    case Struct(fields) => FieldsSizeIsLength(fields, x.fields, version, false);
    case Enum(signed, width, variants, _) => VariantSizeIsLength(variants, x.index, x.payload, signed, width, version);
    case _ =>
  }

  lemma {:induction false} ItemsSizeIsLength(elem: Desc, items: List<Value>, version: int)
    requires Proper(elem) && TypedItems(elem, items)
    ensures ItemsSize(elem, items, version) == |EncodeItems(elem, items, version)|
    decreases elem, 1, items
  {
    if items.Cons? {
      WriteSizeIsLength(elem, items.head, version);
      ItemsSizeIsLength(elem, items.tail, version);
    }
  }

  lemma {:induction false} FieldsSizeIsLength(fields: List<Field>, xs: List<Value>, version: int, inVariant: bool)
    requires ProperFields(fields) && TypedFields(fields, xs)
    ensures FieldsSize(fields, xs, version, inVariant) == |EncodeFields(fields, xs, version, inVariant)|
    decreases fields, 0
  {
    if fields.Cons? {
      WriteSizeIsLength(fields.head.desc, xs.head, version);
      FieldsSizeIsLength(fields.tail, xs.tail, version, inVariant);
    }
  }

  lemma {:induction false} VariantSizeIsLength(
    variants: List<Variant>, i: nat, xs: List<Value>, signed: bool, width: nat, version: int)
    requires ProperVariants(variants, signed, width) && TypedVariant(variants, i, xs)
    ensures VariantSizeOf(variants, i, xs, signed, width, version)
         == |EncodeVariant(variants, i, xs, signed, width, version)|
    decreases variants, 0
  {
    if i == 0 {
      FieldsSizeIsLength(variants.head.fields, xs, version, true);
    } else {
      VariantSizeIsLength(variants.tail, i - 1, xs, signed, width, version);
    }
  }

  // ----- the condition is exact -----

  // What a Default holds before decoding: no text and no elements where decoding would add to them.
  predicate Empty(d: Desc, prior: Value)
    requires Typed(d, prior)
    decreases d, 0
  {
    match d
    case Str => prior.s == []
    case Blob => prior.bytes == []
    case Vec(_) => prior.items == Nil
    case Struct(fields) => EmptyFields(fields, prior.fields)
    case _ => true
  }

  predicate EmptyFields(fields: List<Field>, priors: List<Value>)
    requires TypedFields(fields, priors)
    decreases fields, 0
  {
    match fields
    case Nil => true
    case Cons(f, tail) => Empty(f.desc, priors.head) && EmptyFields(tail, priors.tail)
  }

  // Every default the decoder creates on its way is empty.
  predicate Clean(d: Desc)
    requires Proper(d)
    decreases d
  {
    match d
    case Vec(elem) => Clean(elem) && Empty(elem, DefaultOf(elem))
    case Opt(inner) => Clean(inner) && Empty(inner, DefaultOf(inner))
    case Struct(fields) => CleanFields(fields)
    case Enum(signed, width, variants, _) => CleanVariants(variants, signed, width)
    case _ => true
  }

  predicate CleanFields(fields: List<Field>)
    requires ProperFields(fields)
    decreases fields
  {
    match fields
    case Nil => true
    case Cons(f, tail) =>
      assert ProperField(f);
      Clean(f.desc) && CleanFields(tail)
  }

  predicate CleanVariants(variants: List<Variant>, signed: bool, width: nat)
    requires ProperVariants(variants, signed, width)
    decreases variants
  {
    match variants
    case Nil => true
    case Cons(v, tail) =>
      TypedInitials(v.fields);
      CleanFields(v.fields) && EmptyFields(v.fields, Initials(v.fields)) && CleanVariants(tail, signed, width)
  }

  // Decoding into a default restores the value if and only if it fits.
  lemma {:induction false} DecodeEncodeIff(d: Desc, prior: Value, x: Value, version: int, rest: seq<Byte>)
    requires Proper(d) && Typed(d, prior) && Typed(d, x) && Clean(d) && Empty(d, prior)
    ensures Fits(d, x, version) <==>
            Decode(d, prior, Encode(d, x, version) + rest, version) == Ok((Merge(d, prior, x, version), rest))
  {
    if Fits(d, x, version) {
      DecodeEncode(d, prior, x, version, rest);
    } else {
      Misfit(d, prior, x, version, rest);
    }
  }

  lemma {:induction false} Misfit(d: Desc, prior: Value, x: Value, version: int, rest: seq<Byte>)
    requires Proper(d) && Typed(d, prior) && Typed(d, x) && Clean(d) && Empty(d, prior)
    requires !Fits(d, x, version)
    ensures var r := Decode(d, prior, Encode(d, x, version) + rest, version);
            r.Ok? ==> r.value.0 != Merge(d, prior, x, version)
    decreases d, 0
  {
    match d
    case Str => MisfitStr(prior, x, version, rest);
    case Blob => MisfitBlob(prior, x, version, rest);
    case Vec(elem) =>
      if Length(x.items) < 0x8000_0000 {
        MisfitItems(elem, x.items, version, rest);
      }
      MisfitVec(elem, prior, x, version, rest);
    case Opt(inner) =>
      assert (Encode(d, x, version) + rest)[1..] == Encode(inner, x.content.value, version) + rest;
      Misfit(inner, DefaultOf(inner), x.content.value, version, rest);
    case Struct(fields) => MisfitFields(fields, prior.fields, x.fields, version, false, rest);
    case Enum(signed, width, variants, _) =>
      MisfitVariant(variants, x.index, x.payload, signed, width, version, rest);
  }

  lemma {:induction false} MisfitStr(prior: Value, x: Value, version: int, rest: seq<Byte>)
    requires prior == VStr([]) && x.VStr? && |x.s| >= 0x8000
    ensures var r := Decode(Str, prior, Encode(Str, x, version) + rest, version);
            r.Ok? ==> r.value.0 != Merge(Str, prior, x, version)
  {
    Pow256Values();
  }

  lemma {:induction false} MisfitBlob(prior: Value, x: Value, version: int, rest: seq<Byte>)
    requires prior == VBlob([]) && x.VBlob? && |x.bytes| >= 0x8000_0000
    ensures var r := Decode(Blob, prior, Encode(Blob, x, version) + rest, version);
            r.Ok? ==> r.value.0 != Merge(Blob, prior, x, version)
  {
    Pow256Values();
    var r := Decode(Blob, prior, Encode(Blob, x, version) + rest, version);
    assert r.Ok? ==> |r.value.0.bytes| < 0x8000_0000;
  }

  // Either the count is read back wrong, or an item is.
  lemma {:induction false} MisfitVec(elem: Desc, prior: Value, x: Value, version: int, rest: seq<Byte>)
    requires Proper(Vec(elem)) && Typed(Vec(elem), x) && prior == VVec(Nil)
    requires var len := Length(x.items);
             len < 0x8000_0000 ==>
               var r := DecodeItems(elem, len, EncodeItems(elem, x.items, version) + rest, version);
               len > 0 && (r.Ok? ==> r.value.0 != MergeItems(elem, x.items, version))
    ensures var r := Decode(Vec(elem), prior, Encode(Vec(elem), x, version) + rest, version);
            r.Ok? ==> r.value.0 != Merge(Vec(elem), prior, x, version)
  {
    hide EncodeItems, DecodeItems, MergeItems, TypedItems, BigEndian, FromBigEndian;
    Pow256Values();
    var len := Length(x.items);
    if len < 0x8000_0000 {
      var after := EncodeItems(elem, x.items, version) + rest;
      LengthRoundTrip(len, 4, after);
      assert Encode(Vec(elem), x, version) + rest == BigEndian(len, 4) + after;
    }
  }

  lemma {:induction false} MisfitItems(elem: Desc, items: List<Value>, version: int, rest: seq<Byte>)
    requires Proper(elem) && Typed(elem, DefaultOf(elem)) && TypedItems(elem, items)
    requires Clean(elem) && Empty(elem, DefaultOf(elem)) && !FitsItems(elem, items, version)
    ensures items.Cons?
    ensures var r := DecodeItems(elem, Length(items), EncodeItems(elem, items, version) + rest, version);
            r.Ok? ==> r.value.0 != MergeItems(elem, items, version)
    decreases elem, 1, items
  {
    hide Encode, Decode, Merge, Fits, Clean, Empty, Proper, Typed, DefaultOf;
    var x, tail := items.head, items.tail;
    var after := EncodeItems(elem, tail, version) + rest;
    assert EncodeItems(elem, items, version) + rest == Encode(elem, x, version) + after;
    if Fits(elem, x, version) {
      DecodeEncode(elem, DefaultOf(elem), x, version, after);
      MisfitItems(elem, tail, version, rest);
    } else {
      Misfit(elem, DefaultOf(elem), x, version, after);
    }
  }

  lemma {:induction false} MisfitFields(
    fields: List<Field>, priors: List<Value>, xs: List<Value>, version: int, inVariant: bool, rest: seq<Byte>)
    requires ProperFields(fields) && TypedFields(fields, priors) && TypedFields(fields, xs)
    requires CleanFields(fields) && EmptyFields(fields, priors) && !FitsFields(fields, xs, version, inVariant)
    ensures var bytes := EncodeFields(fields, xs, version, inVariant) + rest;
            var r := DecodeFields(fields, priors, bytes, version, inVariant);
            r.Ok? ==> r.value.0 != MergeFields(fields, priors, xs, version, inVariant)
    decreases fields, 0
  {
    var f, tail := fields.head, fields.tail;
    var after := EncodeFields(tail, xs.tail, version, inVariant) + rest;
    assert EncodeFields(fields, xs, version, inVariant) + rest
        == EncodeField(f, xs.head, version, inVariant) + after;
    if FitsField(f, xs.head, version, inVariant) {
      DecodeEncodeField(f, priors.head, xs.head, version, inVariant, after);
      MisfitFields(tail, priors.tail, xs.tail, version, inVariant, rest);
    } else {
      MisfitField(f, priors.head, xs.head, version, inVariant, after);
    }
  }

  lemma {:induction false} MisfitField(f: Field, prior: Value, x: Value, version: int, inVariant: bool, rest: seq<Byte>)
    requires ProperField(f) && Typed(f.desc, prior) && Typed(f.desc, x)
    requires Clean(f.desc) && Empty(f.desc, prior) && !FitsField(f, x, version, inVariant)
    ensures var r := DecodeField(f, prior, EncodeField(f, x, version, inVariant) + rest, version, inVariant);
            r.Ok? ==> r.value.0 != MergeField(f, prior, x, version, inVariant)
    decreases f, 0
  {
    if UsesVarint(f, inVariant) {
      Pow256Values();
      if Groups(Mix(x.n)).Some? {
        UngroupGroups(Mix(x.n), rest);
        VarintLarge(x.n);
      } else {
        EndlessIsUnreachable(x.n, EncodeField(f, x, version, inVariant) + rest);
      }
    } else {
      Misfit(f.desc, prior, x, version, rest);
    }
  }

  lemma {:induction false} MisfitVariant(
    variants: List<Variant>, i: nat, xs: List<Value>, signed: bool, width: nat, version: int, rest: seq<Byte>)
    requires width > 0 && ProperVariants(variants, signed, width) && TypedVariant(variants, i, xs)
    requires CleanVariants(variants, signed, width) && !FitsVariant(variants, i, xs, signed, width, version)
    ensures var tag := TagAt(variants, i, xs);
            var src := EncodeVariant(variants, i, xs, signed, width, version) + rest;
            var head := DecodeInt(src, signed, width);
            && head.Ok? && head.value.0 == tag
            && var r := DecodeVariant(variants, tag, head.value.1, signed, width, version);
               (r.Ok? ==> r.value.0 != i || r.value.1 != MergeVariant(variants, i, xs, signed, width, version))
    decreases variants, 0
  {
    var v := variants.head;
    if i == 0 {
      var after := EncodeFields(v.fields, xs, version, true) + rest;
      assert EncodeVariant(variants, i, xs, signed, width, version) + rest == EncodeInt(v.tag, signed, width) + after;
      IntRoundTrip(v.tag, signed, width, after);
      TypedInitials(v.fields);
      MisfitFields(v.fields, Initials(v.fields), xs, version, true, rest);
    } else if FitsVariant(variants.tail, i - 1, xs, signed, width, version) {
      DecodeEncodeVariant(variants.tail, i - 1, xs, signed, width, version, rest);
    } else {
      MisfitVariant(variants.tail, i - 1, xs, signed, width, version, rest);
    }
  }

  // ----- when every field is live, the value itself comes back -----

  predicate AllLive(d: Desc, version: int)
    decreases d
  {
    match d
    case Vec(elem) => AllLive(elem, version)
    case Opt(inner) => AllLive(inner, version)
    case Struct(fields) => AllLiveFields(fields, version, false)
    case Enum(_, _, variants, _) => AllLiveVariants(variants, version)
    case _ => true
  }

  predicate AllLiveFields(fields: List<Field>, version: int, inVariant: bool)
    decreases fields
  {
    match fields
    case Nil => true
    case Cons(f, tail) =>
      Live(f, version, inVariant) && AllLive(f.desc, version) && AllLiveFields(tail, version, inVariant)
  }

  predicate AllLiveVariants(variants: List<Variant>, version: int)
    decreases variants
  {
    match variants
    case Nil => true
    case Cons(v, tail) => AllLiveFields(v.fields, version, true) && AllLiveVariants(tail, version)
  }

  lemma {:induction false} MergeIsValue(d: Desc, prior: Value, x: Value, version: int)
    requires Proper(d) && Typed(d, prior) && Typed(d, x)
    requires Clean(d) && Empty(d, prior) && AllLive(d, version)
    ensures Merge(d, prior, x, version) == x
    decreases d, 0
  {
    match d
    case Blob => assert [] + x.bytes == x.bytes;
    case Vec(elem) => MergeItemsIsValue(elem, x.items, version);
    case Opt(inner) => if x.content.Some? { MergeIsValue(inner, DefaultOf(inner), x.content.value, version); }
    case Struct(fields) => MergeFieldsIsValue(fields, prior.fields, x.fields, version, false);
    case Enum(signed, width, variants, _) => MergeVariantIsValue(variants, x.index, x.payload, signed, width, version);
    case _ =>
  }

  lemma {:induction false} MergeItemsIsValue(elem: Desc, items: List<Value>, version: int)
    requires Proper(elem) && Typed(elem, DefaultOf(elem)) && TypedItems(elem, items)
    requires Clean(elem) && Empty(elem, DefaultOf(elem)) && AllLive(elem, version)
    ensures MergeItems(elem, items, version) == items
    decreases elem, 1, items
  {
    if items.Cons? {
      MergeIsValue(elem, DefaultOf(elem), items.head, version);
      MergeItemsIsValue(elem, items.tail, version);
    }
  }

  lemma {:induction false} MergeFieldsIsValue(
    fields: List<Field>, priors: List<Value>, xs: List<Value>, version: int, inVariant: bool)
    requires ProperFields(fields) && TypedFields(fields, priors) && TypedFields(fields, xs)
    requires CleanFields(fields) && EmptyFields(fields, priors) && AllLiveFields(fields, version, inVariant)
    ensures MergeFields(fields, priors, xs, version, inVariant) == xs
    decreases fields, 0
  {
    if fields.Cons? {
      MergeIsValue(fields.head.desc, priors.head, xs.head, version);
      MergeFieldsIsValue(fields.tail, priors.tail, xs.tail, version, inVariant);
    }
  }

  lemma {:induction false} MergeVariantIsValue(
    variants: List<Variant>, i: nat, xs: List<Value>, signed: bool, width: nat, version: int)
    requires ProperVariants(variants, signed, width) && TypedVariant(variants, i, xs)
    requires CleanVariants(variants, signed, width) && AllLiveVariants(variants, version)
    ensures MergeVariant(variants, i, xs, signed, width, version) == xs
    decreases variants, 0
  {
    var v := variants.head;
    if i == 0 {
      TypedInitials(v.fields);
      MergeFieldsIsValue(v.fields, Initials(v.fields), xs, version, true);
    } else {
      MergeVariantIsValue(variants.tail, i - 1, xs, signed, width, version);
    }
  }

  // decode_from(encode(x)) == x when every field is live and the value fits.
  lemma {:induction false} FullRoundTrip(d: Desc, x: Value, version: int, rest: seq<Byte>)
    requires Proper(d) && Typed(d, DefaultOf(d)) && Typed(d, x)
    requires Clean(d) && Empty(d, DefaultOf(d)) && AllLive(d, version) && Fits(d, x, version)
    ensures Decode(d, DefaultOf(d), Encode(d, x, version) + rest, version) == Ok((x, rest))
  {
    DecodeEncode(d, DefaultOf(d), x, version, rest);
    MergeIsValue(d, DefaultOf(d), x, version);
  }

  function At<T>(xs: List<T>, i: nat): T
    requires i < Length(xs)
  {
    if i == 0 then xs.head else At(xs.tail, i - 1)
  }

  function Drop<T>(xs: List<T>, i: nat): List<T>
    requires i <= Length(xs)
  {
    if i == 0 then xs else Drop(xs.tail, i - 1)
  }

  lemma {:induction false} TypedFieldAt(fields: List<Field>, xs: List<Value>, i: nat)
    requires TypedFields(fields, xs) && i < Length(fields)
    ensures Length(xs) == Length(fields) && Typed(At(fields, i).desc, At(xs, i))
  {
    TypedFieldsLength(fields, xs);
    if i > 0 { TypedFieldAt(fields.tail, xs.tail, i - 1); }
  }

  lemma {:induction false} TypedFieldsLength(fields: List<Field>, xs: List<Value>)
    requires TypedFields(fields, xs)
    ensures Length(xs) == Length(fields)
  {
    if fields.Cons? { TypedFieldsLength(fields.tail, xs.tail); }
  }

  lemma {:induction false} AppendAt<T>(xs: List<T>, ys: List<T>, i: nat)
    requires i < Length(xs) + Length(ys)
    ensures Length(Append(xs, ys)) == Length(xs) + Length(ys)
    ensures At(Append(xs, ys), i) == if i < Length(xs) then At(xs, i) else At(ys, i - Length(xs))
  {
    match xs
    case Nil =>
    case Cons(_, tail) =>
      AppendLength(tail, ys);
      if i > 0 { AppendAt(tail, ys, i - 1); }
  }

  lemma {:induction false} AppendLength<T>(xs: List<T>, ys: List<T>)
    ensures Length(Append(xs, ys)) == Length(xs) + Length(ys)
  {
    if xs.Cons? { AppendLength(xs.tail, ys); }
  }

  // A vector decoded onto old content keeps all of it in front of the items that were encoded.
  lemma {:induction false} VecGoesBehind(
    elem: Desc, prior: Value, x: Value, version: int, rest: seq<Byte>, i: nat)
    requires Proper(Vec(elem)) && Typed(Vec(elem), prior) && Typed(Vec(elem), x) && Fits(Vec(elem), x, version)
    requires Clean(elem) && Empty(elem, DefaultOf(elem)) && AllLive(elem, version)
    requires i < Length(prior.items) + Length(x.items)
    ensures var r := Decode(Vec(elem), prior, Encode(Vec(elem), x, version) + rest, version);
            && r.Ok? && r.value.1 == rest && r.value.0.VVec?
            && Length(r.value.0.items) == Length(prior.items) + Length(x.items)
            && At(r.value.0.items, i) ==
                 if i < Length(prior.items) then At(prior.items, i) else At(x.items, i - Length(prior.items))
  {
    DecodeEncode(Vec(elem), prior, x, version, rest);
    MergeItemsIsValue(elem, x.items, version);
    AppendAt(prior.items, x.items, i);
    hide Encode, Decode;
  }

  // A field that is dead at the version keeps its prior value, whatever that holds.
  lemma {:induction false} DeadFieldKept(
    fields: List<Field>, priors: List<Value>, xs: List<Value>, version: int, i: nat)
    requires ProperFields(fields) && TypedFields(fields, priors) && TypedFields(fields, xs) && i < Length(fields)
    ensures Length(priors) == Length(MergeFields(fields, priors, xs, version, false)) == Length(fields)
    ensures !Live(At(fields, i), version, false) ==>
            At(MergeFields(fields, priors, xs, version, false), i) == At(priors, i)
  {
    TypedFieldsLength(fields, priors);
    MergeFieldsLength(fields, priors, xs, version);
    if i > 0 {
      DeadFieldKept(fields.tail, priors.tail, xs.tail, version, i - 1);
    }
  }

  // A struct decoded at a version into a default takes its live fields from the value.
  lemma {:induction false} StructFieldAfterDecode(
    fields: List<Field>, priors: List<Value>, xs: List<Value>, version: int, i: nat)
    requires ProperFields(fields) && TypedFields(fields, priors) && TypedFields(fields, xs) && i < Length(fields)
    requires CleanFields(fields) && EmptyFields(fields, priors)
    ensures Length(xs) == Length(MergeFields(fields, priors, xs, version, false)) == Length(fields)
    ensures Live(At(fields, i), version, false) && AllLive(At(fields, i).desc, version) ==>
            At(MergeFields(fields, priors, xs, version, false), i) == At(xs, i)
  {
    TypedFieldAt(fields, xs, i);
    TypedFieldAt(fields, priors, i);
    MergeFieldsLength(fields, priors, xs, version);
    var f := fields.head;
    if i == 0 {
      if AllLive(f.desc, version) { MergeIsValue(f.desc, priors.head, xs.head, version); }
    } else {
      StructFieldAfterDecode(fields.tail, priors.tail, xs.tail, version, i - 1);
    }
  }

  lemma {:induction false} MergeFieldsLength(fields: List<Field>, priors: List<Value>, xs: List<Value>, version: int)
    requires ProperFields(fields) && TypedFields(fields, priors) && TypedFields(fields, xs)
    ensures Length(MergeFields(fields, priors, xs, version, false)) == Length(fields)
  {
    if fields.Cons? { MergeFieldsLength(fields.tail, priors.tail, xs.tail, version); }
  }
}
