/**
 The versions at which a field is on the wire (fluvio-protocol-derive, ast/prop.rs): a struct field
 from min_version up to and including max_version, a varint field and a field of an enum variant always.
 */
module VersionIntervals {
  import opened Wrappers
  import opened Bytes
  import opened Varint
  import opened Codec
  import opened CodecLaws

  // ----- one field -----

  // Between its bounds a struct field is written, measured and read as its type is; outside of them it
  // takes no bytes, and decoding touches neither it nor the input.
  lemma {:induction false} TestedField(f: Field, prior: Value, x: Value, src: seq<Byte>, version: int)
    requires ProperField(f) && Typed(f.desc, prior) && Typed(f.desc, x) && !f.varint
    ensures f.minVersion <= version && (f.maxVersion == None || version <= f.maxVersion.value) ==>
            && EncodeField(f, x, version, false) == Encode(f.desc, x, version)
            && FieldSize(f, x, version, false) == WriteSize(f.desc, x, version)
            && DecodeField(f, prior, src, version, false) == Decode(f.desc, prior, src, version)
    ensures version < f.minVersion || (f.maxVersion.Some? && f.maxVersion.value < version) ==>
            && EncodeField(f, x, version, false) == []
            && FieldSize(f, x, version, false) == 0
            && DecodeField(f, prior, src, version, false) == Ok((prior, src))
  {
    hide Encode, Decode, WriteSize;
  }

  // A varint field of a struct is written and read at every version, and so is a field of an enum
  // variant, on which the varint attribute has no effect.
  lemma {:induction false} UntestedField(f: Field, prior: Value, x: Value, src: seq<Byte>, version: int)
    requires ProperField(f) && Typed(f.desc, prior) && Typed(f.desc, x)
    ensures f.varint ==>
            && EncodeField(f, x, version, false) == VarintBytes(x.n)
            && DecodeField(f, prior, src, version, false) == ReadVarint(src)
    ensures EncodeField(f, x, version, true) == Encode(f.desc, x, version)
    ensures FieldSize(f, x, version, true) == WriteSize(f.desc, x, version)
    ensures DecodeField(f, prior, src, version, true) == Decode(f.desc, prior, src, version)
  {
    hide Encode, Decode, WriteSize;
  }

  // ----- its place in the message -----

  function Take<T>(xs: List<T>, i: nat): List<T>
    requires i <= Length(xs)
  {
    if i == 0 then Nil else Cons(xs.head, Take(xs.tail, i - 1))
  }

  // Fields and values apart at i.
  lemma {:induction false} ApartAt(fields: List<Field>, xs: List<Value>, i: nat)
    requires ProperFields(fields) && TypedFields(fields, xs) && i < Length(fields)
    ensures Length(xs) == Length(fields)
    ensures ProperFields(Take(fields, i)) && TypedFields(Take(fields, i), Take(xs, i))
    ensures ProperFields(Drop(fields, i + 1)) && TypedFields(Drop(fields, i + 1), Drop(xs, i + 1))
    ensures ProperField(At(fields, i)) && Typed(At(fields, i).desc, At(xs, i))
  {
    TypedFieldsLength(fields, xs);
    if i == 0 {
      assert Drop(fields, 1) == fields.tail && Drop(xs, 1) == xs.tail;
    } else {
      ApartAt(fields.tail, xs.tail, i - 1);
    }
  }

  lemma {:induction false} FieldBetween(fields: List<Field>, xs: List<Value>, version: int, inVariant: bool, i: nat)
    requires ProperFields(fields) && TypedFields(fields, xs) && i < Length(fields) == Length(xs)
    requires ProperFields(Take(fields, i)) && TypedFields(Take(fields, i), Take(xs, i))
    requires ProperFields(Drop(fields, i + 1)) && TypedFields(Drop(fields, i + 1), Drop(xs, i + 1))
    requires ProperField(At(fields, i)) && Typed(At(fields, i).desc, At(xs, i))
    ensures EncodeFields(fields, xs, version, inVariant)
         == EncodeFields(Take(fields, i), Take(xs, i), version, inVariant)
            + EncodeField(At(fields, i), At(xs, i), version, inVariant)
            + EncodeFields(Drop(fields, i + 1), Drop(xs, i + 1), version, inVariant)
  {
    hide EncodeField;
    if i > 0 {
      ApartAt(fields.tail, xs.tail, i - 1);
      FieldBetween(fields.tail, xs.tail, version, inVariant, i - 1);
    }
  }

  // The bytes of a struct are those of the fields before, the field itself between its bounds, and
  // those of the fields behind.
  lemma {:induction false} WrittenInside(fields: List<Field>, xs: List<Value>, version: int, i: nat)
    requires ProperFields(fields) && TypedFields(fields, xs) && i < Length(fields) && !At(fields, i).varint
    ensures Length(xs) == Length(fields)
    ensures ProperFields(Take(fields, i)) && TypedFields(Take(fields, i), Take(xs, i))
    ensures ProperFields(Drop(fields, i + 1)) && TypedFields(Drop(fields, i + 1), Drop(xs, i + 1))
    ensures ProperField(At(fields, i)) && Typed(At(fields, i).desc, At(xs, i))
    ensures var low, high := At(fields, i).minVersion, At(fields, i).maxVersion;
            var before := Encode(Struct(Take(fields, i)), VStruct(Take(xs, i)), version);
            var own := Encode(At(fields, i).desc, At(xs, i), version);
            var behind := Encode(Struct(Drop(fields, i + 1)), VStruct(Drop(xs, i + 1)), version);
            Encode(Struct(fields), VStruct(xs), version)
              == before + (if low <= version && (high == None || version <= high.value) then own else []) + behind
  {
    ApartAt(fields, xs, i);
    FieldBetween(fields, xs, version, false, i);
    var f, x := At(fields, i), At(xs, i);
    TestedField(f, x, x, [], version);
    hide Take, Drop, At, EncodeFields, EncodeField, ProperFields, TypedFields;
  }

  // ----- what decoding leaves in it -----

  // Decoding an encoded struct gives a field its value at every version between its bounds, and a
  // varint field at every version.
  lemma {:induction false} RestoredInside(
    fields: List<Field>, priors: List<Value>, xs: List<Value>, version: int, rest: seq<Byte>, i: nat)
    requires ProperFields(fields) && TypedFields(fields, priors) && TypedFields(fields, xs) && i < Length(fields)
    requires CleanFields(fields) && EmptyFields(fields, priors) && FitsFields(fields, xs, version, false)
    requires AllLive(At(fields, i).desc, version)
    ensures var bytes := Encode(Struct(fields), VStruct(xs), version);
            var r := Decode(Struct(fields), VStruct(priors), bytes + rest, version);
            var f := At(fields, i);
            && r.Ok? && r.value.1 == rest && Length(r.value.0.fields) == Length(fields) == Length(xs)
            && (f.varint ==> At(r.value.0.fields, i) == At(xs, i))
            && (f.minVersion <= version && (f.maxVersion == None || version <= f.maxVersion.value) ==>
                  At(r.value.0.fields, i) == At(xs, i))
  {
    DecodeEncodeFields(fields, priors, xs, version, false, rest);
    StructFieldAfterDecode(fields, priors, xs, version, i);
  }

  // A field that is no varint keeps what it held, whatever that is, at every version outside its bounds.
  lemma {:induction false} KeptOutside(
    fields: List<Field>, priors: List<Value>, xs: List<Value>, version: int, rest: seq<Byte>, i: nat)
    requires ProperFields(fields) && TypedFields(fields, priors) && TypedFields(fields, xs) && i < Length(fields)
    requires FitsFields(fields, xs, version, false) && !At(fields, i).varint
    ensures var bytes := Encode(Struct(fields), VStruct(xs), version);
            var r := Decode(Struct(fields), VStruct(priors), bytes + rest, version);
            var f := At(fields, i);
            && r.Ok? && r.value.1 == rest && Length(r.value.0.fields) == Length(fields) == Length(priors)
            && (version < f.minVersion || (f.maxVersion.Some? && f.maxVersion.value < version) ==>
                  At(r.value.0.fields, i) == At(priors, i))
  {
    DecodeEncodeFields(fields, priors, xs, version, false, rest);
    DeadFieldKept(fields, priors, xs, version, i);
  }

  // ----- enum variants -----

  function FieldsAt(variants: List<Variant>, i: nat): List<Field>
    requires i < Length(variants)
  {
    At(variants, i).fields
  }

  lemma {:induction false} VariantFits(
    variants: List<Variant>, i: nat, xs: List<Value>, signed: bool, width: nat, version: int)
    requires ProperVariants(variants, signed, width) && TypedVariant(variants, i, xs)
    ensures i < Length(variants) && ProperFields(FieldsAt(variants, i)) && TypedFields(FieldsAt(variants, i), xs)
    ensures CleanVariants(variants, signed, width) ==> CleanFields(FieldsAt(variants, i))
    ensures TypedFields(FieldsAt(variants, i), Initials(FieldsAt(variants, i)))
    ensures CleanVariants(variants, signed, width) ==>
            EmptyFields(FieldsAt(variants, i), Initials(FieldsAt(variants, i)))
    ensures MergeVariant(variants, i, xs, signed, width, version)
         == MergeFields(FieldsAt(variants, i), Initials(FieldsAt(variants, i)), xs, version, true)
  {
    if i > 0 {
      VariantFits(variants.tail, i - 1, xs, signed, width, version);
    } else {
      TypedInitials(variants.head.fields);
    }
  }

  lemma {:induction false} MergedInVariant(
    fields: List<Field>, priors: List<Value>, xs: List<Value>, version: int, i: nat)
    requires ProperFields(fields) && TypedFields(fields, priors) && TypedFields(fields, xs) && i < Length(fields)
    requires CleanFields(fields) && EmptyFields(fields, priors) && AllLive(At(fields, i).desc, version)
    ensures Length(xs) == Length(MergeFields(fields, priors, xs, version, true)) == Length(fields)
    ensures At(MergeFields(fields, priors, xs, version, true), i) == At(xs, i)
  {
    TypedFieldsLength(fields, xs);
    MergedLength(fields, priors, xs, version);
    if i == 0 {
      MergeIsValue(fields.head.desc, priors.head, xs.head, version);
    } else {
      MergedInVariant(fields.tail, priors.tail, xs.tail, version, i - 1);
    }
  }

  lemma {:induction false} MergedLength(fields: List<Field>, priors: List<Value>, xs: List<Value>, version: int)
    requires ProperFields(fields) && TypedFields(fields, priors) && TypedFields(fields, xs)
    ensures Length(MergeFields(fields, priors, xs, version, true)) == Length(fields)
  {
    if fields.Cons? { MergedLength(fields.tail, priors.tail, xs.tail, version); }
  }

  // Decoding an encoded variant gives each of its fields its value at every version, whatever bounds
  // the field declares.
  lemma {:induction false} RestoredInVariant(
    d: Desc, prior: Value, x: Value, version: int, rest: seq<Byte>, i: nat)
    requires d.Enum? && Proper(d) && Typed(d, prior) && Typed(d, x) && Clean(d) && Fits(d, x, version)
    requires x.index < Length(d.variants) && i < Length(FieldsAt(d.variants, x.index))
    requires AllLive(At(FieldsAt(d.variants, x.index), i).desc, version)
    ensures var r := Decode(d, prior, Encode(d, x, version) + rest, version);
            && r.Ok? && r.value.1 == rest && r.value.0.VEnum? && r.value.0.index == x.index
            && i < Length(r.value.0.payload) == Length(x.payload)
            && At(r.value.0.payload, i) == At(x.payload, i)
  {
    DecodeEncode(d, prior, x, version, rest);
    VariantFits(d.variants, x.index, x.payload, d.tagSigned, d.tagWidth, version);
    var fields := FieldsAt(d.variants, x.index);
    MergedInVariant(fields, Initials(fields), x.payload, version, i);
  }
}
