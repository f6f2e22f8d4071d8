/**
 The codec that fluvio-protocol-derive generates.  A Desc is the type description the macros read
 (ast/), a Value is a value of the described type, and Encode, WriteSize and Decode interpret a
 description the way the generated `encode`, `write_size` and `decode` run.
 */
module Codec {
  import opened Wrappers
  import opened Bytes
  import opened Varint

  datatype List<T> = Nil | Cons(head: T, tail: List<T>)

  function Length<T>(xs: List<T>): nat {
    match xs
    case Nil => 0
    case Cons(_, tail) => 1 + Length(tail)
  }

  function Append<T>(xs: List<T>, ys: List<T>): List<T> {
    match xs
    case Nil => ys
    case Cons(x, tail) => Cons(x, Append(tail, ys))
  }

  /** Type descriptions.  Blob is Vec<u8>, kept as bytes. */
  datatype Desc =
    | Bool
    | Int(signed: bool, width: nat)
    | Str
    | Blob
    | Vec(elem: Desc)
    | Opt(inner: Desc)
    | Struct(fields: List<Field>)
    | Enum(tagSigned: bool, tagWidth: nat, variants: List<Variant>, standard: Value)

  /** A field with its attributes; `initial` is its content in the Default of the enclosing item. */
  datatype Field = Field(desc: Desc, varint: bool, minVersion: int, maxVersion: Option<int>, initial: Value)

  datatype Variant = Variant(tag: int, fields: List<Field>)

  datatype Value =
    | VBool(b: bool)
    | VInt(n: int)
    | VStr(s: seq<Byte>)
    | VBlob(bytes: seq<Byte>)
    | VVec(items: List<Value>)
    | VOpt(content: Option<Value>)
    | VStruct(fields: List<Value>)
    | VEnum(index: nat, payload: List<Value>)

  // Varint fields skip the version test, and the fields of an enum variant are never tested.
  predicate Live(f: Field, version: int, inVariant: bool) {
    inVariant || f.varint || (f.minVersion <= version && (f.maxVersion.Some? ==> version <= f.maxVersion.value))
  }

  // The varint attribute has an effect in structs only.
  predicate UsesVarint(f: Field, inVariant: bool) {
    f.varint && !inVariant
  }

  function Initials(fields: List<Field>): List<Value> {
    match fields
    case Nil => Nil
    case Cons(f, tail) => Cons(f.initial, Initials(tail))
  }

  function DefaultOf(d: Desc): Value {
    match d
    case Bool => VBool(false)
    case Int(_, _) => VInt(0)
    case Str => VStr([])
    case Blob => VBlob([])
    case Vec(_) => VVec(Nil)
    case Opt(_) => VOpt(None)
    case Struct(fields) => VStruct(Initials(fields))
    case Enum(_, _, _, standard) => standard
  }

  // ----- values of a description -----

  predicate Typed(d: Desc, x: Value)
    decreases d, 0
  {
    match d
    case Bool => x.VBool?
    case Int(signed, width) => x.VInt? && InRange(x.n, signed, width)
    case Str => x.VStr?
    case Blob => x.VBlob?
    case Vec(elem) => x.VVec? && TypedItems(elem, x.items)
    case Opt(inner) => x.VOpt? && (x.content.Some? ==> Typed(inner, x.content.value))
    case Struct(fields) => x.VStruct? && TypedFields(fields, x.fields)
    case Enum(_, _, variants, _) => x.VEnum? && TypedVariant(variants, x.index, x.payload)
  }

  predicate TypedItems(elem: Desc, items: List<Value>)
    decreases elem, 1, items
  {
    match items
    case Nil => true
    case Cons(x, tail) => Typed(elem, x) && TypedItems(elem, tail)
  }

  predicate TypedFields(fields: List<Field>, xs: List<Value>)
    decreases fields, 0
  {
    match fields
    case Nil => xs.Nil?
    case Cons(f, tail) => xs.Cons? && Typed(f.desc, xs.head) && TypedFields(tail, xs.tail)
  }

  predicate TypedVariant(variants: List<Variant>, i: nat, xs: List<Value>)
    decreases variants, 0
  {
    match variants
    case Nil => false
    case Cons(v, tail) => if i == 0 then TypedFields(v.fields, xs) else TypedVariant(tail, i - 1, xs)
  }

  // A description the macros accept: tags fit the discriminant, varint is on i64 fields only,
  // and the contents of every Default have the right type.
  predicate Proper(d: Desc)
    decreases d
  {
    match d
    case Int(_, width) => width == 1 || width == 2 || width == 4 || width == 8
    case Vec(elem) => Proper(elem) && Typed(elem, DefaultOf(elem))
    case Opt(inner) => Proper(inner) && Typed(inner, DefaultOf(inner))
    case Struct(fields) => ProperFields(fields)
    case Enum(signed, width, variants, standard) =>
      (width == 1 || width == 2 || width == 4 || width == 8)
      && ProperVariants(variants, signed, width) && Typed(d, standard)
    case _ => true
  }

  predicate ProperFields(fields: List<Field>)
    decreases fields
  {
    match fields
    case Nil => true
    case Cons(f, tail) => ProperField(f) && ProperFields(tail)
  }

  predicate ProperField(f: Field)
    decreases f
  {
    && Proper(f.desc)
    && Typed(f.desc, f.initial)
    && (f.varint ==> f.desc == Int(true, 8))
  }

  predicate ProperVariants(variants: List<Variant>, signed: bool, width: nat)
    decreases variants
  {
    match variants
    case Nil => true
    case Cons(v, tail) => InRange(v.tag, signed, width) && ProperFields(v.fields) && ProperVariants(tail, signed, width)
  }

  // ----- generated encode -----

  // The encoding loop never ends for some integers beyond 62 bits; no bytes stand for it.
  function VarintBytes(n: int): seq<Byte> {
    match Groups(Mix(n))
    case Some(bytes) => bytes
    case None => []
  }

  // Lengths are cast to u16 or u32 before they are written, and BigEndian truncates likewise.
  function Encode(d: Desc, x: Value, version: int): seq<Byte>
    requires Proper(d) && Typed(d, x)
    decreases d, 0
  {
    match d
    case Bool => [if x.b then 1 else 0]
    case Int(signed, width) => EncodeInt(x.n, signed, width)
    case Str => BigEndian(|x.s|, 2) + x.s
    case Blob => BigEndian(|x.bytes|, 4) + x.bytes
    case Vec(elem) => BigEndian(Length(x.items), 4) + EncodeItems(elem, x.items, version)
    case Opt(inner) =>
      (match x.content
       case None => [0]
       case Some(y) => [1] + Encode(inner, y, version))
    case Struct(fields) => EncodeFields(fields, x.fields, version, false)
    case Enum(signed, width, variants, _) => EncodeVariant(variants, x.index, x.payload, signed, width, version)
  }

  function EncodeItems(elem: Desc, items: List<Value>, version: int): seq<Byte>
    requires Proper(elem) && TypedItems(elem, items)
    decreases elem, 1, items
  {
    match items
    case Nil => []
    case Cons(x, tail) => Encode(elem, x, version) + EncodeItems(elem, tail, version)
  }

  function EncodeFields(fields: List<Field>, xs: List<Value>, version: int, inVariant: bool): seq<Byte>
    requires ProperFields(fields) && TypedFields(fields, xs)
    decreases fields, 0
  {
    match fields
    case Nil => []
    case Cons(f, tail) =>
      EncodeField(f, xs.head, version, inVariant) + EncodeFields(tail, xs.tail, version, inVariant)
  }

  function EncodeField(f: Field, x: Value, version: int, inVariant: bool): seq<Byte>
    requires ProperField(f) && Typed(f.desc, x)
    decreases f, 0
  {
    if UsesVarint(f, inVariant) then VarintBytes(x.n)
    else if Live(f, version, inVariant) then Encode(f.desc, x, version)
    else []
  }

  function EncodeVariant(
    variants: List<Variant>, i: nat, xs: List<Value>, signed: bool, width: nat, version: int): seq<Byte>
    requires ProperVariants(variants, signed, width) && TypedVariant(variants, i, xs)
    decreases variants, 0
  {
    if i == 0
    then EncodeInt(variants.head.tag, signed, width) + EncodeFields(variants.head.fields, xs, version, true)
    else EncodeVariant(variants.tail, i - 1, xs, signed, width, version)
  }

  // ----- generated write_size -----

  function WriteSize(d: Desc, x: Value, version: int): nat
    requires Proper(d) && Typed(d, x)
    decreases d, 0
  {
    match d
    case Bool => 1
    case Int(_, width) => width
    case Str => 2 + |x.s|
    case Blob => 4 + |x.bytes|
    case Vec(elem) => 4 + ItemsSize(elem, x.items, version)
    case Opt(inner) =>
      (match x.content
       case None => 1
       case Some(y) => 1 + WriteSize(inner, y, version))
    case Struct(fields) => FieldsSize(fields, x.fields, version, false)
    case Enum(signed, width, variants, _) => VariantSizeOf(variants, x.index, x.payload, signed, width, version)
  }

  function ItemsSize(elem: Desc, items: List<Value>, version: int): nat
    requires Proper(elem) && TypedItems(elem, items)
    decreases elem, 1, items
  {
    match items
    case Nil => 0
    case Cons(x, tail) => WriteSize(elem, x, version) + ItemsSize(elem, tail, version)
  }

  function FieldsSize(fields: List<Field>, xs: List<Value>, version: int, inVariant: bool): nat
    requires ProperFields(fields) && TypedFields(fields, xs)
    decreases fields, 0
  {
    match fields
    case Nil => 0
    case Cons(f, tail) => FieldSize(f, xs.head, version, inVariant) + FieldsSize(tail, xs.tail, version, inVariant)
  }

  function FieldSize(f: Field, x: Value, version: int, inVariant: bool): nat
    requires ProperField(f) && Typed(f.desc, x)
    decreases f, 0
  {
    if UsesVarint(f, inVariant) then |VarintBytes(x.n)|
    else if Live(f, version, inVariant) then WriteSize(f.desc, x, version)
    else 0
  }

  function VariantSizeOf(variants: List<Variant>, i: nat, xs: List<Value>, signed: bool, width: nat, version: int): nat
    requires ProperVariants(variants, signed, width) && TypedVariant(variants, i, xs)
    decreases variants, 0
  {
    if i == 0
    then width + FieldsSize(variants.head.fields, xs, version, true)
    else VariantSizeOf(variants.tail, i - 1, xs, signed, width, version)
  }

  // ----- generated decode -----

  // Decodes into `prior`, the present content of self.  A string or vector whose length is not
  // positive leaves self alone, and a vector pushes onto what it holds.
  function Decode(d: Desc, prior: Value, src: seq<Byte>, version: int): (r: Result<(Value, seq<Byte>), CodecError>)
    requires Proper(d) && Typed(d, prior)
    ensures r.Ok? ==> Typed(d, r.value.0)
    decreases d, 0
  {
    match d
    case Bool =>
      if src == [] then Err(UnexpectedEof)
      else if src[0] <= 1 then Ok((VBool(src[0] == 1), src[1..]))
      else Err(InvalidData)
    case Int(signed, width) =>
      var (n, rest) :- DecodeInt(src, signed, width);
      Ok((VInt(n), rest))
    case Str =>
      var (len, rest) :- DecodeInt(src, true, 2);
      if len <= 0 then Ok((prior, rest))
      else if |rest| < len then Err(UnexpectedEof)
      else Ok((VStr(rest[..len]), rest[len..]))
    case Blob =>
      var (len, rest) :- DecodeInt(src, true, 4);
      if len < 1 then Ok((prior, rest))
      else if |rest| < len then Err(UnexpectedEof)
      else Ok((VBlob(prior.bytes + rest[..len]), rest[len..]))
    case Vec(elem) =>
      var (len, rest) :- DecodeInt(src, true, 4);
      if len < 1 then Ok((prior, rest))
      else
        var (items, rest') :- DecodeItems(elem, len, rest, version);
        TypedAppend(elem, prior.items, items);
        Ok((VVec(Append(prior.items, items)), rest'))
    case Opt(inner) =>
      if src == [] then Err(UnexpectedEof)
      else if src[0] == 0 then Ok((VOpt(None), src[1..]))
      else if src[0] == 1 then
        var (y, rest) :- Decode(inner, DefaultOf(inner), src[1..], version);
        Ok((VOpt(Some(y)), rest))
      else Err(InvalidData)
    case Struct(fields) =>
      var (xs, rest) :- DecodeFields(fields, prior.fields, src, version, false);
      Ok((VStruct(xs), rest))
    case Enum(signed, width, variants, _) =>
      var (tag, rest) :- DecodeInt(src, signed, width);
      var (i, xs, rest') :- DecodeVariant(variants, tag, rest, signed, width, version);
      Ok((VEnum(i, xs), rest'))
  }

  lemma {:induction false} TypedAppend(elem: Desc, xs: List<Value>, ys: List<Value>)
    requires TypedItems(elem, xs) && TypedItems(elem, ys)
    ensures TypedItems(elem, Append(xs, ys))
  {
    if xs.Cons? { TypedAppend(elem, xs.tail, ys); }
  }

  function DecodeItems(
    elem: Desc, count: nat, src: seq<Byte>, version: int): (r: Result<(List<Value>, seq<Byte>), CodecError>)
    requires Proper(elem) && Typed(elem, DefaultOf(elem))
    ensures r.Ok? ==> TypedItems(elem, r.value.0) && Length(r.value.0) == count
    decreases elem, 1, count
  {
    if count == 0 then Ok((Nil, src))
    else
      var (x, rest) :- Decode(elem, DefaultOf(elem), src, version);
      var (tail, rest') :- DecodeItems(elem, count - 1, rest, version);
      Ok((Cons(x, tail), rest'))
  }

  function DecodeFields(fields: List<Field>, priors: List<Value>, src: seq<Byte>, version: int, inVariant: bool)
    : (r: Result<(List<Value>, seq<Byte>), CodecError>)
    requires ProperFields(fields) && TypedFields(fields, priors)
    ensures r.Ok? ==> TypedFields(fields, r.value.0)
    decreases fields, 0
  {
    match fields
    case Nil => Ok((Nil, src))
    case Cons(f, tail) =>
      var (x, rest) :- DecodeField(f, priors.head, src, version, inVariant);
      var (xs, rest') :- DecodeFields(tail, priors.tail, rest, version, inVariant);
      Ok((Cons(x, xs), rest'))
  }

  function DecodeField(f: Field, prior: Value, src: seq<Byte>, version: int, inVariant: bool)
    : (r: Result<(Value, seq<Byte>), CodecError>)
    requires ProperField(f) && Typed(f.desc, prior)
    ensures r.Ok? ==> Typed(f.desc, r.value.0)
    decreases f, 0
  {
    if UsesVarint(f, inVariant) then ReadVarint(src)
    else if Live(f, version, inVariant) then Decode(f.desc, prior, src, version)
    else Ok((prior, src))
  }

  function ReadVarint(src: seq<Byte>): (r: Result<(Value, seq<Byte>), CodecError>)
    ensures r.Ok? ==> Typed(Int(true, 8), r.value.0)
  {
    var (n, rest) :- DecodeVarint(src);
    Pow256Values();
    Ok((VInt(n), rest))
  }

  // The first arm with the tag is taken, and its fields are decoded into defaults.
  function DecodeVariant(variants: List<Variant>, tag: int, src: seq<Byte>, signed: bool, width: nat, version: int)
    : (r: Result<(nat, List<Value>, seq<Byte>), CodecError>)
    requires ProperVariants(variants, signed, width)
    ensures r.Ok? ==> TypedVariant(variants, r.value.0, r.value.1)
    decreases variants, 0
  {
    match variants
    case Nil => Err(InvalidData)
    case Cons(v, tail) =>
      if v.tag == tag then
        TypedInitials(v.fields);
        var (xs, rest) :- DecodeFields(v.fields, Initials(v.fields), src, version, true);
        Ok((0, xs, rest))
      else
        var (i, xs, rest) :- DecodeVariant(tail, tag, src, signed, width, version);
        Ok((i + 1, xs, rest))
  }

  lemma {:induction false} TypedInitials(fields: List<Field>)
    requires ProperFields(fields)
    ensures TypedFields(fields, Initials(fields))
  {
    if fields.Cons? { TypedInitials(fields.tail); }
  }
}
