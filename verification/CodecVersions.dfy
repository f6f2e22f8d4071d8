/**
 How the size of a value depends on the version, for descriptions whose fields only ever join
 (fluvio-protocol-derive, min_version without max_version).
 */
module CodecVersions {
  import opened Wrappers
  import opened Bytes
  import opened Codec
  import opened CodecLaws

  // No field leaves at a later version.
  predicate OnlyJoins(d: Desc)
    decreases d
  {
    match d
    case Vec(elem) => OnlyJoins(elem)
    case Opt(inner) => OnlyJoins(inner)
    case Struct(fields) => FieldsJoin(fields)
    case Enum(_, _, variants, _) => VariantsJoin(variants)
    case _ => true
  }

  predicate FieldsJoin(fields: List<Field>)
    decreases fields
  {
    match fields
    case Nil => true
    case Cons(f, tail) => f.maxVersion.None? && OnlyJoins(f.desc) && FieldsJoin(tail)
  }

  predicate VariantsJoin(variants: List<Variant>)
    decreases variants
  {
    match variants
    case Nil => true
    case Cons(v, tail) => FieldsJoin(v.fields) && VariantsJoin(tail)
  }

  // No field of the value that joins between the versions takes bytes.
  predicate Unchanged(d: Desc, x: Value, early: int, late: int)
    requires Proper(d) && Typed(d, x)
    decreases d, 0
  {
    match d
    case Vec(elem) => ItemsUnchanged(elem, x.items, early, late)
    case Opt(inner) => x.content.Some? ==> Unchanged(inner, x.content.value, early, late)
    case Struct(fields) => FieldsUnchanged(fields, x.fields, early, late, false)
    case Enum(signed, width, variants, _) => VariantUnchanged(variants, x.index, x.payload, signed, width, early, late)
    case _ => true
  }

  predicate ItemsUnchanged(elem: Desc, xs: List<Value>, early: int, late: int)
    requires Proper(elem) && TypedItems(elem, xs)
    decreases elem, 1, xs
  {
    match xs
    case Nil => true
    case Cons(x, tail) => Unchanged(elem, x, early, late) && ItemsUnchanged(elem, tail, early, late)
  }

  predicate FieldsUnchanged(fields: List<Field>, xs: List<Value>, early: int, late: int, inVariant: bool)
    requires ProperFields(fields) && TypedFields(fields, xs)
    decreases fields, 0
  {
    match fields
    case Nil => true
    case Cons(f, tail) =>
      FieldUnchanged(f, xs.head, early, late, inVariant) && FieldsUnchanged(tail, xs.tail, early, late, inVariant)
  }

  predicate FieldUnchanged(f: Field, x: Value, early: int, late: int, inVariant: bool)
    requires ProperField(f) && Typed(f.desc, x)
    decreases f, 0
  {
    if UsesVarint(f, inVariant) || !Live(f, late, inVariant) then true
    else if Live(f, early, inVariant) then Unchanged(f.desc, x, early, late)
    else WriteSize(f.desc, x, late) == 0
  }

  predicate VariantUnchanged(
    variants: List<Variant>, i: nat, xs: List<Value>, signed: bool, width: nat, early: int, late: int)
    requires ProperVariants(variants, signed, width) && TypedVariant(variants, i, xs)
    decreases variants, 0
  {
    if i == 0 then FieldsUnchanged(variants.head.fields, xs, early, late, true)
    else VariantUnchanged(variants.tail, i - 1, xs, signed, width, early, late)
  }

  // The size never shrinks with the version, and stays if and only if no joining field takes bytes.
  lemma {:induction false} SizeGrows(d: Desc, x: Value, early: int, late: int)
    requires Proper(d) && Typed(d, x) && OnlyJoins(d) && early <= late
    ensures WriteSize(d, x, early) <= WriteSize(d, x, late)
    ensures WriteSize(d, x, early) == WriteSize(d, x, late) <==> Unchanged(d, x, early, late)
    decreases d, 0
  {
    match d
    case Vec(elem) => ItemsGrow(elem, x.items, early, late);
    case Opt(inner) =>
      if x.content.Some? {
        SizeGrows(inner, x.content.value, early, late);
      }
    case Struct(fields) => FieldsGrow(fields, x.fields, early, late, false);
    case Enum(signed, width, variants, _) => VariantGrows(variants, x.index, x.payload, signed, width, early, late);
    case _ =>
  }

  lemma {:induction false} ItemsGrow(elem: Desc, xs: List<Value>, early: int, late: int)
    requires Proper(elem) && TypedItems(elem, xs) && OnlyJoins(elem) && early <= late
    ensures ItemsSize(elem, xs, early) <= ItemsSize(elem, xs, late)
    ensures ItemsSize(elem, xs, early) == ItemsSize(elem, xs, late) <==> ItemsUnchanged(elem, xs, early, late)
    decreases elem, 1, xs
  {
    hide WriteSize, Unchanged;
    if xs.Cons? {
      SizeGrows(elem, xs.head, early, late);
      ItemsGrow(elem, xs.tail, early, late);
    }
  }

  lemma {:induction false} FieldsGrow(fields: List<Field>, xs: List<Value>, early: int, late: int, inVariant: bool)
    requires ProperFields(fields) && TypedFields(fields, xs) && FieldsJoin(fields) && early <= late
    ensures FieldsSize(fields, xs, early, inVariant) <= FieldsSize(fields, xs, late, inVariant)
    ensures FieldsSize(fields, xs, early, inVariant) == FieldsSize(fields, xs, late, inVariant) <==>
            FieldsUnchanged(fields, xs, early, late, inVariant)
    decreases fields, 0
  {
    hide WriteSize, Unchanged;
    if fields.Cons? {
      var f := fields.head;
      if Live(f, early, inVariant) {
        SizeGrows(f.desc, xs.head, early, late);
      }
      FieldsGrow(fields.tail, xs.tail, early, late, inVariant);
    }
  }

  lemma {:induction false} VariantGrows(
    variants: List<Variant>, i: nat, xs: List<Value>, signed: bool, width: nat, early: int, late: int)
    requires ProperVariants(variants, signed, width) && TypedVariant(variants, i, xs) && VariantsJoin(variants)
    requires early <= late
    ensures VariantSizeOf(variants, i, xs, signed, width, early) <= VariantSizeOf(variants, i, xs, signed, width, late)
    ensures VariantSizeOf(variants, i, xs, signed, width, early) == VariantSizeOf(variants, i, xs, signed, width, late)
            <==> VariantUnchanged(variants, i, xs, signed, width, early, late)
    decreases variants, 0
  {
    if i == 0 {
      FieldsGrow(variants.head.fields, xs, early, late, true);
    } else {
      VariantGrows(variants.tail, i - 1, xs, signed, width, early, late);
    }
  }

  // Every field is there from version 0 on.
  predicate Steady(d: Desc)
    decreases d
  {
    match d
    case Vec(elem) => Steady(elem)
    case Opt(inner) => Steady(inner)
    case Struct(fields) => SteadyFields(fields)
    case Enum(_, _, variants, _) => SteadyVariants(variants)
    case _ => true
  }

  predicate SteadyFields(fields: List<Field>)
    decreases fields
  {
    match fields
    case Nil => true
    case Cons(f, tail) => f.minVersion <= 0 && f.maxVersion.None? && Steady(f.desc) && SteadyFields(tail)
  }

  predicate SteadyVariants(variants: List<Variant>)
    decreases variants
  {
    match variants
    case Nil => true
    case Cons(v, tail) => SteadyFields(v.fields) && SteadyVariants(tail)
  }

  lemma {:induction false} SteadyJoins(d: Desc)
    requires Steady(d)
    ensures OnlyJoins(d)
    decreases d
  {
    match d
    case Vec(elem) => SteadyJoins(elem);
    case Opt(inner) => SteadyJoins(inner);
    case Struct(fields) => SteadyFieldsJoin(fields);
    case Enum(_, _, variants, _) => SteadyVariantsJoin(variants);
    case _ =>
  }

  lemma {:induction false} SteadyFieldsJoin(fields: List<Field>)
    requires SteadyFields(fields)
    ensures FieldsJoin(fields)
    decreases fields
  {
    if fields.Cons? {
      SteadyJoins(fields.head.desc);
      SteadyFieldsJoin(fields.tail);
    }
  }

  lemma {:induction false} SteadyVariantsJoin(variants: List<Variant>)
    requires SteadyVariants(variants)
    ensures VariantsJoin(variants)
    decreases variants
  {
    if variants.Cons? {
      SteadyFieldsJoin(variants.head.fields);
      SteadyVariantsJoin(variants.tail);
    }
  }

  // A value without version-tested fields is the same at all versions.
  lemma {:induction false} SteadyUnchanged(d: Desc, x: Value, early: int, late: int)
    requires Proper(d) && Typed(d, x) && Steady(d) && 0 <= early <= late
    ensures Unchanged(d, x, early, late)
    decreases d, 0
  {
    match d
    case Vec(elem) => SteadyItems(elem, x.items, early, late);
    case Opt(inner) =>
      if x.content.Some? {
        SteadyUnchanged(inner, x.content.value, early, late);
      }
    case Struct(fields) => SteadyFieldsUnchanged(fields, x.fields, early, late, false);
    case Enum(signed, width, variants, _) => SteadyVariant(variants, x.index, x.payload, signed, width, early, late);
    case _ =>
  }

  lemma {:induction false} SteadyItems(elem: Desc, xs: List<Value>, early: int, late: int)
    requires Proper(elem) && TypedItems(elem, xs) && Steady(elem) && 0 <= early <= late
    ensures ItemsUnchanged(elem, xs, early, late)
    decreases elem, 1, xs
  {
    hide Unchanged;
    if xs.Cons? {
      SteadyUnchanged(elem, xs.head, early, late);
      SteadyItems(elem, xs.tail, early, late);
    }
  }

  lemma {:induction false} SteadyFieldsUnchanged(
    fields: List<Field>, xs: List<Value>, early: int, late: int, inVariant: bool)
    requires ProperFields(fields) && TypedFields(fields, xs) && SteadyFields(fields) && 0 <= early <= late
    ensures FieldsUnchanged(fields, xs, early, late, inVariant)
    decreases fields, 0
  {
    hide Unchanged;
    if fields.Cons? {
      SteadyUnchanged(fields.head.desc, xs.head, early, late);
      SteadyFieldsUnchanged(fields.tail, xs.tail, early, late, inVariant);
    }
  }

  lemma {:induction false} SteadyVariant(
    variants: List<Variant>, i: nat, xs: List<Value>, signed: bool, width: nat, early: int, late: int)
    requires ProperVariants(variants, signed, width) && TypedVariant(variants, i, xs) && SteadyVariants(variants)
    requires 0 <= early <= late
    ensures VariantUnchanged(variants, i, xs, signed, width, early, late)
    decreases variants, 0
  {
    if i == 0 {
      SteadyFieldsUnchanged(variants.head.fields, xs, early, late, true);
    } else {
      SteadyVariant(variants.tail, i - 1, xs, signed, width, early, late);
    }
  }

  lemma {:induction false} SteadySize(d: Desc, x: Value, early: int, late: int)
    requires Proper(d) && Typed(d, x) && Steady(d) && 0 <= early && 0 <= late
    ensures WriteSize(d, x, early) == WriteSize(d, x, late)
  {
    hide Proper, Typed, Steady, WriteSize, Unchanged, OnlyJoins;
    SteadyJoins(d);
    if early <= late {
      SteadyUnchanged(d, x, early, late);
      SizeGrows(d, x, early, late);
    } else {
      SteadyUnchanged(d, x, late, early);
      SizeGrows(d, x, late, early);
    }
  }
}
