/**
 Messages whose description and whose hand-written file_encode go through the same fields: what
 follows for both of them from one comparison of the two lists.
 */
module FileShapes {
  import opened Wrappers
  import opened Bytes
  import opened Codec
  import opened CodecLaws
  import opened CodecVersions
  import opened FileWriters

  // ----- fields -----

  function Always(d: Desc): Field {
    Since(d, 0)
  }

  // A field with min_version and nothing else.
  function Since(d: Desc, version: int): Field {
    Field(d, false, version, None, DefaultOf(d))
  }

  // Numbers, strings, bytes and errors, in fields that have all joined by a version.
  predicate Built(d: Desc, error: Desc, last: int)
    decreases d
  {
    || d == error
    || match d
       case Int(_, width) => width == 1 || width == 2 || width == 4 || width == 8
       case Vec(elem) => Built(elem, error, last)
       case Opt(inner) => Built(inner, error, last)
       case Struct(fields) => BuiltFields(fields, error, last)
       case Enum(_, _, _, _) => false
       case _ => true
  }

  predicate BuiltFields(fields: List<Field>, error: Desc, last: int)
    decreases fields
  {
    match fields
    case Nil => true
    case Cons(f, tail) => Joined(f, last) && Built(f.desc, error, last) && BuiltFields(tail, error, last)
  }

  predicate Joined(f: Field, last: int) {
    f == Since(f.desc, f.minVersion) && 0 <= f.minVersion <= last
  }

  // ----- the comparison -----

  // The steps treat the fields in order, each under its own test.
  predicate Matches(d: Desc, w: Writer, error: Desc, last: int)
    decreases w, 0
  {
    match w
    case WriteSlice => d == Blob
    case WriteEach(elem) => d.Vec? && Matches(d.elem, elem, error, last)
    case WriteSteps(steps) => d.Struct? && MatchesFrom(d.fields, 0, steps, true, error, last)
  }

  // The fields from the i-th on: all of them, or the first ones.
  predicate MatchesFrom(fields: List<Field>, i: nat, steps: List<Step>, whole: bool, error: Desc, last: int)
    decreases steps, 0
  {
    match steps
    case Nil => whole ==> fields.Nil?
    case Cons(s, tail) =>
      && fields.Cons? && s.field == i && MatchesStep(fields.head, s, error, last)
      && MatchesFrom(fields.tail, i + 1, tail, whole, error, last)
  }

  predicate MatchesStep(f: Field, s: Step, error: Desc, last: int)
    decreases s, 0
  {
    && Joined(f, last)
    && match s
       case Copy(_, since) => f.minVersion == FirstVersion(since) && Built(f.desc, error, last)
       case Pass(_, w) => f.minVersion == 0 && Matches(f.desc, w, error, last)
  }

  // ----- what follows for the steps -----

  lemma {:induction false} MatchesFollows(d: Desc, w: Writer, error: Desc, last: int)
    requires Matches(d, w, error, last)
    ensures Follows(d, w) && Complete(d, w)
    decreases w, 0
  {
    match w
    case WriteSlice =>
    case WriteEach(elem) => MatchesFollows(d.elem, elem, error, last);
    case WriteSteps(steps) => StepsFollow(d.fields, 0, steps, true, error, last);
  }

  lemma {:induction false} StepsFollow(
    all: List<Field>, i: nat, steps: List<Step>, whole: bool, error: Desc, last: int)
    requires i <= Length(all) && MatchesFrom(Drop(all, i), i, steps, whole, error, last)
    ensures FollowsFrom(all, i, steps) && i + Length(steps) <= Length(all)
    ensures whole ==> CompleteFrom(all, i, steps)
    decreases steps, Length(all) - i
  {
    hide MatchesStep, Agrees, CompleteStep, Drop;
    if i < Length(all) {
      DropAt(all, i);
      if steps.Cons? {
        StepFollows(At(all, i), steps.head, error, last);
        StepsFollow(all, i + 1, steps.tail, whole, error, last);
      } else {
        StepsFollow(all, i + 1, steps, whole, error, last);
      }
    } else {
      DropAll(all);
    }
  }

  lemma {:induction false} StepFollows(f: Field, s: Step, error: Desc, last: int)
    requires MatchesStep(f, s, error, last)
    ensures Agrees(f, s) && CompleteStep(f, s)
    decreases s, 0
  {
    if s.Pass? {
      MatchesFollows(f.desc, s.writer, error, last);
    }
  }

  // ----- what follows for the description -----

  lemma {:induction false} MatchesBuilt(d: Desc, w: Writer, error: Desc, last: int)
    requires Matches(d, w, error, last)
    ensures Built(d, error, last)
    decreases w, 0
  {
    match w
    case WriteSlice =>
    case WriteEach(elem) => MatchesBuilt(d.elem, elem, error, last);
    case WriteSteps(steps) => StepsBuilt(d.fields, 0, steps, error, last);
  }

  lemma {:induction false} StepsBuilt(fields: List<Field>, i: nat, steps: List<Step>, error: Desc, last: int)
    requires MatchesFrom(fields, i, steps, true, error, last)
    ensures BuiltFields(fields, error, last)
    decreases steps, 0
  {
    hide Built;
    if steps.Cons? {
      StepBuilt(fields.head, steps.head, error, last);
      StepsBuilt(fields.tail, i + 1, steps.tail, error, last);
    }
  }

  lemma {:induction false} StepBuilt(f: Field, s: Step, error: Desc, last: int)
    requires MatchesStep(f, s, error, last)
    ensures Joined(f, last) && Built(f.desc, error, last)
    decreases s, 0
  {
    if s.Pass? {
      MatchesBuilt(f.desc, s.writer, error, last);
    }
  }

  // A description whose defaults are empty, so that decoding into a default restores values.
  predicate Tidy(d: Desc) {
    Proper(d) && Typed(d, DefaultOf(d)) && Clean(d) && Empty(d, DefaultOf(d))
  }

  lemma {:induction false} BuiltTidy(d: Desc, error: Desc, last: int)
    requires Built(d, error, last) && Tidy(error)
    ensures Tidy(d)
    decreases d
  {
    if d != error {
      match d
      case Int(_, _) => Pow256Values();
      case Vec(elem) => BuiltTidy(elem, error, last);
      case Opt(inner) => BuiltTidy(inner, error, last);
      case Struct(fields) => BuiltTidyFields(fields, error, last);
      case _ =>
    }
  }

  lemma {:induction false} BuiltTidyFields(fields: List<Field>, error: Desc, last: int)
    requires BuiltFields(fields, error, last) && Tidy(error)
    ensures ProperFields(fields) && TypedFields(fields, Initials(fields)) && CleanFields(fields)
    ensures EmptyFields(fields, Initials(fields))
    decreases fields
  {
    hide Built;
    if fields.Cons? {
      BuiltTidy(fields.head.desc, error, last);
      BuiltTidyFields(fields.tail, error, last);
      assert ProperField(fields.head);
    }
  }

  lemma {:induction false} BuiltLive(d: Desc, error: Desc, last: int, version: int)
    requires Built(d, error, last) && last <= version && AllLive(error, version)
    ensures AllLive(d, version)
    decreases d
  {
    if d != error {
      match d
      case Vec(elem) => BuiltLive(elem, error, last, version);
      case Opt(inner) => BuiltLive(inner, error, last, version);
      case Struct(fields) => BuiltLiveFields(fields, error, last, version);
      case _ =>
    }
  }

  lemma {:induction false} BuiltLiveFields(fields: List<Field>, error: Desc, last: int, version: int)
    requires BuiltFields(fields, error, last) && last <= version && AllLive(error, version)
    ensures AllLiveFields(fields, version, false)
    decreases fields
  {
    hide Built, AllLive;
    if fields.Cons? {
      BuiltLive(fields.head.desc, error, last, version);
      BuiltLiveFields(fields.tail, error, last, version);
    }
  }

  lemma {:induction false} BuiltSteady(d: Desc, error: Desc)
    requires Built(d, error, 0) && Steady(error)
    ensures Steady(d)
    decreases d
  {
    if d != error {
      match d
      case Vec(elem) => BuiltSteady(elem, error);
      case Opt(inner) => BuiltSteady(inner, error);
      case Struct(fields) => BuiltSteadyFields(fields, error);
      case _ =>
    }
  }

  lemma {:induction false} BuiltSteadyFields(fields: List<Field>, error: Desc)
    requires BuiltFields(fields, error, 0) && Steady(error)
    ensures SteadyFields(fields)
    decreases fields
  {
    hide Built, Steady;
    if fields.Cons? {
      BuiltSteady(fields.head.desc, error);
      BuiltSteadyFields(fields.tail, error);
    }
  }

  // ----- below version 0 -----

  // What the steps write first is a number, a string, a vector or a record set.
  predicate Writes(d: Desc, w: Writer)
    decreases w, 0
  {
    w.WriteSteps? ==>
      && d.Struct? && d.fields.Cons? && w.steps.Cons? && w.steps.head.field == 0
      && WritesStep(d.fields.head, w.steps.head)
  }

  predicate WritesStep(f: Field, s: Step)
    decreases s, 0
  {
    match s
    case Copy(_, since) => since.None? && (f.desc.Int? || f.desc.Str?)
    case Pass(_, w) => Writes(f.desc, w)
  }

  lemma {:induction false} WritesSomething(d: Desc, w: Writer, c: Content, version: int, file: seq<Byte>)
    requires Carries(d, c, file) && Suits(d, w, c) && Writes(d, w)
    ensures Written(d, w, c, version, file) != []
    decreases w, 0
  {
    if w.WriteSteps? {
      var fields, cs, s := d.fields, c.fields, w.steps.head;
      StepWrites(fields, s, cs, version, file);
      hide WrittenStep;
      assert |WrittenSteps(fields, w.steps, cs, version, file)| >= |WrittenStep(fields, s, cs, version, file)|;
    }
  }

  lemma {:induction false} StepWrites(fields: List<Field>, s: Step, cs: List<Content>, version: int, file: seq<Byte>)
    requires CarriesFields(fields, cs, file) && SuitsStep(fields, s, cs) && s.field == 0
    requires fields.Cons? && WritesStep(fields.head, s)
    ensures |WrittenStep(fields, s, cs, version, file)| > 0
    decreases s, 0
  {
    CarriedAt(fields, cs, 0, file);
    assert At(fields, 0) == fields.head;
    if s.Pass? {
      WritesSomething(fields.head.desc, s.writer, At(cs, 0), version, file);
    }
  }

  lemma {:induction false} DeadBelowZero(
    fields: List<Field>, xs: List<Value>, error: Desc, last: int, version: int)
    requires ProperFields(fields) && TypedFields(fields, xs) && BuiltFields(fields, error, last) && version < 0
    ensures EncodeFields(fields, xs, version, false) == []
    decreases fields
  {
    hide Built, Encode;
    if fields.Cons? {
      DeadBelowZero(fields.tail, xs.tail, error, last, version);
    }
  }

  // ----- steps that leave the last fields out -----

  // What is left out are the fields behind the steps.
  lemma {:induction false} LeadMissing(
    all: List<Field>, i: nat, steps: List<Step>, cs: List<Content>, error: Desc, last: int,
    version: int, file: seq<Byte>)
    requires i + Length(steps) <= Length(all) == Length(cs) && CarriesFields(all, cs, file)
    requires SuitsSteps(all, steps, cs) && FollowsFrom(all, i, steps)
    requires MatchesFrom(Drop(all, i), i, steps, false, error, last) && version >= 0
    ensures var n := i + Length(steps);
            && ProperFields(Drop(all, n)) && TypedFields(Drop(all, n), Drop(ReadAll(cs, file), n))
            && MissingFrom(all, i, steps, cs, version, file) ==
                 FieldsSize(Drop(all, n), Drop(ReadAll(cs, file), n), version, false)
    decreases steps
  {
    hide MatchesStep, Agrees, MissingStep, FieldSize, FieldsSize, SuitsStep, CarriesFields, ReadAll;
    RestCarried(all, cs, i + Length(steps), file);
    if steps.Nil? {
      NilMissing(all, i, cs, version, file);
    } else {
      DropAt(all, i);
      StepMissesNothing(all, steps.head, cs, error, last, version, file);
      LeadMissing(all, i + 1, steps.tail, cs, error, last, version, file);
    }
  }

  lemma {:induction false} NilMissing(all: List<Field>, i: nat, cs: List<Content>, version: int, file: seq<Byte>)
    requires i <= Length(all) == Length(cs) && CarriesFields(all, cs, file) && FollowsFrom(all, i, Nil)
    ensures ProperFields(Drop(all, i)) && TypedFields(Drop(all, i), Drop(ReadAll(cs, file), i))
    ensures MissingFrom(all, i, Nil, cs, version, file) ==
            FieldsSize(Drop(all, i), Drop(ReadAll(cs, file), i), version, false)
    decreases Length(all) - i
  {
    hide FieldSize, CarriesFields, Drop;
    RestCarried(all, cs, i, file);
    if i < Length(all) {
      RestUnfolds(all, cs, i, version, file);
      NilMissing(all, i + 1, cs, version, file);
    } else {
      DropAll(all);
      DropAll(ReadAll(cs, file));
    }
  }

  lemma {:induction false} StepMissesNothing(
    fields: List<Field>, s: Step, cs: List<Content>, error: Desc, last: int, version: int, file: seq<Byte>)
    requires CarriesFields(fields, cs, file) && SuitsStep(fields, s, cs)
    requires Agrees(At(fields, s.field), s) && MatchesStep(At(fields, s.field), s, error, last) && version >= 0
    ensures MissingStep(fields, s, cs, version, file) == 0
  {
    hide CarriesFields, Suits, Follows, Complete, Written, Missing, Encode, WriteSize, Matches;
    CarriedAt(fields, cs, s.field, file);
    if s.Pass? {
      var d, c := At(fields, s.field).desc, At(cs, s.field);
      MatchesFollows(d, s.writer, error, last);
      WriterDifference(d, s.writer, c, version, file);
      WriteSizeIsLength(d, Read(c, file), version);
    }
  }

  // The fields that have a step take the same bytes at all versions, if they are there from version 0 on.
  lemma {:induction false} LeadSteady(
    all: List<Field>, i: nat, steps: List<Step>, cs: List<Content>, error: Desc,
    early: int, late: int, file: seq<Byte>)
    requires i + Length(steps) <= Length(all) == Length(cs) && CarriesFields(all, cs, file)
    requires MatchesFrom(Drop(all, i), i, steps, false, error, 0) && Steady(error) && 0 <= early && 0 <= late
    ensures var n, xs := i + Length(steps), ReadAll(cs, file);
            && ProperFields(Drop(all, i)) && TypedFields(Drop(all, i), Drop(xs, i))
            && ProperFields(Drop(all, n)) && TypedFields(Drop(all, n), Drop(xs, n))
            && FieldsSize(Drop(all, i), Drop(xs, i), early, false)
               + FieldsSize(Drop(all, n), Drop(xs, n), late, false) ==
               FieldsSize(Drop(all, i), Drop(xs, i), late, false)
               + FieldsSize(Drop(all, n), Drop(xs, n), early, false)
    decreases steps
  {
    hide MatchesStep, FieldSize, FieldsSize, CarriesFields, ReadAll, Drop, ProperFields, TypedFields, PlacedAll;
    RestCarried(all, cs, i, file);
    RestCarried(all, cs, i + Length(steps), file);
    if steps.Cons? {
      DropAt(all, i);
      StepBuilt(At(all, i), steps.head, error, 0);
      FieldSteady(all, cs, i, error, early, late, file);
      LeadSteady(all, i + 1, steps.tail, cs, error, early, late, file);
    }
  }

  // One field of the rest at both versions.
  lemma {:induction false} FieldSteady(
    all: List<Field>, cs: List<Content>, i: nat, error: Desc, early: int, late: int, file: seq<Byte>)
    requires CarriesFields(all, cs, file) && i < Length(all) == Length(cs)
    requires Joined(At(all, i), 0) && Built(At(all, i).desc, error, 0) && Steady(error) && 0 <= early && 0 <= late
    ensures var xs := ReadAll(cs, file);
            && ProperFields(Drop(all, i)) && TypedFields(Drop(all, i), Drop(xs, i))
            && ProperFields(Drop(all, i + 1)) && TypedFields(Drop(all, i + 1), Drop(xs, i + 1))
            && FieldsSize(Drop(all, i), Drop(xs, i), early, false)
               + FieldsSize(Drop(all, i + 1), Drop(xs, i + 1), late, false) ==
               FieldsSize(Drop(all, i), Drop(xs, i), late, false)
               + FieldsSize(Drop(all, i + 1), Drop(xs, i + 1), early, false)
  {
    hide FieldSize, FieldsSize, Drop, ProperFields, TypedFields, ReadAll, Built, Steady;
    RestUnfolds(all, cs, i, early, file);
    RestUnfolds(all, cs, i, late, file);
    SteadyFieldSize(At(all, i), Read(At(cs, i), file), error, early, late);
  }

  lemma {:induction false} SteadyFieldSize(f: Field, x: Value, error: Desc, early: int, late: int)
    requires ProperField(f) && Typed(f.desc, x) && Joined(f, 0) && Built(f.desc, error, 0) && Steady(error)
    requires 0 <= early && 0 <= late
    ensures FieldSize(f, x, early, false) == FieldSize(f, x, late, false)
  {
    hide Built, Steady, WriteSize;
    BuiltSteady(f.desc, error);
    SteadySize(f.desc, x, early, late);
  }
}
