// How far the compatibility relation may refuse or hesitate
// (crates/htlk-analyzer/src/type_check.rs:424-445, 1847-2010).

module CompatibilityExact {
  import opened Wrappers
  import opened Types
  import opened Values
  import opened Compatibility
  import opened CompatibilitySound
  import opened Disjointness

  // ---- A shared full value is never refused ----

  /**
   * A value that shows every part of its type: no empty list or map, and only declared
   * fields in records.
   */
  ghost predicate Full(w: World, v: Value, t: Ty)
    decreases t
  {
    match t
    case Builtin(p) => HasBuiltin(w, v, p) && (p.PError? ==> v.entries.Keys <= {"code", "message"})
    case List(item) => v.Array? && v.items != [] && forall x :: x in v.items ==> Full(w, x, item)
    case Map(item) => v.Map? && v.entries != map[] && forall key :: key in v.entries ==> Full(w, v.entries[key], item)
    case Record(fields) =>
      && v.Map? && (forall key :: key in v.entries ==> Lookup(fields, key).Some?)
      && forall f :: f in fields ==> FullPort(w, Member(v.entries, f.name), f.port)
    case Union(members) => exists m :: m in members && Full(w, v, m)
    case Enum(_) => Has(w, v, t)
    case Schema(_) => Has(w, v, t)
    case Var(_) => Has(w, v, t)
    case Function(_, _) => false
  }

  ghost predicate FullPort(w: World, v: Option<Value>, port: Port)
    decreases port, 0
  {
    match v
    case None => !port.required
    case Some(x) => Full(w, x, port.ty)
  }

  lemma {:induction false} FullHas(w: World, v: Value, t: Ty)
    requires Full(w, v, t)
    ensures Has(w, v, t)
    decreases t
  {
    match t
    case List(item) =>
      forall x | x in v.items
        ensures Has(w, x, item)
      {
        FullHas(w, x, item);
      }
    case Map(item) =>
      forall key | key in v.entries
        ensures Has(w, v.entries[key], item)
      {
        FullHas(w, v.entries[key], item);
      }
    case Record(fields) =>
      forall f | f in fields
        ensures HasPort(w, Member(v.entries, f.name), f.port)
      {
        assert FullPort(w, Member(v.entries, f.name), f.port);
        if f.name in v.entries {
          FullHas(w, v.entries[f.name], f.port.ty);
        }
      }
    case Union(members) =>
      var m :| m in members && Full(w, v, m);
      FullHas(w, v, m);
    case Builtin(_) =>
    case Enum(_) =>
    case Schema(_) =>
    case Var(_) =>
    case Function(_, _) =>
  }

  /** Types that share a full value of the actual one are not refused. */
  lemma {:induction false} FullNotNever(hints: Hints, w: World, v: Value, actual: Ty, expected: Ty)
    requires HintsSound(w, hints) && Full(w, v, actual) && Has(w, v, expected)
    ensures !Compatible(hints, actual, expected).Never?
    decreases Depth(map[], actual) + Depth(map[], expected), 1
  {
    hide Compatible, RefinedFamilies, Families, Depth;
    FullHas(w, v, actual);
    if actual == expected {
      SameIsYes(hints, actual);
    } else if actual.Union? {
      var m :| m in actual.members && Full(w, v, m);
      MemberDepth(actual, m);
      FullNotNever(hints, w, v, m, expected);
      SomeActualMember(hints, actual, expected, m);
    } else if expected.Union? {
      var m :| m in expected.members && Has(w, v, m);
      MemberDepth(expected, m);
      FullNotNever(hints, w, v, actual, m);
      SomeExpectedMember(hints, actual, expected, m);
    } else {
      SharedValueSharedFamily(w, hints, v, actual, expected);
      FullInside(hints, w, v, actual, expected);
    }
  }

  lemma SameIsYes(hints: Hints, t: Ty)
    ensures Compatible(hints, t, t).Yes?
  {
  }

  lemma MemberDepth(t: Ty, m: Ty)
    requires t.Union? && m in t.members
    ensures Depth(map[], m) < Depth(map[], t)
  {
    assert m in Children(t);
  }

  lemma ChildDepth(t: Ty, c: Ty)
    requires c in Children(t)
    ensures Depth(map[], c) < Depth(map[], t)
  {
  }

  lemma SomeActualMember(hints: Hints, actual: Ty, expected: Ty, m: Ty)
    requires actual.Union? && actual != expected && m in actual.members
    requires !Compatible(hints, m, expected).Never?
    ensures !Compatible(hints, actual, expected).Never?
  {
    var verdicts := set x | x in actual.members :: Compatible(hints, x, expected);
    assert Compatible(hints, actual, expected) == EveryMember(verdicts);
    hide Compatible;
    assert Compatible(hints, m, expected) in verdicts;
  }

  lemma SomeExpectedMember(hints: Hints, actual: Ty, expected: Ty, m: Ty)
    requires !actual.Union? && expected.Union? && actual != expected && m in expected.members
    requires !Compatible(hints, actual, m).Never?
    ensures !Compatible(hints, actual, expected).Never?
  {
    var verdicts := set x | x in expected.members :: Compatible(hints, actual, x);
    assert Compatible(hints, actual, expected) == SomeMember(verdicts);
    hide Compatible;
    assert Compatible(hints, actual, m) in verdicts;
  }

  /** The relation on types that share a family and are no unions. */
  lemma InsideIs(hints: Hints, actual: Ty, expected: Ty)
    requires actual != expected && !actual.Union? && !expected.Union?
    requires RefinedFamilies(hints, actual) * RefinedFamilies(hints, expected) != {}
    ensures Compatible(hints, actual, expected) ==
      if actual.Enum? && expected.Enum? then EnumMatch(actual.names, expected.names)
      else if actual.Enum? && expected == Builtin(PString) then Yes
      else if expected == Builtin(PJson) then JsonMatch(actual)
      else if actual == Builtin(PJson) || actual.Schema? || expected.Schema? then Runtime
      else Structural(hints, actual, expected)
  {
    hide Structural, RefinedFamilies;
  }

  lemma {:induction false} FullInside(hints: Hints, w: World, v: Value, actual: Ty, expected: Ty)
    requires HintsSound(w, hints) && Full(w, v, actual) && Has(w, v, expected)
    requires actual != expected && !actual.Union? && !expected.Union?
    requires RefinedFamilies(hints, actual) * RefinedFamilies(hints, expected) != {}
    ensures !Compatible(hints, actual, expected).Never?
    decreases Depth(map[], actual) + Depth(map[], expected), 0
  {
    hide Compatible, RefinedFamilies, Families, Depth, Structural;
    InsideIs(hints, actual, expected);
    if actual.Enum? && expected.Enum? {
      assert v.text in actual.names * expected.names;
    } else if (actual.List? && expected.List?) || (actual.Map? && expected.Map?) {
      FullItems(hints, w, v, actual, expected);
    } else if actual.Record? && expected.Record? {
      FullRecords(hints, w, v, actual, expected);
    } else if actual.Record? && expected.Map? {
      FullRecordMap(hints, w, v, actual, expected);
    } else if actual.Map? && expected.Record? {
      FullMapRecord(hints, w, v, actual, expected);
    } else if Expands(actual) && expected.Record? {
      FullExpanded(w, v, actual);
      ExpandedDepth(actual);
      FullNotNever(hints, w, v, TextRecord(BuiltinFields(actual)), expected);
      StructuralExpanded(hints, actual, expected);
    } else if actual.Record? && expected == Builtin(PError) {
      ExpansionSound(w, v, PError);
      ExpandedDepth(expected);
      FullNotNever(hints, w, v, actual, TextRecord(BuiltinFields(expected)));
      StructuralContracted(hints, actual, expected);
    } else {
      StructuralOtherwise(hints, actual, expected);
    }
  }

  lemma ExpandedDepth(t: Ty)
    requires Expands(t)
    ensures Depth(map[], TextRecord(BuiltinFields(t))) < Depth(map[], t)
  {
    TextRecordDepth(map[], BuiltinFields(t));
  }

  lemma StructuralExpanded(hints: Hints, actual: Ty, expected: Ty)
    requires Expands(actual) && expected.Record?
    ensures Structural(hints, actual, expected) == Compatible(hints, TextRecord(BuiltinFields(actual)), expected)
  {
    hide Compatible;
  }

  lemma StructuralContracted(hints: Hints, actual: Ty, expected: Ty)
    requires actual.Record? && expected == Builtin(PError)
    ensures Structural(hints, actual, expected) == Compatible(hints, actual, TextRecord(BuiltinFields(expected)))
  {
    hide Compatible;
  }

  lemma StructuralOtherwise(hints: Hints, actual: Ty, expected: Ty)
    requires !(actual.List? && expected.List?) && !(actual.Map? && expected.Map?)
    requires !(actual.Record? && (expected.Record? || expected.Map?)) && !(actual.Map? && expected.Record?)
    requires !(Expands(actual) && expected.Record?) && !(actual.Record? && expected == Builtin(PError))
    requires !actual.Function?
    ensures Structural(hints, actual, expected).Runtime?
  {
  }

  lemma FullExpanded(w: World, v: Value, t: Ty)
    requires Expands(t) && Full(w, v, t)
    ensures Full(w, v, TextRecord(BuiltinFields(t)))
  {
    var names := BuiltinFields(t);
    var fields := TextRecord(names).fields;
    LookupText(names);
    forall f | f in fields
      ensures FullPort(w, Member(v.entries, f.name), f.port)
    {
      assert f.name in names;
    }
  }

  lemma LookupText(names: seq<string>)
    requires |names| == 2
    ensures forall key :: key in names ==> Lookup(TextRecord(names).fields, key).Some?
  {
    var fields := TextRecord(names).fields;
    assert fields == [fields[0], fields[1]];
    forall key | key in names
      ensures Lookup(fields, key).Some?
    {
      assert fields[0] in fields && fields[1] in fields;
    }
  }

  lemma {:induction false} FullItems(hints: Hints, w: World, v: Value, actual: Ty, expected: Ty)
    requires HintsSound(w, hints) && Full(w, v, actual) && Has(w, v, expected)
    requires (actual.List? && expected.List?) || (actual.Map? && expected.Map?)
    ensures !Structural(hints, actual, expected).Never?
    decreases Depth(map[], actual) + Depth(map[], expected), 0, 0
  {
    ChildDepth(actual, actual.item);
    ChildDepth(expected, expected.item);
    hide Compatible, Depth;
    if actual.List? {
      assert v.items[0] in v.items;
      FullNotNever(hints, w, v.items[0], actual.item, expected.item);
    } else {
      var key :| key in v.entries;
      FullNotNever(hints, w, v.entries[key], actual.item, expected.item);
    }
  }

  lemma {:induction false} FullRecords(hints: Hints, w: World, v: Value, actual: Ty, expected: Ty)
    requires HintsSound(w, hints) && Full(w, v, actual) && Has(w, v, expected)
    requires actual.Record? && expected.Record?
    ensures !Structural(hints, actual, expected).Never?
    decreases Depth(map[], actual) + Depth(map[], expected), 0, 1
  {
    var verdicts := set f | f in expected.fields :: RecordField(hints, actual, expected, f);
    assert Structural(hints, actual, expected) == Worst(verdicts);
    hide Structural, RecordField, Depth;
    forall f | f in expected.fields
      ensures !RecordField(hints, actual, expected, f).Never?
    {
      FullField(hints, w, v, actual, expected, f);
    }
  }

  lemma {:induction false} FullField(hints: Hints, w: World, v: Value, actual: Ty, expected: Ty, f: Field)
    requires HintsSound(w, hints) && Full(w, v, actual) && Has(w, v, expected)
    requires actual.Record? && expected.Record? && f in expected.fields
    ensures !RecordField(hints, actual, expected, f).Never?
    decreases Depth(map[], actual) + Depth(map[], expected), 0, 0
  {
    hide Compatible, Depth;
    assert HasPort(w, Member(v.entries, f.name), f.port);
    var supplied := Lookup(actual.fields, f.name);
    if supplied.Some? && f.name in v.entries {
      var g := Field(f.name, supplied.value);
      assert g in actual.fields;
      assert FullPort(w, Member(v.entries, g.name), g.port);
      ChildDepth(actual, g.port.ty);
      ChildDepth(expected, f.port.ty);
      FullNotNever(hints, w, v.entries[f.name], supplied.value.ty, f.port.ty);
    } else if supplied.Some? {
      var g := Field(f.name, supplied.value);
      assert g in actual.fields;
      assert FullPort(w, Member(v.entries, g.name), g.port);
    }
  }

  lemma {:induction false} FullRecordMap(hints: Hints, w: World, v: Value, actual: Ty, expected: Ty)
    requires HintsSound(w, hints) && Full(w, v, actual) && Has(w, v, expected)
    requires actual.Record? && expected.Map?
    ensures !Structural(hints, actual, expected).Never?
    decreases Depth(map[], actual) + Depth(map[], expected), 0, 0
  {
    ChildDepth(expected, expected.item);
    hide Compatible, Depth;
    forall f | f in actual.fields && f.port.required
      ensures !Compatible(hints, f.port.ty, expected.item).Never?
    {
      assert FullPort(w, Member(v.entries, f.name), f.port);
      ChildDepth(actual, f.port.ty);
      FullNotNever(hints, w, v.entries[f.name], f.port.ty, expected.item);
    }
  }

  lemma {:induction false} FullMapRecord(hints: Hints, w: World, v: Value, actual: Ty, expected: Ty)
    requires HintsSound(w, hints) && Full(w, v, actual) && Has(w, v, expected)
    requires actual.Map? && expected.Record?
    ensures !Structural(hints, actual, expected).Never?
    decreases Depth(map[], actual) + Depth(map[], expected), 0, 0
  {
    ChildDepth(actual, actual.item);
    hide Compatible, Depth;
    forall f | f in expected.fields
      ensures !MapField(Compatible(hints, actual.item, f.port.ty), f.port.required).Never?
    {
      assert HasPort(w, Member(v.entries, f.name), f.port);
      if f.name in v.entries {
        ChildDepth(expected, f.port.ty);
        FullNotNever(hints, w, v.entries[f.name], actual.item, f.port.ty);
      }
    }
  }

  /** A plain constraint is not refused while some full value of the producer would pass. */
  lemma PlainNotRefused(hints: Hints, w: World, v: Value, actual: Port, expected: Port)
    requires HintsSound(w, hints) && Full(w, v, actual.ty) && Has(w, v, expected.ty)
    ensures Discharge(hints, actual, expected, false).Some?
  {
    hide Compatible, Has, Full;
    FullNotNever(hints, w, v, actual.ty, expected.ty);
  }

  // ---- Yes is exactly inclusion, where members of unions can be told apart ----

  /** Concrete all the way down, with some value of every part. */
  predicate Solid(t: Ty) {
    match t
    case Builtin(p) => p in SCALARS
    case List(item) => Solid(item)
    case Map(item) => Solid(item)
    case Record(fields) => DistinctNames(fields) && forall f :: f in fields ==> Solid(f.port.ty)
    case Union(members) => members != {} && forall m :: m in members ==> Solid(m)
    case Enum(names) => names != {}
    case Schema(_) => false
    case Var(_) => false
    case Function(_, _) => false
  }

  /** Members of a union have different families, so that a value fits at most one of them. */
  predicate Clear(t: Ty) {
    match t
    case Builtin(p) => p in SCALARS
    case List(item) => Clear(item)
    case Map(item) => Clear(item)
    case Record(fields) => DistinctNames(fields) && forall f :: f in fields ==> Clear(f.port.ty)
    case Union(members) =>
      && (forall m :: m in members ==> !m.Union? && Clear(m))
      && forall m, n :: m in members && n in members && m != n ==> Families(m) * Families(n) == {}
    case Enum(_) => true
    case Schema(_) => false
    case Var(_) => false
    case Function(_, _) => false
  }

  ghost predicate Included(w: World, a: Ty, e: Ty) {
    forall v :: Has(w, v, a) ==> Has(w, v, e)
  }

  /** Some value of `a` is no value of `e`. */
  ghost predicate Outside(w: World, a: Ty, e: Ty) {
    exists v :: Has(w, v, a) && !Has(w, v, e)
  }

  lemma {:induction false} SolidInhabited(w: World, t: Ty)
    requires Solid(t)
    ensures exists v :: Has(w, v, t)
  {
    SolidConcrete(t);
    Inhabited(w, t);
  }

  lemma {:induction false} SolidConcrete(t: Ty)
    requires Solid(t)
    ensures Concrete(t)
  {
    match t
    case Map(item) => SolidConcrete(item);
    case Record(fields) =>
      forall f | f in fields
        ensures Concrete(f.port.ty)
      {
        SolidConcrete(f.port.ty);
      }
    case Union(members) =>
      forall m | m in members
        ensures Concrete(m)
      {
        SolidConcrete(m);
      }
    case Builtin(_) =>
    case List(_) =>
    case Enum(_) =>
    case Schema(_) =>
    case Var(_) =>
    case Function(_, _) =>
  }

  /** Concrete types hold no callables, so that no type of this kind holds everything. */
  lemma {:induction false} NoCallable(w: World, t: Ty)
    requires Clear(t)
    ensures !Has(w, Callable(0), t)
  {
    if t.Union? {
      forall m | m in t.members
        ensures !Has(w, Callable(0), m)
      {
        NoCallable(w, m);
      }
    }
  }

  lemma {:induction false} TextBound(names: set<string>) returns (n: nat)
    ensures forall s :: s in names ==> |s| <= n
  {
    if names == {} {
      n := 0;
    } else {
      var s :| s in names;
      var m := TextBound(names - {s});
      n := if m < |s| then |s| else m;
    }
  }

  /** Finitely many texts leave some out. */
  lemma FreshText(names: set<string>) returns (s: string)
    ensures s !in names
  {
    var n := TextBound(names);
    s := seq(n + 1, i => 'x');
  }

  // ---- Records with chosen fields ----

  /** A record value with a value for every required name, and none else. */
  lemma SampleRecord(w: World, fields: seq<Field>) returns (entries: map<string, Value>)
    requires Solid(Record(fields))
    ensures entries.Keys == Required(fields) && Has(w, Value.Map(entries), Record(fields))
  {
    forall name | name in Required(fields)
      ensures exists v :: Suits(w, fields, name, v)
    {
      var f :| f in fields && f.name == name;
      SolidInhabited(w, f.port.ty);
      var v :| Has(w, v, f.port.ty);
      assert Suits(w, fields, name, v);
    }
    entries := map name | name in Required(fields) :: (var v :| Suits(w, fields, name, v); v);
    RecordOf(w, fields, entries);
  }

  /** Setting one name to a value that suits it keeps the record type. */
  lemma SetField(w: World, fields: seq<Field>, entries: map<string, Value>, name: string, v: Value)
    requires Has(w, Value.Map(entries), Record(fields)) && Suits(w, fields, name, v)
    ensures Has(w, Value.Map(entries[name := v]), Record(fields))
  {
    forall f | f in fields
      ensures HasPort(w, Member(entries[name := v], f.name), f.port)
    {
      assert HasPort(w, Member(entries, f.name), f.port);
    }
  }

  lemma NotThere(w: World, v: Value, fields: seq<Field>, f: Field)
    requires f in fields && v.Map? && !HasPort(w, Member(v.entries, f.name), f.port)
    ensures !Has(w, v, Record(fields))
  {
  }

  // ---- Something is left out whenever the answer is not yes ----

  /** A type that is no union has one family. */
  function OneFamily(t: Ty): Family
    requires (Solid(t) || Clear(t)) && !t.Union?
  {
    match t
    case Builtin(p) => (
      match p
      case PNull => NullF
      case PBoolean => BoolF
      case PInteger => IntF
      case PFloat => FloatF
      case PString => TextF
      case _ => BytesF)
    case Enum(_) => TextF
    case List(_) => ArrayF
    case Map(_) => ObjectF
    case Record(_) => ObjectF
    case _ => FunctionF
  }

  lemma OneFamilyIs(hints: Hints, t: Ty)
    requires (Solid(t) || Clear(t)) && !t.Union?
    ensures Families(t) == {OneFamily(t)} && RefinedFamilies(hints, t) == {OneFamily(t)}
  {
  }

  lemma {:induction false} LeftOut(hints: Hints, w: World, a: Ty, e: Ty)
    requires Solid(a) && Clear(e) && !Compatible(hints, a, e).Yes?
    ensures Outside(w, a, e)
    decreases Depth(map[], a) + Depth(map[], e), 1
  {
    hide Compatible, RefinedFamilies, Families, Depth, Has;
    if a == e {
      SameIsYes(hints, a);
    } else if a.Union? {
      var m := OtherActual(hints, a, e);
      MemberDepth(a, m);
      LeftOut(hints, w, m, e);
      OutsideUnion(w, a, m, e);
    } else if e.Union? {
      LeftOutOfUnion(hints, w, a, e);
    } else {
      OneFamilyIs(hints, a);
      OneFamilyIs(hints, e);
      if OneFamily(a) != OneFamily(e) {
        OtherFamily(w, a, e);
      } else {
        LeftOutInside(hints, w, a, e);
      }
    }
  }

  lemma OtherActual(hints: Hints, a: Ty, e: Ty) returns (m: Ty)
    requires a.Union? && a != e && a.members != {} && !Compatible(hints, a, e).Yes?
    ensures m in a.members && !Compatible(hints, m, e).Yes?
  {
    var verdicts := set x | x in a.members :: Compatible(hints, x, e);
    assert Compatible(hints, a, e) == EveryMember(verdicts);
    hide Compatible;
    var other :| other in verdicts && other != Yes;
    m :| m in a.members && Compatible(hints, m, e) == other;
  }

  lemma OutsideUnion(w: World, a: Ty, m: Ty, e: Ty)
    requires a.Union? && m in a.members && Outside(w, m, e)
    ensures Outside(w, a, e)
  {
    var v :| Has(w, v, m) && !Has(w, v, e);
    assert Has(w, v, a);
  }

  lemma OtherFamily(w: World, a: Ty, e: Ty)
    requires Solid(a) && Clear(e) && !a.Union? && !e.Union? && OneFamily(a) != OneFamily(e)
    ensures Outside(w, a, e)
  {
    hide Has, Families;
    SolidInhabited(w, a);
    var v :| Has(w, v, a);
    OneFamilyIs(None, a);
    OneFamilyIs(None, e);
    FamiliesSound(w, v, a);
    if Has(w, v, e) {
      FamiliesSound(w, v, e);
    }
  }

  lemma NoExpected(hints: Hints, a: Ty, e: Ty)
    requires !a.Union? && e.Union? && a != e && !Compatible(hints, a, e).Yes?
    ensures forall m :: m in e.members ==> !Compatible(hints, a, m).Yes?
  {
    var verdicts := set x | x in e.members :: Compatible(hints, a, x);
    assert Compatible(hints, a, e) == SomeMember(verdicts);
    hide Compatible;
    forall m | m in e.members
      ensures !Compatible(hints, a, m).Yes?
    {
      assert Compatible(hints, a, m) in verdicts;
    }
  }

  lemma {:induction false} LeftOutOfUnion(hints: Hints, w: World, a: Ty, e: Ty)
    requires Solid(a) && Clear(e) && !a.Union? && e.Union? && a != e && !Compatible(hints, a, e).Yes?
    ensures Outside(w, a, e)
    decreases Depth(map[], a) + Depth(map[], e), 0
  {
    hide Compatible, RefinedFamilies, Families, Depth, Has;
    NoExpected(hints, a, e);
    if m :| m in e.members && OneFamily(m) == OneFamily(a) {
      MemberDepth(e, m);
      LeftOut(hints, w, a, m);
      var v :| Has(w, v, a) && !Has(w, v, m);
      OutsideOthers(w, v, a, e, m);
    } else {
      SolidInhabited(w, a);
      var v :| Has(w, v, a);
      OutsideAll(w, v, a, e);
    }
  }

  lemma OutsideOthers(w: World, v: Value, a: Ty, e: Ty, m: Ty)
    requires Solid(a) && Clear(e) && !a.Union? && e.Union? && m in e.members && OneFamily(m) == OneFamily(a)
    requires Has(w, v, a) && !Has(w, v, m)
    ensures Outside(w, a, e)
  {
    hide Families;
    OneFamilyIs(None, a);
    FamiliesSound(w, v, a);
    OneFamilyIs(None, m);
    forall n | n in e.members && n != m
      ensures OneFamily(n) != OneFamily(m)
    {
      OneFamilyIs(None, n);
      assert OneFamily(n) in Families(m) * Families(n) <==> OneFamily(n) == OneFamily(m);
    }
    if n :| n in e.members && Has(w, v, n) {
      FamiliesSound(w, v, n);
      OneFamilyIs(None, n);
    }
  }

  lemma OutsideAll(w: World, v: Value, a: Ty, e: Ty)
    requires Solid(a) && Clear(e) && !a.Union? && e.Union? && Has(w, v, a)
    requires forall m :: m in e.members ==> OneFamily(m) != OneFamily(a)
    ensures Outside(w, a, e)
  {
    hide Families;
    OneFamilyIs(None, a);
    FamiliesSound(w, v, a);
    if n :| n in e.members && Has(w, v, n) {
      FamiliesSound(w, v, n);
      OneFamilyIs(None, n);
    }
  }

  lemma {:induction false} LeftOutInside(hints: Hints, w: World, a: Ty, e: Ty)
    requires Solid(a) && Clear(e) && !a.Union? && !e.Union? && a != e && !Compatible(hints, a, e).Yes?
    requires OneFamily(a) == OneFamily(e)
    ensures Outside(w, a, e)
    decreases Depth(map[], a) + Depth(map[], e), 0
  {
    hide Compatible, RefinedFamilies, Families, Depth, Structural;
    OneFamilyIs(hints, a);
    OneFamilyIs(hints, e);
    assert OneFamily(a) in RefinedFamilies(hints, a) * RefinedFamilies(hints, e);
    InsideIs(hints, a, e);
    if (a.List? && e.List?) || (a.Map? && e.Map?) {
      LeftOutItems(hints, w, a, e);
    } else if a.Record? && e.Record? {
      LeftOutRecords(hints, w, a, e);
    } else if a.Record? && e.Map? {
      LeftOutRecordMap(w, a, e);
    } else if a.Map? && e.Record? {
      LeftOutMapRecord(hints, w, a, e);
    } else {
      LeftOutTexts(w, a, e);
    }
  }

  lemma LeftOutTexts(w: World, a: Ty, e: Ty)
    requires Solid(a) && Clear(e) && !a.Union? && !e.Union? && OneFamily(a) == OneFamily(e) && a != e
    requires a.Builtin? || a.Enum?
    requires a.Enum? && e.Enum? ==> !(a.names <= e.names)
    requires !(a.Enum? && e == Builtin(PString))
    ensures Outside(w, a, e)
  {
    if a.Enum? {
      var name :| name in a.names && name !in e.names;
      assert Has(w, Text(name), a) && !Has(w, Text(name), e);
    } else {
      var name := FreshText(e.names);
      assert Has(w, Text(name), a) && !Has(w, Text(name), e);
    }
  }

  lemma {:induction false} LeftOutItems(hints: Hints, w: World, a: Ty, e: Ty)
    requires Solid(a) && Clear(e) && !Structural(hints, a, e).Yes?
    requires (a.List? && e.List?) || (a.Map? && e.Map?)
    ensures Outside(w, a, e)
    decreases Depth(map[], a) + Depth(map[], e), 0, 0
  {
    ChildDepth(a, a.item);
    ChildDepth(e, e.item);
    hide Compatible, Depth;
    LeftOut(hints, w, a.item, e.item);
    var v :| Has(w, v, a.item) && !Has(w, v, e.item);
    if a.List? {
      var whole := Array([v]);
      assert v in whole.items;
      assert Has(w, whole, a) && !Has(w, whole, e);
    } else {
      var whole := Value.Map(map["" := v]);
      assert whole.entries[""] == v;
      assert Has(w, whole, a) && !Has(w, whole, e);
    }
  }

  lemma {:induction false} LeftOutRecords(hints: Hints, w: World, a: Ty, e: Ty)
    requires Solid(a) && Clear(e) && a.Record? && e.Record? && !Structural(hints, a, e).Yes?
    ensures Outside(w, a, e)
    decreases Depth(map[], a) + Depth(map[], e), 0, 1
  {
    var verdicts := set f | f in e.fields :: RecordField(hints, a, e, f);
    assert Structural(hints, a, e) == Worst(verdicts);
    hide Structural, RecordField, Depth;
    var verdict :| verdict in verdicts && verdict != Yes;
    var f :| f in e.fields && RecordField(hints, a, e, f) == verdict;
    LeftOutField(hints, w, a, e, f);
  }

  lemma {:induction false} LeftOutField(hints: Hints, w: World, a: Ty, e: Ty, f: Field)
    requires Solid(a) && Clear(e) && a.Record? && e.Record? && f in e.fields && !RecordField(hints, a, e, f).Yes?
    ensures Outside(w, a, e)
    decreases Depth(map[], a) + Depth(map[], e), 0, 0
  {
    hide Compatible, Depth, Has;
    var entries := SampleRecord(w, a.fields);
    var supplied := Lookup(a.fields, f.name);
    if supplied.None? {
      NoCallable(w, f.port.ty);
      assert Suits(w, a.fields, f.name, Callable(0));
      WithField(w, a, e, f, entries, Callable(0));
    } else {
      var g := Field(f.name, supplied.value);
      assert g in a.fields;
      if Compatible(hints, supplied.value.ty, f.port.ty).Yes? {
        assert f.port.required && !g.port.required;
        WithoutField(w, a, e, f, g, entries);
      } else {
        ChildDepth(a, g.port.ty);
        ChildDepth(e, f.port.ty);
        LeftOut(hints, w, g.port.ty, f.port.ty);
        var v :| Has(w, v, g.port.ty) && !Has(w, v, f.port.ty);
        assert Suits(w, a.fields, f.name, v);
        WithField(w, a, e, f, entries, v);
      }
    }
  }

  lemma WithField(w: World, a: Ty, e: Ty, f: Field, entries: map<string, Value>, v: Value)
    requires a.Record? && e.Record? && f in e.fields && Has(w, Value.Map(entries), a)
    requires Suits(w, a.fields, f.name, v) && !Has(w, v, f.port.ty)
    ensures Outside(w, a, e)
  {
    SetField(w, a.fields, entries, f.name, v);
    var whole := Value.Map(entries[f.name := v]);
    NotThere(w, whole, e.fields, f);
    assert Has(w, whole, a) && !Has(w, whole, e);
  }

  lemma WithoutField(w: World, a: Ty, e: Ty, f: Field, g: Field, entries: map<string, Value>)
    requires a.Record? && e.Record? && f in e.fields && g in a.fields && f.name == g.name && DistinctNames(a.fields)
    requires f.port.required && !g.port.required
    requires entries.Keys == Required(a.fields) && Has(w, Value.Map(entries), a)
    ensures Outside(w, a, e)
  {
    var whole := Value.Map(entries);
    assert f.name !in entries;
    NotThere(w, whole, e.fields, f);
    assert Has(w, whole, a) && !Has(w, whole, e);
  }

  /** A record may hold an undeclared field that no map of the kind allows. */
  lemma LeftOutRecordMap(w: World, a: Ty, e: Ty)
    requires Solid(a) && Clear(e) && a.Record? && e.Map?
    ensures Outside(w, a, e)
  {
    hide Has;
    var entries := SampleRecord(w, a.fields);
    var name := FreshText(set f | f in a.fields :: f.name);
    NoCallable(w, e.item);
    assert Suits(w, a.fields, name, Callable(0));
    SetField(w, a.fields, entries, name, Callable(0));
    var whole := Value.Map(entries[name := Callable(0)]);
    MapHolds(w, whole, e, name);
    assert Has(w, whole, a) && !Has(w, whole, e);
  }

  lemma MapHolds(w: World, v: Value, e: Ty, key: string)
    requires e.Map? && v.Map? && key in v.entries && !Has(w, v.entries[key], e.item)
    ensures !Has(w, v, e)
  {
  }

  lemma {:induction false} LeftOutMapRecord(hints: Hints, w: World, a: Ty, e: Ty)
    requires Solid(a) && Clear(e) && a.Map? && e.Record? && !Structural(hints, a, e).Yes?
    ensures Outside(w, a, e)
    decreases Depth(map[], a) + Depth(map[], e), 0, 0
  {
    ChildDepth(a, a.item);
    hide Structural, Depth, Compatible, Has;
    var f := OtherMapField(hints, a, e);
    if f.port.required {
      var whole := Value.Map(map[]);
      NotThere(w, whole, e.fields, f);
      EmptyMapHas(w, a);
      assert Has(w, whole, a) && !Has(w, whole, e);
    } else {
      ChildDepth(e, f.port.ty);
      LeftOut(hints, w, a.item, f.port.ty);
      var v :| Has(w, v, a.item) && !Has(w, v, f.port.ty);
      var whole := Value.Map(map[f.name := v]);
      NotThere(w, whole, e.fields, f);
      OneEntryHas(w, a, f.name, v);
      assert Has(w, whole, a) && !Has(w, whole, e);
    }
  }

  lemma OtherMapField(hints: Hints, a: Ty, e: Ty) returns (f: Field)
    requires a.Map? && e.Record? && !Structural(hints, a, e).Yes?
    ensures f in e.fields && !MapField(Compatible(hints, a.item, f.port.ty), f.port.required).Yes?
  {
    var verdicts := set x | x in e.fields :: MapField(Compatible(hints, a.item, x.port.ty), x.port.required);
    assert Structural(hints, a, e) == Worst(verdicts);
    hide Structural, Compatible;
    var verdict :| verdict in verdicts && verdict != Yes;
    f :| f in e.fields && MapField(Compatible(hints, a.item, f.port.ty), f.port.required) == verdict;
  }

  lemma EmptyMapHas(w: World, a: Ty)
    requires a.Map?
    ensures Has(w, Value.Map(map[]), a)
  {
  }

  lemma OneEntryHas(w: World, a: Ty, key: string, v: Value)
    requires a.Map? && Has(w, v, a.item)
    ensures Has(w, Value.Map(map[key := v]), a)
  {
  }

  /** Yes is exactly inclusion; so an answer left to run time has a value that fails there. */
  lemma YesIff(hints: Hints, w: World, a: Ty, e: Ty)
    requires Solid(a) && Clear(e)
    ensures Compatible(hints, a, e).Yes? <==> Included(w, a, e)
    ensures Compatible(hints, a, e).Runtime? ==> Outside(w, a, e)
  {
    hide Compatible, Has, Solid, Clear;
    if Compatible(hints, a, e).Yes? {
      forall v | Has(w, v, a)
        ensures Has(w, v, e)
      {
        YesSound(hints, w, v, a, e);
      }
    } else {
      LeftOut(hints, w, a, e);
    }
  }

  // ---- Discharge, in terms of values ----

  /** Whatever one port may yield, the other allows. */
  ghost predicate PortIncluded(w: World, a: Port, e: Port) {
    forall v :: HasPort(w, v, a) ==> HasPort(w, v, e)
  }

  lemma PortIncludedIff(w: World, a: Port, e: Port)
    requires exists v :: Has(w, v, a.ty)
    ensures PortIncluded(w, a, e) <==> Included(w, a.ty, e.ty) && (e.required ==> a.required)
  {
    hide Has;
    if PortIncluded(w, a, e) {
      assert HasPort(w, None, a) ==> HasPort(w, None, e);
      forall v | Has(w, v, a.ty)
        ensures Has(w, v, e.ty)
      {
        assert HasPort(w, Some(v), a) ==> HasPort(w, Some(v), e);
      }
    }
    if Included(w, a.ty, e.ty) && (e.required ==> a.required) {
      forall v | HasPort(w, v, a)
        ensures HasPort(w, v, e)
      {
        if v.Some? {
          assert Has(w, v.value, a.ty);
        }
      }
    }
  }

  /** A callback is accepted exactly when all it may yield is allowed, and then needs no check. */
  lemma CallbackIff(hints: Hints, w: World, a: Port, e: Port)
    requires Solid(a.ty) && Clear(e.ty)
    ensures Discharge(hints, a, e, true).Some? <==> PortIncluded(w, a, e)
    ensures Discharge(hints, a, e, true).Some? ==> Discharge(hints, a, e, true).value == {}
  {
    hide Compatible, Has, Solid, Clear, Included, PortIncluded;
    SolidInhabited(w, a.ty);
    YesIff(hints, w, a.ty, e.ty);
    PortIncludedIff(w, a, e);
  }

  /** No check is emitted that everything the producer yields would pass. */
  lemma ChecksNeeded(hints: Hints, w: World, a: Port, e: Port, callback: bool, check: Check)
    requires Solid(a.ty) && Clear(e.ty)
    requires Discharge(hints, a, e, callback).Some? && check in Discharge(hints, a, e, callback).value
    ensures exists v :: HasPort(w, v, a) && !Passes(w, v, check)
  {
    hide Compatible, Has, Solid, Clear;
    YesIff(hints, w, a.ty, e.ty);
    if check.PresentCheck? {
      assert HasPort(w, None, a) && !Passes(w, None, check);
    } else {
      var v :| Has(w, v, a.ty) && !Has(w, v, e.ty);
      assert HasPort(w, Some(v), a) && !Passes(w, Some(v), check);
    }
  }

  // ---- Unions of scalars and enumerations, several of each ----

  /** Scalars, enumerations and unions of them. */
  predicate Simple(t: Ty) {
    match t
    case Builtin(p) => p in SCALARS
    case Enum(names) => names != {}
    case Union(members) => members != {} && forall m :: m in members ==> Simple(m)
    case _ => false
  }

  function Leaves(t: Ty): set<Ty> {
    if t.Union? then set m, l | m in t.members && l in Leaves(m) :: l else {t}
  }

  /** All texts of the enumerations in a type. */
  function TextsOf(t: Ty): set<string> {
    set l, s | l in Leaves(t) && l.Enum? && s in l.names :: s
  }

  lemma {:induction false} LeavesSimple(t: Ty)
    requires Simple(t)
    ensures Leaves(t) != {} && forall l :: l in Leaves(t) ==> !l.Union? && Simple(l)
  {
    if t.Union? {
      forall m | m in t.members
        ensures Leaves(m) != {} && forall l :: l in Leaves(m) ==> !l.Union? && Simple(l)
      {
        LeavesSimple(m);
      }
      var m :| m in t.members;
      var l :| l in Leaves(m);
      assert l in Leaves(t);
    }
  }

  lemma {:induction false} LeavesHold(w: World, v: Value, t: Ty)
    ensures Has(w, v, t) <==> exists l :: l in Leaves(t) && Has(w, v, l)
  {
    if t.Union? {
      forall m | m in t.members
        ensures Has(w, v, m) <==> exists l :: l in Leaves(m) && Has(w, v, l)
      {
        LeavesHold(w, v, m);
      }
      if Has(w, v, t) {
        var m :| m in t.members && Has(w, v, m);
        var l :| l in Leaves(m) && Has(w, v, l);
        assert l in Leaves(t);
      }
      if l :| l in Leaves(t) && Has(w, v, l) {
        var m :| m in t.members && l in Leaves(m);
        assert Has(w, v, m);
      }
    } else {
      assert t in Leaves(t);
    }
  }

  /** One leaf accepts another. */
  predicate LeafYes(l: Ty, m: Ty) {
    l == m || (l.Enum? && m == Builtin(PString)) || (l.Enum? && m.Enum? && l.names <= m.names)
  }

  lemma LeafYesIff(hints: Hints, l: Ty, m: Ty)
    requires Simple(l) && Simple(m) && !l.Union? && !m.Union?
    ensures Compatible(hints, l, m).Yes? <==> LeafYes(l, m)
  {
    hide Structural;
    if l.Enum? && m.Enum? && l.names <= m.names {
      assert RefinedFamilies(hints, l) * RefinedFamilies(hints, m) == {TextF};
    } else if l.Enum? && m == Builtin(PString) {
      assert RefinedFamilies(hints, l) * RefinedFamilies(hints, m) == {TextF};
    }
    StructuralLeaf(hints, l, m);
  }

  lemma StructuralLeaf(hints: Hints, l: Ty, m: Ty)
    requires Simple(l) && Simple(m) && !l.Union? && !m.Union?
    ensures Structural(hints, l, m).Runtime?
  {
  }

  /** A leaf is accepted exactly when some leaf of the expected type accepts it. */
  lemma {:induction false} LeafAccepted(hints: Hints, l: Ty, e: Ty)
    requires Simple(l) && !l.Union? && Simple(e)
    ensures Compatible(hints, l, e).Yes? <==> exists m :: m in Leaves(e) && LeafYes(l, m)
  {
    hide Compatible, LeafYes;
    if e.Union? {
      forall m | m in e.members
        ensures Compatible(hints, l, m).Yes? <==> exists n :: n in Leaves(m) && LeafYes(l, n)
      {
        LeafAccepted(hints, l, m);
      }
      ExpectedYes(hints, l, e);
      if m :| m in e.members && Compatible(hints, l, m).Yes? {
        var n :| n in Leaves(m) && LeafYes(l, n);
        assert n in Leaves(e);
      }
    } else {
      LeafYesIff(hints, l, e);
      assert e in Leaves(e);
    }
  }

  lemma ExpectedYes(hints: Hints, a: Ty, e: Ty)
    requires !a.Union? && e.Union?
    ensures Compatible(hints, a, e).Yes? <==> exists m :: m in e.members && Compatible(hints, a, m).Yes?
  {
    var verdicts := set x | x in e.members :: Compatible(hints, a, x);
    assert Compatible(hints, a, e) == SomeMember(verdicts);
    hide Compatible;
    if m :| m in e.members && Compatible(hints, a, m).Yes? {
      assert Compatible(hints, a, m) in verdicts;
    }
  }

  /** A union is accepted exactly when each of its leaves is. */
  lemma {:induction false} LeavesAccepted(hints: Hints, a: Ty, e: Ty)
    requires Simple(a) && Simple(e)
    ensures Compatible(hints, a, e).Yes? <==> forall l :: l in Leaves(a) ==> Compatible(hints, l, e).Yes?
  {
    hide Compatible;
    if a.Union? {
      forall m | m in a.members
        ensures Compatible(hints, m, e).Yes? <==> forall l :: l in Leaves(m) ==> Compatible(hints, l, e).Yes?
      {
        LeavesAccepted(hints, m, e);
      }
      if a == e {
        SameIsYes(hints, a);
        OwnLeaves(hints, a);
      } else {
        ActualYes(hints, a, e);
        if forall m :: m in a.members ==> Compatible(hints, m, e).Yes? {
          forall l | l in Leaves(a)
            ensures Compatible(hints, l, e).Yes?
          {
            var m :| m in a.members && l in Leaves(m);
          }
        } else {
          var m :| m in a.members && !Compatible(hints, m, e).Yes?;
          var l :| l in Leaves(m) && !Compatible(hints, l, e).Yes?;
          assert l in Leaves(a);
        }
      }
    } else {
      assert Leaves(a) == {a};
    }
  }

  lemma OwnLeaves(hints: Hints, t: Ty)
    requires Simple(t)
    ensures forall l :: l in Leaves(t) ==> Compatible(hints, l, t).Yes?
  {
    hide Compatible;
    LeavesSimple(t);
    forall l | l in Leaves(t)
      ensures Compatible(hints, l, t).Yes?
    {
      LeafAccepted(hints, l, t);
      assert LeafYes(l, l);
    }
  }

  lemma ActualYes(hints: Hints, a: Ty, e: Ty)
    requires a.Union? && a != e
    ensures Compatible(hints, a, e).Yes? <==> forall m :: m in a.members ==> Compatible(hints, m, e).Yes?
  {
    var verdicts := set x | x in a.members :: Compatible(hints, x, e);
    assert Compatible(hints, a, e) == EveryMember(verdicts);
    hide Compatible;
    if Compatible(hints, a, e).Yes? {
      forall m | m in a.members
        ensures Compatible(hints, m, e).Yes?
      {
        assert Compatible(hints, m, e) in verdicts;
      }
    }
  }

  /** An enumeration whose texts several enumerations of the expected type share out among them. */
  predicate Shared(l: Ty, e: Ty) {
    l.Enum? && l.names <= TextsOf(e)
  }

  /** A leaf's values lie in the expected type exactly when one leaf takes all, or enumerations share them. */
  lemma LeafIncluded(w: World, l: Ty, e: Ty)
    requires Simple(l) && !l.Union? && Simple(e)
    ensures Included(w, l, e) <==> (exists m :: m in Leaves(e) && LeafYes(l, m)) || Shared(l, e)
  {
    LeavesSimple(e);
    forall v
      ensures Has(w, v, e) <==> exists m :: m in Leaves(e) && Has(w, v, m)
    {
      LeavesHold(w, v, e);
    }
    if m :| m in Leaves(e) && LeafYes(l, m) {
      assert forall v :: Has(w, v, l) ==> Has(w, v, m);
    } else if Shared(l, e) {
      forall v | Has(w, v, l)
        ensures Has(w, v, e)
      {
        assert v.text in TextsOf(e);
        var m, s :| m in Leaves(e) && m.Enum? && s in m.names && s == v.text;
        assert Has(w, v, m);
      }
    } else {
      LeafLeftOut(w, l, e);
    }
  }

  lemma LeafLeftOut(w: World, l: Ty, e: Ty)
    requires Simple(l) && !l.Union? && Simple(e)
    requires !Shared(l, e) && forall m :: m in Leaves(e) ==> !LeafYes(l, m)
    ensures Outside(w, l, e)
  {
    hide Has, Leaves, Simple, TextsOf;
    LeavesSimple(e);
    if l.Enum? {
      var name :| name in l.names && name !in TextsOf(e);
      TextLeftOut(w, name, l, e);
    } else if l == Builtin(PString) {
      var name := FreshText(TextsOf(e));
      TextLeftOut(w, name, l, e);
    } else {
      SimpleSolid(l);
      SolidInhabited(w, l);
      var v :| Has(w, v, l);
      forall m | m in Leaves(e)
        ensures !Has(w, v, m)
      {
        if Has(w, v, m) {
          SameScalar(w, v, l, m);
          NoText(w, v, l, m);
        }
      }
      NoLeafHolds(w, v, l, e);
    }
  }

  lemma NoText(w: World, v: Value, l: Ty, m: Ty)
    requires Simple(l) && !l.Union? && !l.Enum? && l != Builtin(PString) && Has(w, v, l) && Has(w, v, m)
    ensures !m.Enum?
  {
  }

  lemma NoLeafHolds(w: World, v: Value, l: Ty, e: Ty)
    requires Has(w, v, l) && forall m :: m in Leaves(e) ==> !Has(w, v, m)
    ensures Outside(w, l, e)
  {
    hide Has;
    LeavesHold(w, v, e);
  }

  /** A text outside all enumerations is in no leaf but the texts. */
  lemma TextLeftOut(w: World, name: string, l: Ty, e: Ty)
    requires l == Builtin(PString) || (l.Enum? && name in l.names)
    requires name !in TextsOf(e) && Builtin(PString) !in Leaves(e)
    requires forall m :: m in Leaves(e) ==> !m.Union? && Simple(m)
    ensures Outside(w, l, e)
  {
    forall m | m in Leaves(e)
      ensures !Has(w, Text(name), m)
    {
      if m.Enum? {
        LeafTexts(e, m);
      }
      NoTextLeaf(w, name, m);
    }
    hide Leaves, TextsOf;
    NoLeafHolds(w, Text(name), l, e);
  }

  lemma LeafTexts(e: Ty, m: Ty)
    requires m in Leaves(e) && m.Enum?
    ensures m.names <= TextsOf(e)
  {
  }

  lemma NoTextLeaf(w: World, name: string, m: Ty)
    requires Simple(m) && !m.Union? && m != Builtin(PString) && (m.Enum? ==> name !in m.names)
    ensures !Has(w, Text(name), m)
  {
  }

  lemma SameScalar(w: World, v: Value, l: Ty, m: Ty)
    requires Simple(l) && Simple(m) && !l.Union? && !m.Union? && Has(w, v, l) && Has(w, v, m)
    ensures LeafYes(l, m) || m.Enum?
  {
  }

  lemma SimpleSolid(t: Ty)
    requires Simple(t) && !t.Union?
    ensures Solid(t)
  {
  }

  /**
   * An answer left to run time among such types is needed, unless every enumeration that no
   * single member takes is shared out among several.
   */
  lemma RuntimeNeeded(hints: Hints, w: World, a: Ty, e: Ty)
    requires Simple(a) && Simple(e) && Compatible(hints, a, e).Runtime?
    ensures Outside(w, a, e) <==> exists l :: l in Leaves(a) && !Compatible(hints, l, e).Yes? && !Shared(l, e)
  {
    hide Compatible, Has, Shared, LeafYes;
    LeavesSimple(a);
    forall l | l in Leaves(a)
      ensures Included(w, l, e) <==> Compatible(hints, l, e).Yes? || Shared(l, e)
    {
      LeafIncluded(w, l, e);
      LeafAccepted(hints, l, e);
    }
    forall v
      ensures Has(w, v, a) <==> exists l :: l in Leaves(a) && Has(w, v, l)
    {
      LeavesHold(w, v, a);
    }
    if v :| Has(w, v, a) && !Has(w, v, e) {
      var l :| l in Leaves(a) && Has(w, v, l);
      assert !Included(w, l, e);
    }
    if l :| l in Leaves(a) && !Compatible(hints, l, e).Yes? && !Shared(l, e) {
      var v :| Has(w, v, l) && !Has(w, v, e);
      assert Has(w, v, a);
    }
  }

  /** Such sharing exists: an enumeration of two texts against one enumeration for each. */
  lemma SharedAtRuntime(hints: Hints, w: World)
    ensures
      var a, e := Enum({"x", "y"}), Union({Enum({"x"}), Enum({"y"})});
      Compatible(hints, a, e).Runtime? && Included(w, a, e)
  {
    var x, y := Enum({"x"}), Enum({"y"});
    var a, e := Enum({"x", "y"}), Union({x, y});
    assert "x" in a.names && "y" in a.names && a.names * x.names == {"x"} && a.names * y.names == {"y"};
    EnumsOverlap(hints, a, x);
    EnumsOverlap(hints, a, y);
    var verdicts := set m | m in e.members :: Compatible(hints, a, m);
    assert Compatible(hints, a, e) == SomeMember(verdicts);
    hide Compatible;
    assert Compatible(hints, a, x) in verdicts;
    assert verdicts <= {Runtime};
    SharedByTwo(w, x, y, a);
  }

  lemma SharedByTwo(w: World, x: Ty, y: Ty, a: Ty)
    requires x.Enum? && y.Enum? && a.Enum? && a.names <= x.names + y.names
    ensures Included(w, a, Union({x, y}))
  {
    forall v | Has(w, v, a)
      ensures Has(w, v, Union({x, y}))
    {
      assert Has(w, v, x) || Has(w, v, y);
    }
  }

  lemma EnumsOverlap(hints: Hints, a: Ty, b: Ty)
    requires a.Enum? && b.Enum? && a.names * b.names != {} && !(a.names <= b.names)
    ensures Compatible(hints, a, b).Runtime?
  {
    assert RefinedFamilies(hints, a) * RefinedFamilies(hints, b) == {TextF};
  }

  // ---- What a formal union leaves over ----

  /** What the known members of a union take, their values have; what their values have is taken. */
  lemma AcceptedIff(hints: Hints, w: World, v: Ty, known: seq<Ty>)
    requires Solid(v) && forall m :: m in known ==> Clear(m)
    ensures (exists m :: m in known && Compatible(hints, v, m).Yes?) <==> exists m :: m in known && Included(w, v, m)
  {
    hide Compatible, Included, Solid, Clear;
    forall m | m in known
      ensures Compatible(hints, v, m).Yes? <==> Included(w, v, m)
    {
      YesIff(hints, w, v, m);
    }
  }
}
