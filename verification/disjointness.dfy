// When two types have no value in common, against the verdict `Never` of the
// compatibility relation (crates/htlk-analyzer/src/type_check.rs:1843-2010).

module Disjointness {
  import opened Wrappers
  import opened Types
  import opened Values
  import opened Compatibility
  import opened CompatibilitySound

  /** No value inhabits both types. */
  ghost predicate Apart(w: World, a: Ty, b: Ty) {
    forall v :: !(Has(w, v, a) && Has(w, v, b))
  }

  /** Which record fields a comparison of two records may rely on being present. */
  datatype Presence = Supplied | EitherSide

  /** What sets two fields of one name apart: one that counts as present, and types that differ. */
  predicate FieldsSeparate(hints: Hints, f: Field, g: Field, on: Presence)
    decreases f, g, 0
  {
    && f.name == g.name && (f.port.required || (on.EitherSide? && g.port.required))
    && Separates(hints, f.port.ty, g.port.ty, on)
  }

  /** A test on the two types alone: families, enumerations and the fields that must be present. */
  predicate Separates(hints: Hints, a: Ty, b: Ty, on: Presence)
    decreases a, b, 1
  {
    if a.Union? then forall m :: m in a.members ==> Separates(hints, m, b, on)
    else if b.Union? then forall m :: m in b.members ==> Separates(hints, a, m, on)
    else if RefinedFamilies(hints, a) * RefinedFamilies(hints, b) == {} then true
    else
      match (a, b)
      case (Enum(x), Enum(y)) => x * y == {}
      case (Record(fs), Record(gs)) => exists f, g :: f in fs && g in gs && FieldsSeparate(hints, f, g, on)
      case (Record(fs), Map(item)) => exists f :: f in fs && f.port.required && Separates(hints, f.port.ty, item, on)
      case (Map(item), Record(gs)) => exists g :: g in gs && g.port.required && Separates(hints, item, g.port.ty, on)
      case _ => false
  }

  lemma FamiliesApart(w: World, hints: Hints, a: Ty, b: Ty)
    requires HintsSound(w, hints) && RefinedFamilies(hints, a) * RefinedFamilies(hints, b) == {}
    ensures Apart(w, a, b)
  {
    forall v
      ensures !(Has(w, v, a) && Has(w, v, b))
    {
      if Has(w, v, a) && Has(w, v, b) {
        SharedValueSharedFamily(w, hints, v, a, b);
      }
    }
  }

  lemma RecordSupplies(w: World, v: Value, fs: seq<Field>, f: Field)
    requires Has(w, v, Record(fs)) && f in fs
    ensures v.Map? && HasPort(w, Member(v.entries, f.name), f.port)
  {
  }

  lemma MapSupplies(w: World, v: Value, item: Ty, name: string)
    requires Has(w, v, Types.Map(item))
    ensures v.Map? && HasPort(w, Member(v.entries, name), Port(item, false))
  {
  }

  /** A required port and any other port of apart types are supplied by nothing in common. */
  lemma PortsApart(w: World, v: Option<Value>, p: Port, q: Port)
    requires Apart(w, p.ty, q.ty) && (p.required || q.required)
    ensures !(HasPort(w, v, p) && HasPort(w, v, q))
  {
  }

  /** Records are apart when a field that one of them requires has types that are apart. */
  lemma RecordsApart(w: World, fs: seq<Field>, gs: seq<Field>, f: Field, g: Field)
    requires f in fs && g in gs && f.name == g.name && (f.port.required || g.port.required)
    requires Apart(w, f.port.ty, g.port.ty)
    ensures Apart(w, Record(fs), Record(gs))
  {
    if v :| Has(w, v, Record(fs)) && Has(w, v, Record(gs)) {
      RecordSupplies(w, v, fs, f);
      RecordSupplies(w, v, gs, g);
      PortsApart(w, Member(v.entries, f.name), f.port, g.port);
    }
  }

  /** A record is apart from a map when a required field is apart from the map's items. */
  lemma RecordMapApart(w: World, fs: seq<Field>, item: Ty, f: Field)
    requires f in fs && f.port.required && Apart(w, f.port.ty, item)
    ensures Apart(w, Record(fs), Types.Map(item))
  {
    if v :| Has(w, v, Record(fs)) && Has(w, v, Types.Map(item)) {
      RecordSupplies(w, v, fs, f);
      MapSupplies(w, v, item, f.name);
      PortsApart(w, Member(v.entries, f.name), f.port, Port(item, false));
    }
  }

  lemma EnumsApart(w: World, x: set<string>, y: set<string>)
    requires x * y == {}
    ensures Apart(w, Enum(x), Enum(y))
  {
    assert forall name :: name in x && name in y ==> name in x * y;
  }

  lemma ApartSwaps(w: World, a: Ty, b: Ty)
    ensures Apart(w, a, b) <==> Apart(w, b, a)
  {
  }

  lemma UnionApart(w: World, members: set<Ty>, b: Ty)
    requires forall m :: m in members ==> Apart(w, m, b)
    ensures Apart(w, Union(members), b)
  {
  }

  /** Types told apart by the test share no value. */
  lemma {:induction false} SeparatesApart(w: World, hints: Hints, a: Ty, b: Ty)
    requires HintsSound(w, hints) && Separates(hints, a, b, EitherSide)
    ensures Apart(w, a, b)
    decreases a, b
  {
    if a.Union? {
      forall m | m in a.members
        ensures Apart(w, m, b)
      {
        SeparatesApart(w, hints, m, b);
      }
      UnionApart(w, a.members, b);
    } else if b.Union? {
      forall m | m in b.members
        ensures Apart(w, m, a)
      {
        SeparatesApart(w, hints, a, m);
        ApartSwaps(w, a, m);
      }
      UnionApart(w, b.members, a);
      ApartSwaps(w, a, b);
    } else if RefinedFamilies(hints, a) * RefinedFamilies(hints, b) == {} {
      FamiliesApart(w, hints, a, b);
    } else if a.Record? && b.Record? {
      var f, g :| f in a.fields && g in b.fields && FieldsSeparate(hints, f, g, EitherSide);
      SeparatesApart(w, hints, f.port.ty, g.port.ty);
      RecordsApart(w, a.fields, b.fields, f, g);
    } else if a.Record? && b.Map? {
      var f :| f in a.fields && f.port.required && Separates(hints, f.port.ty, b.item, EitherSide);
      SeparatesApart(w, hints, f.port.ty, b.item);
      RecordMapApart(w, a.fields, b.item, f);
    } else if a.Map? && b.Record? {
      var g :| g in b.fields && g.port.required && Separates(hints, a.item, g.port.ty, EitherSide);
      SeparatesApart(w, hints, a.item, g.port.ty);
      ApartSwaps(w, a.item, g.port.ty);
      RecordMapApart(w, b.fields, a.item, g);
      ApartSwaps(w, a, b);
    } else {
      EnumsApart(w, a.names, b.names);
    }
  }

  // ---- The test is exact on types built from concrete parts ----

  const SCALARS: set<Primitive> := {PString, PInteger, PFloat, PBoolean, PNull, PBytes}

  predicate DistinctNames(fields: seq<Field>) {
    forall f, g :: f in fields && g in fields && f.name == g.name ==> f == g
  }

  /** Types whose values are known without a schema, a callable or the result of a call. */
  predicate Concrete(t: Ty) {
    match t
    case Builtin(p) => p in SCALARS
    case List(_) => true
    case Map(item) => Concrete(item)
    case Record(fields) => DistinctNames(fields) && forall f :: f in fields ==> Concrete(f.port.ty)
    case Union(members) => members != {} && forall m :: m in members ==> Concrete(m)
    case Enum(names) => names != {}
    case Schema(_) => false
    case Var(_) => false
    case Function(_, _) => false
  }

  ghost predicate Meet(w: World, a: Ty, b: Ty) {
    exists v :: Has(w, v, a) && Has(w, v, b)
  }

  /** A value that suits every field of the given name. */
  ghost predicate Suits(w: World, fields: seq<Field>, name: string, v: Value) {
    forall f :: f in fields && f.name == name ==> Has(w, v, f.port.ty)
  }

  function Required(fields: seq<Field>): set<string> {
    set f | f in fields && f.port.required :: f.name
  }

  /** Values for all required names make up a record. */
  lemma RecordOf(w: World, fields: seq<Field>, entries: map<string, Value>)
    requires Required(fields) <= entries.Keys
    requires forall name :: name in entries ==> Suits(w, fields, name, entries[name])
    ensures Has(w, Value.Map(entries), Record(fields))
  {
  }

  lemma {:induction false} Inhabited(w: World, t: Ty)
    requires Concrete(t)
    ensures Meet(w, t, t)
  {
    match t
    case Builtin(p) =>
      var v := match p
        case PString => Text("")
        case PInteger => Integer(0)
        case PFloat => Float(0.0)
        case PBoolean => Bool(true)
        case PNull => Null
        case _ => Bytes([]);
      assert Has(w, v, t);
    case List(_) =>
      assert Has(w, Array([]), t);
    case Map(_) =>
      assert Has(w, Value.Map(map[]), t);
    case Record(fields) =>
      forall name | name in Required(fields)
        ensures exists v :: Suits(w, fields, name, v)
      {
        var f :| f in fields && f.name == name;
        Inhabited(w, f.port.ty);
        var v :| Has(w, v, f.port.ty);
        assert Suits(w, fields, name, v);
      }
      var entries := map name | name in Required(fields) :: (var v :| Suits(w, fields, name, v); v);
      RecordOf(w, fields, entries);
    case Union(members) =>
      var m :| m in members;
      Inhabited(w, m);
      var v :| Has(w, v, m);
      assert Has(w, v, t);
    case Enum(names) =>
      var name :| name in names;
      assert Has(w, Text(name), t);
  }

  /** Two record types share a record that holds exactly the names either requires. */
  lemma RecordsMeet(w: World, fs: seq<Field>, gs: seq<Field>)
    requires forall name :: name in Required(fs) + Required(gs) ==>
      exists v :: Suits(w, fs, name, v) && Suits(w, gs, name, v)
    ensures Meet(w, Record(fs), Record(gs))
  {
    var names := Required(fs) + Required(gs);
    var entries := map name | name in names :: (var v :| Suits(w, fs, name, v) && Suits(w, gs, name, v); v);
    RecordOf(w, fs, entries);
    RecordOf(w, gs, entries);
  }

  lemma MapMeets(w: World, fs: seq<Field>, item: Ty)
    requires forall name :: name in Required(fs) ==> exists v :: Suits(w, fs, name, v) && Has(w, v, item)
    ensures Meet(w, Record(fs), Types.Map(item))
  {
    var entries := map name | name in Required(fs) :: (var v :| Suits(w, fs, name, v) && Has(w, v, item); v);
    RecordOf(w, fs, entries);
    assert Has(w, Value.Map(entries), Types.Map(item));
  }

  /** Types the test does not tell apart share a value. */
  lemma {:induction false} ConcreteMeet(w: World, hints: Hints, a: Ty, b: Ty)
    requires Concrete(a) && Concrete(b) && !Separates(hints, a, b, EitherSide)
    ensures Meet(w, a, b)
    decreases a, b
  {
    if a.Union? {
      var m :| m in a.members && !Separates(hints, m, b, EitherSide);
      ConcreteMeet(w, hints, m, b);
      var v :| Has(w, v, m) && Has(w, v, b);
      assert Has(w, v, a);
    } else if b.Union? {
      var m :| m in b.members && !Separates(hints, a, m, EitherSide);
      ConcreteMeet(w, hints, a, m);
      var v :| Has(w, v, a) && Has(w, v, m);
      assert Has(w, v, b);
    } else if a.Record? && b.Record? {
      forall name | name in Required(a.fields) + Required(b.fields)
        ensures exists v :: Suits(w, a.fields, name, v) && Suits(w, b.fields, name, v)
      {
        SharedField(w, hints, a, b, name);
      }
      RecordsMeet(w, a.fields, b.fields);
    } else if a.Record? && b.Map? {
      forall name | name in Required(a.fields)
        ensures exists v :: Suits(w, a.fields, name, v) && Has(w, v, b.item)
      {
        var f :| f in a.fields && f.name == name && f.port.required;
        ConcreteMeet(w, hints, f.port.ty, b.item);
        var v :| Has(w, v, f.port.ty) && Has(w, v, b.item);
        assert Suits(w, a.fields, name, v);
      }
      MapMeets(w, a.fields, b.item);
    } else if a.Map? && b.Record? {
      forall name | name in Required(b.fields)
        ensures exists v :: Suits(w, b.fields, name, v) && Has(w, v, a.item)
      {
        var g :| g in b.fields && g.name == name && g.port.required;
        ConcreteMeet(w, hints, a.item, g.port.ty);
        var v :| Has(w, v, a.item) && Has(w, v, g.port.ty);
        assert Suits(w, b.fields, name, v);
      }
      MapMeets(w, b.fields, a.item);
    } else {
      PlainMeet(w, hints, a, b);
    }
  }

  lemma SharedField(w: World, hints: Hints, a: Ty, b: Ty, name: string)
    requires a.Record? && b.Record? && Concrete(a) && Concrete(b) && !Separates(hints, a, b, EitherSide)
    requires name in Required(a.fields) + Required(b.fields)
    ensures exists v :: Suits(w, a.fields, name, v) && Suits(w, b.fields, name, v)
    decreases a, b, 0
  {
    if f :| f in a.fields && f.name == name {
      if g :| g in b.fields && g.name == name {
        assert ArrayF !in RefinedFamilies(hints, a);
        assert ObjectF in RefinedFamilies(hints, a) * RefinedFamilies(hints, b);
        assert !FieldsSeparate(hints, f, g, EitherSide);
        ConcreteMeet(w, hints, f.port.ty, g.port.ty);
        var v :| Has(w, v, f.port.ty) && Has(w, v, g.port.ty);
        assert Suits(w, a.fields, name, v) && Suits(w, b.fields, name, v);
      } else {
        Inhabited(w, f.port.ty);
        var v :| Has(w, v, f.port.ty);
        assert Suits(w, a.fields, name, v) && Suits(w, b.fields, name, v);
      }
    } else {
      var g :| g in b.fields && g.name == name;
      Inhabited(w, g.port.ty);
      var v :| Has(w, v, g.port.ty);
      assert Suits(w, a.fields, name, v) && Suits(w, b.fields, name, v);
    }
  }

  /** Types of one family with no fields to compare. */
  lemma PlainMeet(w: World, hints: Hints, a: Ty, b: Ty)
    requires Concrete(a) && Concrete(b) && !Separates(hints, a, b, EitherSide)
    requires !a.Union? && !b.Union? && !(a.Record? && (b.Record? || b.Map?)) && !(a.Map? && b.Record?)
    ensures Meet(w, a, b)
  {
    Inhabited(w, a);
    if a.Enum? && b.Enum? {
      var name :| name in a.names * b.names;
      assert Has(w, Text(name), a) && Has(w, Text(name), b);
    } else if a.List? {
      assert b.List?;
      assert Has(w, Array([]), a) && Has(w, Array([]), b);
    } else if a.Map? {
      assert b.Map?;
      assert Has(w, Value.Map(map[]), a) && Has(w, Value.Map(map[]), b);
    } else if a.Enum? {
      var v :| Has(w, v, a);
      assert Has(w, v, b);
    } else if b.Enum? {
      Inhabited(w, b);
      var v :| Has(w, v, b);
      assert Has(w, v, a);
    } else {
      assert a == b;
    }
  }

  /** On concrete types the test decides exactly whether any value inhabits both. */
  lemma ApartIff(w: World, hints: Hints, a: Ty, b: Ty)
    requires HintsSound(w, hints) && Concrete(a) && Concrete(b)
    ensures Apart(w, a, b) <==> Separates(hints, a, b, EitherSide)
  {
    hide Has, Separates, Concrete, HintsSound;
    if Separates(hints, a, b, EitherSide) {
      SeparatesApart(w, hints, a, b);
    } else {
      ConcreteMeet(w, hints, a, b);
    }
  }

  /** A concrete type is never found compatible outright with a type it shares no value with. */
  lemma ApartIsNotYes(w: World, hints: Hints, a: Ty, b: Ty)
    requires Concrete(a) && Apart(w, a, b)
    ensures !Compatible(hints, a, b).Yes?
  {
    hide *;
    Inhabited(w, a);
    if Compatible(hints, a, b).Yes? {
      InhabitedBoth(w, hints, a, b);
    }
  }

  lemma InhabitedBoth(w: World, hints: Hints, a: Ty, b: Ty)
    requires Meet(w, a, a) && Compatible(hints, a, b).Yes?
    ensures !Apart(w, a, b)
  {
    hide Has, Compatible;
    var v :| Has(w, v, a);
    YesSound(hints, w, v, a, b);
  }

  /** A field one side may omit is only checked at run time, though no value ever passes. */
  lemma RuntimeMissesApart(w: World, hints: Hints)
    ensures
      var a, b := Record([Field("x", Port(Builtin(PString), false))]),
        Record([Field("x", Port(Builtin(PInteger), true))]);
      Compatible(hints, a, b).Runtime? && Apart(w, a, b)
  {
    var f, g := Field("x", Port(Builtin(PString), false)), Field("x", Port(Builtin(PInteger), true));
    RecordsApart(w, [f], [g], f, g);
  }

  // ---- When the compatibility relation refuses ----

  /** Relying on fewer fields separates fewer types. */
  lemma {:induction false} SuppliedSeparates(hints: Hints, a: Ty, b: Ty)
    requires Separates(hints, a, b, Supplied)
    ensures Separates(hints, a, b, EitherSide)
    decreases a, b
  {
    if a.Union? {
      forall m | m in a.members
        ensures Separates(hints, m, b, EitherSide)
      {
        SuppliedSeparates(hints, m, b);
      }
    } else if b.Union? {
      forall m | m in b.members
        ensures Separates(hints, a, m, EitherSide)
      {
        SuppliedSeparates(hints, a, m);
      }
    } else if RefinedFamilies(hints, a) * RefinedFamilies(hints, b) == {} {
    } else if a.Record? && b.Record? {
      var f, g :| f in a.fields && g in b.fields && FieldsSeparate(hints, f, g, Supplied);
      SuppliedSeparates(hints, f.port.ty, g.port.ty);
      assert FieldsSeparate(hints, f, g, EitherSide);
    } else if a.Record? && b.Map? {
      var f :| f in a.fields && f.port.required && Separates(hints, f.port.ty, b.item, Supplied);
      SuppliedSeparates(hints, f.port.ty, b.item);
    } else if a.Map? && b.Record? {
      var g :| g in b.fields && g.port.required && Separates(hints, a.item, g.port.ty, Supplied);
      SuppliedSeparates(hints, a.item, g.port.ty);
    }
  }

  /** A concrete type separated from another by fields it supplies itself is refused. */
  lemma {:induction false} SeparatedIsNever(hints: Hints, a: Ty, b: Ty)
    requires Concrete(a) && Separates(hints, a, b, Supplied)
    ensures Compatible(hints, a, b).Never?
    decreases a, b
  {
    hide Compatible, Has, RefinedFamilies;
    NotItself(hints, a, b);
    if a.Union? {
      forall m | m in a.members
        ensures Compatible(hints, m, b).Never?
      {
        SeparatedIsNever(hints, m, b);
      }
      EveryMemberNever(hints, a, b);
    } else if b.Union? {
      forall m | m in b.members
        ensures Compatible(hints, a, m).Never?
      {
        SeparatedIsNever(hints, a, m);
      }
      NoMemberAccepts(hints, a, b);
    } else if RefinedFamilies(hints, a) * RefinedFamilies(hints, b) == {} {
      FamiliesRefused(hints, a, b);
    } else if a.Enum? {
      EnumRefused(hints, a, b);
    } else if a.Record? && b.Record? {
      var f, g :| f in a.fields && g in b.fields && FieldsSeparate(hints, f, g, Supplied);
      SeparatedIsNever(hints, f.port.ty, g.port.ty);
      RecordRefused(hints, a, b, f, g);
    } else if a.Record? && b.Map? {
      var f :| f in a.fields && f.port.required && Separates(hints, f.port.ty, b.item, Supplied);
      SeparatedIsNever(hints, f.port.ty, b.item);
      RecordMapRefused(hints, a, b, f);
    } else if a.Map? && b.Record? {
      var g :| g in b.fields && g.port.required && Separates(hints, a.item, g.port.ty, Supplied);
      SeparatedIsNever(hints, a.item, g.port.ty);
      MapRefused(hints, a, b, g);
    }
  }

  /** A concrete type is never separated from itself, whatever the schemas. */
  lemma NotItself(hints: Hints, a: Ty, b: Ty)
    requires Concrete(a) && Separates(hints, a, b, Supplied)
    ensures a != b
  {
    hide *;
    var w := Nowhere();
    NowhereSound(hints);
    Inhabited(w, a);
    SuppliedSeparates(hints, a, b);
    SeparatesApart(w, hints, a, b);
    MeetOrApart(w, a);
  }

  lemma MeetOrApart(w: World, a: Ty)
    ensures Meet(w, a, a) <==> !Apart(w, a, a)
  {
  }

  /** A world without instances of any schema. */
  function Nowhere(): World {
    World(
      (pattern, flags) => false, (digest, v) => false, v => false, v => false, v => false, (id, v) => false,
      (id, args) => None)
  }

  lemma NowhereSound(hints: Hints)
    ensures HintsSound(Nowhere(), hints)
  {
  }

  lemma EveryMemberNever(hints: Hints, a: Ty, b: Ty)
    requires a.Union? && a.members != {} && a != b
    requires forall m :: m in a.members ==> Compatible(hints, m, b).Never?
    ensures Compatible(hints, a, b).Never?
  {
    var verdicts := set m | m in a.members :: Compatible(hints, m, b);
    var m :| m in a.members;
    assert Compatible(hints, m, b) in verdicts;
    assert verdicts <= {Match.Never};
  }

  lemma NoMemberAccepts(hints: Hints, a: Ty, b: Ty)
    requires !a.Union? && b.Union? && a != b
    requires forall m :: m in b.members ==> Compatible(hints, a, m).Never?
    ensures Compatible(hints, a, b).Never?
  {
    var verdicts := set m | m in b.members :: Compatible(hints, a, m);
    assert verdicts <= {Match.Never};
  }

  lemma FamiliesRefused(hints: Hints, a: Ty, b: Ty)
    requires a != b && !a.Union? && !b.Union? && RefinedFamilies(hints, a) * RefinedFamilies(hints, b) == {}
    ensures Compatible(hints, a, b).Never?
  {
  }

  lemma EnumRefused(hints: Hints, a: Ty, b: Ty)
    requires a.Enum? && b.Enum? && a != b && a.names != {} && a.names * b.names == {}
    ensures Compatible(hints, a, b).Never?
  {
    var name :| name in a.names;
    assert name in a.names * b.names <==> name in b.names;
  }

  lemma RecordMapRefused(hints: Hints, a: Ty, b: Ty, f: Field)
    requires a.Record? && b.Map? && f in a.fields && f.port.required && Compatible(hints, f.port.ty, b.item).Never?
    ensures Compatible(hints, a, b).Never?
  {
  }

  lemma RecordRefused(hints: Hints, a: Ty, b: Ty, f: Field, g: Field)
    requires a.Record? && b.Record? && a != b && DistinctNames(a.fields) && f in a.fields && g in b.fields
    requires f.name == g.name && f.port.required && Compatible(hints, f.port.ty, g.port.ty).Never?
    ensures Compatible(hints, a, b).Never?
  {
    LookupFinds(a.fields, f);
    assert RecordField(hints, a, b, g).Never?;
    assert RecordField(hints, a, b, g) in (set h | h in b.fields :: RecordField(hints, a, b, h));
  }

  lemma {:induction false} LookupFinds(fields: seq<Field>, f: Field)
    requires f in fields && DistinctNames(fields)
    ensures Lookup(fields, f.name) == Some(f.port)
  {
  }

  lemma MapRefused(hints: Hints, a: Ty, b: Ty, g: Field)
    requires a.Map? && b.Record? && g in b.fields && g.port.required && Compatible(hints, a.item, g.port.ty).Never?
    ensures Compatible(hints, a, b).Never?
  {
    assert MapField(Compatible(hints, a.item, g.port.ty), true) in
      (set h | h in b.fields :: MapField(Compatible(hints, a.item, h.port.ty), h.port.required));
  }

  /** Among concrete types a refusal means that no value is shared exactly when the test separates them. */
  lemma RefusalIsDisjointness(w: World, hints: Hints, a: Ty, b: Ty)
    requires HintsSound(w, hints) && Concrete(a) && Concrete(b)
    ensures Compatible(hints, a, b).Never? ==> (Apart(w, a, b) <==> Separates(hints, a, b, EitherSide))
    ensures Separates(hints, a, b, Supplied) ==> Compatible(hints, a, b).Never? && Apart(w, a, b)
    ensures Apart(w, a, b) ==> Compatible(hints, a, b).Never? || Compatible(hints, a, b).Runtime?
  {
    hide *;
    ApartIff(w, hints, a, b);
    if Separates(hints, a, b, Supplied) {
      SuppliedSeparates(hints, a, b);
      SeparatedIsNever(hints, a, b);
    }
    if Apart(w, a, b) {
      ApartIsNotYes(w, hints, a, b);
    }
  }
}
