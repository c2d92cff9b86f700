// A Yes verdict is inclusion of values; disjoint families are disjoint types; and a
// discharged constraint delivers a value of the expected port.

module CompatibilitySound {
  import opened Wrappers
  import opened Types
  import opened Values
  import opened Compatibility

  // ---- Yes means inclusion ----

  lemma {:induction false} YesSound(hints: Hints, w: World, v: Value, actual: Ty, expected: Ty)
    requires Compatible(hints, actual, expected).Yes?
    requires Has(w, v, actual)
    ensures Has(w, v, expected)
    decreases Depth(map[], actual) + Depth(map[], expected), 1
  {
    if actual == expected {
    } else if actual.Union? {
      UnionActualSound(hints, w, v, actual, expected);
    } else if expected.Union? {
      UnionExpectedSound(hints, w, v, actual, expected);
    } else if actual.Enum? && expected.Enum? {
      assert actual.names <= expected.names;
    } else if actual.Enum? && expected == Builtin(PString) {
    } else if expected == Builtin(PJson) {
      JsonYesSound(w, v, actual);
    } else {
      assert Compatible(hints, actual, expected) == Structural(hints, actual, expected);
      StructuralSound(hints, w, v, actual, expected);
    }
  }

  lemma {:induction false} UnionActualSound(hints: Hints, w: World, v: Value, actual: Ty, expected: Ty)
    requires actual.Union? && actual != expected
    requires Compatible(hints, actual, expected).Yes?
    requires Has(w, v, actual)
    ensures Has(w, v, expected)
    decreases Depth(map[], actual) + Depth(map[], expected), 0
  {
    var m :| m in actual.members && Has(w, v, m);
    MemberAccepted(hints, actual, expected, m);
    hide *;
    YesSound(hints, w, v, m, expected);
  }

  /** A union is accepted only when each of its members is. */
  lemma MemberAccepted(hints: Hints, actual: Ty, expected: Ty, m: Ty)
    requires actual.Union? && actual != expected && m in actual.members
    requires Compatible(hints, actual, expected).Yes?
    ensures Compatible(hints, m, expected).Yes? && Depth(map[], m) < Depth(map[], actual)
  {
    var verdicts := set x | x in actual.members :: Compatible(hints, x, expected);
    assert Compatible(hints, actual, expected) == EveryMember(verdicts);
    hide Compatible, Depth;
    assert Compatible(hints, m, expected) in verdicts;
  }

  lemma {:induction false} UnionExpectedSound(hints: Hints, w: World, v: Value, actual: Ty, expected: Ty)
    requires !actual.Union? && expected.Union?
    requires Compatible(hints, actual, expected).Yes?
    requires Has(w, v, actual)
    ensures Has(w, v, expected)
    decreases Depth(map[], actual) + Depth(map[], expected), 0
  {
    var verdicts := set m | m in expected.members :: Compatible(hints, actual, m);
    assert Yes in verdicts;
    var m :| m in expected.members && Compatible(hints, actual, m) == Yes;
    YesSound(hints, w, v, actual, m);
  }

  lemma JsonYesSound(w: World, v: Value, actual: Ty)
    requires JsonMatch(actual).Yes?
    requires Has(w, v, actual)
    ensures IsJson(v)
  {
  }

  lemma {:induction false} StructuralSound(hints: Hints, w: World, v: Value, actual: Ty, expected: Ty)
    requires Structural(hints, actual, expected).Yes?
    requires Has(w, v, actual)
    ensures Has(w, v, expected)
    decreases Depth(map[], actual) + Depth(map[], expected), 0, 2
  {
    match (actual, expected)
    case (List(_), List(_)) =>
      ItemsSound(hints, w, v, actual, expected);
    case (Map(_), Map(_)) =>
      ItemsSound(hints, w, v, actual, expected);
    case (Record(_), Record(b)) =>
      forall f | f in b
        ensures HasPort(w, Member(v.entries, f.name), f.port)
      {
        RecordFieldSound(hints, w, v, actual, expected, f);
      }
    case (Map(_), Record(b)) =>
      forall f | f in b
        ensures HasPort(w, Member(v.entries, f.name), f.port)
      {
        MapFieldSound(hints, w, v, actual, expected, f);
      }
    case (Builtin(p), Record(_)) =>
      TextRecordDepth(map[], BuiltinFields(actual));
      ExpansionSound(w, v, p);
      YesSound(hints, w, v, TextRecord(BuiltinFields(actual)), expected);
    case (Record(_), Builtin(PError)) =>
      TextRecordDepth(map[], BuiltinFields(expected));
      YesSound(hints, w, v, actual, TextRecord(BuiltinFields(expected)));
      ContractionSound(w, v);
    case (Function(_, _), Function(_, _)) =>
      CallableSound(hints, w, v, actual, expected);
    case _ =>
  }

  /** Lists and maps are accepted item by item. */
  lemma {:induction false} ItemsSound(hints: Hints, w: World, v: Value, actual: Ty, expected: Ty)
    requires (actual.List? && expected.List?) || (actual.Map? && expected.Map?)
    requires Compatible(hints, actual.item, expected.item).Yes?
    requires Has(w, v, actual)
    ensures Has(w, v, expected)
    decreases Depth(map[], actual) + Depth(map[], expected), 0, 0
  {
    if actual.List? {
      forall x | x in v.items
        ensures Has(w, x, expected.item)
      {
        YesSound(hints, w, x, actual.item, expected.item);
      }
    } else {
      forall key | key in v.entries
        ensures Has(w, v.entries[key], expected.item)
      {
        YesSound(hints, w, v.entries[key], actual.item, expected.item);
      }
    }
  }

  /** A record field, when present, is delivered by an accepted map. */
  lemma {:induction false} MapFieldSound(hints: Hints, w: World, v: Value, actual: Ty, expected: Ty, f: Field)
    requires actual.Map? && expected.Record? && f in expected.fields
    requires Structural(hints, actual, expected).Yes?
    requires Has(w, v, actual)
    ensures HasPort(w, Member(v.entries, f.name), f.port)
    decreases Depth(map[], actual) + Depth(map[], expected), 0, 0
  {
    var relation := Compatible(hints, actual.item, f.port.ty);
    assert MapField(relation, f.port.required) in
        set f | f in expected.fields :: MapField(Compatible(hints, actual.item, f.port.ty), f.port.required);
    if f.name in v.entries {
      YesSound(hints, w, v.entries[f.name], actual.item, f.port.ty);
    }
  }

  lemma {:induction false} CallableSound(hints: Hints, w: World, v: Value, actual: Ty, expected: Ty)
    requires actual.Function? && expected.Function?
    requires Structural(hints, actual, expected).Yes?
    requires Has(w, v, actual)
    ensures Has(w, v, expected)
    decreases Depth(map[], actual) + Depth(map[], expected), 0, 1
  {
    var b := expected.parameters;
    forall args: seq<Option<Value>> |
      |args| == |b| && forall i :: 0 <= i < |args| ==> HasPort(w, args[i], b[i])
      ensures Returns(w, w.call(v.id, args), expected.output)
    {
      FunctionSound(hints, w, v, actual, expected, args);
    }
  }

  lemma {:induction false} RecordFieldSound(hints: Hints, w: World, v: Value, actual: Ty, expected: Ty, f: Field)
    requires actual.Record? && expected.Record? && f in expected.fields
    requires Structural(hints, actual, expected).Yes?
    requires Has(w, v, actual)
    ensures HasPort(w, Member(v.entries, f.name), f.port)
    decreases Depth(map[], actual) + Depth(map[], expected), 0, 0
  {
    assert RecordField(hints, actual, expected, f) in
        set f | f in expected.fields :: RecordField(hints, actual, expected, f);
    assert RecordField(hints, actual, expected, f).Yes?;
    var supplied := Lookup(actual.fields, f.name);
    assert Field(f.name, supplied.value) in actual.fields;
    assert HasPort(w, Member(v.entries, f.name), supplied.value);
    if f.name in v.entries {
      YesSound(hints, w, v.entries[f.name], supplied.value.ty, f.port.ty);
    }
  }

  lemma {:induction false} FunctionSound(
      hints: Hints, w: World, v: Value, actual: Ty, expected: Ty, args: seq<Option<Value>>)
    requires actual.Function? && expected.Function?
    requires Structural(hints, actual, expected).Yes?
    requires Has(w, v, actual)
    requires |args| == |expected.parameters|
    requires forall i :: 0 <= i < |args| ==> HasPort(w, args[i], expected.parameters[i])
    ensures Returns(w, w.call(v.id, args), expected.output)
    decreases Depth(map[], actual) + Depth(map[], expected), 0, 0
  {
    var a, b := actual.parameters, expected.parameters;
    forall i | 0 <= i < |args|
      ensures HasPort(w, args[i], a[i])
    {
      assert a[i] in a && b[i] in b;
      assert !ParameterRefused(hints, actual, expected, i);
      if args[i].Some? {
        YesSound(hints, w, args[i].value, b[i].ty, a[i].ty);
      }
    }
    assert !exists i | 0 <= i < |a| :: ParameterRefused(hints, actual, expected, i);
    assert Structural(hints, actual, expected) == Compatible(hints, actual.output.ty, expected.output.ty);
    var r := w.call(v.id, args);
    assert Returns(w, r, actual.output);
    if r.Some? {
      assert HasPort(w, r.value, actual.output);
      if r.value.Some? {
        YesSound(hints, w, r.value.value, actual.output.ty, expected.output.ty);
      }
      assert HasPort(w, r.value, expected.output);
    }
  }

  lemma ExpansionSound(w: World, v: Value, p: Primitive)
    requires Expands(Builtin(p))
    requires HasBuiltin(w, v, p)
    ensures Has(w, v, TextRecord(BuiltinFields(Builtin(p))))
  {
  }

  lemma ContractionSound(w: World, v: Value)
    requires Has(w, v, TextRecord(["code", "message"]))
    ensures HasBuiltin(w, v, PError)
  {
    var fields := TextRecord(["code", "message"]).fields;
    assert fields[0] in fields && fields[1] in fields;
    assert HasPort(w, Member(v.entries, fields[0].name), fields[0].port);
    assert HasPort(w, Member(v.entries, fields[1].name), fields[1].port);
  }

  // ---- Disjoint families ----

  function FamilyOf(v: Value): Family {
    match v
    case Null => NullF
    case Bool(_) => BoolF
    case Integer(_) => IntF
    case Float(_) => FloatF
    case Text(_) => TextF
    case Bytes(_) => BytesF
    case Array(_) => ArrayF
    case Map(_) => ObjectF
    case Callable(_) => FunctionF
  }

  lemma {:induction false} FamiliesSound(w: World, v: Value, t: Ty)
    requires Has(w, v, t)
    ensures FamilyOf(v) in Families(t)
  {
    if t.Union? {
      var m :| m in t.members && Has(w, v, m);
      FamiliesSound(w, v, m);
    }
  }

  /** Hints are sound when every instance of a schema inhabits its hinted type. */
  ghost predicate HintsSound(w: World, hints: Hints) {
    hints.Some? ==> forall d: nat, v: Value :: Has(w, v, Schema(d)) ==> Has(w, v, hints.value(d))
  }

  lemma {:induction false} RefinedFamiliesSound(w: World, hints: Hints, v: Value, t: Ty)
    requires HintsSound(w, hints)
    requires Has(w, v, t)
    ensures FamilyOf(v) in RefinedFamilies(hints, t)
  {
    match t
    case Union(members) =>
      var m :| m in members && Has(w, v, m);
      RefinedFamiliesSound(w, hints, v, m);
    case Schema(digest) =>
      FamiliesSound(w, v, if hints.Some? then hints.value(digest) else t);
    case _ =>
      FamiliesSound(w, v, t);
  }

  /** The family test rejects no pair of types that share a value. */
  lemma SharedValueSharedFamily(w: World, hints: Hints, v: Value, actual: Ty, expected: Ty)
    requires HintsSound(w, hints)
    requires Has(w, v, actual) && Has(w, v, expected)
    ensures RefinedFamilies(hints, actual) * RefinedFamilies(hints, expected) != {}
  {
    RefinedFamiliesSound(w, hints, v, actual);
    RefinedFamiliesSound(w, hints, v, expected);
    assert FamilyOf(v) in RefinedFamilies(hints, actual) * RefinedFamilies(hints, expected);
  }

  /** Never is not disjointness: the empty list inhabits lists of any item. */
  lemma NeverIsNotDisjoint(w: World, hints: Hints)
    ensures Compatible(hints, List(Builtin(PString)), List(Builtin(PInteger))).Never?
    ensures Has(w, Array([]), List(Builtin(PString))) && Has(w, Array([]), List(Builtin(PInteger)))
  {
    var a, b := List(Builtin(PString)), List(Builtin(PInteger));
    assert ArrayF in RefinedFamilies(hints, a) * RefinedFamilies(hints, b);
    assert RefinedFamilies(hints, a.item) * RefinedFamilies(hints, b.item) == {};
  }

  // ---- Discharge of a constraint (type_check.rs:424-445) ----

  datatype Check = PresentCheck | ValueCheck(port: Port)

  /** The checks emitted for one constraint, or none when analysis fails. */
  function Discharge(hints: Hints, actual: Port, expected: Port, callback: bool): Option<set<Check>> {
    var relation := Compatible(hints, actual.ty, expected.ty);
    if relation.Never? || (callback && (!relation.Yes? || (expected.required && !actual.required))) then None
    else Some(
      (if expected.required && !actual.required then {PresentCheck} else {}) +
      (if relation.Runtime? then {ValueCheck(expected)} else {}))
  }

  ghost predicate Passes(w: World, v: Option<Value>, check: Check) {
    match check
    case PresentCheck => v.Some?
    case ValueCheck(port) => v.Some? ==> Has(w, v.value, port.ty)
  }

  /**
   * An accepted constraint delivers: what the producer may yield, once it passes the
   * emitted checks, satisfies the expected port.  Callbacks need no checks at all.
   */
  lemma DischargeSound(hints: Hints, w: World, v: Option<Value>, actual: Port, expected: Port, callback: bool)
    requires Discharge(hints, actual, expected, callback).Some?
    requires HasPort(w, v, actual)
    requires forall c :: c in Discharge(hints, actual, expected, callback).value ==> Passes(w, v, c)
    ensures HasPort(w, v, expected)
    ensures callback ==> Discharge(hints, actual, expected, callback).value == {}
  {
    var checks := Discharge(hints, actual, expected, callback).value;
    if v.Some? {
      if Compatible(hints, actual.ty, expected.ty).Yes? {
        YesSound(hints, w, v.value, actual.ty, expected.ty);
      } else {
        assert ValueCheck(expected) in checks;
      }
    } else {
      assert expected.required && !actual.required ==> PresentCheck in checks;
    }
  }
}
