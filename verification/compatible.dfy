// The three-valued compatibility relation of the expression analyzer
// (crates/htlk-analyzer/src/type_check.rs:1843-2010, 2032-2057).

module Compatibility {
  import opened Wrappers
  import opened Types

  datatype Match = Yes | Runtime | Never

  /** Representation families; the source numbers them as bits of a mask. */
  datatype Family = NullF | BoolF | IntF | FloatF | TextF | BytesF | ArrayF | ObjectF | FunctionF

  const JSON: set<Family> := {NullF, BoolF, IntF, FloatF, TextF, ArrayF, ObjectF}
  const ALL: set<Family> := JSON + {BytesF, FunctionF}

  /** The schema hints supplied to one analysis; none without native schemas. */
  type Hints = Option<nat -> Ty>

  function Families(t: Ty): set<Family> {
    match t
    case Builtin(p) => (
      match p
      case PNull => {NullF}
      case PBoolean => {BoolF}
      case PInteger => {IntF}
      case PFloat => {FloatF}
      case PString => {TextF}
      case PBytes => {BytesF}
      case PJson => JSON
      case _ => {ObjectF})
    case Enum(_) => {TextF}
    case Schema(_) => JSON
    case List(_) => {ArrayF}
    case Map(_) => {ObjectF}
    case Record(_) => {ObjectF}
    case Union(members) => set m, f | m in members && f in Families(m) :: f
    case Var(_) => ALL
    case Function(_, _) => {FunctionF}
  }

  function RefinedFamilies(hints: Hints, t: Ty): set<Family> {
    match t
    case Union(members) => set m, f | m in members && f in RefinedFamilies(hints, m) :: f
    case Schema(digest) => if hints.Some? then Families(hints.value(digest)) else Families(t)
    case _ => Families(t)
  }

  /** The verdict of a record comparison: its worst field. */
  function Worst(ms: set<Match>): Match {
    if Never in ms then Never else if Runtime in ms then Runtime else Yes
  }

  /** Every member of an actual union must be accepted. */
  function EveryMember(ms: set<Match>): Match {
    if ms <= {Yes} then Yes else if ms <= {Never} then Never else Runtime
  }

  /** Some member of an expected union must accept. */
  function SomeMember(ms: set<Match>): Match {
    if Yes in ms then Yes else if Runtime in ms then Runtime else Never
  }

  function FieldMatch(relation: Match, supplied: bool, wanted: bool): Match {
    if relation.Never? && supplied then Never
    else if !relation.Yes? || (wanted && !supplied) then Runtime
    else Yes
  }

  function MapField(relation: Match, required: bool): Match {
    if relation.Never? && required then Never
    else if !relation.Yes? || required then Runtime
    else Yes
  }

  function EnumMatch(a: set<string>, b: set<string>): Match {
    if a <= b then Yes else if a * b != {} then Runtime else Never
  }

  function JsonMatch(actual: Ty): Match {
    match actual
    case Builtin(p) =>
      if p in {PString, PBoolean, PNull, PRegex, PPromptResult, PToolResult} then Yes else Runtime
    case Schema(_) => Yes
    case _ => Runtime
  }

  function BuiltinFields(t: Ty): seq<string> {
    if t == Builtin(PError) then ["code", "message"] else ["pattern", "flags"]
  }

  function Compatible(hints: Hints, actual: Ty, expected: Ty): Match
    decreases Depth(map[], actual) + Depth(map[], expected)
  {
    if actual == expected then Yes
    else if actual.Union? then
      EveryMember(set m | m in actual.members :: Compatible(hints, m, expected))
    else if expected.Union? then
      SomeMember(set m | m in expected.members :: Compatible(hints, actual, m))
    else if RefinedFamilies(hints, actual) * RefinedFamilies(hints, expected) == {} then Never
    else if actual.Enum? && expected.Enum? then EnumMatch(actual.names, expected.names)
    else if actual.Enum? && expected == Builtin(PString) then Yes
    else if expected == Builtin(PJson) then JsonMatch(actual)
    else if actual == Builtin(PJson) || actual.Schema? || expected.Schema? then Runtime
    else Structural(hints, actual, expected)
  }

  /** The cases that look inside both types. */
  function Structural(hints: Hints, actual: Ty, expected: Ty): Match
    decreases Depth(map[], actual) + Depth(map[], expected), 0, 2
  {
    match (actual, expected)
    case (List(a), List(b)) => Compatible(hints, a, b)
    case (Map(a), Map(b)) => Compatible(hints, a, b)
    case (Record(a), Record(b)) =>
      Worst(set f | f in b :: RecordField(hints, actual, expected, f))
    case (Record(a), Map(item)) =>
      // a record value may hold undeclared fields
      if exists f :: f in a && f.port.required && Compatible(hints, f.port.ty, item).Never? then Never else Runtime
    case (Map(item), Record(b)) =>
      Worst(set f | f in b :: MapField(Compatible(hints, item, f.port.ty), f.port.required))
    case (Builtin(_), Record(_)) =>
      if Expands(actual) then
        TextRecordDepth(map[], BuiltinFields(actual));
        Compatible(hints, TextRecord(BuiltinFields(actual)), expected)
      else Runtime
    case (Record(_), Builtin(PError)) =>
      TextRecordDepth(map[], BuiltinFields(expected));
      Compatible(hints, actual, TextRecord(BuiltinFields(expected)))
    case (Function(_, _), Function(_, _)) => Callback(hints, actual, expected)
    case _ => Runtime
  }

  function RecordField(hints: Hints, actual: Ty, expected: Ty, f: Field): Match
    requires actual.Record? && expected.Record? && f in expected.fields
    decreases Depth(map[], actual) + Depth(map[], expected), 0, 0
  {
    match Lookup(actual.fields, f.name)
    case None => if f.port.required then Never else Runtime
    case Some(supplied) =>
      assert Field(f.name, supplied) in actual.fields;
      FieldMatch(Compatible(hints, supplied.ty, f.port.ty), supplied.required, f.port.required)
  }

  function Callback(hints: Hints, actual: Ty, expected: Ty): Match
    requires actual.Function? && expected.Function?
    decreases Depth(map[], actual) + Depth(map[], expected), 0, 1
  {
    var a, b := actual.parameters, expected.parameters;
    if |a| != |b| || (expected.output.required && !actual.output.required) then Never
    else if exists i | 0 <= i < |a| :: ParameterRefused(hints, actual, expected, i) then Never
    else Compatible(hints, actual.output.ty, expected.output.ty)
  }

  /** Callback parameters are contravariant in type and in presence. */
  predicate ParameterRefused(hints: Hints, actual: Ty, expected: Ty, i: nat)
    requires actual.Function? && expected.Function?
    requires i < |actual.parameters| == |expected.parameters|
    decreases Depth(map[], actual) + Depth(map[], expected), 0, 0
  {
    var a, b := actual.parameters[i], expected.parameters[i];
    assert a in actual.parameters && b in expected.parameters;
    (!b.required && a.required) || !Compatible(hints, b.ty, a.ty).Yes?
  }
}
