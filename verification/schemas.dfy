// What the analyzed JSON Schema keywords assert about an instance (JSON Schema
// 2020-12: Core sections 8.2.3.1, 10.2.1 and 10.3; Validation section 6).

module Schemas {
  import opened Wrappers
  import opened Values

  datatype Token = Name(name: string) | Item(index: nat)

  type Pointer = seq<Token>

  datatype Location = Location(uri: string, pointer: Pointer) {
    function Child(name: string): Location { Location(uri, pointer + [Name(name)]) }
    function At(index: nat): Location { Location(uri, pointer + [Item(index)]) }
  }

  /** Offline documents, the target of a reference, and regular expression matching. */
  datatype Catalog = Catalog(
    documents: map<string, Value>,
    resolve: (Location, string) -> Option<Location>,
    matches: (string, string) -> bool)

  function Target(v: Value, pointer: Pointer): Option<Value> {
    if pointer == [] then Some(v)
    else match (v, pointer[0])
      case (Map(entries), Name(name)) => if name in entries then Target(entries[name], pointer[1..]) else None
      case (Array(items), Item(i)) => if i < |items| then Target(items[i], pointer[1..]) else None
      case _ => None
  }

  function SchemaAt(catalog: Catalog, loc: Location): Option<Value> {
    if loc.uri in catalog.documents then Target(catalog.documents[loc.uri], loc.pointer) else None
  }

  type Keywords = map<string, Value>

  predicate TypeNameAllows(name: string, v: Value) {
    match name
    case "null" => v.Null?
    case "boolean" => v.Bool?
    case "integer" => v.Integer? || (v.Float? && v.float == v.float.Floor as real)
    case "number" => v.Integer? || v.Float?
    case "string" => v.Text?
    case "array" => v.Array?
    case "object" => v.Map?
    case _ => true
  }

  predicate TypeAllows(t: Value, v: Value) {
    match t
    case Text(name) => TypeNameAllows(name, v)
    case Array(items) => exists t' :: t' in items && TypeAllows(t', v)
    case _ => true
  }

  function Properties(m: Keywords): map<string, Value> {
    if "properties" in m && m["properties"].Map? then m["properties"].entries else map[]
  }

  function PrefixLength(m: Keywords): nat {
    if "prefixItems" in m && m["prefixItems"].Array? then |m["prefixItems"].items| else 0
  }

  function Branches(m: Keywords, keyword: string): nat {
    if keyword in m && m[keyword].Array? then |m[keyword].items| else 0
  }

  function RequiredNames(m: Keywords): set<string> {
    if "required" in m && m["required"].Array?
    then set n | n in m["required"].items && n.Text? :: n.text
    else {}
  }

  predicate PatternApplies(catalog: Catalog, m: Keywords, name: string) {
    "patternProperties" in m && m["patternProperties"].Map? &&
    exists pattern :: pattern in m["patternProperties"].entries && catalog.matches(pattern, name)
  }

  type Validator = (Location, Value) -> bool

  /** JSON equality: numbers by value, whatever their representation, and containers by their parts. */
  predicate Same(a: Value, b: Value) {
    match (a, b)
    case (Integer(n), Float(x)) => n as real == x
    case (Float(x), Integer(n)) => x == n as real
    case (Array(xs), Array(ys)) => |xs| == |ys| && forall i :: 0 <= i < |xs| ==> Same(xs[i], ys[i])
    case (Map(m), Map(n)) => m.Keys == n.Keys && forall key :: key in m ==> Same(m[key], n[key])
    case _ => a == b
  }

  predicate Local(m: Keywords, v: Value) {
    && ("type" in m ==> TypeAllows(m["type"], v))
    && ("const" in m ==> Same(v, m["const"]))
    && ("enum" in m && m["enum"].Array? ==> exists x :: x in m["enum"].items && Same(v, x))
    && (v.Map? ==> forall name :: name in RequiredNames(m) ==> name in v.entries)
  }

  ghost predicate ObjectMembers(catalog: Catalog, valid: Validator, loc: Location, m: Keywords, v: Value)
    requires v.Map?
  {
    && (forall name :: name in Properties(m) && name in v.entries ==>
      valid(loc.Child("properties").Child(name), v.entries[name]))
    && (forall name ::
      name in v.entries && "additionalProperties" in m && name !in Properties(m) && !PatternApplies(catalog, m, name)
      ==> valid(loc.Child("additionalProperties"), v.entries[name]))
  }

  ghost predicate ArrayItems(valid: Validator, loc: Location, m: Keywords, v: Value)
    requires v.Array?
  {
    && (forall i: nat :: i < |v.items| && i < PrefixLength(m) ==> valid(loc.Child("prefixItems").At(i), v.items[i]))
    && (forall i: nat :: PrefixLength(m) <= i < |v.items| && "items" in m ==> valid(loc.Child("items"), v.items[i]))
  }

  ghost predicate InPlace(catalog: Catalog, valid: Validator, loc: Location, m: Keywords, v: Value) {
    && ("$ref" in m && m["$ref"].Text? ==>
      var target := catalog.resolve(loc, m["$ref"].text);
      target.Some? && valid(target.value, v))
    && (forall i: nat :: i < Branches(m, "allOf") ==> valid(loc.Child("allOf").At(i), v))
    && ("anyOf" in m && m["anyOf"].Array? ==>
      exists i: nat :: i < Branches(m, "anyOf") && valid(loc.Child("anyOf").At(i), v))
    && ("oneOf" in m && m["oneOf"].Array? ==>
      exists i: nat :: i < Branches(m, "oneOf") && valid(loc.Child("oneOf").At(i), v) &&
        forall j: nat :: j < Branches(m, "oneOf") && j != i ==> !valid(loc.Child("oneOf").At(j), v))
  }

  /** The assertions of the schema at a location, given the verdicts of subschemas. */
  ghost predicate Asserts(catalog: Catalog, valid: Validator, loc: Location, v: Value) {
    match SchemaAt(catalog, loc)
    case Some(Bool(b)) => b
    case Some(Map(m)) =>
      && Local(m, v)
      && (v.Map? ==> ObjectMembers(catalog, valid, loc, m, v))
      && (v.Array? ==> ArrayItems(valid, loc, m, v))
      && InPlace(catalog, valid, loc, m, v)
    case _ => true
  }

  /**
   * A validator of the catalog: any verdicts that satisfy the equations of the
   * keywords, cyclic references included, where `other` stands for the keywords the
   * analysis does not interpret.
   */
  ghost predicate Validates(catalog: Catalog, valid: Validator, other: Validator) {
    forall loc, v :: valid(loc, v) <==> Asserts(catalog, valid, loc, v) && other(loc, v)
  }

  // ---- Projection of instances ----

  datatype Step = Field(name: string) | Index(index: nat)

  datatype Projected = Present(value: Value) | Absent | Mismatch

  function Project(v: Value, path: seq<Step>): Projected {
    if path == [] then Present(v)
    else match (v, path[0])
      case (Map(entries), Field(name)) =>
        if name in entries then Project(entries[name], path[1..]) else Absent
      case (Array(items), Index(i)) =>
        if i < |items| then Project(items[i], path[1..]) else Absent
      case _ => Mismatch
  }

  // ---- Families of JSON values ----

  datatype Kind = NullK | BoolK | NumberK | StringK | ArrayK | ObjectK

  const ANY: set<Kind> := {NullK, BoolK, NumberK, StringK, ArrayK, ObjectK}

  function ValueMask(v: Value): set<Kind> {
    match v
    case Null => {NullK}
    case Bool(_) => {BoolK}
    case Integer(_) => {NumberK}
    case Float(_) => {NumberK}
    case Text(_) => {StringK}
    case Array(_) => {ArrayK}
    case Map(_) => {ObjectK}
    case Bytes(_) => {}
    case Callable(_) => {}
  }

  function TypeNameMask(name: string): set<Kind> {
    match name
    case "null" => {NullK}
    case "boolean" => {BoolK}
    case "integer" => {NumberK}
    case "number" => {NumberK}
    case "string" => {StringK}
    case "array" => {ArrayK}
    case "object" => {ObjectK}
    case _ => ANY
  }

  function TypeMask(t: Value): set<Kind> {
    match t
    case Text(name) => TypeNameMask(name)
    case Array(items) => set t', k | t' in items && k in TypeMask(t') :: k
    case _ => ANY
  }

  /** Equal JSON values have one family. */
  lemma SameMask(a: Value, b: Value)
    requires Same(a, b)
    ensures ValueMask(a) == ValueMask(b)
  {
  }

  lemma {:induction false} TypeMaskSound(t: Value, v: Value)
    requires IsJson(v) && TypeAllows(t, v)
    ensures ValueMask(v) <= TypeMask(t)
  {
    match t
    case Array(items) =>
      var t' :| t' in items && TypeAllows(t', v);
      TypeMaskSound(t', v);
    case Text(_) =>
    case Null =>
    case Bool(_) =>
    case Integer(_) =>
    case Float(_) =>
    case Bytes(_) =>
    case Map(_) =>
    case Callable(_) =>
  }

  lemma {:induction false} TargetJson(v: Value, path: seq<Step>)
    requires IsJson(v)
    ensures Project(v, path).Present? ==> IsJson(Project(v, path).value)
  {
    if path != [] {
      if v.Map? && path[0].Field? && path[0].name in v.entries {
        TargetJson(v.entries[path[0].name], path[1..]);
      } else if v.Array? && path[0].Index? && path[0].index < |v.items| {
        TargetJson(v.items[path[0].index], path[1..]);
      }
    }
  }
}
