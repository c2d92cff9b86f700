// What a schema's mask and structural type are, keyword by keyword
// (crates/htlk-analyzer/src/schema_hints.rs:84-397).

module SchemaShapes {
  import opened Wrappers
  import opened Values
  import opened Schemas

  datatype HintError = UnknownRoot | MissingTarget | InvalidSchema | Unresolved

  /** A visit in progress: mask visits and shape visits are told apart. */
  datatype Key = Key(loc: Location, shape: bool, steps: nat)

  type Masked = Result<set<Kind>, HintError>

  function OwnMask(m: Keywords): set<Kind> {
    (if "type" in m then TypeMask(m["type"]) else ANY)
    * (if "const" in m then ValueMask(m["const"]) else ANY)
    * (if "enum" in m && m["enum"].Array? then set x, k | x in m["enum"].items && k in ValueMask(x) :: k else ANY)
  }

  function Meet(a: Masked, b: Masked): Masked {
    if a.Err? then a else if b.Err? then b else Ok(a.value * b.value)
  }

  function Unite(a: Masked, b: Masked): Masked {
    if a.Err? then a else if b.Err? then b else Ok(a.value + b.value)
  }

  // ---- Masks ----

  /** The families at a path below a location; cycles and exhausted depth leave all of them. */
  function MaskOf(c: Catalog, max: nat, active: set<Key>, loc: Location, path: seq<Step>, depth: nat): Masked
    decreases max - depth, 3
  {
    var key := Key(loc, false, |path|);
    if depth >= max || key in active then Ok(ANY) else MaskAt(c, max, active + {key}, loc, path, depth)
  }

  function MaskAt(c: Catalog, max: nat, active: set<Key>, loc: Location, path: seq<Step>, depth: nat): Masked
    requires depth < max
    decreases max - depth, 2
  {
    if loc.uri !in c.documents then Err(UnknownRoot)
    else
      match SchemaAt(c, loc)
      case None => Err(MissingTarget)
      case Some(Bool(b)) => Ok(if b then ANY else {})
      case Some(Map(m)) =>
        var own := OwnAt(c, max, active, loc, m, path, depth);
        if own.Err? then own else Meet(own, InPlaceAt(c, max, active, loc, m, path, depth))
      case _ => Err(InvalidSchema)
  }

  /** The location's own assertions and, along the path, its members. */
  function OwnAt(c: Catalog, max: nat, active: set<Key>, loc: Location, m: Keywords, path: seq<Step>, depth: nat):
      Masked
    requires depth < max
    decreases max - depth, 0
  {
    if path == [] then Ok(OwnMask(m))
    else
      match path[0]
      case Field(name) =>
        if ObjectK !in OwnMask(m) then Ok({})
        else if name in Properties(m) then
          MaskOf(c, max, active, loc.Child("properties").Child(name), path[1..], depth + 1)
        else if "patternProperties" in m || "additionalProperties" !in m then Ok(ANY)
        else MaskOf(c, max, active, loc.Child("additionalProperties"), path[1..], depth + 1)
      case Index(i) =>
        if ArrayK !in OwnMask(m) then Ok({})
        else if i < PrefixLength(m) then MaskOf(c, max, active, loc.Child("prefixItems").At(i), path[1..], depth + 1)
        else if "items" in m then MaskOf(c, max, active, loc.Child("items"), path[1..], depth + 1)
        else Ok(ANY)
  }

  /** The keywords that apply at the same location. */
  function InPlaceAt(
      c: Catalog, max: nat, active: set<Key>, loc: Location, m: Keywords, path: seq<Step>, depth: nat): Masked
    requires depth < max
    decreases max - depth, 1
  {
    Meet(
      Meet(
        Meet(RefMask(c, max, active, loc, m, path, depth),
             AllMask(c, max, active, loc, m, path, depth, Branches(m, "allOf"))),
        SomeMask(c, max, active, loc, m, "anyOf", path, depth)),
      SomeMask(c, max, active, loc, m, "oneOf", path, depth))
  }

  function RefMask(c: Catalog, max: nat, active: set<Key>, loc: Location, m: Keywords, path: seq<Step>, depth: nat):
      Masked
    requires depth < max
    decreases max - depth, 0
  {
    if "$ref" !in m || !m["$ref"].Text? then Ok(ANY)
    else
      var target := c.resolve(loc, m["$ref"].text);
      if target.None? then Err(Unresolved) else MaskOf(c, max, active, target.value, path, depth + 1)
  }

  /** What the first `n` schemas of `allOf` leave together. */
  function AllMask(
      c: Catalog, max: nat, active: set<Key>, loc: Location, m: Keywords, path: seq<Step>, depth: nat, n: nat): Masked
    requires depth < max
    decreases max - depth, 0, n
  {
    if n == 0 then Ok(ANY)
    else
      Meet(
        AllMask(c, max, active, loc, m, path, depth, n - 1),
        MaskOf(c, max, active, loc.Child("allOf").At(n - 1), path, depth + 1))
  }

  function SomeMask(
      c: Catalog, max: nat, active: set<Key>, loc: Location, m: Keywords, keyword: string, path: seq<Step>,
      depth: nat): Masked
    requires depth < max
    decreases max - depth, 0, 1
  {
    if keyword !in m || !m[keyword].Array? then Ok(ANY)
    else AnyMask(c, max, active, loc, m, keyword, path, depth, Branches(m, keyword))
  }

  /** What the first `n` schemas of an alternative allow between them. */
  function AnyMask(
      c: Catalog, max: nat, active: set<Key>, loc: Location, m: Keywords, keyword: string, path: seq<Step>,
      depth: nat, n: nat): Masked
    requires depth < max
    decreases max - depth, 0, 0, n
  {
    if n == 0 then Ok({})
    else
      Unite(
        AnyMask(c, max, active, loc, m, keyword, path, depth, n - 1),
        MaskOf(c, max, active, loc.Child(keyword).At(n - 1), path, depth + 1))
  }

  /** The first part that fails decides. */
  lemma MeetFails(
      c: Catalog, max: nat, active: set<Key>, loc: Location, m: Keywords, path: seq<Step>, depth: nat, own: set<Kind>)
    requires depth < max
    ensures
      var target := RefMask(c, max, active, loc, m, path, depth);
      var all := AllMask(c, max, active, loc, m, path, depth, Branches(m, "allOf"));
      var any := SomeMask(c, max, active, loc, m, "anyOf", path, depth);
      var one := SomeMask(c, max, active, loc, m, "oneOf", path, depth);
      var whole := Meet(Ok(own), InPlaceAt(c, max, active, loc, m, path, depth));
      && (target.Err? ==> whole == target)
      && (target.Ok? && all.Err? ==> whole == all)
      && (target.Ok? && all.Ok? && any.Err? ==> whole == any)
      && (target.Ok? && all.Ok? && any.Ok? && one.Err? ==> whole == one)
  {
    hide RefMask, AllMask, SomeMask;
  }

  lemma MeetAll(
      c: Catalog, max: nat, active: set<Key>, loc: Location, m: Keywords, path: seq<Step>, depth: nat, own: set<Kind>)
    requires depth < max
    ensures
      var target := RefMask(c, max, active, loc, m, path, depth);
      var all := AllMask(c, max, active, loc, m, path, depth, Branches(m, "allOf"));
      var any := SomeMask(c, max, active, loc, m, "anyOf", path, depth);
      var one := SomeMask(c, max, active, loc, m, "oneOf", path, depth);
      target.Ok? && all.Ok? && any.Ok? && one.Ok? ==>
        Meet(Ok(own), InPlaceAt(c, max, active, loc, m, path, depth))
          == Ok(own * target.value * all.value * any.value * one.value)
  {
    hide RefMask, AllMask, SomeMask;
    var target := RefMask(c, max, active, loc, m, path, depth);
    var all := AllMask(c, max, active, loc, m, path, depth, Branches(m, "allOf"));
    var any := SomeMask(c, max, active, loc, m, "anyOf", path, depth);
    var one := SomeMask(c, max, active, loc, m, "oneOf", path, depth);
    if target.Ok? && all.Ok? && any.Ok? && one.Ok? {
      assert own * (target.value * all.value * any.value * one.value)
        == own * target.value * all.value * any.value * one.value;
    }
  }

  lemma {:induction false} AllMaskFails(
      c: Catalog, max: nat, active: set<Key>, loc: Location, m: Keywords, path: seq<Step>, depth: nat, i: nat, n: nat)
    requires depth < max && i <= n && AllMask(c, max, active, loc, m, path, depth, i).Err?
    ensures AllMask(c, max, active, loc, m, path, depth, n) == AllMask(c, max, active, loc, m, path, depth, i)
  {
    if i < n {
      AllMaskFails(c, max, active, loc, m, path, depth, i, n - 1);
    }
  }

  lemma {:induction false} AnyMaskFails(
      c: Catalog, max: nat, active: set<Key>, loc: Location, m: Keywords, keyword: string, path: seq<Step>,
      depth: nat, i: nat, n: nat)
    requires depth < max && i <= n && AnyMask(c, max, active, loc, m, keyword, path, depth, i).Err?
    ensures AnyMask(c, max, active, loc, m, keyword, path, depth, n)
      == AnyMask(c, max, active, loc, m, keyword, path, depth, i)
  {
    if i < n {
      AnyMaskFails(c, max, active, loc, m, keyword, path, depth, i, n - 1);
    }
  }

  // ---- Structural types, by the values they hold ----

  predicate Alternatives(m: Keywords) {
    exists k :: k in m && k in ["$dynamicRef", "allOf", "anyOf", "oneOf", "if", "dependentSchemas"]
  }

  predicate Cut(max: nat, active: set<Key>, loc: Location, path: seq<Step>, depth: nat) {
    depth >= max || Key(loc, true, |path|) in active
  }

  function Entered(active: set<Key>, loc: Location, path: seq<Step>): set<Key> {
    active + {Key(loc, true, |path|)}
  }

  /** The keywords of a location that has one evaluation path only. */
  function Direct(c: Catalog, loc: Location): Option<Keywords> {
    match SchemaAt(c, loc)
    case Some(Map(m)) => if Alternatives(m) then None else Some(m)
    case _ => None
  }

  function Reference(m: Keywords): Option<string> {
    if "$ref" in m && m["$ref"].Text? then Some(m["$ref"].text) else None
  }

  function Kinds(): set<string> {
    {"string", "boolean", "null", "integer", "number", "array", "object"}
  }

  function KindName(m: Keywords): string {
    if "type" in m && m["type"].Text? then m["type"].text else ""
  }

  /** Where the next step of a path leads. */
  function StepTo(loc: Location, m: Keywords, step: Step): Option<Location> {
    match step
    case Field(name) => if name in Properties(m) then Some(loc.Child("properties").Child(name)) else None
    case Index(i) =>
      if i < PrefixLength(m) then Some(loc.Child("prefixItems").At(i))
      else if "items" in m then Some(loc.Child("items"))
      else None
  }

  /** A location that a visit goes on to with what is left of the path. */
  datatype Onward = Here | Nowhere | On(loc: Location, rest: seq<Step>)

  /** References first, then the path; at its end the location itself has the type. */
  function Next(c: Catalog, loc: Location, m: Keywords, path: seq<Step>): Onward {
    if Reference(m).Some? then
      var target := c.resolve(loc, Reference(m).value);
      if target.Some? then On(target.value, path) else Nowhere
    else if path != [] then
      var next := StepTo(loc, m, path[0]);
      if next.Some? then On(next.value, path[1..]) else Nowhere
    else Here
  }

  /** The analysis meets a schema it cannot read. */
  ghost predicate ShapeFails(c: Catalog, max: nat, active: set<Key>, loc: Location, path: seq<Step>, depth: nat)
    decreases max - depth, 2
  {
    !Cut(max, active, loc, path, depth) && (
      || loc.uri !in c.documents || SchemaAt(c, loc).None?
      || (Direct(c, loc).Some? &&
          InsideFails(c, max, Entered(active, loc, path), loc, Direct(c, loc).value, path, depth)))
  }

  ghost predicate InsideFails(
      c: Catalog, max: nat, active: set<Key>, loc: Location, m: Keywords, path: seq<Step>, depth: nat)
    requires depth < max
    decreases max - depth, 1
  {
    match Next(c, loc, m, path)
    case On(next, rest) => ShapeFails(c, max, active, next, rest, depth + 1)
    case Nowhere => Reference(m).Some?
    case Here => MemberFails(c, max, active, loc, m, depth)
  }

  ghost predicate MemberFails(c: Catalog, max: nat, active: set<Key>, loc: Location, m: Keywords, depth: nat)
    requires depth < max
    decreases max - depth, 0
  {
    if KindName(m) == "array" then
      "prefixItems" !in m && "items" in m && ShapeFails(c, max, active, loc.Child("items"), [], depth + 1)
    else
      KindName(m) == "object" && exists name ::
        name in Properties(m) && ShapeFails(c, max, active, loc.Child("properties").Child(name), [], depth + 1)
  }

  lemma FailsAt(c: Catalog, max: nat, active: set<Key>, loc: Location, m: Keywords, path: seq<Step>, depth: nat)
    requires !Cut(max, active, loc, path, depth) && Direct(c, loc) == Some(m)
    requires loc.uri in c.documents && SchemaAt(c, loc).Some?
    ensures ShapeFails(c, max, active, loc, path, depth) <==>
      InsideFails(c, max, Entered(active, loc, path), loc, m, path, depth)
  {
    hide InsideFails, Direct, SchemaAt;
  }

  lemma FailsInside(c: Catalog, max: nat, active: set<Key>, loc: Location, m: Keywords, path: seq<Step>, depth: nat)
    requires depth < max
    ensures
      var next := Next(c, loc, m, path);
      && (next.On? ==>
          InsideFails(c, max, active, loc, m, path, depth)
          == ShapeFails(c, max, active, next.loc, next.rest, depth + 1))
      && (next.Nowhere? ==> InsideFails(c, max, active, loc, m, path, depth) == Reference(m).Some?)
      && (next.Here? ==>
          InsideFails(c, max, active, loc, m, path, depth) == MemberFails(c, max, active, loc, m, depth))
  {
    hide Next, Reference, ShapeFails, MemberFails;
  }

  /** A structural type is found. */
  ghost predicate Shaped(c: Catalog, max: nat, active: set<Key>, loc: Location, path: seq<Step>, depth: nat)
    decreases max - depth
  {
    !Cut(max, active, loc, path, depth) && Direct(c, loc).Some? &&
    var m := Direct(c, loc).value;
    match Next(c, loc, m, path)
    case On(next, rest) => Shaped(c, max, Entered(active, loc, path), next, rest, depth + 1)
    case Nowhere => false
    case Here => KindName(m) in Kinds() && (KindName(m) == "array" ==> "prefixItems" !in m)
  }

  /** A value of the structural type found at the path. */
  ghost predicate Meets(
      c: Catalog, max: nat, active: set<Key>, loc: Location, path: seq<Step>, depth: nat, v: Value)
    decreases max - depth, 2
  {
    depth < max && Direct(c, loc).Some? &&
    var m, inside := Direct(c, loc).value, Entered(active, loc, path);
    match Next(c, loc, m, path)
    case On(next, rest) => Meets(c, max, inside, next, rest, depth + 1, v)
    case Nowhere => false
    case Here => MeetsKind(c, max, inside, loc, m, depth, v)
  }

  ghost predicate MeetsKind(
      c: Catalog, max: nat, active: set<Key>, loc: Location, m: Keywords, depth: nat, v: Value)
    requires depth < max
    decreases max - depth, 1
  {
    match KindName(m)
    case "string" => v.Text?
    case "boolean" => v.Bool?
    case "null" => v.Null?
    case "integer" => v.Integer? || v.Float?
    case "number" => v.Integer? || v.Float?
    case "array" => MeetsItems(c, max, active, loc, m, depth, v)
    case _ => MeetsFields(c, max, active, loc, m, depth, v)
  }

  ghost predicate MeetsItems(
      c: Catalog, max: nat, active: set<Key>, loc: Location, m: Keywords, depth: nat, v: Value)
    requires depth < max
    decreases max - depth, 0
  {
    v.Array? && ("items" in m ==>
      forall x :: x in v.items ==> MeetsMember(c, max, active, loc.Child("items"), depth + 1, x))
  }

  ghost predicate MeetsFields(
      c: Catalog, max: nat, active: set<Key>, loc: Location, m: Keywords, depth: nat, v: Value)
    requires depth < max
    decreases max - depth, 0, 1
  {
    v.Map? && forall name :: name in Properties(m) ==> FieldMet(c, max, active, loc, m, depth, v, name)
  }

  ghost predicate FieldMet(
      c: Catalog, max: nat, active: set<Key>, loc: Location, m: Keywords, depth: nat, v: Value, name: string)
    requires depth < max && v.Map?
    decreases max - depth, 0, 0
  {
    if name in v.entries then
      MeetsMember(c, max, active, loc.Child("properties").Child(name), depth + 1, v.entries[name])
    else name !in RequiredNames(m)
  }

  /** A member without a structural type is any JSON value. */
  ghost predicate MeetsMember(c: Catalog, max: nat, active: set<Key>, loc: Location, depth: nat, v: Value)
    decreases max - depth, 3
  {
    Shaped(c, max, active, loc, [], depth) ==> Meets(c, max, active, loc, [], depth, v)
  }

  /** A field taken from the path is required; references and indexes ask for nothing. */
  predicate StepRequired(m: Keywords, path: seq<Step>) {
    Reference(m).None? && path != [] && path[0].Field? ==> path[0].name in RequiredNames(m)
  }

  /** The value must be there: every object on the way requires the next one. */
  ghost predicate Needed(c: Catalog, max: nat, active: set<Key>, loc: Location, path: seq<Step>, depth: nat)
    decreases max - depth
  {
    depth < max && Direct(c, loc).Some? &&
    var m, inside := Direct(c, loc).value, Entered(active, loc, path);
    match Next(c, loc, m, path)
    case On(next, rest) =>
      && StepRequired(m, path)
      && Needed(c, max, inside, next, rest, depth + 1)
    case Nowhere => false
    case Here => true
  }
}
