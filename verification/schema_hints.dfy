// Family masks and structural types of projected schema instances
// (crates/htlk-analyzer/src/schema_hints.rs).

module SchemaHints {
  import opened Wrappers
  import opened Values
  import opened Schemas
  import opened SchemaShapes
  import Types
  import Bindings

  /** The mask covers the family of every value an instance has at the path. */
  ghost predicate MaskSound(valid: Validator, loc: Location, path: seq<Step>, mask: set<Kind>) {
    forall v :: IsJson(v) && valid(loc, v) && Project(v, path).Present? ==>
      ValueMask(Project(v, path).value) <= mask
  }

  lemma BothSound(valid: Validator, loc: Location, path: seq<Step>, a: set<Kind>, b: set<Kind>)
    requires MaskSound(valid, loc, path, a) && MaskSound(valid, loc, path, b)
    ensures MaskSound(valid, loc, path, a * b)
  {
  }

  lemma JsonMask(v: Value)
    requires IsJson(v)
    ensures ValueMask(v) <= ANY
    ensures ValueMask(v) != {}
  {
  }

  lemma AnyMaskSound(valid: Validator, loc: Location, path: seq<Step>)
    ensures MaskSound(valid, loc, path, ANY)
  {
  }

  // ---- What each keyword contributes to the mask ----

  lemma OwnMaskSound(m: Keywords, v: Value)
    requires IsJson(v) && Local(m, v)
    ensures ValueMask(v) <= OwnMask(m)
  {
    JsonMask(v);
    if "type" in m {
      TypeMaskSound(m["type"], v);
    }
    if "const" in m {
      SameMask(v, m["const"]);
    }
    if "enum" in m && m["enum"].Array? {
      var x :| x in m["enum"].items && Same(v, x);
      SameMask(v, x);
    }
  }

  class Walker {
    const catalog: Catalog
    const maxDepth: nat
    ghost const valid: Validator
    ghost const other: Validator
    ghost const world: World
    var active: set<Key>

    constructor (catalog: Catalog, maxDepth: nat, ghost valid: Validator, ghost other: Validator,
        ghost world: World)
      requires Validates(catalog, valid, other)
      ensures this.catalog == catalog && this.maxDepth == maxDepth && this.valid == valid && this.other == other
      ensures this.world == world
      ensures active == {} && Sound()
    {
      this.catalog, this.maxDepth, active := catalog, maxDepth, {};
      this.valid, this.other, this.world := valid, other, world;
    }

    /** The analysis is judged against an arbitrary validator of the catalog. */
    ghost predicate Sound() {
      Validates(catalog, valid, other)
    }

    /** Cycles and exhausted depth are uncertain, not false. */
    method Walk(loc: Location, path: seq<Step>, depth: nat) returns (r: Result<set<Kind>, HintError>)
      requires Sound()
      modifies this
      ensures active == old(active)
      ensures r == MaskOf(catalog, maxDepth, active, loc, path, depth)
      ensures r.Ok? ==> MaskSound(valid, loc, path, r.value)
      decreases maxDepth - depth, 1
    {
      var key := Key(loc, false, |path|);
      if depth >= maxDepth || key in active {
        AnyMaskSound(valid, loc, path);
        return Ok(ANY);
      }
      active := active + {key};
      r := At(loc, path, depth);
      active := active - {key};
    }

    method At(loc: Location, path: seq<Step>, depth: nat) returns (r: Result<set<Kind>, HintError>)
      requires Sound() && depth < maxDepth
      modifies this
      ensures active == old(active)
      ensures r == MaskAt(catalog, maxDepth, active, loc, path, depth)
      ensures r.Ok? ==> MaskSound(valid, loc, path, r.value)
      decreases maxDepth - depth, 0
    {
      if loc.uri !in catalog.documents {
        return Err(UnknownRoot);
      }
      var schema := SchemaAt(catalog, loc);
      if schema.None? {
        return Err(MissingTarget);
      }
      match schema.value
      case Bool(b) =>
        AnyMaskSound(valid, loc, path);
        r := Ok(if b then ANY else {});
      case Map(m) =>
        var own := Own(loc, m, path, depth);
        if own.Err? {
          return own;
        }
        r := InPlaceMask(loc, m, path, depth, own.value);
      case _ =>
        r := Err(InvalidSchema);
    }

    /** The location's own assertions and, along the path, its members. */
    method Own(loc: Location, m: Keywords, path: seq<Step>, depth: nat) returns (r: Result<set<Kind>, HintError>)
      requires Sound() && depth < maxDepth && SchemaAt(catalog, loc) == Some(Map(m))
      modifies this
      ensures active == old(active)
      ensures r == OwnAt(catalog, maxDepth, active, loc, m, path, depth)
      ensures r.Ok? ==> MaskSound(valid, loc, path, r.value)
      decreases maxDepth - depth, 0, 0
    {
      var own := OwnMask(m);
      AnyMaskSound(valid, loc, path);
      forall v | IsJson(v) && valid(loc, v)
        ensures ValueMask(v) <= own
      {
        assert Asserts(catalog, valid, loc, v);
        OwnMaskSound(m, v);
      }
      if path == [] {
        return Ok(own);
      }
      match path[0]
      case Field(name) =>
        if ObjectK !in own {
          return Ok({});
        }
        if name in Properties(m) {
          r := Walk(loc.Child("properties").Child(name), path[1..], depth + 1);
        } else if "patternProperties" in m || "additionalProperties" !in m {
          r := Ok(ANY);
        } else {
          r := Walk(loc.Child("additionalProperties"), path[1..], depth + 1);
        }
      case Index(i) =>
        if ArrayK !in own {
          return Ok({});
        }
        if i < PrefixLength(m) {
          r := Walk(loc.Child("prefixItems").At(i), path[1..], depth + 1);
        } else if "items" in m {
          r := Walk(loc.Child("items"), path[1..], depth + 1);
        } else {
          r := Ok(ANY);
        }
    }

    /** Narrows a mask by the keywords that apply at the same location. */
    method InPlaceMask(loc: Location, m: Keywords, path: seq<Step>, depth: nat, own: set<Kind>)
      returns (r: Result<set<Kind>, HintError>)
      requires Sound() && depth < maxDepth && SchemaAt(catalog, loc) == Some(Map(m))
      requires MaskSound(valid, loc, path, own)
      modifies this
      ensures active == old(active)
      ensures r == Meet(Ok(own), InPlaceAt(catalog, maxDepth, active, loc, m, path, depth))
      ensures r.Ok? ==> MaskSound(valid, loc, path, r.value)
      decreases maxDepth - depth, 0, 1
    {
      hide *;
      var target := RefPart(loc, m, path, depth);
      if target.Err? {
        MeetFails(catalog, maxDepth, active, loc, m, path, depth, own);
        return target;
      }
      var all := AllOf(loc, m, path, depth);
      if all.Err? {
        MeetFails(catalog, maxDepth, active, loc, m, path, depth, own);
        return all;
      }
      var any := SomeOf(loc, m, "anyOf", path, depth);
      if any.Err? {
        MeetFails(catalog, maxDepth, active, loc, m, path, depth, own);
        return any;
      }
      var one := SomeOf(loc, m, "oneOf", path, depth);
      if one.Err? {
        MeetFails(catalog, maxDepth, active, loc, m, path, depth, own);
        return one;
      }
      MeetAll(catalog, maxDepth, active, loc, m, path, depth, own);
      BothSound(valid, loc, path, own, target.value);
      BothSound(valid, loc, path, own * target.value, all.value);
      BothSound(valid, loc, path, own * target.value * all.value, any.value);
      BothSound(valid, loc, path, own * target.value * all.value * any.value, one.value);
      r := Ok(own * target.value * all.value * any.value * one.value);
    }

    /** The mask of the schema that a reference leads to. */
    method RefPart(loc: Location, m: Keywords, path: seq<Step>, depth: nat) returns (r: Result<set<Kind>, HintError>)
      requires Sound() && depth < maxDepth && SchemaAt(catalog, loc) == Some(Map(m))
      modifies this
      ensures active == old(active)
      ensures r == RefMask(catalog, maxDepth, active, loc, m, path, depth)
      ensures r.Ok? ==> MaskSound(valid, loc, path, r.value)
      decreases maxDepth - depth, 0, 0
    {
      AnyMaskSound(valid, loc, path);
      if "$ref" !in m || !m["$ref"].Text? {
        return Ok(ANY);
      }
      var target := catalog.resolve(loc, m["$ref"].text);
      if target.None? {
        return Err(Unresolved);
      }
      r := Walk(target.value, path, depth + 1);
      assert forall v :: valid(loc, v) ==> Asserts(catalog, valid, loc, v);
    }

    method AllOf(loc: Location, m: Keywords, path: seq<Step>, depth: nat) returns (r: Result<set<Kind>, HintError>)
      requires Sound() && depth < maxDepth && SchemaAt(catalog, loc) == Some(Map(m))
      modifies this
      ensures active == old(active)
      ensures r == AllMask(catalog, maxDepth, active, loc, m, path, depth, Branches(m, "allOf"))
      ensures r.Ok? ==> MaskSound(valid, loc, path, r.value)
      decreases maxDepth - depth, 0, 0
    {
      var combined := ANY;
      AnyMaskSound(valid, loc, path);
      for i := 0 to Branches(m, "allOf")
        invariant active == old(active)
        invariant AllMask(catalog, maxDepth, active, loc, m, path, depth, i) == Ok(combined)
        invariant MaskSound(valid, loc, path, combined)
      {
        r := Walk(loc.Child("allOf").At(i), path, depth + 1);
        if r.Err? {
          AllMaskFails(catalog, maxDepth, active, loc, m, path, depth, i + 1, Branches(m, "allOf"));
          return;
        }
        combined := combined * r.value;
      }
      r := Ok(combined);
    }

    method SomeOf(loc: Location, m: Keywords, keyword: string, path: seq<Step>, depth: nat)
      returns (r: Result<set<Kind>, HintError>)
      requires Sound() && depth < maxDepth && SchemaAt(catalog, loc) == Some(Map(m))
      requires keyword == "anyOf" || keyword == "oneOf"
      modifies this
      ensures active == old(active)
      ensures r == SomeMask(catalog, maxDepth, active, loc, m, keyword, path, depth)
      ensures r.Ok? ==> MaskSound(valid, loc, path, r.value)
      decreases maxDepth - depth, 0, 0
    {
      if keyword !in m || !m[keyword].Array? {
        AnyMaskSound(valid, loc, path);
        return Ok(ANY);
      }
      var combined := {};
      for i := 0 to Branches(m, keyword)
        invariant active == old(active)
        invariant AnyMask(catalog, maxDepth, active, loc, m, keyword, path, depth, i) == Ok(combined)
        invariant forall j: nat :: j < i ==> MaskSound(valid, loc.Child(keyword).At(j), path, combined)
      {
        r := Walk(loc.Child(keyword).At(i), path, depth + 1);
        if r.Err? {
          AnyMaskFails(catalog, maxDepth, active, loc, m, keyword, path, depth, i + 1, Branches(m, keyword));
          return;
        }
        combined := combined + r.value;
      }
      forall v | IsJson(v) && valid(loc, v) && Project(v, path).Present?
        ensures ValueMask(Project(v, path).value) <= combined
      {
        assert Asserts(catalog, valid, loc, v);
        var i: nat :| i < Branches(m, keyword) && valid(loc.Child(keyword).At(i), v);
      }
      r := Ok(combined);
    }

    // ---- Structural types ----

    /** The result is that of the keywords: when it fails, what its type holds, and the required flag. */
    ghost predicate ShapeIs(inside: set<Key>, loc: Location, path: seq<Step>, depth: nat,
        r: Result<Option<Types.Port>, HintError>) {
      && (r.Err? <==> ShapeFails(catalog, maxDepth, inside, loc, path, depth))
      && (r.Ok? ==> (r.value.Some? <==> Shaped(catalog, maxDepth, inside, loc, path, depth)))
      && (r.Ok? && r.value.Some? ==>
        && r.value.value.required == Needed(catalog, maxDepth, inside, loc, path, depth)
        && forall v :: IsJson(v) ==>
          (Has(world, v, r.value.value.ty) <==> Meets(catalog, maxDepth, inside, loc, path, depth, v)))
    }

    method Shape(loc: Location, path: seq<Step>, depth: nat) returns (r: Result<Option<Types.Port>, HintError>)
      requires Sound()
      modifies this
      ensures active == old(active)
      ensures ShapeIs(active, loc, path, depth, r)
      ensures r.Ok? && r.value.Some? ==> ShapeSound(world, valid, loc, path, r.value.value)
      decreases maxDepth - depth, 1
    {
      var key := Key(loc, true, |path|);
      if depth >= maxDepth || key in active {
        return Ok(None);
      }
      ghost var outside := active;
      active := active + {key};
      r := ShapeAt(loc, path, depth, outside);
      active := active - {key};
      assert active == outside;
    }

    /** Only schemas without alternative evaluation paths have a shape. */
    method ShapeAt(loc: Location, path: seq<Step>, depth: nat, ghost outside: set<Key>)
      returns (r: Result<Option<Types.Port>, HintError>)
      requires Sound() && !Cut(maxDepth, outside, loc, path, depth) && active == Entered(outside, loc, path)
      modifies this
      ensures active == old(active)
      ensures ShapeIs(outside, loc, path, depth, r)
      ensures r.Ok? && r.value.Some? ==> ShapeSound(world, valid, loc, path, r.value.value)
      decreases maxDepth - depth, 0
    {
      hide Has, IsJson, Validates, ShapeSound, Meets, MeetsKind, Needed, Shaped, MemberFails, StepTo, SchemaAt, ShapeIs;
      UnreadIs(loc, path, depth, outside);
      if loc.uri !in catalog.documents {
        return Err(UnknownRoot);
      }
      var schema := SchemaAt(catalog, loc);
      if schema.None? {
        return Err(MissingTarget);
      }
      if !schema.value.Map? {
        return Ok(None);
      }
      var m := schema.value.entries;
      if Alternatives(m) {
        return Ok(None);
      }
      DirectIs(catalog, loc, m);
      if "$ref" in m && m["$ref"].Text? {
        var target := catalog.resolve(loc, m["$ref"].text);
        if target.None? {
          NowhereIs(loc, m, path, depth, outside, Err(Unresolved));
          return Err(Unresolved);
        }
        r := Shape(target.value, path, depth + 1);
        ReferenceSound(loc, m, target.value, path, r);
        OnwardIs(loc, m, path, depth, outside, r, r);
      } else if path != [] {
        r := ShapeStep(loc, m, path, depth, outside);
      } else if "type" in m && m["type"].Text? {
        r := ShapeHere(loc, m, m["type"].text, depth);
        HereIs(loc, m, depth, outside, r);
      } else {
        r := Ok(None);
        NoKind(catalog, maxDepth, active, loc, m, depth);
        HereIs(loc, m, depth, outside, r);
      }
    }

    lemma UnreadIs(loc: Location, path: seq<Step>, depth: nat, outside: set<Key>)
      requires !Cut(maxDepth, outside, loc, path, depth)
      ensures loc.uri !in catalog.documents || SchemaAt(catalog, loc).None? ==>
        forall e :: ShapeIs(outside, loc, path, depth, Err(e))
      ensures loc.uri in catalog.documents && SchemaAt(catalog, loc).Some? && Direct(catalog, loc).None? ==>
        ShapeIs(outside, loc, path, depth, Ok(None))
    {
    }

    lemma NowhereIs(loc: Location, m: Keywords, path: seq<Step>, depth: nat, outside: set<Key>,
        r: Result<Option<Types.Port>, HintError>)
      requires !Cut(maxDepth, outside, loc, path, depth) && Direct(catalog, loc) == Some(m)
      requires loc.uri in catalog.documents && SchemaAt(catalog, loc).Some?
      requires Next(catalog, loc, m, path).Nowhere?
      requires if Reference(m).Some? then r.Err? else r == Ok(None)
      ensures ShapeIs(outside, loc, path, depth, r)
    {
      FailsAt(catalog, maxDepth, outside, loc, m, path, depth);
      FailsInside(catalog, maxDepth, Entered(outside, loc, path), loc, m, path, depth);
      hide Next, Reference, Direct, SchemaAt, ShapeFails, InsideFails;
    }

    /** The shape further on, with the flag of the field that leads there. */
    lemma OnwardIs(loc: Location, m: Keywords, path: seq<Step>, depth: nat, outside: set<Key>,
        inner: Result<Option<Types.Port>, HintError>, r: Result<Option<Types.Port>, HintError>)
      requires !Cut(maxDepth, outside, loc, path, depth) && Direct(catalog, loc) == Some(m)
      requires loc.uri in catalog.documents && SchemaAt(catalog, loc).Some?
      requires Next(catalog, loc, m, path).On?
      requires ShapeIs(Entered(outside, loc, path), Next(catalog, loc, m, path).loc, Next(catalog, loc, m, path).rest,
        depth + 1, inner)
      requires r.Err? == inner.Err? && (r.Ok? ==> r.value.Some? == inner.value.Some?)
      requires r.Ok? && r.value.Some? ==> r.value.value.ty == inner.value.value.ty
      requires r.Ok? && r.value.Some? ==>
        r.value.value.required == (inner.value.value.required && StepRequired(m, path))
      ensures ShapeIs(outside, loc, path, depth, r)
    {
      FailsAt(catalog, maxDepth, outside, loc, m, path, depth);
      FailsInside(catalog, maxDepth, Entered(outside, loc, path), loc, m, path, depth);
      hide Next, Reference, Direct, SchemaAt, Has, IsJson, RequiredNames, ShapeFails, InsideFails;
    }

    /** The location itself has the type, or none. */
    lemma HereIs(loc: Location, m: Keywords, depth: nat, outside: set<Key>, r: Result<Option<Types.Port>, HintError>)
      requires !Cut(maxDepth, outside, loc, [], depth) && Direct(catalog, loc) == Some(m)
      requires loc.uri in catalog.documents && SchemaAt(catalog, loc).Some? && Next(catalog, loc, m, []).Here?
      requires KindIs(Entered(outside, loc, []), loc, m, depth, r)
      ensures ShapeIs(outside, loc, [], depth, r)
    {
      FailsAt(catalog, maxDepth, outside, loc, m, [], depth);
      FailsInside(catalog, maxDepth, Entered(outside, loc, []), loc, m, [], depth);
      hide Next, Reference, Direct, SchemaAt, Has, IsJson, MeetsKind, MemberFails, KindName, ShapeFails, InsideFails;
    }

    ghost predicate KindIs(inside: set<Key>, loc: Location, m: Keywords, depth: nat,
        r: Result<Option<Types.Port>, HintError>)
      requires depth < maxDepth
    {
      && (r.Err? <==> MemberFails(catalog, maxDepth, inside, loc, m, depth))
      && (r.Ok? ==> (r.value.Some? <==>
        KindName(m) in Kinds() && (KindName(m) == "array" ==> "prefixItems" !in m)))
      && (r.Ok? && r.value.Some? ==> r.value.value.required && forall v :: IsJson(v) ==>
        (Has(world, v, r.value.value.ty) <==> MeetsKind(catalog, maxDepth, inside, loc, m, depth, v)))
    }

    lemma ReferenceSound(loc: Location, m: Keywords, target: Location, path: seq<Step>,
        r: Result<Option<Types.Port>, HintError>)
      requires Sound() && SchemaAt(catalog, loc) == Some(Map(m)) && "$ref" in m && m["$ref"].Text?
      requires catalog.resolve(loc, m["$ref"].text) == Some(target)
      requires r.Ok? && r.value.Some? ==> ShapeSound(world, valid, target, path, r.value.value)
      ensures r.Ok? && r.value.Some? ==> ShapeSound(world, valid, loc, path, r.value.value)
    {
      assert forall v :: valid(loc, v) ==> Asserts(catalog, valid, loc, v);
    }

    method ShapeStep(loc: Location, m: Keywords, path: seq<Step>, depth: nat, ghost outside: set<Key>)
      returns (r: Result<Option<Types.Port>, HintError>)
      requires Sound() && SchemaAt(catalog, loc) == Some(Map(m)) && path != [] && Direct(catalog, loc) == Some(m)
      requires loc.uri in catalog.documents && Reference(m).None?
      requires !Cut(maxDepth, outside, loc, path, depth) && active == Entered(outside, loc, path)
      modifies this
      ensures active == old(active)
      ensures ShapeIs(outside, loc, path, depth, r)
      ensures r.Ok? && r.value.Some? ==> ShapeSound(world, valid, loc, path, r.value.value)
      decreases maxDepth - depth, 0, 0
    {
      hide Has, IsJson, Validates, ShapeSound, Meets, MeetsKind, Needed, Shaped, MemberFails, ShapeIs;
      var next := StepTo(loc, m, path[0]);
      if next.None? {
        NowhereIs(loc, m, path, depth, outside, Ok(None));
        return Ok(None);
      }
      var inner := Shape(next.value, path[1..], depth + 1);
      r := inner;
      if path[0].Field? {
        if inner.Ok? && inner.value.Some? {
          var port := inner.value.value;
          r := Ok(Some(Types.Port(port.ty, path[0].name in RequiredNames(m) && port.required)));
          FieldShapeSound(loc, m, path, port, r.value.value);
        }
      } else if inner.Ok? && inner.value.Some? {
        ItemShapeSound(loc, m, path, next.value, inner.value.value);
      }
      OnwardIs(loc, m, path, depth, outside, inner, r);
    }

    lemma ItemShapeSound(loc: Location, m: Keywords, path: seq<Step>, next: Location, port: Types.Port)
      requires Sound() && SchemaAt(catalog, loc) == Some(Map(m))
      requires path != [] && path[0].Index? && StepTo(loc, m, path[0]) == Some(next)
      requires ShapeSound(world, valid, next, path[1..], port)
      ensures ShapeSound(world, valid, loc, path, port)
    {
      forall v | IsJson(v) && valid(loc, v)
        ensures Project(v, path).Present? ==> Has(world, Project(v, path).value, port.ty)
        ensures port.required && OnlyFields(path) ==> Project(v, path) != Absent
      {
        assert Asserts(catalog, valid, loc, v);
        assert path[0] in path;
        if v.Array? && path[0].index < |v.items| {
          assert v.items[path[0].index] in v.items;
          assert valid(next, v.items[path[0].index]);
        }
      }
    }

    lemma FieldShapeSound(loc: Location, m: Keywords, path: seq<Step>, inner: Types.Port, port: Types.Port)
      requires Sound() && SchemaAt(catalog, loc) == Some(Map(m))
      requires path != [] && path[0].Field? && path[0].name in Properties(m)
      requires ShapeSound(world, valid, loc.Child("properties").Child(path[0].name), path[1..], inner)
      requires port == Types.Port(inner.ty, path[0].name in RequiredNames(m) && inner.required)
      ensures ShapeSound(world, valid, loc, path, port)
    {
      var name := path[0].name;
      forall v | IsJson(v) && valid(loc, v)
        ensures Project(v, path).Present? ==> Has(world, Project(v, path).value, port.ty)
        ensures port.required && OnlyFields(path) ==> Project(v, path) != Absent
      {
        assert Asserts(catalog, valid, loc, v);
        if v.Map? && name in v.entries {
          assert IsJson(v.entries[name]);
          assert valid(loc.Child("properties").Child(name), v.entries[name]);
        }
      }
    }

    method ShapeHere(loc: Location, m: Keywords, kind: string, depth: nat)
      returns (r: Result<Option<Types.Port>, HintError>)
      requires Sound() && depth < maxDepth && SchemaAt(catalog, loc) == Some(Map(m))
      requires "type" in m && m["type"] == Text(kind)
      modifies this
      ensures active == old(active)
      ensures KindIs(active, loc, m, depth, r)
      ensures r.Ok? && r.value.Some? ==> ShapeSound(world, valid, loc, [], r.value.value)
      decreases maxDepth - depth, 0, 1
    {
      assert Validates(catalog, valid, other);
      hide *;
      ScalarShapes(catalog, valid, other, world, loc, m, kind);
      ScalarKinds(loc, m, kind, depth);
      if kind == "string" {
        r := Ok(Some(Types.Port(Types.Builtin(Types.PString), true)));
      } else if kind == "boolean" {
        r := Ok(Some(Types.Port(Types.Builtin(Types.PBoolean), true)));
      } else if kind == "null" {
        r := Ok(Some(Types.Port(Types.Builtin(Types.PNull), true)));
      } else if kind == "integer" || kind == "number" {
        r := Ok(Some(Types.Port(Types.Union({Types.Builtin(Types.PInteger), Types.Builtin(Types.PFloat)}), true)));
      } else if kind == "array" {
        r := ShapeArray(loc, m, depth);
      } else if kind == "object" {
        r := ShapeObject(loc, m, depth);
      } else {
        r := Ok(None);
      }
    }

    lemma ScalarKinds(loc: Location, m: Keywords, kind: string, depth: nat)
      requires depth < maxDepth && "type" in m && m["type"] == Text(kind)
      ensures kind == "string" ==>
        KindIs(active, loc, m, depth, Ok(Some(Types.Port(Types.Builtin(Types.PString), true))))
      ensures kind == "boolean" ==>
        KindIs(active, loc, m, depth, Ok(Some(Types.Port(Types.Builtin(Types.PBoolean), true))))
      ensures kind == "null" ==>
        KindIs(active, loc, m, depth, Ok(Some(Types.Port(Types.Builtin(Types.PNull), true))))
      ensures kind == "integer" || kind == "number" ==>
        KindIs(active, loc, m, depth,
          Ok(Some(Types.Port(Types.Union({Types.Builtin(Types.PInteger), Types.Builtin(Types.PFloat)}), true))))
      ensures kind !in Kinds() ==> KindIs(active, loc, m, depth, Ok(None))
    {
      NumberShape(world);
    }

    /** The type of a member schema, or json when it has no shape. */
    method MemberType(loc: Location, depth: nat) returns (r: Result<Types.Ty, HintError>)
      requires Sound()
      modifies this
      ensures active == old(active)
      ensures r.Err? <==> ShapeFails(catalog, maxDepth, active, loc, [], depth)
      ensures r.Ok? ==> MemberIs(active, loc, depth, r.value)
      ensures r.Ok? ==> forall v :: IsJson(v) && valid(loc, v) ==> Has(world, v, r.value)
      decreases maxDepth - depth, 2
    {
      var shape := Shape(loc, [], depth);
      if shape.Err? {
        return Err(shape.error);
      }
      if shape.value.None? {
        return Ok(Types.Builtin(Types.PJson));
      }
      r := Ok(shape.value.value.ty);
      forall v | IsJson(v) && valid(loc, v)
        ensures Has(world, v, r.value)
      {
        assert Project(v, []) == Present(v);
      }
    }

    /** The JSON values of the type are those a member schema leaves. */
    ghost predicate MemberIs(inside: set<Key>, loc: Location, depth: nat, ty: Types.Ty) {
      forall v :: IsJson(v) ==> (Has(world, v, ty) <==> MeetsMember(catalog, maxDepth, inside, loc, depth, v))
    }

    method ShapeArray(loc: Location, m: Keywords, depth: nat) returns (r: Result<Option<Types.Port>, HintError>)
      requires Sound() && depth < maxDepth && SchemaAt(catalog, loc) == Some(Map(m))
      requires "type" in m && m["type"] == Text("array")
      modifies this
      ensures active == old(active)
      ensures KindIs(active, loc, m, depth, r)
      ensures r.Ok? && r.value.Some? ==> ShapeSound(world, valid, loc, [], r.value.value)
      decreases maxDepth - depth, 0, 0
    {
      hide Validates, ShapeFails, MeetsMember, MemberIs, ShapeSound, KindIs;
      if "prefixItems" in m {
        NoItemsIs(loc, m, depth);
        return Ok(None);
      }
      var item := Types.Builtin(Types.PJson);
      if "items" in m {
        var member := MemberType(loc.Child("items"), depth + 1);
        if member.Err? {
          ItemsFail(loc, m, depth, member.error);
          return Err(member.error);
        }
        item := member.value;
      }
      r := Ok(Some(Types.Port(Types.List(item), true)));
      ItemsAre(loc, m, depth, item);
      ListShapeSound(loc, m, item);
    }

    lemma NoItemsIs(loc: Location, m: Keywords, depth: nat)
      requires depth < maxDepth && "type" in m && m["type"] == Text("array") && "prefixItems" in m
      ensures KindIs(active, loc, m, depth, Ok(None))
    {
    }

    lemma ItemsFail(loc: Location, m: Keywords, depth: nat, e: HintError)
      requires depth < maxDepth && "type" in m && m["type"] == Text("array") && "prefixItems" !in m && "items" in m
      requires ShapeFails(catalog, maxDepth, active, loc.Child("items"), [], depth + 1)
      ensures KindIs(active, loc, m, depth, Err(e))
    {
    }

    /** Lists of the item type hold what the location's keywords leave. */
    lemma ItemsAre(loc: Location, m: Keywords, depth: nat, item: Types.Ty)
      requires depth < maxDepth && "type" in m && m["type"] == Text("array") && "prefixItems" !in m
      requires if "items" in m then
          MemberIs(active, loc.Child("items"), depth + 1, item)
          && !ShapeFails(catalog, maxDepth, active, loc.Child("items"), [], depth + 1)
        else item == Types.Builtin(Types.PJson)
      ensures KindIs(active, loc, m, depth, Ok(Some(Types.Port(Types.List(item), true))))
    {
      hide MeetsMember, ShapeFails;
      forall v | IsJson(v)
        ensures Has(world, v, Types.List(item)) <==> MeetsItems(catalog, maxDepth, active, loc, m, depth, v)
      {
        if v.Array? {
          assert forall x :: x in v.items ==> IsJson(x);
        }
      }
    }

    lemma ListShapeSound(loc: Location, m: Keywords, item: Types.Ty)
      requires Sound() && SchemaAt(catalog, loc) == Some(Map(m))
      requires "type" in m && m["type"] == Text("array") && "prefixItems" !in m
      requires if "items" in m then forall v :: IsJson(v) && valid(loc.Child("items"), v) ==> Has(world, v, item)
        else item == Types.Builtin(Types.PJson)
      ensures ShapeSound(world, valid, loc, [], Types.Port(Types.List(item), true))
    {
      forall v | IsJson(v) && valid(loc, v)
        ensures Has(world, v, Types.List(item))
      {
        assert Asserts(catalog, valid, loc, v);
        forall x | x in v.items
          ensures Has(world, x, item)
        {
          var i :| 0 <= i < |v.items| && v.items[i] == x;
          assert IsJson(x);
        }
      }
    }

    method ShapeObject(loc: Location, m: Keywords, depth: nat) returns (r: Result<Option<Types.Port>, HintError>)
      requires Sound() && depth < maxDepth && SchemaAt(catalog, loc) == Some(Map(m))
      requires "type" in m && m["type"] == Text("object")
      modifies this
      ensures active == old(active)
      ensures KindIs(active, loc, m, depth, r)
      ensures r.Ok? && r.value.Some? ==> ShapeSound(world, valid, loc, [], r.value.value)
      decreases maxDepth - depth, 0, 0
    {
      hide Validates, ShapeFails, MeetsMember, MemberIs, ShapeSound, KindIs, Has, IsJson, Properties, RequiredNames;
      var fields: seq<Types.Field> := [];
      var rest := Properties(m).Keys;
      while rest != {}
        invariant active == old(active)
        invariant rest <= Properties(m).Keys
        invariant forall f :: f in fields ==> FieldSound(loc, m, f) && FieldIs(active, loc, m, depth, f)
        invariant forall name :: name in Properties(m) && name !in rest ==> Declares(fields, name)
        decreases rest
      {
        var name :| name in rest;
        var member := MemberType(loc.Child("properties").Child(name), depth + 1);
        if member.Err? {
          FieldsFail(loc, m, depth, name, member.error);
          return Err(member.error);
        }
        var f := Types.Field(name, Types.Port(member.value, name in RequiredNames(m)));
        DeclaresMore(fields, f);
        fields := fields + [f];
        rest := rest - {name};
      }
      r := Ok(Some(Types.Port(Types.Record(fields), true)));
      FieldsAre(loc, m, depth, fields);
      RecordShapeSound(loc, m, fields);
    }

    lemma FieldsFail(loc: Location, m: Keywords, depth: nat, name: string, e: HintError)
      requires depth < maxDepth && "type" in m && m["type"] == Text("object") && name in Properties(m)
      requires ShapeFails(catalog, maxDepth, active, loc.Child("properties").Child(name), [], depth + 1)
      ensures KindIs(active, loc, m, depth, Err(e))
    {
    }

    /** The field stands for a property, with the values its schema leaves. */
    ghost predicate FieldIs(inside: set<Key>, loc: Location, m: Keywords, depth: nat, f: Types.Field) {
      && f.name in Properties(m) && f.port.required == (f.name in RequiredNames(m))
      && MemberIs(inside, loc.Child("properties").Child(f.name), depth + 1, f.port.ty)
      && !ShapeFails(catalog, maxDepth, inside, loc.Child("properties").Child(f.name), [], depth + 1)
    }

    /** Records of these fields hold what the location's keywords leave. */
    lemma FieldsAre(loc: Location, m: Keywords, depth: nat, fields: seq<Types.Field>)
      requires depth < maxDepth && "type" in m && m["type"] == Text("object")
      requires forall f :: f in fields ==> FieldIs(active, loc, m, depth, f)
      requires forall name :: name in Properties(m) ==> Declares(fields, name)
      ensures KindIs(active, loc, m, depth, Ok(Some(Types.Port(Types.Record(fields), true))))
    {
      hide MeetsMember, ShapeFails, Properties, RequiredNames;
      assert !MemberFails(catalog, maxDepth, active, loc, m, depth) by {
        forall name | name in Properties(m)
          ensures !ShapeFails(catalog, maxDepth, active, loc.Child("properties").Child(name), [], depth + 1)
        {
          var f :| f in fields && f.name == name;
        }
      }
      forall v | IsJson(v)
        ensures Has(world, v, Types.Record(fields)) <==> MeetsFields(catalog, maxDepth, active, loc, m, depth, v)
      {
        FieldsHold(loc, m, depth, fields, v);
      }
    }

    lemma FieldsHold(loc: Location, m: Keywords, depth: nat, fields: seq<Types.Field>, v: Value)
      requires depth < maxDepth && IsJson(v)
      requires forall f :: f in fields ==> FieldIs(active, loc, m, depth, f)
      requires forall name :: name in Properties(m) ==> Declares(fields, name)
      ensures Has(world, v, Types.Record(fields)) <==> MeetsFields(catalog, maxDepth, active, loc, m, depth, v)
    {
      hide MeetsMember, ShapeFails, Properties, RequiredNames;
      if v.Map? {
        forall f | f in fields
          ensures HasPort(world, Member(v.entries, f.name), f.port) <==>
            FieldMet(catalog, maxDepth, active, loc, m, depth, v, f.name)
        {
          assert FieldIs(active, loc, m, depth, f);
          assert f.name in v.entries ==> IsJson(v.entries[f.name]);
        }
        if Has(world, v, Types.Record(fields)) {
          forall name | name in Properties(m)
            ensures FieldMet(catalog, maxDepth, active, loc, m, depth, v, name)
          {
            var f :| f in fields && f.name == name;
            assert HasPort(world, Member(v.entries, f.name), f.port);
          }
        }
      }
    }

    lemma RecordShapeSound(loc: Location, m: Keywords, fields: seq<Types.Field>)
      requires Sound() && SchemaAt(catalog, loc) == Some(Map(m))
      requires "type" in m && m["type"] == Text("object") && forall f :: f in fields ==> FieldSound(loc, m, f)
      ensures ShapeSound(world, valid, loc, [], Types.Port(Types.Record(fields), true))
    {
      forall v | IsJson(v) && valid(loc, v)
        ensures Has(world, v, Types.Record(fields))
      {
        assert Asserts(catalog, valid, loc, v);
        forall f | f in fields
          ensures HasPort(world, Member(v.entries, f.name), f.port)
        {
          if f.name in v.entries {
            assert IsJson(v.entries[f.name]);
            assert valid(loc.Child("properties").Child(f.name), v.entries[f.name]);
          }
        }
      }
    }

    ghost predicate FieldSound(loc: Location, m: Keywords, f: Types.Field) {
      && f.name in Properties(m)
      && f.port.required == (f.name in RequiredNames(m))
      && forall v :: IsJson(v) && valid(loc.Child("properties").Child(f.name), v) ==> Has(world, v, f.port.ty)
    }

    /**
     * A hint is given exactly when mask and shape can be read.  It is the shape's type and
     * flag when there is a shape, and otherwise the type of the mask, required at the root.
     */
    ghost predicate HintIs(loc: Location, path: seq<Step>, r: Result<Types.Port, HintError>) {
      var mask := MaskOf(catalog, maxDepth, {}, loc, path, 0);
      && (r.Err? <==> mask.Err? || ShapeFails(catalog, maxDepth, {}, loc, path, 0))
      && (r.Ok? && Shaped(catalog, maxDepth, {}, loc, path, 0) ==>
        && r.value.required == Needed(catalog, maxDepth, {}, loc, path, 0)
        && forall v :: IsJson(v) ==>
          (Has(world, v, r.value.ty) <==> Meets(catalog, maxDepth, {}, loc, path, 0, v)))
      && (r.Ok? && !Shaped(catalog, maxDepth, {}, loc, path, 0) ==>
        r.value == Types.Port(MaskType(mask.value), path == []))
    }

    /**
     * The hint of a projection: its shape, else the union of the families left in the
     * mask.  Every value an instance has at the path inhabits the hinted type.
     */
    method ProjectionHint(uri: string, path: seq<Step>) returns (r: Result<Types.Port, HintError>)
      requires Sound() && active == {}
      modifies this
      ensures active == {}
      ensures r.Ok? ==> ShapeSound(world, valid, Location(uri, []), path, r.value)
      ensures HintIs(Location(uri, []), path, r)
    {
      var loc := Location(uri, []);
      var mask := Walk(loc, path, 0);
      if mask.Err? {
        return Err(mask.error);
      }
      var shape := Shape(loc, path, 0);
      if shape.Err? {
        return Err(shape.error);
      }
      if shape.value.Some? {
        return Ok(shape.value.value);
      }
      r := Ok(Types.Port(MaskType(mask.value), path == []));
      forall v | IsJson(v) && valid(loc, v) && Project(v, path).Present?
        ensures Has(world, Project(v, path).value, r.value.ty)
      {
        TargetJson(v, path);
        MaskTypeSound(world, mask.value, Project(v, path).value);
      }
    }
  }

  predicate Declares(fields: seq<Types.Field>, name: string) {
    exists f :: f in fields && f.name == name
  }

  lemma DeclaresMore(fields: seq<Types.Field>, f: Types.Field)
    ensures Declares(fields + [f], f.name)
    ensures forall name :: Declares(fields, name) ==> Declares(fields + [f], name)
  {
    assert f in fields + [f];
    forall name | Declares(fields, name)
      ensures Declares(fields + [f], name)
    {
      var g :| g in fields && g.name == name;
      assert g in fields + [f];
    }
  }

  lemma DirectIs(c: Catalog, loc: Location, m: Keywords)
    requires SchemaAt(c, loc) == Some(Map(m)) && !Alternatives(m)
    ensures Direct(c, loc) == Some(m)
  {
  }

  lemma NoKind(c: Catalog, max: nat, active: set<Key>, loc: Location, m: Keywords, depth: nat)
    requires depth < max && !("type" in m && m["type"].Text?)
    ensures KindName(m) !in Kinds() && !MemberFails(c, max, active, loc, m, depth)
  {
  }

  predicate OnlyFields(path: seq<Step>) {
    forall step :: step in path ==> step.Field?
  }

  /**
   * Present values inhabit the type; and a required port is never absent from the
   * objects along a path of field names.
   */
  ghost predicate ShapeSound(w: World, valid: Validator, loc: Location, path: seq<Step>, port: Types.Port) {
    forall v :: IsJson(v) && valid(loc, v) ==>
      && (Project(v, path).Present? ==> Has(w, Project(v, path).value, port.ty))
      && (port.required && OnlyFields(path) ==> Project(v, path) != Absent)
  }

  /** The types of schemas whose instances have no parts. */
  lemma ScalarShapes(
      catalog: Catalog, valid: Validator, other: Validator, w: World, loc: Location, m: Keywords, kind: string)
    requires Validates(catalog, valid, other) && SchemaAt(catalog, loc) == Some(Map(m))
    requires "type" in m && m["type"] == Text(kind)
    ensures kind == "string" ==> ShapeSound(w, valid, loc, [], Types.Port(Types.Builtin(Types.PString), true))
    ensures kind == "boolean" ==> ShapeSound(w, valid, loc, [], Types.Port(Types.Builtin(Types.PBoolean), true))
    ensures kind == "null" ==> ShapeSound(w, valid, loc, [], Types.Port(Types.Builtin(Types.PNull), true))
    ensures kind == "integer" || kind == "number" ==>
      ShapeSound(w, valid, loc, [],
        Types.Port(Types.Union({Types.Builtin(Types.PInteger), Types.Builtin(Types.PFloat)}), true))
  {
    NumberShape(w);
    forall v | valid(loc, v)
      ensures TypeAllows(m["type"], v)
    {
      assert Asserts(catalog, valid, loc, v);
    }
    hide Validates, SchemaAt;
  }

  lemma NumberShape(w: World)
    ensures forall v: Value :: v.Integer? || v.Float? ==>
      Has(w, v, Types.Union({Types.Builtin(Types.PInteger), Types.Builtin(Types.PFloat)}))
  {
  }

  // ---- The type of a mask ----

  function KindTypes(k: Kind): set<Types.Ty> {
    match k
    case NullK => {Types.Builtin(Types.PNull)}
    case BoolK => {Types.Builtin(Types.PBoolean)}
    case StringK => {Types.Builtin(Types.PString)}
    case NumberK => {Types.Builtin(Types.PInteger), Types.Builtin(Types.PFloat)}
    case ArrayK => {Types.List(Types.Builtin(Types.PJson))}
    case ObjectK => {Types.Map(Types.Builtin(Types.PJson))}
  }

  function MaskTypes(mask: set<Kind>): set<Types.Ty> {
    set k, t | k in mask && t in KindTypes(k) :: t
  }

  /** A full or empty mask says nothing. */
  function MaskType(mask: set<Kind>): Types.Ty {
    if mask == ANY || mask == {} then Types.Builtin(Types.PJson)
    else Bindings.Join(MaskTypes(mask))
  }

  function Witness(v: Value): Types.Ty {
    match v
    case Null => Types.Builtin(Types.PNull)
    case Bool(_) => Types.Builtin(Types.PBoolean)
    case Integer(_) => Types.Builtin(Types.PInteger)
    case Float(_) => Types.Builtin(Types.PFloat)
    case Text(_) => Types.Builtin(Types.PString)
    case Array(_) => Types.List(Types.Builtin(Types.PJson))
    case _ => Types.Map(Types.Builtin(Types.PJson))
  }

  lemma MaskTypeSound(w: World, mask: set<Kind>, v: Value)
    requires IsJson(v) && ValueMask(v) <= mask
    ensures Has(w, v, MaskType(mask))
  {
    if mask != ANY && mask != {} {
      var k :| k in ValueMask(v);
      var t := Witness(v);
      assert t in KindTypes(k) && Has(w, v, t);
      assert t in MaskTypes(mask);
      JoinHas(w, v, MaskTypes(mask), t);
    }
  }

  lemma JoinHas(w: World, v: Value, ts: set<Types.Ty>, t: Types.Ty)
    requires t in ts && Has(w, v, t) && !t.Union?
    ensures Has(w, v, Bindings.Join(ts))
  {
    var flat := set t, u | t in ts && u in Bindings.Flat(t) :: u;
    assert t in Bindings.Flat(t);
    assert t in flat;
  }
}
