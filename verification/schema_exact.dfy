// How tight the hints are: on schemas without alternatives they say all the schema says
// (crates/htlk-analyzer/src/schema_hints.rs:17-397).

module SchemaExact {
  import opened Wrappers
  import opened Values
  import opened Schemas
  import opened SchemaShapes
  import opened SchemaHints
  import opened SchemaFamilies
  import Types
  import Bindings

  // ---- Schemas that say nothing but structure ----

  /** One kind with its properties, required names and items, or a reference to such a schema, `n` levels deep. */
  ghost predicate PlainAt(c: Catalog, loc: Location, n: nat)
    decreases n, 1
  {
    n > 0 && loc.uri in c.documents &&
    match SchemaAt(c, loc)
    case Some(Map(m)) => PlainReference(c, loc, m, n) || PlainKind(c, loc, m, n)
    case _ => false
  }

  /** No keyword of the list is used, and no evaluation path branches off. */
  predicate Without(m: Keywords, keywords: set<string>) {
    m.Keys !! keywords && !Alternatives(m)
  }

  ghost predicate PlainReference(c: Catalog, loc: Location, m: Keywords, n: nat)
    requires n > 0
    decreases n, 0
  {
    && Without(m, {
      "type", "const", "enum", "required", "properties", "additionalProperties", "items", "prefixItems"})
    && "$ref" in m && m["$ref"].Text? &&
    var target := c.resolve(loc, m["$ref"].text);
    target.Some? && PlainAt(c, target.value, n - 1)
  }

  ghost predicate PlainKind(c: Catalog, loc: Location, m: Keywords, n: nat)
    requires n > 0
    decreases n, 0
  {
    && Without(m, {"$ref", "const", "enum", "additionalProperties", "prefixItems"})
    && KindName(m) in Kinds() - {"integer"}
    && (KindName(m) == "array" && "items" in m ==> PlainAt(c, loc.Child("items"), n - 1))
    && (KindName(m) == "object" ==>
      && RequiredNames(m) <= Properties(m).Keys
      && forall name :: name in Properties(m) ==> PlainAt(c, loc.Child("properties").Child(name), n - 1))
  }

  lemma {:induction false} PlainMore(c: Catalog, loc: Location, n: nat, k: nat)
    requires PlainAt(c, loc, n) && n <= k
    ensures PlainAt(c, loc, k)
    decreases n
  {
    hide SchemaAt, Properties, RequiredNames;
    var m := SchemaAt(c, loc).value.entries;
    if PlainReference(c, loc, m, n) {
      PlainMore(c, c.resolve(loc, m["$ref"].text).value, n - 1, k - 1);
    } else {
      if KindName(m) == "array" && "items" in m {
        PlainMore(c, loc.Child("items"), n - 1, k - 1);
      }
      if KindName(m) == "object" {
        forall name | name in Properties(m)
          ensures PlainAt(c, loc.Child("properties").Child(name), k - 1)
        {
          PlainMore(c, loc.Child("properties").Child(name), n - 1, k - 1);
        }
      }
      assert PlainKind(c, loc, m, k);
    }
  }

  /** The depth of a plain schema. */
  ghost predicate Rank(c: Catalog, loc: Location, n: nat) {
    n > 0 && PlainAt(c, loc, n) && !PlainAt(c, loc, n - 1)
  }

  lemma {:induction false} RankExists(c: Catalog, loc: Location, n: nat) returns (k: nat)
    requires PlainAt(c, loc, n)
    ensures k <= n && Rank(c, loc, k)
    decreases n
  {
    if PlainAt(c, loc, n - 1) {
      k := RankExists(c, loc, n - 1);
    } else {
      k := n;
    }
  }

  /** Nothing being visited is as shallow as `n`: the schemas on the way are deeper. */
  ghost predicate Above(c: Catalog, active: set<Key>, n: nat) {
    forall key :: key in active && key.shape ==> !PlainAt(c, key.loc, n)
  }

  lemma AboveChild(c: Catalog, active: set<Key>, loc: Location, path: seq<Step>, n: nat, k: nat)
    requires Rank(c, loc, n) && Above(c, active, n) && k < n
    ensures Above(c, Entered(active, loc, path), k)
  {
    hide PlainAt;
    forall key | key in Entered(active, loc, path) && key.shape
      ensures !PlainAt(c, key.loc, k)
    {
      if PlainAt(c, key.loc, k) {
        PlainMore(c, key.loc, k, n);
        PlainMore(c, key.loc, k, n - 1);
      }
    }
  }

  lemma NotCut(c: Catalog, max: nat, active: set<Key>, loc: Location, path: seq<Step>, depth: nat, n: nat)
    requires Rank(c, loc, n) && Above(c, active, n) && depth + n <= max
    ensures !Cut(max, active, loc, path, depth)
  {
    hide PlainAt;
  }

  lemma PlainDirect(c: Catalog, loc: Location, n: nat) returns (m: Keywords)
    requires PlainAt(c, loc, n)
    ensures SchemaAt(c, loc) == Some(Map(m)) && Direct(c, loc) == Some(m) && loc.uri in c.documents
    ensures n > 0 && (PlainReference(c, loc, m, n) || PlainKind(c, loc, m, n))
  {
    m := SchemaAt(c, loc).value.entries;
    hide SchemaAt, Alternatives;
  }

  // ---- What a plain schema asserts ----

  lemma ReferenceAsserts(c: Catalog, valid: Validator, other: Validator, loc: Location, m: Keywords, n: nat, v: Value)
    requires Validates(c, valid, other) && Bare(other) && SchemaAt(c, loc) == Some(Map(m)) && n > 0
    requires PlainReference(c, loc, m, n)
    ensures valid(loc, v) <==> valid(c.resolve(loc, m["$ref"].text).value, v)
  {
    hide SchemaAt, PlainAt;
    assert Asserts(c, valid, loc, v) <==> valid(loc, v);
    NoBranches(m);
    assert "type" !in m && "const" !in m && "enum" !in m && "required" !in m;
    assert "properties" !in m && "additionalProperties" !in m && "items" !in m && "prefixItems" !in m;
  }

  lemma NoBranches(m: Keywords)
    requires !Alternatives(m)
    ensures "allOf" !in m && "anyOf" !in m && "oneOf" !in m
  {
  }

  lemma KindAsserts(c: Catalog, valid: Validator, other: Validator, loc: Location, m: Keywords, n: nat, v: Value)
    requires Validates(c, valid, other) && Bare(other) && SchemaAt(c, loc) == Some(Map(m)) && n > 0
    requires PlainKind(c, loc, m, n)
    ensures valid(loc, v) <==>
      && TypeNameAllows(KindName(m), v)
      && (v.Map? ==> forall name :: name in RequiredNames(m) ==> name in v.entries)
      && (v.Map? ==> forall name :: name in Properties(m) && name in v.entries ==>
        valid(loc.Child("properties").Child(name), v.entries[name]))
      && (v.Array? && "items" in m ==> forall x :: x in v.items ==> valid(loc.Child("items"), x))
  {
    hide SchemaAt, PlainAt;
    assert Asserts(c, valid, loc, v) <==> valid(loc, v);
    assert "prefixItems" !in m && "$ref" !in m && "additionalProperties" !in m && "const" !in m && "enum" !in m;
    NoBranches(m);
    KindLocal(m, v);
    KindMembers(c, valid, loc, m, v);
    assert InPlace(c, valid, loc, m, v);
  }

  lemma KindLocal(m: Keywords, v: Value)
    requires "type" in m && m["type"].Text? && "const" !in m && "enum" !in m
    ensures Local(m, v) <==>
      TypeNameAllows(KindName(m), v) && (v.Map? ==> forall name :: name in RequiredNames(m) ==> name in v.entries)
  {
    hide RequiredNames;
  }

  lemma KindMembers(c: Catalog, valid: Validator, loc: Location, m: Keywords, v: Value)
    requires "prefixItems" !in m && "additionalProperties" !in m
    ensures v.Map? ==>
      (ObjectMembers(c, valid, loc, m, v) <==>
        forall name :: name in Properties(m) && name in v.entries ==>
          valid(loc.Child("properties").Child(name), v.entries[name]))
    ensures v.Array? ==>
      (ArrayItems(valid, loc, m, v) <==> ("items" in m ==> forall x :: x in v.items ==> valid(loc.Child("items"), x)))
  {
    hide Properties, PatternApplies;
    if v.Array? && ArrayItems(valid, loc, m, v) && "items" in m {
      forall x | x in v.items
        ensures valid(loc.Child("items"), x)
      {
        var i: nat :| i < |v.items| && v.items[i] == x;
      }
    }
  }

  // ---- The hint of a plain schema holds exactly its instances ----

  /** A plain schema that the visit reaches with depth to spare. */
  ghost predicate Ready(c: Catalog, max: nat, active: set<Key>, loc: Location, depth: nat, n: nat) {
    Rank(c, loc, n) && Above(c, active, n) && depth + n <= max
  }

  lemma ReadyChild(
      c: Catalog, max: nat, active: set<Key>, loc: Location, path: seq<Step>, depth: nat, n: nat, child: Location)
      returns (k: nat)
    requires Ready(c, max, active, loc, depth, n) && PlainAt(c, child, n - 1)
    ensures k < n && Ready(c, max, Entered(active, loc, path), child, depth + 1, k)
  {
    hide PlainAt;
    k := RankExists(c, child, n - 1);
    AboveChild(c, active, loc, path, n, k);
  }

  lemma ReferenceNext(c: Catalog, loc: Location, m: Keywords, path: seq<Step>, n: nat)
    requires n > 0 && PlainReference(c, loc, m, n)
    ensures Reference(m).Some? && Next(c, loc, m, path) == On(c.resolve(loc, m["$ref"].text).value, path)
  {
    hide PlainAt;
  }

  lemma KindNext(c: Catalog, loc: Location, m: Keywords, n: nat)
    requires n > 0 && PlainKind(c, loc, m, n)
    ensures Reference(m).None? && Next(c, loc, m, []).Here? && KindName(m) in Kinds() && "prefixItems" !in m
  {
    hide PlainAt;
    assert "$ref" !in m;
  }

  lemma {:induction false} PlainShaped(c: Catalog, max: nat, active: set<Key>, loc: Location, depth: nat, n: nat)
    requires Ready(c, max, active, loc, depth, n)
    ensures !ShapeFails(c, max, active, loc, [], depth) && Shaped(c, max, active, loc, [], depth)
    decreases n
  {
    hide *;
    ReadyParts(c, max, active, loc, depth, n);
    NotCut(c, max, active, loc, [], depth, n);
    var m := PlainDirect(c, loc, n);
    FailsAt(c, max, active, loc, m, [], depth);
    FailsInside(c, max, Entered(active, loc, []), loc, m, [], depth);
    if PlainReference(c, loc, m, n) {
      ReferenceNext(c, loc, m, [], n);
      ReferenceParts(c, loc, m, n);
      var target := c.resolve(loc, m["$ref"].text).value;
      var k := ReadyChild(c, max, active, loc, [], depth, n, target);
      PlainShaped(c, max, Entered(active, loc, []), target, depth + 1, k);
      ShapedOn(c, max, active, loc, m, [], depth);
    } else {
      KindNext(c, loc, m, n);
      KindParts(c, loc, m, n);
      if KindName(m) == "array" && "items" in m {
        var k := ReadyChild(c, max, active, loc, [], depth, n, loc.Child("items"));
        PlainShaped(c, max, Entered(active, loc, []), loc.Child("items"), depth + 1, k);
      }
      if KindName(m) == "object" {
        forall name | name in Properties(m)
          ensures !ShapeFails(c, max, Entered(active, loc, []), loc.Child("properties").Child(name), [], depth + 1)
        {
          var child := loc.Child("properties").Child(name);
          var k := ReadyChild(c, max, active, loc, [], depth, n, child);
          PlainShaped(c, max, Entered(active, loc, []), child, depth + 1, k);
        }
      }
      NoMemberFails(c, max, Entered(active, loc, []), loc, m, depth);
      ShapedHere(c, max, active, loc, m, depth);
    }
  }

  lemma ReadyParts(c: Catalog, max: nat, active: set<Key>, loc: Location, depth: nat, n: nat)
    requires Ready(c, max, active, loc, depth, n)
    ensures n > 0 && Rank(c, loc, n) && Above(c, active, n) && depth + n <= max && PlainAt(c, loc, n) && depth < max
  {
    hide PlainAt;
  }

  lemma ReferenceParts(c: Catalog, loc: Location, m: Keywords, n: nat)
    requires n > 0 && PlainReference(c, loc, m, n)
    ensures "$ref" in m && m["$ref"].Text? && c.resolve(loc, m["$ref"].text).Some?
    ensures PlainAt(c, c.resolve(loc, m["$ref"].text).value, n - 1)
  {
    hide PlainAt;
  }

  lemma KindParts(c: Catalog, loc: Location, m: Keywords, n: nat)
    requires n > 0 && PlainKind(c, loc, m, n)
    ensures KindName(m) in Kinds() - {"integer"}
    ensures KindName(m) == "array" && "items" in m ==> PlainAt(c, loc.Child("items"), n - 1)
    ensures KindName(m) == "object" ==> RequiredNames(m) <= Properties(m).Keys
    ensures KindName(m) == "object" ==>
      forall name :: name in Properties(m) ==> PlainAt(c, loc.Child("properties").Child(name), n - 1)
  {
    hide PlainAt;
  }

  lemma NoMemberFails(c: Catalog, max: nat, inside: set<Key>, loc: Location, m: Keywords, depth: nat)
    requires depth < max
    requires KindName(m) == "array" && "items" in m ==> !ShapeFails(c, max, inside, loc.Child("items"), [], depth + 1)
    requires KindName(m) == "object" ==> forall name :: name in Properties(m) ==>
      !ShapeFails(c, max, inside, loc.Child("properties").Child(name), [], depth + 1)
    ensures !MemberFails(c, max, inside, loc, m, depth)
  {
    hide ShapeFails;
  }

  lemma ShapedOn(c: Catalog, max: nat, active: set<Key>, loc: Location, m: Keywords, path: seq<Step>, depth: nat)
    requires !Cut(max, active, loc, path, depth) && Direct(c, loc) == Some(m) && Next(c, loc, m, path).On?
    ensures
      var next := Next(c, loc, m, path);
      var inside := Entered(active, loc, path);
      && Shaped(c, max, active, loc, path, depth) == Shaped(c, max, inside, next.loc, next.rest, depth + 1)
      && (forall v ::
        Meets(c, max, active, loc, path, depth, v) == Meets(c, max, inside, next.loc, next.rest, depth + 1, v))
      && Needed(c, max, active, loc, path, depth) ==
        (StepRequired(m, path) && Needed(c, max, inside, next.loc, next.rest, depth + 1))
  {
    hide Next, Direct;
  }

  lemma ShapedHere(c: Catalog, max: nat, active: set<Key>, loc: Location, m: Keywords, depth: nat)
    requires !Cut(max, active, loc, [], depth) && Direct(c, loc) == Some(m) && Next(c, loc, m, []).Here?
    requires KindName(m) in Kinds() && (KindName(m) == "array" ==> "prefixItems" !in m)
    ensures Shaped(c, max, active, loc, [], depth) && Needed(c, max, active, loc, [], depth)
    ensures forall v ::
      Meets(c, max, active, loc, [], depth, v) == MeetsKind(c, max, Entered(active, loc, []), loc, m, depth, v)
  {
    hide Next, Direct, MeetsKind;
  }

  /** What the type of a plain schema holds is what the schema allows. */
  lemma {:induction false} PlainMeets(
      c: Catalog, max: nat, active: set<Key>, loc: Location, depth: nat, n: nat,
      valid: Validator, other: Validator, v: Value)
    requires Validates(c, valid, other) && Bare(other) && Ready(c, max, active, loc, depth, n) && IsJson(v)
    ensures Meets(c, max, active, loc, [], depth, v) <==> valid(loc, v)
    decreases n, 1
  {
    hide *;
    ReadyParts(c, max, active, loc, depth, n);
    NotCut(c, max, active, loc, [], depth, n);
    var m := PlainDirect(c, loc, n);
    if PlainReference(c, loc, m, n) {
      ReferenceNext(c, loc, m, [], n);
      ReferenceParts(c, loc, m, n);
      var target := c.resolve(loc, m["$ref"].text).value;
      var k := ReadyChild(c, max, active, loc, [], depth, n, target);
      PlainMeets(c, max, Entered(active, loc, []), target, depth + 1, k, valid, other, v);
      ShapedOn(c, max, active, loc, m, [], depth);
      ReferenceAsserts(c, valid, other, loc, m, n, v);
    } else {
      KindNext(c, loc, m, n);
      KindParts(c, loc, m, n);
      ShapedHere(c, max, active, loc, m, depth);
      KindAsserts(c, valid, other, loc, m, n, v);
      ContainerKinds(KindName(m), v);
      if KindName(m) == "array" {
        ItemsMeet(c, max, active, loc, m, depth, n, valid, other, v);
      } else if KindName(m) == "object" {
        FieldsMeet(c, max, active, loc, m, depth, n, valid, other, v);
      } else {
        ScalarMeets(c, max, Entered(active, loc, []), loc, m, depth, v);
      }
    }
  }

  lemma ContainerKinds(kind: string, v: Value)
    ensures TypeNameAllows("array", v) == v.Array? && TypeNameAllows("object", v) == v.Map?
    ensures kind in Kinds() - {"integer"} && kind != "array" && kind != "object" ==>
      kind in {"string", "boolean", "null", "number"}
  {
  }

  lemma ScalarMeets(c: Catalog, max: nat, inside: set<Key>, loc: Location, m: Keywords, depth: nat, v: Value)
    requires depth < max && KindName(m) in {"string", "boolean", "null", "number"}
    ensures MeetsKind(c, max, inside, loc, m, depth, v) <==> TypeNameAllows(KindName(m), v)
    ensures TypeNameAllows(KindName(m), v) ==> !v.Map? && !v.Array?
  {
  }

  /** A member schema with a shape is met exactly by its instances. */
  lemma {:induction false} MemberMeets(
      c: Catalog, max: nat, active: set<Key>, loc: Location, depth: nat, n: nat, child: Location,
      valid: Validator, other: Validator, v: Value)
    requires Validates(c, valid, other) && Bare(other) && Ready(c, max, active, loc, depth, n) && IsJson(v)
    requires n > 0 && PlainAt(c, child, n - 1)
    ensures MeetsMember(c, max, Entered(active, loc, []), child, depth + 1, v) <==> valid(child, v)
    decreases n, 0, 0
  {
    hide *;
    var k := ReadyChild(c, max, active, loc, [], depth, n, child);
    PlainShaped(c, max, Entered(active, loc, []), child, depth + 1, k);
    PlainMeets(c, max, Entered(active, loc, []), child, depth + 1, k, valid, other, v);
    MemberIsMet(c, max, Entered(active, loc, []), child, depth + 1, v);
  }

  lemma MemberIsMet(c: Catalog, max: nat, inside: set<Key>, child: Location, depth: nat, v: Value)
    requires Shaped(c, max, inside, child, [], depth)
    ensures MeetsMember(c, max, inside, child, depth, v) == Meets(c, max, inside, child, [], depth, v)
  {
    hide Shaped, Meets;
  }

  lemma {:induction false} ItemsMeet(
      c: Catalog, max: nat, active: set<Key>, loc: Location, m: Keywords, depth: nat, n: nat,
      valid: Validator, other: Validator, v: Value)
    requires Validates(c, valid, other) && Bare(other) && Ready(c, max, active, loc, depth, n) && IsJson(v)
    requires n > 0 && depth < max && KindName(m) == "array" && ("items" in m ==> PlainAt(c, loc.Child("items"), n - 1))
    ensures MeetsKind(c, max, Entered(active, loc, []), loc, m, depth, v) <==>
      v.Array? && ("items" in m ==> forall x :: x in v.items ==> valid(loc.Child("items"), x))
    decreases n, 0, 1
  {
    hide Validates, Bare, Ready, PlainAt, MeetsMember, Entered;
    if v.Array? && "items" in m {
      forall x | x in v.items
        ensures MeetsMember(c, max, Entered(active, loc, []), loc.Child("items"), depth + 1, x)
          <==> valid(loc.Child("items"), x)
      {
        assert IsJson(x);
        MemberMeets(c, max, active, loc, depth, n, loc.Child("items"), valid, other, x);
      }
    }
  }

  lemma {:induction false} FieldsMeet(
      c: Catalog, max: nat, active: set<Key>, loc: Location, m: Keywords, depth: nat, n: nat,
      valid: Validator, other: Validator, v: Value)
    requires Validates(c, valid, other) && Bare(other) && Ready(c, max, active, loc, depth, n) && IsJson(v)
    requires n > 0 && depth < max && KindName(m) == "object" && RequiredNames(m) <= Properties(m).Keys
    requires forall name :: name in Properties(m) ==> PlainAt(c, loc.Child("properties").Child(name), n - 1)
    ensures MeetsKind(c, max, Entered(active, loc, []), loc, m, depth, v) <==>
      && v.Map? && (forall name :: name in RequiredNames(m) ==> name in v.entries)
      && forall name :: name in Properties(m) && name in v.entries ==>
        valid(loc.Child("properties").Child(name), v.entries[name])
    decreases n, 0, 1
  {
    hide Validates, Bare, Ready, PlainAt, MeetsMember, Entered, Properties, RequiredNames;
    if v.Map? {
      forall name | name in Properties(m)
        ensures FieldMet(c, max, Entered(active, loc, []), loc, m, depth, v, name) <==>
          if name in v.entries then valid(loc.Child("properties").Child(name), v.entries[name])
          else name !in RequiredNames(m)
      {
        if name in v.entries {
          assert IsJson(v.entries[name]);
          MemberMeets(
            c, max, active, loc, depth, n, loc.Child("properties").Child(name), valid, other, v.entries[name]);
        }
      }
      FieldsAllMet(c, max, Entered(active, loc, []), loc, m, depth, v, valid);
    }
  }

  lemma FieldsAllMet(
      c: Catalog, max: nat, inside: set<Key>, loc: Location, m: Keywords, depth: nat, v: Value, valid: Validator)
    requires depth < max && v.Map? && RequiredNames(m) <= Properties(m).Keys
    requires forall name :: name in Properties(m) ==> (FieldMet(c, max, inside, loc, m, depth, v, name) <==>
      if name in v.entries then valid(loc.Child("properties").Child(name), v.entries[name])
      else name !in RequiredNames(m))
    ensures MeetsFields(c, max, inside, loc, m, depth, v) <==>
      && (forall name :: name in RequiredNames(m) ==> name in v.entries)
      && forall name :: name in Properties(m) && name in v.entries ==>
        valid(loc.Child("properties").Child(name), v.entries[name])
  {
    hide FieldMet, Properties, RequiredNames;
    if MeetsFields(c, max, inside, loc, m, depth, v) {
      forall name | name in Properties(m)
        ensures FieldMet(c, max, inside, loc, m, depth, v, name)
      {
      }
    }
  }

  // ---- Along a path ----

  /** The schema of a member that a step takes. */
  function Inner(loc: Location, m: Keywords, step: Step): Option<Location> {
    match step
    case Field(name) =>
      if KindName(m) == "object" && name in Properties(m) then Some(loc.Child("properties").Child(name)) else None
    case Index(_) => if KindName(m) == "array" && "items" in m then Some(loc.Child("items")) else None
  }

  /** The schema that a path leads to through references, properties and items, at most `n` of them. */
  ghost function Place(c: Catalog, loc: Location, path: seq<Step>, n: nat): Option<Location>
    decreases n
  {
    if path == [] then Some(loc)
    else if n == 0 || Direct(c, loc).None? then None
    else
      var m := Direct(c, loc).value;
      if Reference(m).Some? then
        var target := c.resolve(loc, Reference(m).value);
        if target.Some? then Place(c, target.value, path, n - 1) else None
      else
        var next := Inner(loc, m, path[0]);
        if next.Some? then Place(c, next.value, path[1..], n - 1) else None
  }

  /** Every object on the way requires the field that the path takes. */
  ghost predicate Always(c: Catalog, loc: Location, path: seq<Step>, n: nat)
    decreases n
  {
    path != [] && n > 0 && Direct(c, loc).Some? ==>
      var m := Direct(c, loc).value;
      if Reference(m).Some? then
        var target := c.resolve(loc, Reference(m).value);
        target.Some? ==> Always(c, target.value, path, n - 1)
      else
        var next := Inner(loc, m, path[0]);
        next.Some? ==> StepRequired(m, path) && Always(c, next.value, path[1..], n - 1)
  }

  lemma PlaceOn(c: Catalog, loc: Location, m: Keywords, path: seq<Step>, n: nat)
    requires path != [] && n > 0 && Direct(c, loc) == Some(m) && Reference(m).Some?
    requires c.resolve(loc, Reference(m).value).Some?
    ensures
      var target := c.resolve(loc, Reference(m).value).value;
      && Place(c, loc, path, n) == Place(c, target, path, n - 1)
      && Always(c, loc, path, n) == Always(c, target, path, n - 1)
  {
    hide Direct, Reference;
  }

  lemma PlaceIn(c: Catalog, loc: Location, m: Keywords, path: seq<Step>, n: nat)
    requires path != [] && n > 0 && Direct(c, loc) == Some(m) && Reference(m).None?
    ensures
      var next := Inner(loc, m, path[0]);
      && (next.None? ==> Place(c, loc, path, n).None? && Always(c, loc, path, n))
      && (next.Some? ==>
        && Place(c, loc, path, n) == Place(c, next.value, path[1..], n - 1)
        && Always(c, loc, path, n) == (StepRequired(m, path) && Always(c, next.value, path[1..], n - 1)))
  {
    hide Direct, Reference, Inner, StepRequired;
  }

  lemma InnerPlain(c: Catalog, loc: Location, m: Keywords, step: Step, n: nat)
    requires n > 0 && PlainKind(c, loc, m, n)
    ensures Inner(loc, m, step).Some? ==> PlainAt(c, Inner(loc, m, step).value, n - 1)
  {
    hide PlainAt;
  }

  lemma InnerNext(c: Catalog, loc: Location, m: Keywords, path: seq<Step>, n: nat)
    requires n > 0 && PlainKind(c, loc, m, n) && path != [] && Inner(loc, m, path[0]).Some?
    ensures Next(c, loc, m, path) == On(Inner(loc, m, path[0]).value, path[1..])
  {
    hide PlainAt;
    assert "$ref" !in m && "prefixItems" !in m;
  }

  /** Both a reference and a step go on in a plain schema. */
  lemma PathOnward(c: Catalog, loc: Location, m: Keywords, path: seq<Step>, n: nat)
    requires n > 0 && Direct(c, loc) == Some(m) && path != [] && Place(c, loc, path, n).Some?
    requires PlainReference(c, loc, m, n) || PlainKind(c, loc, m, n)
    ensures Next(c, loc, m, path).On?
    ensures
      var next := Next(c, loc, m, path);
      && PlainAt(c, next.loc, n - 1)
      && Place(c, loc, path, n) == Place(c, next.loc, next.rest, n - 1)
      && Always(c, loc, path, n) == (StepRequired(m, path) && Always(c, next.loc, next.rest, n - 1))
  {
    hide PlainAt, PlainReference, PlainKind, Place, Always, Direct, Inner, Next, Properties, RequiredNames;
    if PlainReference(c, loc, m, n) {
      ReferenceNext(c, loc, m, path, n);
      ReferenceParts(c, loc, m, n);
      PlaceOn(c, loc, m, path, n);
    } else {
      KindNext(c, loc, m, n);
      PlaceIn(c, loc, m, path, n);
      InnerPlain(c, loc, m, path[0], n);
      InnerNext(c, loc, m, path, n);
    }
  }

  lemma {:induction false} PlaceDeeper(c: Catalog, loc: Location, path: seq<Step>, n: nat, k: nat)
    requires PlainAt(c, loc, k) && k <= n
    ensures Place(c, loc, path, n) == Place(c, loc, path, k)
    ensures Always(c, loc, path, n) == Always(c, loc, path, k)
    decreases k
  {
    hide *;
    if path == [] {
      NoSteps(c, loc, n);
      NoSteps(c, loc, k);
    } else {
      var m := PlainDirect(c, loc, k);
      if PlainReference(c, loc, m, k) {
        ReferenceNext(c, loc, m, path, k);
        ReferenceParts(c, loc, m, k);
        ReferenceText(m);
        PlaceOn(c, loc, m, path, n);
        PlaceOn(c, loc, m, path, k);
        PlaceDeeper(c, c.resolve(loc, m["$ref"].text).value, path, n - 1, k - 1);
      } else {
        KindNext(c, loc, m, k);
        PlaceIn(c, loc, m, path, n);
        PlaceIn(c, loc, m, path, k);
        InnerPlain(c, loc, m, path[0], k);
        if Inner(loc, m, path[0]).Some? {
          PlaceDeeper(c, Inner(loc, m, path[0]).value, path[1..], n - 1, k - 1);
        }
      }
    }
  }

  lemma NoSteps(c: Catalog, loc: Location, n: nat)
    ensures Place(c, loc, [], n) == Some(loc) && Always(c, loc, [], n)
  {
  }

  lemma ReferenceText(m: Keywords)
    requires "$ref" in m && m["$ref"].Text?
    ensures Reference(m) == Some(m["$ref"].text)
  {
  }

  /** A path into a plain schema has the type of the member it leads to, required when all steps are. */
  lemma {:induction false} PathMeets(
      c: Catalog, max: nat, active: set<Key>, loc: Location, path: seq<Step>, depth: nat, n: nat,
      valid: Validator, other: Validator)
    requires Validates(c, valid, other) && Bare(other) && Ready(c, max, active, loc, depth, n)
    requires Place(c, loc, path, n).Some?
    ensures !ShapeFails(c, max, active, loc, path, depth) && Shaped(c, max, active, loc, path, depth)
    ensures Needed(c, max, active, loc, path, depth) == Always(c, loc, path, n)
    ensures forall v :: IsJson(v) ==>
      (Meets(c, max, active, loc, path, depth, v) <==> valid(Place(c, loc, path, n).value, v))
    decreases n
  {
    hide *;
    if path == [] {
      PathEnds(c, max, active, loc, depth, n, valid, other);
      NoSteps(c, loc, n);
    } else {
      ReadyParts(c, max, active, loc, depth, n);
      NotCut(c, max, active, loc, path, depth, n);
      var m := PlainDirect(c, loc, n);
      FailsAt(c, max, active, loc, m, path, depth);
      FailsInside(c, max, Entered(active, loc, path), loc, m, path, depth);
      PathOnward(c, loc, m, path, n);
      var next := Next(c, loc, m, path);
      var k := ReadyChild(c, max, active, loc, path, depth, n, next.loc);
      ReadyParts(c, max, Entered(active, loc, path), next.loc, depth + 1, k);
      PlaceDeeper(c, next.loc, next.rest, n - 1, k);
      PathMeets(c, max, Entered(active, loc, path), next.loc, next.rest, depth + 1, k, valid, other);
      ShapedOn(c, max, active, loc, m, path, depth);
    }
  }

  lemma PathEnds(
      c: Catalog, max: nat, active: set<Key>, loc: Location, depth: nat, n: nat, valid: Validator, other: Validator)
    requires Validates(c, valid, other) && Bare(other) && Ready(c, max, active, loc, depth, n)
    ensures !ShapeFails(c, max, active, loc, [], depth) && Shaped(c, max, active, loc, [], depth)
    ensures Needed(c, max, active, loc, [], depth)
    ensures forall v :: IsJson(v) ==> (Meets(c, max, active, loc, [], depth, v) <==> valid(loc, v))
  {
    hide *;
    PlainShaped(c, max, active, loc, depth, n);
    PlainNeeded(c, max, active, loc, depth, n);
    forall v | IsJson(v)
      ensures Meets(c, max, active, loc, [], depth, v) <==> valid(loc, v)
    {
      PlainMeets(c, max, active, loc, depth, n, valid, other, v);
    }
  }

  lemma {:induction false} PlainNeeded(c: Catalog, max: nat, active: set<Key>, loc: Location, depth: nat, n: nat)
    requires Ready(c, max, active, loc, depth, n)
    ensures Needed(c, max, active, loc, [], depth)
    decreases n
  {
    hide *;
    ReadyParts(c, max, active, loc, depth, n);
    NotCut(c, max, active, loc, [], depth, n);
    var m := PlainDirect(c, loc, n);
    if PlainReference(c, loc, m, n) {
      ReferenceNext(c, loc, m, [], n);
      ReferenceParts(c, loc, m, n);
      var target := c.resolve(loc, m["$ref"].text).value;
      var k := ReadyChild(c, max, active, loc, [], depth, n, target);
      PlainNeeded(c, max, Entered(active, loc, []), target, depth + 1, k);
      ShapedOn(c, max, active, loc, m, [], depth);
      NothingTaken(m);
    } else {
      KindNext(c, loc, m, n);
      KindParts(c, loc, m, n);
      ShapedHere(c, max, active, loc, m, depth);
    }
  }

  lemma NothingTaken(m: Keywords)
    ensures StepRequired(m, [])
  {
  }

  // ---- A path is required exactly when no instance can omit it ----

  /** The smallest instance of a plain schema: only the required fields. */
  ghost function Least(c: Catalog, loc: Location, n: nat): Value
    requires PlainAt(c, loc, n)
    decreases n
  {
    var m := SchemaAt(c, loc).value.entries;
    if PlainReference(c, loc, m, n) then Least(c, c.resolve(loc, m["$ref"].text).value, n - 1)
    else
      assert PlainKind(c, loc, m, n);
      match KindName(m)
      case "string" => Text("")
      case "boolean" => Bool(false)
      case "null" => Null
      case "number" => Integer(0)
      case "array" => Array([])
      case _ =>
        Map(map name |
          name in RequiredNames(m) && KindName(m) == "object" ::
          Least(c, loc.Child("properties").Child(name), n - 1))
  }

  lemma LeastOn(c: Catalog, loc: Location, m: Keywords, n: nat)
    requires PlainAt(c, loc, n) && SchemaAt(c, loc) == Some(Map(m)) && n > 0 && PlainReference(c, loc, m, n)
    ensures c.resolve(loc, m["$ref"].text).Some? && PlainAt(c, c.resolve(loc, m["$ref"].text).value, n - 1)
    ensures Least(c, loc, n) == Least(c, c.resolve(loc, m["$ref"].text).value, n - 1)
  {
    hide PlainAt, SchemaAt;
  }

  lemma LeastFields(c: Catalog, loc: Location, m: Keywords, n: nat)
    requires PlainAt(c, loc, n) && SchemaAt(c, loc) == Some(Map(m)) && n > 0 && PlainKind(c, loc, m, n)
    requires KindName(m) == "object"
    ensures Least(c, loc, n).Map? && Least(c, loc, n).entries.Keys == RequiredNames(m) <= Properties(m).Keys
    ensures forall name :: name in RequiredNames(m) ==>
      && PlainAt(c, loc.Child("properties").Child(name), n - 1)
      && Least(c, loc, n).entries[name] == Least(c, loc.Child("properties").Child(name), n - 1)
  {
    hide PlainAt, SchemaAt, Properties, RequiredNames;
    assert "$ref" !in m;
  }

  lemma LeastOther(c: Catalog, loc: Location, m: Keywords, n: nat)
    requires PlainAt(c, loc, n) && SchemaAt(c, loc) == Some(Map(m)) && n > 0 && PlainKind(c, loc, m, n)
    requires KindName(m) != "object"
    ensures TypeNameAllows(KindName(m), Least(c, loc, n)) && IsJson(Least(c, loc, n)) && !Least(c, loc, n).Map?
    ensures Least(c, loc, n).Array? ==> Least(c, loc, n).items == []
  {
    hide PlainAt, SchemaAt, Properties, RequiredNames;
    assert "$ref" !in m;
  }

  lemma {:induction false} LeastValid(c: Catalog, valid: Validator, other: Validator, loc: Location, n: nat)
    requires Validates(c, valid, other) && Bare(other) && PlainAt(c, loc, n)
    ensures IsJson(Least(c, loc, n)) && valid(loc, Least(c, loc, n))
    decreases n
  {
    hide *;
    var m := PlainDirect(c, loc, n);
    if PlainReference(c, loc, m, n) {
      ReferenceParts(c, loc, m, n);
      LeastOn(c, loc, m, n);
      LeastValid(c, valid, other, c.resolve(loc, m["$ref"].text).value, n - 1);
      ReferenceAsserts(c, valid, other, loc, m, n, Least(c, loc, n));
    } else {
      KindAsserts(c, valid, other, loc, m, n, Least(c, loc, n));
      if KindName(m) == "object" {
        LeastFields(c, loc, m, n);
        ContainerKinds("object", Least(c, loc, n));
        forall name | name in RequiredNames(m)
          ensures IsJson(Least(c, loc, n).entries[name])
          ensures valid(loc.Child("properties").Child(name), Least(c, loc, n).entries[name])
        {
          LeastValid(c, valid, other, loc.Child("properties").Child(name), n - 1);
        }
        JsonMap(Least(c, loc, n));
      } else {
        LeastOther(c, loc, m, n);
      }
    }
  }

  lemma JsonMap(v: Value)
    requires v.Map? && forall name :: name in v.entries ==> IsJson(v.entries[name])
    ensures IsJson(v)
  {
  }

  /** Where a step is optional, the smallest instance lacks it. */
  lemma {:induction false} LeastOmits(c: Catalog, loc: Location, path: seq<Step>, n: nat)
    requires PlainAt(c, loc, n) && OnlyFields(path) && Place(c, loc, path, n).Some? && !Always(c, loc, path, n)
    ensures Project(Least(c, loc, n), path) == Absent
    decreases n
  {
    hide *;
    var m := PlainDirect(c, loc, n);
    if path == [] {
      NoSteps(c, loc, n);
    } else {
      FirstField(path);
      PathOnward(c, loc, m, path, n);
      if PlainReference(c, loc, m, n) {
        ReferenceNext(c, loc, m, path, n);
        NoStep(m, path);
        ReferenceParts(c, loc, m, n);
        LeastOn(c, loc, m, n);
        LeastOmits(c, c.resolve(loc, m["$ref"].text).value, path, n - 1);
      } else {
        KindNext(c, loc, m, n);
        PlaceIn(c, loc, m, path, n);
        InnerField(loc, m, path);
        InnerNext(c, loc, m, path, n);
        LeastFields(c, loc, m, n);
        FieldRequired(m, path);
        ProjectField(Least(c, loc, n), path);
        if path[0].name in RequiredNames(m) {
          LeastOmits(c, loc.Child("properties").Child(path[0].name), path[1..], n - 1);
        }
      }
    }
  }

  lemma FirstField(path: seq<Step>)
    requires OnlyFields(path) && path != []
    ensures path[0].Field? && OnlyFields(path[1..])
  {
  }

  lemma NoStep(m: Keywords, path: seq<Step>)
    requires Reference(m).Some?
    ensures StepRequired(m, path)
  {
  }

  lemma FieldRequired(m: Keywords, path: seq<Step>)
    requires Reference(m).None? && path != [] && path[0].Field?
    ensures StepRequired(m, path) <==> path[0].name in RequiredNames(m)
  {
    hide Reference, RequiredNames;
  }

  lemma InnerField(loc: Location, m: Keywords, path: seq<Step>)
    requires path != [] && path[0].Field? && Inner(loc, m, path[0]).Some?
    ensures KindName(m) == "object" && path[0].name in Properties(m)
    ensures Inner(loc, m, path[0]).value == loc.Child("properties").Child(path[0].name)
  {
  }

  lemma ProjectField(v: Value, path: seq<Step>)
    requires v.Map? && path != [] && path[0].Field?
    ensures Project(v, path) ==
      if path[0].name in v.entries then Project(v.entries[path[0].name], path[1..]) else Absent
  {
  }

  // ---- The hint of a projection into a plain schema ----

  /** A plain schema has no part that the mask analysis cannot read. */
  lemma {:induction false} PlainMask(
      c: Catalog, max: nat, active: set<Key>, loc: Location, path: seq<Step>, depth: nat, n: nat)
    requires PlainAt(c, loc, n)
    ensures MaskOf(c, max, active, loc, path, depth).Ok?
    decreases n
  {
    hide *;
    var m := PlainDirect(c, loc, n);
    if depth >= max || Key(loc, false, |path|) in active {
      MaskLeft(c, max, active, loc, path, depth);
    } else {
      var inside := active + {Key(loc, false, |path|)};
      MaskEntered(c, max, active, loc, m, path, depth);
      if PlainReference(c, loc, m, n) {
        ReferenceParts(c, loc, m, n);
        PlainMask(c, max, inside, c.resolve(loc, m["$ref"].text).value, path, depth + 1, n - 1);
        ReferenceMask(c, max, inside, loc, m, path, depth, n);
      } else {
        KindParts(c, loc, m, n);
        if path != [] && Inner(loc, m, path[0]).Some? {
          InnerPlain(c, loc, m, path[0], n);
          PlainMask(c, max, inside, Inner(loc, m, path[0]).value, path[1..], depth + 1, n - 1);
        }
        KindMask(c, max, inside, loc, m, path, depth, n);
      }
      BothRead(OwnAt(c, max, inside, loc, m, path, depth), InPlaceAt(c, max, inside, loc, m, path, depth));
    }
  }

  lemma ReferenceMask(
      c: Catalog, max: nat, inside: set<Key>, loc: Location, m: Keywords, path: seq<Step>, depth: nat, n: nat)
    requires depth < max && n > 0 && PlainReference(c, loc, m, n)
    requires MaskOf(c, max, inside, c.resolve(loc, m["$ref"].text).value, path, depth + 1).Ok?
    ensures OwnAt(c, max, inside, loc, m, path, depth).Ok? && InPlaceAt(c, max, inside, loc, m, path, depth).Ok?
  {
    hide PlainAt, MaskOf, OwnMask, Alternatives;
    NoBranches(m);
    assert AllMask(c, max, inside, loc, m, path, depth, 0) == Ok(ANY);
    assert "properties" !in m && "prefixItems" !in m && "items" !in m && "additionalProperties" !in m;
  }

  lemma KindMask(
      c: Catalog, max: nat, inside: set<Key>, loc: Location, m: Keywords, path: seq<Step>, depth: nat, n: nat)
    requires depth < max && n > 0 && PlainKind(c, loc, m, n)
    requires path != [] && Inner(loc, m, path[0]).Some? ==>
      MaskOf(c, max, inside, Inner(loc, m, path[0]).value, path[1..], depth + 1).Ok?
    ensures OwnAt(c, max, inside, loc, m, path, depth).Ok? && InPlaceAt(c, max, inside, loc, m, path, depth).Ok?
  {
    hide PlainAt, MaskOf, Alternatives, Properties;
    NoBranches(m);
    assert "$ref" !in m && "prefixItems" !in m && "additionalProperties" !in m;
    NothingInPlace(c, max, inside, loc, m, path, depth);
    KindOwn(m);
  }

  lemma KindOwn(m: Keywords)
    requires "const" !in m && "enum" !in m && KindName(m) in Kinds()
    ensures ObjectK in OwnMask(m) <==> KindName(m) == "object"
    ensures ArrayK in OwnMask(m) <==> KindName(m) == "array"
  {
  }

  /** A plain schema that starts a walk has its depth within the limit. */
  lemma ReadyRoot(c: Catalog, max: nat, loc: Location, n: nat) returns (k: nat)
    requires PlainAt(c, loc, n) && n <= max
    ensures k <= n && Ready(c, max, {}, loc, 0, k)
  {
    hide PlainAt;
    k := RankExists(c, loc, n);
  }

  /**
   * The hint of a path into a plain schema: the hinted type holds exactly the instances of the
   * schema that the path leads to, and it is required, along field names, exactly when no
   * instance can omit the value.
   */
  lemma PlainHint(walker: Walker, loc: Location, path: seq<Step>, n: nat, r: Result<Types.Port, HintError>)
    requires walker.HintIs(loc, path, r)
    requires Validates(walker.catalog, walker.valid, walker.other) && Bare(walker.other)
    requires PlainAt(walker.catalog, loc, n) && n <= walker.maxDepth && Place(walker.catalog, loc, path, n).Some?
    ensures r.Ok?
    ensures forall v :: IsJson(v) ==>
      (Has(walker.world, v, r.value.ty) <==> walker.valid(Place(walker.catalog, loc, path, n).value, v))
    ensures OnlyFields(path) ==> (r.value.required <==>
      forall v :: IsJson(v) && walker.valid(loc, v) ==> Project(v, path) != Absent)
  {
    hide *;
    var c, max := walker.catalog, walker.maxDepth;
    var k := ReadyRoot(c, max, loc, n);
    ReadyParts(c, max, {}, loc, 0, k);
    PlaceDeeper(c, loc, path, n, k);
    PathMeets(c, max, {}, loc, path, 0, k, walker.valid, walker.other);
    PlainMask(c, max, {}, loc, path, 0, n);
    HintParts(walker, loc, path, r);
    if OnlyFields(path) {
      LeastValid(c, walker.valid, walker.other, loc, n);
      if !r.value.required {
        LeastOmits(c, loc, path, n);
      } else {
        forall v | IsJson(v) && walker.valid(loc, v)
          ensures Project(v, path) != Absent
        {
          AlwaysThere(c, walker.valid, walker.other, loc, path, n, v);
        }
      }
    }
  }

  /**
   * Whatever else a schema without alternatives says, its hint holds only what the type
   * keyword allows, and only objects with the required fields it describes; an integer is
   * hinted as a number.
   */
  lemma KindHint(walker: Walker, loc: Location, m: Keywords, r: Result<Types.Port, HintError>, v: Value)
    requires walker.HintIs(loc, [], r) && r.Ok? && walker.maxDepth > 0
    requires Direct(walker.catalog, loc) == Some(m) && Reference(m).None?
    requires KindName(m) in Kinds() && "prefixItems" !in m && IsJson(v) && Has(walker.world, v, r.value.ty)
    ensures KindName(m) == "integer" ==> v.Integer? || v.Float?
    ensures KindName(m) != "integer" ==> TypeAllows(m["type"], v)
    ensures v.Map? ==> forall name :: name in RequiredNames(m) && name in Properties(m) ==> name in v.entries
  {
    hide Has, IsJson, MaskOf, ShapeFails, Shaped, Needed, Meets, MeetsKind, MaskType, Direct;
    var inside := Entered({}, loc, []);
    assert Next(walker.catalog, loc, m, []).Here?;
    ShapedHere(walker.catalog, walker.maxDepth, {}, loc, m, 0);
    assert MeetsKind(walker.catalog, walker.maxDepth, inside, loc, m, 0, v);
    KindTight(walker.catalog, walker.maxDepth, inside, loc, m, 0, v);
  }

  lemma KindTight(c: Catalog, max: nat, inside: set<Key>, loc: Location, m: Keywords, depth: nat, v: Value)
    requires depth < max && KindName(m) in Kinds() && MeetsKind(c, max, inside, loc, m, depth, v)
    ensures KindName(m) == "integer" ==> v.Integer? || v.Float?
    ensures KindName(m) != "integer" ==> TypeAllows(m["type"], v)
    ensures v.Map? ==> forall name :: name in RequiredNames(m) && name in Properties(m) ==> name in v.entries
  {
    hide Properties, RequiredNames, MeetsMember;
    if KindName(m) == "object" {
      forall name | name in RequiredNames(m) && name in Properties(m)
        ensures name in v.entries
      {
        assert FieldMet(c, max, inside, loc, m, depth, v, name);
      }
    }
  }

  lemma HintParts(walker: Walker, loc: Location, path: seq<Step>, r: Result<Types.Port, HintError>)
    requires walker.HintIs(loc, path, r) && Shaped(walker.catalog, walker.maxDepth, {}, loc, path, 0)
    ensures r.Err? <==>
      || MaskOf(walker.catalog, walker.maxDepth, {}, loc, path, 0).Err?
      || ShapeFails(walker.catalog, walker.maxDepth, {}, loc, path, 0)
    ensures r.Ok? ==> r.value.required == Needed(walker.catalog, walker.maxDepth, {}, loc, path, 0)
    ensures r.Ok? ==> forall v :: IsJson(v) ==>
      (Has(walker.world, v, r.value.ty) <==> Meets(walker.catalog, walker.maxDepth, {}, loc, path, 0, v))
  {
    hide Has, IsJson, MaskOf, ShapeFails, Shaped, Needed, Meets, MaskType;
  }

  /** Where every step is required, no instance lacks the value. */
  lemma {:induction false} AlwaysThere(
      c: Catalog, valid: Validator, other: Validator, loc: Location, path: seq<Step>, n: nat, v: Value)
    requires Validates(c, valid, other) && Bare(other) && PlainAt(c, loc, n) && OnlyFields(path)
    requires Place(c, loc, path, n).Some? && Always(c, loc, path, n) && valid(loc, v)
    ensures Project(v, path) != Absent
    decreases n
  {
    hide *;
    if path == [] {
      ProjectAll(v);
    } else {
      var m := PlainDirect(c, loc, n);
      FirstField(path);
      PathOnward(c, loc, m, path, n);
      if PlainReference(c, loc, m, n) {
        ReferenceNext(c, loc, m, path, n);
        ReferenceParts(c, loc, m, n);
        ReferenceAsserts(c, valid, other, loc, m, n, v);
        AlwaysThere(c, valid, other, c.resolve(loc, m["$ref"].text).value, path, n - 1, v);
      } else {
        KindNext(c, loc, m, n);
        PlaceIn(c, loc, m, path, n);
        InnerField(loc, m, path);
        InnerNext(c, loc, m, path, n);
        FieldRequired(m, path);
        KindAsserts(c, valid, other, loc, m, n, v);
        ContainerKinds("object", v);
        ProjectField(v, path);
        AlwaysThere(
          c, valid, other, loc.Child("properties").Child(path[0].name), path[1..], n - 1, v.entries[path[0].name]);
      }
    }
  }

  lemma ProjectAll(v: Value)
    ensures Project(v, []) == Present(v)
  {
  }
}
