// How tight the masks are: they keep a family exactly when the keywords allow one of its values
// (crates/htlk-analyzer/src/schema_hints.rs:84-129, 228-397).

module SchemaFamilies {
  import opened Wrappers
  import opened Values
  import opened Schemas
  import opened SchemaShapes
  import opened SchemaHints
  import Types
  import Bindings

  /** Every keyword the analysis does not read allows everything. */
  ghost predicate Bare(other: Validator) {
    forall loc, v :: other(loc, v)
  }

  // ---- The families of a mask ----

  /** A value of each family. */
  function Sample(k: Kind): (v: Value)
    ensures IsJson(v) && ValueMask(v) == {k}
  {
    match k
    case NullK => Null
    case BoolK => Bool(true)
    case NumberK => Integer(0)
    case StringK => Text("")
    case ArrayK => Array([])
    case ObjectK => Map(map[])
  }

  lemma {:induction false} SampleAllowed(t: Value, k: Kind)
    requires k in TypeMask(t)
    ensures TypeAllows(t, Sample(k))
  {
    if t.Array? {
      var t' :| t' in t.items && k in TypeMask(t');
      SampleAllowed(t', k);
    }
  }

  /** A family stays in the mask exactly when each keyword by itself allows some value of it. */
  lemma OwnMaskIff(m: Keywords, k: Kind)
    ensures k in OwnMask(m) <==>
      && ("type" in m ==> exists v :: IsJson(v) && ValueMask(v) == {k} && TypeAllows(m["type"], v))
      && ("const" in m ==> k in ValueMask(m["const"]))
      && ("enum" in m && m["enum"].Array? ==> exists x :: x in m["enum"].items && k in ValueMask(x))
  {
    if "type" in m {
      if k in TypeMask(m["type"]) {
        SampleAllowed(m["type"], k);
      }
      if v :| IsJson(v) && ValueMask(v) == {k} && TypeAllows(m["type"], v) {
        TypeMaskSound(m["type"], v);
      }
    }
  }

  /** The mask of a location that is entered: its own, narrowed by what applies in place. */
  lemma MaskEntered(c: Catalog, max: nat, active: set<Key>, loc: Location, m: Keywords, path: seq<Step>, depth: nat)
    requires SchemaAt(c, loc) == Some(Map(m)) && loc.uri in c.documents
    requires depth < max && Key(loc, false, |path|) !in active
    ensures
      var inside := active + {Key(loc, false, |path|)};
      var own := OwnAt(c, max, inside, loc, m, path, depth);
      MaskOf(c, max, active, loc, path, depth) ==
        if own.Err? then own else Meet(own, InPlaceAt(c, max, inside, loc, m, path, depth))
  {
    hide OwnAt, InPlaceAt, SchemaAt, Meet;
  }

  lemma NothingInPlace(c: Catalog, max: nat, active: set<Key>, loc: Location, m: Keywords, path: seq<Step>, depth: nat)
    requires depth < max && Reference(m).None? && "allOf" !in m && "anyOf" !in m && "oneOf" !in m
    ensures InPlaceAt(c, max, active, loc, m, path, depth) == Ok(ANY)
  {
    assert AllMask(c, max, active, loc, m, path, depth, 0) == Ok(ANY);
    assert ANY * ANY == ANY;
  }

  /** At a location with nothing but its own assertions the mask is theirs. */
  lemma LocalMask(c: Catalog, max: nat, active: set<Key>, loc: Location, m: Keywords, depth: nat)
    requires SchemaAt(c, loc) == Some(Map(m)) && loc.uri in c.documents
    requires Reference(m).None? && "allOf" !in m && "anyOf" !in m && "oneOf" !in m
    requires depth < max && Key(loc, false, 0) !in active
    ensures MaskOf(c, max, active, loc, [], depth) == Ok(OwnMask(m))
  {
    hide MaskOf, SchemaAt, OwnMask;
    MaskEntered(c, max, active, loc, m, [], depth);
    NothingInPlace(c, max, active + {Key(loc, false, 0)}, loc, m, [], depth);
    OwnWithin(m);
    assert OwnAt(c, max, active + {Key(loc, false, 0)}, loc, m, [], depth) == Ok(OwnMask(m));
    assert OwnMask(m) * ANY == OwnMask(m);
  }

  lemma OwnWithin(m: Keywords)
    ensures OwnMask(m) <= ANY
  {
  }

  /** References and `allOf` only narrow: the mask lies within those of their schemas. */
  lemma MaskWithin(
      c: Catalog, max: nat, active: set<Key>, loc: Location, m: Keywords, path: seq<Step>, depth: nat, mask: set<Kind>)
    requires SchemaAt(c, loc) == Some(Map(m)) && loc.uri in c.documents
    requires depth < max && Key(loc, false, |path|) !in active && MaskOf(c, max, active, loc, path, depth) == Ok(mask)
    ensures
      var inside := active + {Key(loc, false, |path|)};
      && (Reference(m).Some? ==>
          var target := c.resolve(loc, Reference(m).value);
          target.Some? && Narrows(c, max, inside, target.value, path, depth + 1, mask))
      && (forall i: nat :: i < Branches(m, "allOf") ==>
          Narrows(c, max, inside, loc.Child("allOf").At(i), path, depth + 1, mask))
  {
    hide MaskOf, OwnAt, SomeMask, AllMask, SchemaAt;
    var inside := active + {Key(loc, false, |path|)};
    MaskEntered(c, max, active, loc, m, path, depth);
    var own := OwnAt(c, max, inside, loc, m, path, depth);
    var all := AllMask(c, max, inside, loc, m, path, depth, Branches(m, "allOf"));
    MeetFails(c, max, inside, loc, m, path, depth, own.value);
    MeetAll(c, max, inside, loc, m, path, depth, own.value);
    assert all.Ok? && mask <= all.value;
    forall i: nat | i < Branches(m, "allOf")
      ensures Narrows(c, max, inside, loc.Child("allOf").At(i), path, depth + 1, mask)
    {
      AllWithin(c, max, inside, loc, m, path, depth, Branches(m, "allOf"), i);
    }
  }

  /** A mask within the one of another location. */
  predicate Narrows(
      c: Catalog, max: nat, active: set<Key>, loc: Location, path: seq<Step>, depth: nat, mask: set<Kind>) {
    var other := MaskOf(c, max, active, loc, path, depth);
    other.Ok? && mask <= other.value
  }

  lemma {:induction false} AllWithin(
      c: Catalog, max: nat, active: set<Key>, loc: Location, m: Keywords, path: seq<Step>, depth: nat, n: nat, i: nat)
    requires depth < max && i < n && AllMask(c, max, active, loc, m, path, depth, n).Ok?
    ensures Narrows(c, max, active, loc.Child("allOf").At(i), path, depth + 1,
      AllMask(c, max, active, loc, m, path, depth, n).value)
  {
    hide MaskOf;
    if i < n - 1 {
      AllWithin(c, max, active, loc, m, path, depth, n - 1, i);
    }
  }

  /** Of the alternatives of `anyOf` and `oneOf`, one has each family that is left. */
  lemma MaskChosen(
      c: Catalog, max: nat, active: set<Key>, loc: Location, m: Keywords, path: seq<Step>, depth: nat,
      keyword: string, mask: set<Kind>, k: Kind) returns (i: nat)
    requires SchemaAt(c, loc) == Some(Map(m)) && loc.uri in c.documents && keyword in {"anyOf", "oneOf"}
    requires depth < max && Key(loc, false, |path|) !in active && MaskOf(c, max, active, loc, path, depth) == Ok(mask)
    requires keyword in m && m[keyword].Array? && k in mask
    ensures i < Branches(m, keyword)
    ensures Narrows(
      c, max, active + {Key(loc, false, |path|)}, loc.Child(keyword).At(i), path, depth + 1, {k})
  {
    hide MaskOf, OwnAt, RefMask, AllMask, AnyMask, SchemaAt, Narrows;
    var inside := active + {Key(loc, false, |path|)};
    MaskEntered(c, max, active, loc, m, path, depth);
    var own := OwnAt(c, max, inside, loc, m, path, depth);
    MeetFails(c, max, inside, loc, m, path, depth, own.value);
    MeetAll(c, max, inside, loc, m, path, depth, own.value);
    i := AnyChosen(c, max, inside, loc, m, keyword, path, depth, Branches(m, keyword), k);
  }

  lemma {:induction false} AnyChosen(
      c: Catalog, max: nat, active: set<Key>, loc: Location, m: Keywords, keyword: string, path: seq<Step>,
      depth: nat, n: nat, k: Kind) returns (i: nat)
    requires depth < max && AnyMask(c, max, active, loc, m, keyword, path, depth, n).Ok?
    requires k in AnyMask(c, max, active, loc, m, keyword, path, depth, n).value
    ensures i < n && Narrows(c, max, active, loc.Child(keyword).At(i), path, depth + 1, {k})
  {
    hide MaskOf;
    if Narrows(c, max, active, loc.Child(keyword).At(n - 1), path, depth + 1, {k}) {
      i := n - 1;
    } else {
      i := AnyChosen(c, max, active, loc, m, keyword, path, depth, n - 1, k);
    }
  }

  /** The schema of the member that a step takes, for its family. */
  function StepSchema(loc: Location, m: Keywords, step: Step): Option<Location> {
    match step
    case Field(name) =>
      if name in Properties(m) then Some(loc.Child("properties").Child(name))
      else if "patternProperties" !in m && "additionalProperties" in m then Some(loc.Child("additionalProperties"))
      else None
    case Index(i) =>
      if i < PrefixLength(m) then Some(loc.Child("prefixItems").At(i))
      else if "items" in m then Some(loc.Child("items"))
      else None
  }

  /** A step into a value that is no object or no array leaves nothing; any other stays within the member's mask. */
  lemma StepWithin(
      c: Catalog, max: nat, active: set<Key>, loc: Location, m: Keywords, path: seq<Step>, depth: nat, mask: set<Kind>)
    requires SchemaAt(c, loc) == Some(Map(m)) && loc.uri in c.documents && path != []
    requires depth < max && Key(loc, false, |path|) !in active && MaskOf(c, max, active, loc, path, depth) == Ok(mask)
    ensures (if path[0].Field? then ObjectK else ArrayK) !in OwnMask(m) ==> mask == {}
    ensures (if path[0].Field? then ObjectK else ArrayK) in OwnMask(m) && StepSchema(loc, m, path[0]).Some? ==>
      Narrows(c, max, active + {Key(loc, false, |path|)}, StepSchema(loc, m, path[0]).value, path[1..], depth + 1, mask)
  {
    hide MaskOf, RefMask, SomeMask, AllMask, SchemaAt, OwnMask;
    var inside := active + {Key(loc, false, |path|)};
    MaskEntered(c, max, active, loc, m, path, depth);
    var own := OwnAt(c, max, inside, loc, m, path, depth);
    MeetFails(c, max, inside, loc, m, path, depth, own.value);
    MeetAll(c, max, inside, loc, m, path, depth, own.value);
  }

  /** A mask that says anything is hinted as the union of its families, and of nothing else. */
  lemma MaskTypeIff(w: World, mask: set<Kind>, v: Value)
    requires IsJson(v) && mask != {}
    ensures Has(w, v, MaskType(mask)) <==> ValueMask(v) <= mask
  {
    JsonMask(v);
    if ValueMask(v) <= mask {
      MaskTypeSound(w, mask, v);
    }
    if mask != ANY && Has(w, v, MaskType(mask)) {
      var t := JoinMember(w, v, MaskTypes(mask));
      var k :| k in mask && t in KindTypes(k);
      KindHolds(w, k, t, v);
    }
  }

  lemma KindHolds(w: World, k: Kind, t: Types.Ty, v: Value)
    requires t in KindTypes(k) && Has(w, v, t)
    ensures ValueMask(v) == {k}
  {
  }

  lemma JoinMember(w: World, v: Value, ts: set<Types.Ty>) returns (t: Types.Ty)
    requires Has(w, v, Bindings.Join(ts)) && forall u :: u in ts ==> !u.Union?
    ensures t in ts && Has(w, v, t)
  {
    var flat := set t, u | t in ts && u in Bindings.Flat(t) :: u;
    assert forall u :: u in ts ==> Bindings.Flat(u) == {u};
    assert flat == ts;
    if |ts| == 1 {
      assert ts == {Bindings.Join(ts)};
      t := Bindings.Join(ts);
    } else {
      t :| t in ts && Has(w, v, t);
    }
  }

  lemma BothRead(a: Masked, b: Masked)
    requires a.Ok? && b.Ok?
    ensures Meet(a, b).Ok?
  {
  }

  lemma MaskLeft(c: Catalog, max: nat, active: set<Key>, loc: Location, path: seq<Step>, depth: nat)
    requires depth >= max || Key(loc, false, |path|) in active
    ensures MaskOf(c, max, active, loc, path, depth) == Ok(ANY)
  {
  }

  // ---- Schemas that only tell families apart ----

  /** No integers: their mask holds all numbers. */
  predicate FamilyType(t: Value) {
    match t
    case Text(name) => name != "integer"
    case Array(items) => forall t' :: t' in items ==> FamilyType(t')
    case _ => true
  }

  /** Types and their combinations, `n` levels deep; the alternatives of `oneOf` never overlap. */
  ghost predicate FamilyAt(c: Catalog, valid: Validator, loc: Location, n: nat)
    decreases n, 1
  {
    n > 0 && loc.uri in c.documents &&
    match SchemaAt(c, loc)
    case Some(Bool(_)) => true
    case Some(Map(m)) => FamilyParts(c, valid, loc, m, n) && OneAtMost(valid, loc, m)
    case _ => false
  }

  ghost predicate FamilyParts(c: Catalog, valid: Validator, loc: Location, m: Keywords, n: nat)
    requires n > 0
    decreases n, 0
  {
    && m.Keys !! {"const", "enum", "required", "properties", "additionalProperties", "items", "prefixItems"}
    && ("type" in m ==> FamilyType(m["type"]))
    && (Reference(m).Some? ==>
      var target := c.resolve(loc, Reference(m).value);
      target.Some? && FamilyAt(c, valid, target.value, n - 1))
    && (forall i: nat :: i < Branches(m, "allOf") ==> FamilyAt(c, valid, loc.Child("allOf").At(i), n - 1))
    && (forall i: nat :: i < Branches(m, "anyOf") ==> FamilyAt(c, valid, loc.Child("anyOf").At(i), n - 1))
    && (forall i: nat :: i < Branches(m, "oneOf") ==> FamilyAt(c, valid, loc.Child("oneOf").At(i), n - 1))
  }

  ghost predicate OneAtMost(valid: Validator, loc: Location, m: Keywords) {
    forall i: nat, j: nat, v :: i < j < Branches(m, "oneOf") ==>
      !(valid(loc.Child("oneOf").At(i), v) && valid(loc.Child("oneOf").At(j), v))
  }

  lemma {:induction false} FamilyMore(c: Catalog, valid: Validator, loc: Location, n: nat, k: nat)
    requires FamilyAt(c, valid, loc, n) && n <= k
    ensures FamilyAt(c, valid, loc, k)
    decreases n
  {
    hide SchemaAt, Branches, OneAtMost, Reference;
    if SchemaAt(c, loc).value.Map? {
      var m := SchemaAt(c, loc).value.entries;
      if Reference(m).Some? {
        FamilyMore(c, valid, c.resolve(loc, Reference(m).value).value, n - 1, k - 1);
      }
      forall keyword, i: nat | keyword in {"allOf", "anyOf", "oneOf"} && i < Branches(m, keyword)
        ensures FamilyAt(c, valid, loc.Child(keyword).At(i), k - 1)
      {
        FamilyMore(c, valid, loc.Child(keyword).At(i), n - 1, k - 1);
      }
      assert FamilyParts(c, valid, loc, m, k);
    }
  }

  /** A schema `n` levels deep and no less, reached by a visit through deeper ones only, with depth to spare. */
  ghost predicate FamilyReady(
      c: Catalog, valid: Validator, max: nat, active: set<Key>, loc: Location, depth: nat, n: nat) {
    && n > 0 && FamilyAt(c, valid, loc, n) && !FamilyAt(c, valid, loc, n - 1) && depth + n <= max
    && forall key :: key in active && !key.shape ==> !FamilyAt(c, valid, key.loc, n)
  }

  lemma {:induction false} FamilyRank(c: Catalog, valid: Validator, loc: Location, n: nat) returns (k: nat)
    requires FamilyAt(c, valid, loc, n)
    ensures 0 < k <= n && FamilyAt(c, valid, loc, k) && !FamilyAt(c, valid, loc, k - 1)
    decreases n
  {
    if FamilyAt(c, valid, loc, n - 1) {
      k := FamilyRank(c, valid, loc, n - 1);
    } else {
      k := n;
    }
  }

  lemma FamilyChild(
      c: Catalog, valid: Validator, max: nat, active: set<Key>, loc: Location, depth: nat, n: nat, child: Location)
      returns (k: nat)
    requires FamilyReady(c, valid, max, active, loc, depth, n) && FamilyAt(c, valid, child, n - 1)
    ensures k < n && FamilyReady(c, valid, max, active + {Key(loc, false, 0)}, child, depth + 1, k)
  {
    hide FamilyAt;
    k := FamilyRank(c, valid, child, n - 1);
    forall key | key in active + {Key(loc, false, 0)} && !key.shape
      ensures !FamilyAt(c, valid, key.loc, k)
    {
      if FamilyAt(c, valid, key.loc, k) {
        FamilyMore(c, valid, key.loc, k, n);
        FamilyMore(c, valid, key.loc, k, n - 1);
      }
    }
  }

  lemma FamilyEnters(
      c: Catalog, valid: Validator, max: nat, active: set<Key>, loc: Location, depth: nat, n: nat)
    requires FamilyReady(c, valid, max, active, loc, depth, n)
    ensures n > 0 && depth < max && FamilyAt(c, valid, loc, n) && Key(loc, false, 0) !in active
    ensures loc.uri in c.documents && SchemaAt(c, loc).Some?
    ensures SchemaAt(c, loc).value.Bool? || SchemaAt(c, loc).value.Map?
    ensures SchemaAt(c, loc).value.Map? ==>
      var m := SchemaAt(c, loc).value.entries;
      FamilyParts(c, valid, loc, m, n) && OneAtMost(valid, loc, m)
  {
    hide FamilyParts, SchemaAt, OneAtMost;
  }

  /** The mask of a location holds the family of a value exactly when the schema allows the value. */
  ghost predicate Exact(
      c: Catalog, max: nat, active: set<Key>, valid: Validator, loc: Location, depth: nat, v: Value, k: Kind) {
    var mask := MaskOf(c, max, active, loc, [], depth);
    mask.Ok? && (k in mask.value <==> valid(loc, v))
  }

  lemma {:induction false} FamilyMask(
      c: Catalog, max: nat, active: set<Key>, loc: Location, depth: nat, n: nat,
      valid: Validator, other: Validator, v: Value, k: Kind)
    requires Validates(c, valid, other) && Bare(other) && FamilyReady(c, valid, max, active, loc, depth, n)
    requires IsJson(v) && ValueMask(v) == {k}
    ensures Exact(c, max, active, valid, loc, depth, v, k)
    decreases n, 1
  {
    hide *;
    FamilyEnters(c, valid, max, active, loc, depth, n);
    if SchemaAt(c, loc).value.Bool? {
      FlagMask(c, max, active, valid, other, loc, depth, v, k);
    } else {
      var m := SchemaAt(c, loc).value.entries;
      FamilyPlaces(c, valid, loc, m, n);
      var inside := active + {Key(loc, false, 0)};
      if Reference(m).Some? {
        FamilyBranch(c, max, active, loc, depth, n, c.resolve(loc, Reference(m).value).value, valid, other, v, k);
      }
      forall keyword, i: nat | keyword in {"allOf", "anyOf", "oneOf"} && i < Branches(m, keyword)
        ensures Exact(c, max, inside, valid, loc.Child(keyword).At(i), depth + 1, v, k)
      {
        FamilyBranch(c, max, active, loc, depth, n, loc.Child(keyword).At(i), valid, other, v, k);
      }
      ReferenceExact(c, max, inside, valid, loc, m, depth, v, k);
      AllExact(c, max, inside, valid, loc, m, depth, v, k, Branches(m, "allOf"));
      SomeExact(c, max, inside, valid, loc, m, "anyOf", depth, v, k);
      SomeExact(c, max, inside, valid, loc, m, "oneOf", depth, v, k);
      MaskEntered(c, max, active, loc, m, [], depth);
      OwnIs(c, max, inside, loc, m, depth);
      MeetAll(c, max, inside, loc, m, [], depth, OwnMask(m));
      FamilyOwn(m, v, k);
      FamilyAsserts(c, valid, other, loc, m, v);
      MeetHolds(c, max, active, valid, loc, m, depth, v, k);
    }
  }

  lemma {:induction false} FamilyBranch(
      c: Catalog, max: nat, active: set<Key>, loc: Location, depth: nat, n: nat, child: Location,
      valid: Validator, other: Validator, v: Value, k: Kind)
    requires Validates(c, valid, other) && Bare(other) && FamilyReady(c, valid, max, active, loc, depth, n)
    requires IsJson(v) && ValueMask(v) == {k} && n > 0 && FamilyAt(c, valid, child, n - 1)
    ensures Exact(c, max, active + {Key(loc, false, 0)}, valid, child, depth + 1, v, k)
    decreases n, 0
  {
    hide *;
    var r := FamilyChild(c, valid, max, active, loc, depth, n, child);
    FamilyMask(c, max, active + {Key(loc, false, 0)}, child, depth + 1, r, valid, other, v, k);
  }

  lemma FamilyPlaces(c: Catalog, valid: Validator, loc: Location, m: Keywords, n: nat)
    requires n > 0 && FamilyParts(c, valid, loc, m, n)
    ensures m.Keys !! {"const", "enum", "required", "properties", "additionalProperties", "items", "prefixItems"}
    ensures "type" in m ==> FamilyType(m["type"])
    ensures Reference(m).Some? ==>
      var target := c.resolve(loc, Reference(m).value);
      target.Some? && FamilyAt(c, valid, target.value, n - 1)
    ensures forall keyword, i: nat :: keyword in {"allOf", "anyOf", "oneOf"} && i < Branches(m, keyword) ==>
      FamilyAt(c, valid, loc.Child(keyword).At(i), n - 1)
  {
    hide FamilyAt, Reference, Branches, FamilyType;
  }

  lemma FlagMask(
      c: Catalog, max: nat, active: set<Key>, valid: Validator, other: Validator, loc: Location, depth: nat,
      v: Value, k: Kind)
    requires Validates(c, valid, other) && Bare(other) && loc.uri in c.documents
    requires SchemaAt(c, loc).Some? && SchemaAt(c, loc).value.Bool?
    requires depth < max && Key(loc, false, 0) !in active
    ensures Exact(c, max, active, valid, loc, depth, v, k)
  {
    hide SchemaAt;
    assert Asserts(c, valid, loc, v) <==> valid(loc, v);
    var flag := SchemaAt(c, loc).value.flag;
    assert MaskAt(c, max, active + {Key(loc, false, 0)}, loc, [], depth) == Ok(if flag then ANY else {});
    assert k in ANY;
  }

  lemma ReferenceExact(
      c: Catalog, max: nat, inside: set<Key>, valid: Validator, loc: Location, m: Keywords, depth: nat,
      v: Value, k: Kind)
    requires depth < max
    requires Reference(m).Some? ==>
      var target := c.resolve(loc, Reference(m).value);
      target.Some? && Exact(c, max, inside, valid, target.value, depth + 1, v, k)
    ensures
      var mask := RefMask(c, max, inside, loc, m, [], depth);
      mask.Ok? && (k in mask.value <==> ReferenceHolds(c, valid, loc, m, v))
  {
    hide MaskOf;
  }

  predicate ReferenceHolds(c: Catalog, valid: Validator, loc: Location, m: Keywords, v: Value) {
    Reference(m).Some? ==>
      var target := c.resolve(loc, Reference(m).value);
      target.Some? && valid(target.value, v)
  }

  lemma {:induction false} AllExact(
      c: Catalog, max: nat, inside: set<Key>, valid: Validator, loc: Location, m: Keywords, depth: nat,
      v: Value, k: Kind, n: nat)
    requires depth < max
    requires forall i: nat :: i < n ==> Exact(c, max, inside, valid, loc.Child("allOf").At(i), depth + 1, v, k)
    ensures
      var mask := AllMask(c, max, inside, loc, m, [], depth, n);
      mask.Ok? && (k in mask.value <==> forall i: nat :: i < n ==> valid(loc.Child("allOf").At(i), v))
  {
    hide MaskOf;
    if n > 0 {
      AllExact(c, max, inside, valid, loc, m, depth, v, k, n - 1);
      assert Exact(c, max, inside, valid, loc.Child("allOf").At(n - 1), depth + 1, v, k);
    }
  }

  lemma {:induction false} AnyExact(
      c: Catalog, max: nat, inside: set<Key>, valid: Validator, loc: Location, m: Keywords, keyword: string,
      depth: nat, v: Value, k: Kind, n: nat)
    requires depth < max
    requires forall i: nat :: i < n ==> Exact(c, max, inside, valid, loc.Child(keyword).At(i), depth + 1, v, k)
    ensures
      var mask := AnyMask(c, max, inside, loc, m, keyword, [], depth, n);
      mask.Ok? && (k in mask.value <==> exists i: nat :: i < n && valid(loc.Child(keyword).At(i), v))
  {
    hide MaskOf;
    if n > 0 {
      AnyExact(c, max, inside, valid, loc, m, keyword, depth, v, k, n - 1);
      assert Exact(c, max, inside, valid, loc.Child(keyword).At(n - 1), depth + 1, v, k);
    }
  }

  ghost predicate SomeHolds(valid: Validator, loc: Location, m: Keywords, keyword: string, v: Value) {
    keyword in m && m[keyword].Array? ==>
      exists i: nat :: i < Branches(m, keyword) && valid(loc.Child(keyword).At(i), v)
  }

  lemma SomeExact(
      c: Catalog, max: nat, inside: set<Key>, valid: Validator, loc: Location, m: Keywords, keyword: string,
      depth: nat, v: Value, k: Kind)
    requires depth < max
    requires forall i: nat :: i < Branches(m, keyword) ==>
      Exact(c, max, inside, valid, loc.Child(keyword).At(i), depth + 1, v, k)
    ensures
      var mask := SomeMask(c, max, inside, loc, m, keyword, [], depth);
      mask.Ok? && (k in mask.value <==> SomeHolds(valid, loc, m, keyword, v))
  {
    hide AnyMask, Branches, Exact;
    AnyExact(c, max, inside, valid, loc, m, keyword, depth, v, k, Branches(m, keyword));
  }

  lemma OwnIs(c: Catalog, max: nat, inside: set<Key>, loc: Location, m: Keywords, depth: nat)
    requires depth < max
    ensures OwnAt(c, max, inside, loc, m, [], depth) == Ok(OwnMask(m))
  {
    hide OwnMask;
  }

  lemma FamilyOwn(m: Keywords, v: Value, k: Kind)
    requires "const" !in m && "enum" !in m && ("type" in m ==> FamilyType(m["type"]))
    requires IsJson(v) && ValueMask(v) == {k}
    ensures k in OwnMask(m) <==> ("type" in m ==> TypeAllows(m["type"], v))
  {
    if "type" in m {
      FamilyTypeExact(m["type"], v, k);
    }
  }

  lemma {:induction false} FamilyTypeExact(t: Value, v: Value, k: Kind)
    requires FamilyType(t) && IsJson(v) && ValueMask(v) == {k}
    ensures k in TypeMask(t) <==> TypeAllows(t, v)
  {
    if t.Array? {
      forall t' | t' in t.items
        ensures k in TypeMask(t') <==> TypeAllows(t', v)
      {
        FamilyTypeExact(t', v, k);
      }
    }
  }

  lemma FamilyAsserts(c: Catalog, valid: Validator, other: Validator, loc: Location, m: Keywords, v: Value)
    requires Validates(c, valid, other) && Bare(other) && SchemaAt(c, loc) == Some(Map(m))
    requires m.Keys !! {"const", "enum", "required", "properties", "additionalProperties", "items", "prefixItems"}
    requires OneAtMost(valid, loc, m)
    ensures valid(loc, v) <==>
      && ("type" in m ==> TypeAllows(m["type"], v)) && ReferenceHolds(c, valid, loc, m, v)
      && (forall i: nat :: i < Branches(m, "allOf") ==> valid(loc.Child("allOf").At(i), v))
      && SomeHolds(valid, loc, m, "anyOf", v) && SomeHolds(valid, loc, m, "oneOf", v)
  {
    hide SchemaAt, TypeAllows, Branches;
    assert Asserts(c, valid, loc, v) <==> valid(loc, v);
    assert "const" !in m && "enum" !in m && "required" !in m && "properties" !in m;
    assert "additionalProperties" !in m && "items" !in m && "prefixItems" !in m;
  }

  lemma MeetHolds(
      c: Catalog, max: nat, active: set<Key>, valid: Validator, loc: Location, m: Keywords, depth: nat,
      v: Value, k: Kind)
    requires depth < max
    requires
      var inside := active + {Key(loc, false, 0)};
      var target := RefMask(c, max, inside, loc, m, [], depth);
      var all := AllMask(c, max, inside, loc, m, [], depth, Branches(m, "allOf"));
      var any := SomeMask(c, max, inside, loc, m, "anyOf", [], depth);
      var one := SomeMask(c, max, inside, loc, m, "oneOf", [], depth);
      && target.Ok? && all.Ok? && any.Ok? && one.Ok?
      && MaskOf(c, max, active, loc, [], depth) == Ok(OwnMask(m) * target.value * all.value * any.value * one.value)
      && (valid(loc, v) <==>
        k in OwnMask(m) && k in target.value && k in all.value && k in any.value && k in one.value)
    ensures Exact(c, max, active, valid, loc, depth, v, k)
  {
    hide RefMask, AllMask, SomeMask, MaskOf, OwnMask;
  }

  /** A family schema has no part that the shape analysis cannot read. */
  lemma {:induction false} FamilyRead(
      c: Catalog, valid: Validator, max: nat, active: set<Key>, loc: Location, depth: nat, n: nat)
    requires FamilyAt(c, valid, loc, n)
    ensures !ShapeFails(c, max, active, loc, [], depth)
    decreases n
  {
    hide SchemaAt, Branches, OneAtMost, MemberFails;
    if !Cut(max, active, loc, [], depth) && Direct(c, loc).Some? {
      var m := Direct(c, loc).value;
      FailsAt(c, max, active, loc, m, [], depth);
      FailsInside(c, max, Entered(active, loc, []), loc, m, [], depth);
      if Reference(m).Some? {
        FamilyRead(
          c, valid, max, Entered(active, loc, []), c.resolve(loc, Reference(m).value).value, depth + 1, n - 1);
      } else {
        NoMembers(c, max, Entered(active, loc, []), loc, m, depth);
      }
    }
  }

  lemma NoMembers(c: Catalog, max: nat, inside: set<Key>, loc: Location, m: Keywords, depth: nat)
    requires depth < max && "items" !in m && "properties" !in m
    ensures !MemberFails(c, max, inside, loc, m, depth)
  {
  }

  /**
   * A family schema without a structural type, but with some instance, is hinted as exactly
   * its instances.
   */
  lemma FamilyHint(walker: Walker, loc: Location, n: nat, u: Value, r: Result<Types.Port, HintError>)
    requires walker.HintIs(loc, [], r) && Validates(walker.catalog, walker.valid, walker.other) && Bare(walker.other)
    requires FamilyAt(walker.catalog, walker.valid, loc, n) && n <= walker.maxDepth
    requires !Shaped(walker.catalog, walker.maxDepth, {}, loc, [], 0) && IsJson(u) && walker.valid(loc, u)
    ensures r.Ok? && r.value.required
    ensures forall v :: IsJson(v) ==> (Has(walker.world, v, r.value.ty) <==> walker.valid(loc, v))
  {
    hide *;
    var c, max := walker.catalog, walker.maxDepth;
    FamilyRead(c, walker.valid, max, {}, loc, 0, n);
    var rank := FamilyRank(c, walker.valid, loc, n);
    FamilyStart(c, walker.valid, max, loc, rank);
    var k := KindOf(u);
    FamilyMask(c, max, {}, loc, 0, rank, walker.valid, walker.other, u, k);
    ExactIs(c, max, {}, walker.valid, loc, 0, u, k);
    UnshapedIs(walker, loc, r);
    forall v | IsJson(v)
      ensures Has(walker.world, v, r.value.ty) <==> walker.valid(loc, v)
    {
      var j := KindOf(v);
      FamilyMask(c, max, {}, loc, 0, rank, walker.valid, walker.other, v, j);
      ExactIs(c, max, {}, walker.valid, loc, 0, v, j);
      MaskTypeIff(walker.world, MaskOf(c, max, {}, loc, [], 0).value, v);
    }
  }

  lemma KindOf(v: Value) returns (k: Kind)
    requires IsJson(v)
    ensures ValueMask(v) == {k}
  {
    k :| k in ValueMask(v);
  }

  lemma FamilyStart(c: Catalog, valid: Validator, max: nat, loc: Location, n: nat)
    requires n > 0 && FamilyAt(c, valid, loc, n) && !FamilyAt(c, valid, loc, n - 1) && n <= max
    ensures FamilyReady(c, valid, max, {}, loc, 0, n)
  {
    hide FamilyAt;
  }

  lemma ExactIs(
      c: Catalog, max: nat, active: set<Key>, valid: Validator, loc: Location, depth: nat, v: Value, k: Kind)
    requires Exact(c, max, active, valid, loc, depth, v, k)
    ensures MaskOf(c, max, active, loc, [], depth).Ok?
    ensures k in MaskOf(c, max, active, loc, [], depth).value <==> valid(loc, v)
  {
    hide MaskOf;
  }

  lemma UnshapedIs(walker: Walker, loc: Location, r: Result<Types.Port, HintError>)
    requires walker.HintIs(loc, [], r) && !Shaped(walker.catalog, walker.maxDepth, {}, loc, [], 0)
    requires !ShapeFails(walker.catalog, walker.maxDepth, {}, loc, [], 0)
    requires MaskOf(walker.catalog, walker.maxDepth, {}, loc, [], 0).Ok?
    ensures r.Ok? && r.value.required
    ensures r.value.ty == MaskType(MaskOf(walker.catalog, walker.maxDepth, {}, loc, [], 0).value)
  {
    hide MaskOf, ShapeFails, Shaped, Needed, Meets, MaskType;
  }
}
