// Base URIs and resource owners of schema locations (crates/htlk-analyzer/src/schema_resources.rs).

module SchemaResources {
  import opened Wrappers

  type Pointer = seq<string>

  /** A schema location and the identity keywords found there. */
  datatype Location = Location(
    pointer: Pointer, id: Option<string>, anchor: Option<string>, dynamicAnchor: Option<string>)

  /** Resolves a `$id` against the base it inherits; nothing when that is not an absolute URI. */
  type Resolver = (string, string) -> Option<string>

  // ---- The order of locations ----

  predicate TokenLess(a: string, b: string) {
    b != "" && (a == "" || a[0] < b[0] || (a[0] == b[0] && TokenLess(a[1..], b[1..])))
  }

  predicate Less(a: Pointer, b: Pointer) {
    b != [] && (a == [] || (if a[0] == b[0] then Less(a[1..], b[1..]) else TokenLess(a[0], b[0])))
  }

  /** Locations in token order, starting with the document itself. */
  ghost predicate Sorted(locs: seq<Location>) {
    && locs != [] && locs[0].pointer == []
    && forall i, j :: 0 <= i < j < |locs| ==> Less(locs[i].pointer, locs[j].pointer)
  }

  lemma {:induction false} TokenLessOneWay(a: string, b: string)
    requires TokenLess(a, b)
    ensures !TokenLess(b, a)
  {
    if a != "" && a[0] == b[0] {
      TokenLessOneWay(a[1..], b[1..]);
    }
  }

  lemma {:induction false} LessOneWay(a: Pointer, b: Pointer)
    requires Less(a, b)
    ensures !Less(b, a) && a != b
  {
    if a != [] {
      if a[0] == b[0] {
        LessOneWay(a[1..], b[1..]);
      } else {
        TokenLessOneWay(a[0], b[0]);
      }
    }
  }

  /** The descendants of a pointer stand together. */
  lemma {:induction false} DescendantsTogether(a: Pointer, b: Pointer, c: Pointer)
    requires Less(a, b) && Less(b, c) && a <= c
    ensures a <= b
  {
    if a != [] {
      if a[0] == b[0] {
        DescendantsTogether(a[1..], b[1..], c[1..]);
      } else {
        TokenLessOneWay(a[0], b[0]);
      }
    }
  }

  lemma {:induction false} PrefixLess(a: Pointer, b: Pointer)
    requires a <= b && a != b
    ensures Less(a, b)
  {
    if a != [] {
      PrefixLess(a[1..], b[1..]);
    }
  }

  // ---- What a base and an owner are ----

  /** The position of a location. */
  function Find(locs: seq<Location>, p: Pointer): (at: Option<nat>)
    ensures at.Some? ==> at.value < |locs| && locs[at.value].pointer == p
    ensures at.None? ==> forall i :: 0 <= i < |locs| ==> locs[i].pointer != p
  {
    if locs == [] then None
    else if locs[|locs| - 1].pointer == p then Some(|locs| - 1)
    else Find(locs[..|locs| - 1], p)
  }

  lemma FindAt(locs: seq<Location>, i: nat)
    requires Sorted(locs) && i < |locs|
    ensures Find(locs, locs[i].pointer) == Some(i)
  {
    var at := Find(locs, locs[i].pointer).value;
    if at < i {
      LessOneWay(locs[at].pointer, locs[i].pointer);
    } else if i < at {
      LessOneWay(locs[i].pointer, locs[at].pointer);
    }
  }

  function IdAt(locs: seq<Location>, p: Pointer): Option<string> {
    var at := Find(locs, p);
    if at.Some? then locs[at.value].id else None
  }

  /** Every `$id` on the way to a pointer is resolved against the base before it. */
  function BaseAt(locs: seq<Location>, resolve: Resolver, retrieval: string, p: Pointer): Option<string>
    decreases |p|
  {
    var inherited := if p == [] then Some(retrieval) else BaseAt(locs, resolve, retrieval, p[..|p| - 1]);
    var id := IdAt(locs, p);
    if inherited.None? || id.None? then inherited else resolve(inherited.value, id.value)
  }

  /** The deepest location on the way to a pointer that declares `$id`, or the document. */
  function OwnerAt(locs: seq<Location>, p: Pointer): nat
    decreases |p|
  {
    if IdAt(locs, p).Some? then Find(locs, p).value
    else if p == [] then 0
    else OwnerAt(locs, p[..|p| - 1])
  }

  /** Nothing is declared between a pointer and a prefix of it. */
  lemma {:induction false} SkipUndeclared(
      locs: seq<Location>, resolve: Resolver, retrieval: string, p: Pointer, q: Pointer)
    requires p <= q && forall n: nat :: |p| < n <= |q| ==> Find(locs, q[..n]).None?
    ensures BaseAt(locs, resolve, retrieval, q) == BaseAt(locs, resolve, retrieval, p)
    ensures OwnerAt(locs, q) == OwnerAt(locs, p)
    decreases |q|
  {
    if p != q {
      var up := q[..|q| - 1];
      assert q[..|q|] == q;
      forall n: nat | |p| < n <= |up|
        ensures Find(locs, up[..n]).None?
      {
        assert up[..n] == q[..n];
      }
      SkipUndeclared(locs, resolve, retrieval, p, up);
    }
  }

  // ---- The ancestor stack ----

  /** Positions in order, each location a prefix of the next. */
  ghost predicate Chain(locs: seq<Location>, stack: seq<nat>) {
    && (forall a :: 0 <= a < |stack| ==> stack[a] < |locs|)
    && forall a, b :: 0 <= a < b < |stack| ==> locs[stack[a]].pointer <= locs[stack[b]].pointer
  }

  /** Exactly the earlier locations on the way to `p`. */
  ghost predicate Holds(locs: seq<Location>, stack: seq<nat>, before: nat, p: Pointer)
    requires before <= |locs|
  {
    Chain(locs, stack) && forall j :: j in stack <==> 0 <= j < before && locs[j].pointer <= p
  }

  /** What the previous location left on the stack is enough for the next one. */
  lemma Carried(locs: seq<Location>, stack: seq<nat>, i: nat, j: nat)
    requires Sorted(locs) && 0 < i < |locs| && Holds(locs, stack, i, locs[i - 1].pointer)
    requires j < i && locs[j].pointer <= locs[i].pointer
    ensures j in stack
  {
    if j < i - 1 {
      DescendantsTogether(locs[j].pointer, locs[i - 1].pointer, locs[i].pointer);
    }
  }

  /** While popping: nothing wanted is lost. */
  ghost predicate Popping(locs: seq<Location>, stack: seq<nat>, i: nat)
    requires i < |locs|
  {
    && Chain(locs, stack) && (forall j :: j in stack ==> j < i)
    && forall j: nat :: j < i && locs[j].pointer <= locs[i].pointer ==> j in stack
  }

  lemma PopStart(locs: seq<Location>, stack: seq<nat>, i: nat)
    requires Sorted(locs) && i < |locs|
    requires if i == 0 then stack == [] else Holds(locs, stack, i, locs[i - 1].pointer)
    ensures Popping(locs, stack, i)
  {
    forall j: nat | j < i && locs[j].pointer <= locs[i].pointer
      ensures j in stack
    {
      Carried(locs, stack, i, j);
    }
  }

  lemma PopStep(locs: seq<Location>, stack: seq<nat>, i: nat)
    requires i < |locs| && Popping(locs, stack, i) && stack != []
    ensures stack[|stack| - 1] < |locs|
    ensures !(locs[stack[|stack| - 1]].pointer <= locs[i].pointer) ==> Popping(locs, stack[..|stack| - 1], i)
  {
    var front, top := stack[..|stack| - 1], stack[|stack| - 1];
    assert stack == front + [top];
    assert forall j :: j in stack <==> j in front || j == top;
  }

  lemma PopEnd(locs: seq<Location>, stack: seq<nat>, i: nat)
    requires i < |locs| && Popping(locs, stack, i)
    requires stack != [] ==> stack[|stack| - 1] < |locs| && locs[stack[|stack| - 1]].pointer <= locs[i].pointer
    ensures Holds(locs, stack, i, locs[i].pointer)
  {
  }

  /** Pops until the top is an ancestor. */
  method PopToAncestor(locs: seq<Location>, before: seq<nat>, i: nat) returns (ancestry: seq<nat>)
    requires Sorted(locs) && i < |locs|
    requires if i == 0 then before == [] else Holds(locs, before, i, locs[i - 1].pointer)
    ensures Holds(locs, ancestry, i, locs[i].pointer)
  {
    ancestry := before;
    PopStart(locs, ancestry, i);
    while ancestry != []
      invariant Popping(locs, ancestry, i)
      decreases |ancestry|
    {
      PopStep(locs, ancestry, i);
      if locs[ancestry[|ancestry| - 1]].pointer <= locs[i].pointer {
        break;
      }
      ancestry := ancestry[..|ancestry| - 1];
    }
    PopEnd(locs, ancestry, i);
  }

  /** The top of the stack is the longest proper prefix among all locations. */
  lemma TopIsParent(locs: seq<Location>, ancestry: seq<nat>, i: nat)
    requires Sorted(locs) && i < |locs| && Holds(locs, ancestry, i, locs[i].pointer)
    ensures ancestry == [] <==> i == 0
    ensures ancestry != [] ==> IsParent(locs, ancestry[|ancestry| - 1], i)
  {
    assert i > 0 ==> 0 in ancestry;
    if ancestry != [] {
      var top := ancestry[|ancestry| - 1];
      assert top in ancestry;
      LessOneWay(locs[top].pointer, locs[i].pointer);
      forall j | 0 <= j < |locs| && locs[j].pointer <= locs[i].pointer && locs[j].pointer != locs[i].pointer
        ensures |locs[j].pointer| <= |locs[top].pointer|
      {
        PrefixLess(locs[j].pointer, locs[i].pointer);
        if i < j {
          LessOneWay(locs[i].pointer, locs[j].pointer);
        }
        assert j in ancestry;
        var a :| 0 <= a < |ancestry| && ancestry[a] == j;
      }
    }
  }

  ghost predicate IsParent(locs: seq<Location>, p: nat, i: nat) {
    && p < |locs| && i < |locs| && locs[p].pointer <= locs[i].pointer && locs[p].pointer != locs[i].pointer
    && forall j :: 0 <= j < |locs| && locs[j].pointer <= locs[i].pointer && locs[j].pointer != locs[i].pointer ==>
      |locs[j].pointer| <= |locs[p].pointer|
  }

  /** A location inherits from its parent. */
  lemma Inherits(locs: seq<Location>, resolve: Resolver, retrieval: string, p: nat, i: nat)
    requires IsParent(locs, p, i)
    ensures
      var above := locs[i].pointer[..|locs[i].pointer| - 1];
      && BaseAt(locs, resolve, retrieval, above) == BaseAt(locs, resolve, retrieval, locs[p].pointer)
      && OwnerAt(locs, above) == OwnerAt(locs, locs[p].pointer)
  {
    var q := locs[i].pointer;
    var above := q[..|q| - 1];
    forall n: nat | |locs[p].pointer| < n <= |above|
      ensures Find(locs, above[..n]).None?
    {
      assert above[..n] == q[..n];
    }
    SkipUndeclared(locs, resolve, retrieval, locs[p].pointer, above);
  }

  lemma PushHolds(locs: seq<Location>, ancestry: seq<nat>, i: nat)
    requires i < |locs| && Holds(locs, ancestry, i, locs[i].pointer)
    ensures Holds(locs, ancestry + [i], i + 1, locs[i].pointer)
  {
  }

  // ---- The index ----

  datatype Error = InvalidId | ResourceConflict | AnchorConflict

  type Anchors = map<(nat, string), (nat, bool)>

  /** Bases by location, resource roots by URI, and anchors by resource root and name. */
  datatype Index = Index(bases: seq<string>, resources: map<string, nat>, anchors: Anchors)

  ghost predicate Based(
      locs: seq<Location>, resolve: Resolver, retrieval: string, bases: seq<string>, owners: seq<nat>, n: nat)
  {
    && |bases| == |owners| == n <= |locs|
    && forall j :: 0 <= j < n ==>
      BaseAt(locs, resolve, retrieval, locs[j].pointer) == Some(bases[j]) && OwnerAt(locs, locs[j].pointer) == owners[j]
  }

  /** A location that names a resource, and the name. */
  ghost predicate Names(locs: seq<Location>, resolve: Resolver, retrieval: string, j: nat, uri: string)
    requires j < |locs|
  {
    (j == 0 && uri == retrieval)
      || (locs[j].id.Some? && BaseAt(locs, resolve, retrieval, locs[j].pointer) == Some(uri))
  }

  ghost predicate ResourcesOf(
      locs: seq<Location>, resolve: Resolver, retrieval: string, resources: map<string, nat>, n: nat)
    requires 0 < |locs| && n <= |locs|
  {
    && (forall j, uri :: 0 <= j < n && Names(locs, resolve, retrieval, j, uri) ==>
      uri in resources && resources[uri] == j)
    && forall uri :: uri in resources ==> NamedBy(locs, resolve, retrieval, resources[uri], uri, n)
  }

  ghost predicate NamedBy(locs: seq<Location>, resolve: Resolver, retrieval: string, j: nat, uri: string, n: nat)
    requires 0 < |locs| && n <= |locs|
  {
    (j == 0 && uri == retrieval) || (j < n && Names(locs, resolve, retrieval, j, uri))
  }

  predicate Anchored(l: Location, name: string) {
    l.anchor == Some(name) || l.dynamicAnchor == Some(name)
  }

  ghost predicate AnchorsOf(locs: seq<Location>, anchors: Anchors, n: nat)
    requires n <= |locs|
  {
    && (forall j, name :: 0 <= j < n && Anchored(locs[j], name) ==> Recorded(locs, anchors, j, name))
    && forall key :: key in anchors ==> AnchoredAt(locs, anchors[key].0, key, n)
  }

  /** The entry of one anchor: where it is, and whether it is dynamic there. */
  ghost predicate Recorded(locs: seq<Location>, anchors: Anchors, j: nat, name: string)
    requires j < |locs|
  {
    var key := (OwnerAt(locs, locs[j].pointer), name);
    key in anchors && anchors[key] == (j, locs[j].dynamicAnchor == Some(name))
  }

  ghost predicate AnchoredAt(locs: seq<Location>, j: nat, key: (nat, string), n: nat)
    requires n <= |locs|
  {
    j < n && Anchored(locs[j], key.1) && OwnerAt(locs, locs[j].pointer) == key.0
  }

  /** Every `$id` resolves, no two locations claim one URI, and no two claim one anchor of one resource. */
  ghost predicate Consistent(locs: seq<Location>, resolve: Resolver, retrieval: string) {
    AllResolve(locs, resolve, retrieval) && !ResourceClash(locs, resolve, retrieval) && !AnchorClash(locs)
  }

  ghost predicate AllResolve(locs: seq<Location>, resolve: Resolver, retrieval: string) {
    forall j :: 0 <= j < |locs| ==> BaseAt(locs, resolve, retrieval, locs[j].pointer).Some?
  }

  ghost predicate ResourceClash(locs: seq<Location>, resolve: Resolver, retrieval: string) {
    exists i, j, uri :: 0 <= i < |locs| && 0 <= j < |locs| && i != j
      && Names(locs, resolve, retrieval, i, uri) && Names(locs, resolve, retrieval, j, uri)
  }

  ghost predicate AnchorClash(locs: seq<Location>) {
    exists i, j, name ::
      0 <= i < |locs| && 0 <= j < |locs| && i != j && Anchored(locs[i], name) && Anchored(locs[j], name)
      && OwnerAt(locs, locs[i].pointer) == OwnerAt(locs, locs[j].pointer)
  }

  /** The base of one location from the base of its parent. */
  lemma BaseStep(
      locs: seq<Location>, resolve: Resolver, retrieval: string, ancestry: seq<nat>, bases: seq<string>,
      owners: seq<nat>, i: nat)
    requires Sorted(locs) && i < |locs| && Holds(locs, ancestry, i, locs[i].pointer)
    requires Based(locs, resolve, retrieval, bases, owners, i)
    ensures ancestry == [] ==> i == 0
    ensures ancestry != [] ==> ancestry[|ancestry| - 1] < i
    ensures
      var inherited := if ancestry == [] then retrieval else bases[ancestry[|ancestry| - 1]];
      BaseAt(locs, resolve, retrieval, locs[i].pointer)
        == if locs[i].id.Some? then resolve(inherited, locs[i].id.value) else Some(inherited)
    ensures
      OwnerAt(locs, locs[i].pointer) == if locs[i].id.Some? then i
        else if ancestry == [] then 0 else owners[ancestry[|ancestry| - 1]]
  {
    TopIsParent(locs, ancestry, i);
    FindAt(locs, i);
    assert IdAt(locs, locs[i].pointer) == locs[i].id;
    if ancestry != [] {
      var top := ancestry[|ancestry| - 1];
      assert top in ancestry && top < i;
      Inherits(locs, resolve, retrieval, top, i);
      hide Sorted, Holds, IsParent, Less;
    }
  }

  lemma BasedMore(
      locs: seq<Location>, resolve: Resolver, retrieval: string, bases: seq<string>, owners: seq<nat>, i: nat,
      base: string, owner: nat)
    requires i < |locs| && Based(locs, resolve, retrieval, bases, owners, i)
    requires BaseAt(locs, resolve, retrieval, locs[i].pointer) == Some(base) && OwnerAt(locs, locs[i].pointer) == owner
    ensures Based(locs, resolve, retrieval, bases + [base], owners + [owner], i + 1)
  {
  }

  lemma NoBase(locs: seq<Location>, resolve: Resolver, retrieval: string, i: nat)
    requires i < |locs| && BaseAt(locs, resolve, retrieval, locs[i].pointer).None?
    ensures !Consistent(locs, resolve, retrieval)
  {
  }

  /** The resource a location declares, if it can. */
  method AddResource(
      locs: seq<Location>, resolve: Resolver, retrieval: string, before: map<string, nat>, i: nat, base: string)
    returns (resources: Option<map<string, nat>>)
    requires Sorted(locs) && i < |locs| && BaseAt(locs, resolve, retrieval, locs[i].pointer) == Some(base)
    requires ResourcesOf(locs, resolve, retrieval, before, i) && retrieval in before && before[retrieval] == 0
    ensures resources.Some? ==> ResourcesOf(locs, resolve, retrieval, resources.value, i + 1)
    ensures resources.Some? ==> retrieval in resources.value && resources.value[retrieval] == 0
    ensures resources.None? ==> !Consistent(locs, resolve, retrieval)
  {
    hide *;
    if locs[i].id.None? {
      NamesNothing(locs, resolve, retrieval, before, i);
      return Some(before);
    }
    if base in before {
      if before[base] != i {
        ClaimedTwice(locs, resolve, retrieval, before, i, base);
        return None;
      }
      ClaimAdds(locs, resolve, retrieval, before, i, base);
      return Some(before);
    }
    ClaimAdds(locs, resolve, retrieval, before, i, base);
    return Some(before[base := i]);
  }

  lemma NamesNothing(locs: seq<Location>, resolve: Resolver, retrieval: string, before: map<string, nat>, i: nat)
    requires i < |locs| && locs[i].id.None?
    requires ResourcesOf(locs, resolve, retrieval, before, i) && retrieval in before && before[retrieval] == 0
    ensures ResourcesOf(locs, resolve, retrieval, before, i + 1)
  {
    hide BaseAt;
    assert forall uri :: Names(locs, resolve, retrieval, i, uri) ==> i == 0 && uri == retrieval;
  }

  lemma ClaimedTwice(
      locs: seq<Location>, resolve: Resolver, retrieval: string, before: map<string, nat>, i: nat, base: string)
    requires i < |locs| && locs[i].id.Some? && BaseAt(locs, resolve, retrieval, locs[i].pointer) == Some(base)
    requires ResourcesOf(locs, resolve, retrieval, before, i) && base in before && before[base] != i
    ensures !Consistent(locs, resolve, retrieval)
  {
    hide BaseAt;
    assert Names(locs, resolve, retrieval, i, base);
    assert NamedBy(locs, resolve, retrieval, before[base], base, i);
    assert Names(locs, resolve, retrieval, before[base], base);
  }

  lemma ClaimAdds(
      locs: seq<Location>, resolve: Resolver, retrieval: string, before: map<string, nat>, i: nat, base: string)
    requires i < |locs| && locs[i].id.Some? && BaseAt(locs, resolve, retrieval, locs[i].pointer) == Some(base)
    requires ResourcesOf(locs, resolve, retrieval, before, i) && retrieval in before && before[retrieval] == 0
    requires base in before ==> before[base] == i
    ensures ResourcesOf(locs, resolve, retrieval, before[base := i], i + 1)
    ensures base in before ==> before[base := i] == before
    ensures base !in before ==> retrieval != base
  {
    hide BaseAt;
    assert Names(locs, resolve, retrieval, i, base);
  }

  /** Records one anchor keyword of a location. */
  function AddAnchor(anchors: Anchors, owner: nat, i: nat, name: Option<string>, dynamic: bool): Option<Anchors> {
    if name.None? then Some(anchors) else
      var key := (owner, name.value);
      var entry := if key in anchors then anchors[key] else (i, false);
      if entry.0 != i then None else Some(anchors[key := (i, entry.1 || dynamic)])
  }

  /** Records both anchor keywords of a location. */
  method AddAnchors(locs: seq<Location>, before: Anchors, owner: nat, i: nat) returns (anchors: Option<Anchors>)
    requires i < |locs| && AnchorsOf(locs, before, i) && OwnerAt(locs, locs[i].pointer) == owner
    ensures anchors.Some? ==> AnchorsOf(locs, anchors.value, i + 1)
    ensures anchors.None? ==> AnchorClash(locs)
  {
    ghost var l := locs[i];
    var plain := AddAnchor(before, owner, i, locs[i].anchor, false);
    if plain.None? {
      Clash(locs, before, owner, i, l.anchor.value);
      return None;
    }
    anchors := AddAnchor(plain.value, owner, i, locs[i].dynamicAnchor, true);
    if anchors.None? {
      Clash(locs, before, owner, i, l.dynamicAnchor.value);
      return;
    }
    AnchorsMore(locs, before, plain.value, anchors.value, owner, i);
  }

  lemma Clash(locs: seq<Location>, before: Anchors, owner: nat, i: nat, name: string)
    requires i < |locs| && AnchorsOf(locs, before, i) && OwnerAt(locs, locs[i].pointer) == owner
    requires Anchored(locs[i], name) && (owner, name) in before
    ensures AnchorClash(locs)
  {
  }

  lemma AnchorsMore(locs: seq<Location>, before: Anchors, mid: Anchors, now: Anchors, owner: nat, i: nat)
    requires i < |locs| && AnchorsOf(locs, before, i) && OwnerAt(locs, locs[i].pointer) == owner
    requires AddAnchor(before, owner, i, locs[i].anchor, false) == Some(mid)
    requires AddAnchor(mid, owner, i, locs[i].dynamicAnchor, true) == Some(now)
    ensures AnchorsOf(locs, now, i + 1)
  {
    forall key | key in before
      ensures before[key].0 < i && AnchoredAt(locs, before[key].0, key, i) && key in now && now[key] == before[key]
    {
      assert AnchoredAt(locs, before[key].0, key, i);
    }
    forall j, name | 0 <= j < i && Anchored(locs[j], name)
      ensures Recorded(locs, now, j, name)
    {
      assert Recorded(locs, before, j, name);
    }
    forall name | Anchored(locs[i], name)
      ensures Recorded(locs, now, i, name)
    {
      assert (owner, name) !in before;
    }
    forall key | key in now
      ensures AnchoredAt(locs, now[key].0, key, i + 1)
    {
      if key in before {
        assert AnchoredAt(locs, before[key].0, key, i);
      }
    }
  }

  /** Indexes the locations of a document by base, resource and anchor. */
  method New(
      locs: seq<Location>, resolve: Resolver, retrieval: string)
      returns (r: Result<Index, Error>, ghost owners: seq<nat>)
    requires Sorted(locs)
    ensures r.Ok? <==> Consistent(locs, resolve, retrieval)
    ensures r.Ok? ==> Based(locs, resolve, retrieval, r.value.bases, owners, |locs|)
    ensures r.Ok? ==> ResourcesOf(locs, resolve, retrieval, r.value.resources, |locs|)
    ensures r.Ok? ==> AnchorsOf(locs, r.value.anchors, |locs|)
  {
    hide *;
    var bases: seq<string>, found: seq<nat>, ancestry: seq<nat> := [], [], [];
    var resources: map<string, nat>, anchors: Anchors := map[retrieval := 0], map[];
    owners := [];
    StartIndex(locs, resolve, retrieval);
    for i := 0 to |locs|
      invariant Based(locs, resolve, retrieval, bases, found, i)
      invariant ResourcesOf(locs, resolve, retrieval, resources, i) && retrieval in resources
      invariant resources[retrieval] == 0
      invariant AnchorsOf(locs, anchors, i)
      invariant if i == 0 then ancestry == [] else Holds(locs, ancestry, i, locs[i - 1].pointer)
    {
      ancestry := PopToAncestor(locs, ancestry, i);
      BaseStep(locs, resolve, retrieval, ancestry, bases, found, i);
      BasedSizes(locs, resolve, retrieval, bases, found, i);
      var inherited := if ancestry == [] then retrieval else bases[ancestry[|ancestry| - 1]];
      var owner := if locs[i].id.Some? then i else if ancestry == [] then 0 else found[ancestry[|ancestry| - 1]];
      var base := if locs[i].id.Some? then resolve(inherited, locs[i].id.value) else Some(inherited);
      if base.None? {
        NoBase(locs, resolve, retrieval, i);
        return Err(InvalidId), [];
      }
      var added := AddResource(locs, resolve, retrieval, resources, i, base.value);
      if added.None? {
        return Err(ResourceConflict), [];
      }
      var recorded := AddAnchors(locs, anchors, owner, i);
      if recorded.None? {
        ClashInconsistent(locs, resolve, retrieval);
        return Err(AnchorConflict), [];
      }
      BasedMore(locs, resolve, retrieval, bases, found, i, base.value, owner);
      PushHolds(locs, ancestry, i);
      bases, found, ancestry := bases + [base.value], found + [owner], ancestry + [i];
      resources, anchors := added.value, recorded.value;
    }
    IndexConsistent(locs, resolve, retrieval, bases, found, resources, anchors);
    owners := found;
    r := Ok(Index(bases, resources, anchors));
  }

  lemma StartIndex(locs: seq<Location>, resolve: Resolver, retrieval: string)
    requires Sorted(locs)
    ensures Based(locs, resolve, retrieval, [], [], 0) && AnchorsOf(locs, map[], 0)
    ensures ResourcesOf(locs, resolve, retrieval, map[retrieval := 0], 0) && |locs| > 0
  {
  }

  lemma BasedSizes(
      locs: seq<Location>, resolve: Resolver, retrieval: string, bases: seq<string>, owners: seq<nat>, n: nat)
    requires Based(locs, resolve, retrieval, bases, owners, n)
    ensures |bases| == |owners| == n
  {
  }

  lemma ClashInconsistent(locs: seq<Location>, resolve: Resolver, retrieval: string)
    requires AnchorClash(locs)
    ensures !Consistent(locs, resolve, retrieval)
  {
  }

  lemma IndexConsistent(locs: seq<Location>, resolve: Resolver, retrieval: string, bases: seq<string>, owners: seq<nat>,
      resources: map<string, nat>, anchors: Anchors)
    requires Sorted(locs) && Based(locs, resolve, retrieval, bases, owners, |locs|)
    requires ResourcesOf(locs, resolve, retrieval, resources, |locs|) && AnchorsOf(locs, anchors, |locs|)
    ensures Consistent(locs, resolve, retrieval)
  {
  }
}
