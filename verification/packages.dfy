// The package closure of a bundle (crates/htlk-compiler/src/bundle.rs).

module Packages {
  import opened Wrappers
  import opened Graphs
  import opened Chains
  import opened Memoised

  type Digest = nat

  datatype Error = TooDeep | Cycle | Missing | Unreached

  /** The traversal state: packages being visited and memoised heights of finished ones. */
  class PackageVisitor {
    const packages: Deps<Digest>
    const maxDepth: nat
    var active: set<Digest>
    var reached: map<Digest, nat>

    ghost predicate Valid(trail: seq<Digest>)
      reads this
    {
      Memo(packages, reached) && OnTrail(active, trail, reached)
    }

    constructor (packages: Deps<Digest>, maxDepth: nat)
      ensures this.packages == packages && this.maxDepth == maxDepth
      ensures Valid([]) && reached == map[]
    {
      this.packages, this.maxDepth := packages, maxDepth;
      active, reached := {}, map[];
    }

    /** One package reached along `trail`: its height, or why its chains do not fit. */
    method Visit(pin: Digest, depth: nat, ghost trail: seq<Digest>) returns (r: Result<nat, Error>)
      requires Valid(trail) && depth == |trail| && IsPath(Links(packages), trail + [pin])
      modifies this
      decreases if depth < maxDepth then maxDepth - depth else 0
      ensures r.Ok? <==> Bounded(packages, pin, maxDepth - depth)
      ensures r.Ok? ==> Valid(trail) && pin in reached && r.value == reached[pin]
      ensures r.Ok? ==> Keeps(old(reached), reached) && active == old(active)
      ensures r.Ok? ==> Covers(packages, old(reached).Keys, [pin], reached.Keys)
      ensures r == Err(Cycle) ==> Cyclic(Links(packages))
    {
      hide *;
      if depth >= maxDepth {
        NoRoom(packages, pin, maxDepth - depth);
        return Err(TooDeep);
      }
      ValidParts(trail);
      if pin in active {
        KeyOfActive(active, trail, reached, pin);
        ActiveIsUnbounded(packages, trail, pin, maxDepth - depth);
        OnCycleIsCyclic(packages, pin);
        return Err(Cycle);
      }
      KeyOfActive(active, trail, reached, pin);
      if pin in reached {
        KnownHeight(packages, reached, pin, maxDepth - depth);
        if depth + reached[pin] > maxDepth {
          return Err(TooDeep);
        }
        CoversKnown(packages, reached, pin);
        KeepsSelf(reached);
        return Ok(reached[pin]);
      }
      if pin !in packages {
        MissingIsUnbounded(packages, pin, maxDepth - depth);
        return Err(Missing);
      }
      ghost var before, entered, room := reached, active, maxDepth - depth;
      TrailPush(active, trail, reached, pin);
      active := active + {pin};
      ValidFrom(trail + [pin]);
      var height := 1;
      var ds := packages[pin];
      VisitingStart(packages, before, room - 1);
      for k := 0 to |ds|
        invariant Valid(trail + [pin]) && active == entered + {pin} && height >= 1
        invariant Visiting(packages, before, reached, ds[..k], room - 1)
        invariant TopsOut(packages, ds[..k], reached, height - 1)
      {
        var next := ds[k];
        if next !in packages {
          MissingIsUnbounded(packages, next, room - 1);
          UnboundedVia(packages, pin, next, room);
          return Err(Missing);
        }
        TrailDown(packages, trail, pin, next);
        ghost var mid := reached;
        var child := Visit(next, depth + 1, trail + [pin]);
        if child.Err? {
          UnboundedVia(packages, pin, next, room);
          return child;
        }
        assert ds[..k + 1] == ds[..k] + [next];
        VisitingMore(packages, before, mid, reached, ds[..k], next, room - 1);
        TopsOutMore(packages, ds[..k], mid, height - 1, next, reached, child.value);
        height := if height < 1 + child.value then 1 + child.value else height;
      }
      assert ds[..|ds|] == ds;
      ValidParts(trail + [pin]);
      KeyOfActive(active, trail + [pin], reached, pin);
      VisitingEnd(packages, before, reached, pin, height - 1, room, reached[pin := height]);
      TrailPop(active, trail, reached, pin, height);
      active := active - {pin};
      reached := reached[pin := height];
      ValidFrom(trail);
      r := Ok(height);
    }

    lemma ValidParts(trail: seq<Digest>)
      requires Valid(trail)
      ensures Memo(packages, reached) && OnTrail(active, trail, reached)
    {
    }

    lemma ValidFrom(trail: seq<Digest>)
      requires Memo(packages, reached) && OnTrail(active, trail, reached)
      ensures Valid(trail)
    {
    }
  }

  ghost predicate AllReached(packages: Deps<Digest>, entry: Digest) {
    forall q :: q in packages ==> Reaches(Links(packages), entry, q)
  }

  /** What a bundle's closure must satisfy, without memoisation. */
  ghost predicate ClosureFits(packages: Deps<Digest>, entry: Digest, maxDepth: nat) {
    Bounded(packages, entry, maxDepth) && AllReached(packages, entry)
  }

  /** The closure check of a bundle. */
  method ValidateClosure(packages: Deps<Digest>, entry: Digest, maxDepth: nat) returns (r: Result<nat, Error>)
    ensures r.Ok? <==> ClosureFits(packages, entry, maxDepth)
    ensures r.Ok? ==> IsHeight(packages, entry, r.value)
    ensures r == Err(Cycle) ==> Cyclic(Links(packages))
  {
    hide *;
    var visitor := new PackageVisitor(packages, maxDepth);
    EntryTrail(packages, entry);
    ghost var none := visitor.reached;
    assert none.Keys == {};
    r := visitor.Visit(entry, 0, []);
    if r.Ok? {
      visitor.ValidParts([]);
      KnownHeight(packages, visitor.reached, entry, maxDepth);
      EntireClosure(packages, entry, none.Keys, visitor.reached, maxDepth);
      if |visitor.reached| != |packages| {
        return Err(Unreached);
      }
    } else {
      ClosureBounded(packages, entry, maxDepth);
    }
  }

  lemma EntryTrail(packages: Deps<Digest>, entry: Digest)
    ensures IsPath(Links(packages), [] + [entry])
  {
  }

  lemma ClosureBounded(packages: Deps<Digest>, entry: Digest, maxDepth: nat)
    ensures ClosureFits(packages, entry, maxDepth) ==> Bounded(packages, entry, maxDepth)
  {
  }

  lemma EntireClosure(
      packages: Deps<Digest>, entry: Digest, known: set<Digest>, reached: map<Digest, nat>, maxDepth: nat)
    requires known == {} && Memo(packages, reached) && Covers(packages, known, [entry], reached.Keys)
    requires Bounded(packages, entry, maxDepth)
    ensures |reached| == |packages| <==> ClosureFits(packages, entry, maxDepth)
  {
    CoversIsReach(packages, entry, reached);
    SameSize(packages, reached);
    SameKeys(packages, entry, reached);
    hide *;
    ClosureMeans(packages, entry, maxDepth);
  }

  lemma ClosureMeans(packages: Deps<Digest>, entry: Digest, maxDepth: nat)
    requires Bounded(packages, entry, maxDepth)
    ensures ClosureFits(packages, entry, maxDepth) <==> AllReached(packages, entry)
  {
  }

  lemma SameKeys(packages: Deps<Digest>, entry: Digest, reached: map<Digest, nat>)
    requires reached.Keys <= packages.Keys
    requires forall q :: q in reached <==> Reaches(Links(packages), entry, q)
    ensures reached.Keys == packages.Keys <==> AllReached(packages, entry)
  {
  }

  lemma CoversIsReach(packages: Deps<Digest>, entry: Digest, reached: map<Digest, nat>)
    requires Memo(packages, reached) && Covers(packages, {}, [entry], reached.Keys)
    ensures forall q :: q in reached <==> Reaches(Links(packages), entry, q)
    ensures reached.Keys <= packages.Keys
  {
  }

  lemma SameSize(packages: Deps<Digest>, reached: map<Digest, nat>)
    requires reached.Keys <= packages.Keys
    ensures |reached| == |packages| <==> reached.Keys == packages.Keys
  {
    assert |reached.Keys| == |reached| && |packages.Keys| == |packages|;
    if |reached| == |packages| {
      SubsetOfSameSize(reached.Keys, packages.Keys);
    }
  }
}
