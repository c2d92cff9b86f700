// Chains of dependencies: bounded depth, longest chains, and cycles.

module Chains {
  import opened Graphs

  /** What each supplied item depends on; an item that is not a key is missing. */
  type Deps<V(==)> = map<V, seq<V>>

  function Links<V(!new)>(deps: Deps<V>): Edges<V> {
    set v, d | v in deps && d in deps[v] :: (v, d)
  }

  ghost predicate Chain<V(!new)>(deps: Deps<V>, v: V, p: seq<V>) {
    IsPath(Links(deps), p) && p[0] == v
  }

  /** Every chain from `v` has at most `room` items, and every item on it is supplied. */
  ghost predicate Bounded<V(!new)>(deps: Deps<V>, v: V, room: int) {
    forall p :: Chain(deps, v, p) ==> |p| <= room && p[|p| - 1] in deps
  }

  /** `h` is the length of the longest chain from `v`. */
  ghost predicate IsHeight<V(!new)>(deps: Deps<V>, v: V, h: nat) {
    Bounded(deps, v, h) && exists p :: Chain(deps, v, p) && |p| == h
  }

  lemma ChainTail<V(!new)>(deps: Deps<V>, p: seq<V>)
    requires IsPath(Links(deps), p) && |p| > 1
    ensures p[0] in deps && p[1] in deps[p[0]] && Chain(deps, p[1], p[1..])
  {
  }

  lemma ChainPrepend<V(!new)>(deps: Deps<V>, v: V, d: V, p: seq<V>)
    requires v in deps && d in deps[v] && Chain(deps, d, p)
    ensures Chain(deps, v, [v] + p)
  {
  }

  /** An item of a bounded chain is supplied and its dependencies have one place less. */
  lemma BoundedDown<V(!new)>(deps: Deps<V>, v: V, room: int)
    requires Bounded(deps, v, room)
    ensures room >= 1 && v in deps
    ensures forall d :: d in deps[v] ==> Bounded(deps, d, room - 1)
  {
    assert Chain(deps, v, [v]);
    forall d, p | d in deps[v] && Chain(deps, d, p)
      ensures |p| <= room - 1 && p[|p| - 1] in deps
    {
      ChainPrepend(deps, v, d, p);
      assert ([v] + p)[|p|] == p[|p| - 1];
    }
  }

  lemma BoundedUp<V(!new)>(deps: Deps<V>, v: V, room: int)
    requires room >= 1 && v in deps && forall d :: d in deps[v] ==> Bounded(deps, d, room - 1)
    ensures Bounded(deps, v, room)
  {
    forall p | Chain(deps, v, p)
      ensures |p| <= room && p[|p| - 1] in deps
    {
      if |p| > 1 {
        ChainTail(deps, p);
      }
    }
  }

  /** A known height decides every bound. */
  lemma HeightDecides<V(!new)>(deps: Deps<V>, v: V, h: nat, room: int)
    requires IsHeight(deps, v, h)
    ensures Bounded(deps, v, room) <==> h <= room
  {
  }

  /** Heights grow by one along dependencies. */
  ghost predicate TopsOut<V(!new)>(deps: Deps<V>, ds: seq<V>, heights: map<V, nat>, h: nat) {
    && (forall d :: d in ds ==> d in heights && heights[d] <= h)
    && (h == 0 || exists d :: d in ds && d in heights && heights[d] == h)
  }

  lemma HeightUp<V(!new)>(deps: Deps<V>, v: V, heights: map<V, nat>, h: nat)
    requires v in deps && TopsOut(deps, deps[v], heights, h)
    requires forall d :: d in deps[v] ==> IsHeight(deps, d, heights[d])
    ensures IsHeight(deps, v, h + 1)
  {
    forall d | d in deps[v]
      ensures Bounded(deps, d, h)
    {
      HeightDecides(deps, d, heights[d], h);
    }
    BoundedUp(deps, v, h + 1);
    if h == 0 {
      assert Chain(deps, v, [v]);
    } else {
      var d :| d in deps[v] && heights[d] == h;
      var p :| Chain(deps, d, p) && |p| == h;
      ChainPrepend(deps, v, d, p);
      assert |[v] + p| == h + 1;
    }
  }

  /** Room shrinks along a chain. */
  lemma {:induction false} BoundedAlong<V(!new)>(deps: Deps<V>, p: seq<V>, room: int)
    requires IsPath(Links(deps), p) && Bounded(deps, p[0], room)
    ensures Bounded(deps, p[|p| - 1], room - |p| + 1)
  {
    if |p| > 1 {
      ChainTail(deps, p);
      BoundedDown(deps, p[0], room);
      BoundedAlong(deps, p[1..], room - 1);
    }
  }

  /** No bound holds from an item on a cycle. */
  lemma {:induction false} CycleUnbounded<V(!new)>(deps: Deps<V>, p: seq<V>, room: int)
    requires IsCycle(Links(deps), p)
    ensures !Bounded(deps, p[0], room)
    decreases if room < 0 then 0 else room
  {
    if Bounded(deps, p[0], room) {
      BoundedDown(deps, p[0], room);
      BoundedAlong(deps, p, room);
      CycleUnbounded(deps, p, room - |p| + 1);
      assert false;
    }
  }

  lemma SubPath<V(!new)>(es: Edges<V>, p: seq<V>, i: nat, j: nat)
    requires IsPath(es, p) && i < j <= |p|
    ensures IsPath(es, p[i..j])
  {
  }

  /** Returning to an item already on the trail closes a cycle. */
  lemma TrailCycle<V(!new)>(deps: Deps<V>, trail: seq<V>, v: V) returns (c: seq<V>)
    requires IsPath(Links(deps), trail + [v]) && v in trail
    ensures IsCycle(Links(deps), c) && c[0] == v
  {
    var p := trail + [v];
    var i :| 0 <= i < |trail| && trail[i] == v;
    SubPath(Links(deps), p, i, |p|);
    c := p[i..|p|];
  }

  lemma TrailDown<V(!new)>(deps: Deps<V>, trail: seq<V>, v: V, d: V)
    requires IsPath(Links(deps), trail + [v]) && v in deps && d in deps[v]
    ensures IsPath(Links(deps), trail + [v] + [d])
  {
  }

  // ---- Reachability ----

  lemma ReachedStep<V(!new)>(deps: Deps<V>, v: V, q: V)
    requires v in deps
    ensures Reaches(Links(deps), v, q) <==> q == v || exists d :: d in deps[v] && Reaches(Links(deps), d, q)
  {
    if Reaches(Links(deps), v, q) && q != v {
      var p :| PathFrom(Links(deps), p, v, q);
      ChainTail(deps, p);
      assert PathFrom(Links(deps), p[1..], p[1], q);
    }
    ReachesSelf(Links(deps), v);
    if d :| d in deps[v] && Reaches(Links(deps), d, q) {
      assert (v, d) in Links(deps);
      ReachesStep(Links(deps), v, d, q);
    }
  }

  /** Some bound holds exactly when everything reached is supplied and not on a cycle. */
  lemma BoundedIffAcyclic<V(!new)>(deps: Deps<V>, v: V)
    ensures (exists room: nat :: Bounded(deps, v, room)) <==>
      forall q :: Reaches(Links(deps), v, q) ==> q in deps && !OnCycle(deps, q)
  {
    if room: nat :| Bounded(deps, v, room) {
      forall q | Reaches(Links(deps), v, q)
        ensures q in deps && !OnCycle(deps, q)
      {
        var p :| PathFrom(Links(deps), p, v, q);
        BoundedAlong(deps, p, room);
        BoundedDown(deps, q, room - |p| + 1);
        if c :| IsCycle(Links(deps), c) && c[0] == q {
          CycleUnbounded(deps, c, room - |p| + 1);
        }
      }
    }
    if forall q :: Reaches(Links(deps), v, q) ==> q in deps && !OnCycle(deps, q) {
      forall p | Chain(deps, v, p)
        ensures |p| <= |deps.Keys| && p[|p| - 1] in deps
      {
        ShortChain(deps, v, p);
      }
      assert Bounded(deps, v, |deps.Keys|);
    }
  }

  ghost predicate OnCycle<V(!new)>(deps: Deps<V>, v: V) {
    exists c :: IsCycle(Links(deps), c) && c[0] == v
  }

  lemma ShortChain<V(!new)>(deps: Deps<V>, v: V, p: seq<V>)
    requires Chain(deps, v, p)
    requires forall q :: Reaches(Links(deps), v, q) ==> q in deps && !OnCycle(deps, q)
    ensures |p| <= |deps.Keys| && p[|p| - 1] in deps
  {
    forall k | 0 <= k < |p|
      ensures p[k] in deps && !OnCycle(deps, p[k])
    {
      SubPath(Links(deps), p, 0, k + 1);
      assert PathFrom(Links(deps), p[..k + 1], v, p[k]);
    }
    if |p| > |deps.Keys| {
      var i, j := Pigeonhole(p, deps.Keys);
      SubPath(Links(deps), p, i, j + 1);
      assert IsCycle(Links(deps), p[i..j + 1]);
    }
  }
}
