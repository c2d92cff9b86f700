// A depth-first traversal that remembers heights: what it keeps.

module Memoised {
  import opened Graphs
  import opened Chains

  /** The items reached after visiting `sources`, on top of those known before. */
  ghost predicate Covers<V(!new)>(deps: Deps<V>, known: set<V>, sources: seq<V>, now: set<V>) {
    forall q :: q in now <==> q in known || FromSome(deps, sources, q)
  }

  ghost predicate FromSome<V(!new)>(deps: Deps<V>, sources: seq<V>, q: V) {
    exists d :: d in sources && Reaches(Links(deps), d, q)
  }

  ghost predicate Keeps<V(!new)>(before: map<V, nat>, now: map<V, nat>) {
    forall q :: q in before ==> q in now && now[q] == before[q]
  }

  /** Memoised heights: true longest-chain lengths, closed under dependencies. */
  ghost predicate Memo<V(!new)>(deps: Deps<V>, reached: map<V, nat>) {
    forall q :: q in reached ==>
      q in deps && IsHeight(deps, q, reached[q]) && forall d :: d in deps[q] ==> d in reached
  }

  /** The items on the trail are being visited, and none of them is finished. */
  ghost predicate OnTrail<V(!new)>(active: set<V>, trail: seq<V>, reached: map<V, nat>) {
    && (forall v :: v in active <==> v in trail)
    && forall v :: v in active ==> v !in reached
  }

  lemma {:induction false} MemoCloses<V(!new)>(deps: Deps<V>, reached: map<V, nat>, p: seq<V>)
    requires Memo(deps, reached) && IsPath(Links(deps), p) && p[0] in reached
    ensures p[|p| - 1] in reached
  {
    if |p| > 1 {
      ChainTail(deps, p);
      MemoCloses(deps, reached, p[1..]);
    }
  }

  lemma CoversKnown<V(!new)>(deps: Deps<V>, reached: map<V, nat>, v: V)
    requires Memo(deps, reached) && v in reached
    ensures Covers(deps, reached.Keys, [v], reached.Keys)
  {
    forall q | FromSome(deps, [v], q)
      ensures q in reached
    {
      var p :| PathFrom(Links(deps), p, v, q);
      MemoCloses(deps, reached, p);
    }
  }

  lemma CoversSelf<V(!new)>(deps: Deps<V>, known: set<V>, v: V, now: set<V>)
    requires v in deps && Covers(deps, known, deps[v], now)
    ensures Covers(deps, known, [v], now + {v})
  {
    forall q
      ensures FromSome(deps, [v], q) <==> q == v || FromSome(deps, deps[v], q)
    {
      ReachedStep(deps, v, q);
      if FromSome(deps, [v], q) {
        assert Reaches(Links(deps), v, q);
      }
      if q == v || FromSome(deps, deps[v], q) {
        assert v in [v] && Reaches(Links(deps), v, q);
      }
    }
  }

  /** Finishing an item whose dependencies all have heights. */
  lemma MemoAdd<V(!new)>(deps: Deps<V>, reached: map<V, nat>, v: V, h: nat)
    requires Memo(deps, reached) && v in deps && TopsOut(deps, deps[v], reached, h)
    ensures IsHeight(deps, v, h + 1) && Memo(deps, reached[v := h + 1])
    ensures reached[v := h + 1].Keys == reached.Keys + {v}
  {
    HeightUp(deps, v, reached, h);
  }

  lemma TopsOutMore<V(!new)>(
      deps: Deps<V>, ds: seq<V>, before: map<V, nat>, h: nat, d: V, now: map<V, nat>, height: nat)
    requires TopsOut(deps, ds, before, h) && Keeps(before, now) && d in now && now[d] == height
    ensures TopsOut(deps, ds + [d], now, if height < h then h else height)
  {
  }

  /** A finished item is known by its height alone. */
  lemma KnownHeight<V(!new)>(deps: Deps<V>, reached: map<V, nat>, v: V, room: int)
    requires Memo(deps, reached) && v in reached
    ensures IsHeight(deps, v, reached[v]) && (Bounded(deps, v, room) <==> reached[v] <= room)
  {
  }

  lemma ActiveIsUnbounded<V(!new)>(deps: Deps<V>, trail: seq<V>, v: V, room: int)
    requires IsPath(Links(deps), trail + [v]) && v in trail
    ensures !Bounded(deps, v, room) && OnCycle(deps, v)
  {
    var c := TrailCycle(deps, trail, v);
    CycleUnbounded(deps, c, room);
  }

  lemma NoRoom<V(!new)>(deps: Deps<V>, v: V, room: int)
    requires room <= 0
    ensures !Bounded(deps, v, room)
  {
    if Bounded(deps, v, room) {
      BoundedDown(deps, v, room);
    }
  }

  lemma UnboundedVia<V(!new)>(deps: Deps<V>, v: V, d: V, room: int)
    requires v in deps && d in deps[v] && !Bounded(deps, d, room - 1)
    ensures !Bounded(deps, v, room)
  {
    if Bounded(deps, v, room) {
      BoundedDown(deps, v, room);
    }
  }

  lemma MissingIsUnbounded<V(!new)>(deps: Deps<V>, v: V, room: int)
    requires v !in deps
    ensures !Bounded(deps, v, room)
  {
    assert IsPath(Links(deps), [v]);
    assert !Chain(deps, v, [v]) || !Bounded(deps, v, room);
  }

  lemma TrailPush<V(!new)>(active: set<V>, trail: seq<V>, reached: map<V, nat>, v: V)
    requires OnTrail(active, trail, reached) && v !in reached
    ensures OnTrail(active + {v}, trail + [v], reached)
  {
  }

  lemma TrailPop<V(!new)>(active: set<V>, trail: seq<V>, reached: map<V, nat>, v: V, h: nat)
    requires OnTrail(active, trail + [v], reached) && v !in trail
    ensures OnTrail(active - {v}, trail, reached[v := h])
  {
  }

  /** After the dependencies in `seen`: everything they reach is known, and they fit. */
  ghost predicate Visiting<V(!new)>(deps: Deps<V>, before: map<V, nat>, now: map<V, nat>, seen: seq<V>, room: int) {
    Keeps(before, now) && Covers(deps, before.Keys, seen, now.Keys) && AllBounded(deps, seen, room)
  }

  ghost predicate AllBounded<V(!new)>(deps: Deps<V>, ds: seq<V>, room: int) {
    forall d :: d in ds ==> Bounded(deps, d, room)
  }

  lemma KeepsMore<V(!new)>(before: map<V, nat>, mid: map<V, nat>, now: map<V, nat>)
    requires Keeps(before, mid) && Keeps(mid, now)
    ensures Keeps(before, now)
  {
  }

  lemma VisitingStart<V(!new)>(deps: Deps<V>, before: map<V, nat>, room: int)
    ensures Visiting(deps, before, before, [], room) && TopsOut(deps, [], before, 0)
  {
  }

  lemma VisitingMore<V(!new)>(
      deps: Deps<V>, before: map<V, nat>, mid: map<V, nat>, now: map<V, nat>, seen: seq<V>, d: V, room: int)
    requires Visiting(deps, before, mid, seen, room)
    requires Keeps(mid, now) && d in now && Covers(deps, mid.Keys, [d], now.Keys) && Bounded(deps, d, room)
    ensures Visiting(deps, before, now, seen + [d], room)
  {
  }

  lemma VisitingEnd<V(!new)>(
      deps: Deps<V>, before: map<V, nat>, now: map<V, nat>, v: V, h: nat, room: int, done: map<V, nat>)
    requires Memo(deps, now) && v in deps && v !in now && room >= 1 && done == now[v := h + 1]
    requires Visiting(deps, before, now, deps[v], room - 1) && TopsOut(deps, deps[v], now, h)
    ensures Memo(deps, done) && Keeps(before, done) && Covers(deps, before.Keys, [v], done.Keys)
    ensures Bounded(deps, v, room) && h + 1 <= room
  {
    BoundedUp(deps, v, room);
    MemoAdd(deps, now, v, h);
    HeightDecides(deps, v, h + 1, room);
    CoversSelf(deps, before.Keys, v, now.Keys);
  }

  lemma KeepsSelf<V(!new)>(m: map<V, nat>)
    ensures Keeps(m, m)
  {
  }

  lemma KeyOfActive<V(!new)>(active: set<V>, trail: seq<V>, reached: map<V, nat>, v: V)
    requires OnTrail(active, trail, reached)
    ensures v in active <==> v in trail
    ensures v in trail ==> v !in reached
  {
  }

  lemma OnCycleIsCyclic<V(!new)>(deps: Deps<V>, v: V)
    requires OnCycle(deps, v)
    ensures Cyclic(Links(deps))
  {
  }
}
