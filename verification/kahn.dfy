// The deterministic topological order of wait events
// (crates/htlk-analyzer/src/graph_verify.rs:739-782).

module Kahn {
  import opened Wrappers
  import opened Graphs

  function EdgeSet(deps: seq<(nat, nat)>): Edges<nat> {
    set e | e in deps
  }

  /** Predecessors that have not been emitted yet. */
  ghost function Pending(es: Edges<nat>, n: nat, v: nat, done: set<nat>): set<nat> {
    set u | 0 <= u < n && (u, v) in es && u !in done
  }

  /** Everything emitted has had its predecessors emitted. */
  ghost predicate Closed(es: Edges<nat>, n: nat, done: set<nat>) {
    forall v :: v in done ==> Pending(es, n, v, done) == {}
  }

  ghost function Ready(es: Edges<nat>, n: nat, done: set<nat>): set<nat> {
    set v | 0 <= v < n && v !in done && Pending(es, n, v, done) == {}
  }

  ghost function Range(n: nat): (vs: set<nat>)
    ensures forall v: nat :: v in vs <==> v < n
    ensures |vs| == n
  {
    if n == 0 then {} else Range(n - 1) + {n - 1}
  }

  ghost function Elements(s: seq<nat>): set<nat> {
    set v | v in s
  }

  ghost predicate IsLeast(s: set<nat>, m: nat) {
    m in s && forall x :: x in s ==> m <= x
  }

  lemma LeastExists(s: set<nat>) returns (m: nat)
    requires s != {}
    ensures IsLeast(s, m)
  {
    m :| m in s;
    var rest := s - {m};
    if rest != {} {
      var k := LeastExists(rest);
      assert forall x :: x in s ==> x == m || x in rest;
      m := if k < m then k else m;
    } else {
      assert s == {m};
    }
  }

  method First(s: set<nat>) returns (m: nat)
    requires s != {}
    ensures IsLeast(s, m)
  {
    ghost var least := LeastExists(s);
    m :| m in s && forall x :: x in s ==> m <= x;
  }

  /** Each position holds the least vertex that was ready there. */
  ghost predicate Greedy(es: Edges<nat>, n: nat, order: seq<nat>) {
    forall k :: 0 <= k < |order| ==> IsLeast(Ready(es, n, Elements(order[..k])), order[k])
  }

  ghost predicate LexicographicallyLeast(es: Edges<nat>, n: nat, order: seq<nat>) {
    forall other :: Topological(es, Range(n), other) ==> other == order || LexLess(order, other)
  }

  ghost predicate LexLess(a: seq<nat>, b: seq<nat>) {
    exists k :: 0 <= k < |a| && k < |b| && a[..k] == b[..k] && a[k] < b[k]
  }

  // ---- Pending predecessors ----

  lemma PendingAdd(es: Edges<nat>, n: nat, from: nat, to: nat, v: nat)
    requires from < n && (from, to) !in es
    ensures |Pending(es + {(from, to)}, n, v, {})| == |Pending(es, n, v, {})| + if v == to then 1 else 0
  {
    var before, after := Pending(es, n, v, {}), Pending(es + {(from, to)}, n, v, {});
    if v == to {
      assert after == before + {from};
      assert from !in before;
    } else {
      assert after == before;
    }
  }

  lemma PendingEmit(es: Edges<nat>, n: nat, v: nat, done: set<nat>, index: nat)
    requires index < n && index !in done
    ensures (index, v) !in es ==> Pending(es, n, v, done + {index}) == Pending(es, n, v, done)
    ensures (index, v) in es ==>
      && |Pending(es, n, v, done + {index})| == |Pending(es, n, v, done)| - 1
      && (Pending(es, n, v, done) != {})
  {
    var before, after := Pending(es, n, v, done), Pending(es, n, v, done + {index});
    if (index, v) in es {
      assert index in before;
      assert after == before - {index};
    } else {
      assert after == before;
    }
  }

  /** Emitting a ready vertex makes ready exactly those it was the last to hold back. */
  lemma ReadyEmit(es: Edges<nat>, n: nat, done: set<nat>, index: nat)
    requires index in Ready(es, n, done) && Closed(es, n, done)
    ensures Closed(es, n, done + {index})
    ensures Ready(es, n, done + {index}) ==
      (Ready(es, n, done) - {index})
      + (set v | 0 <= v < n && (index, v) in es && Pending(es, n, v, done + {index}) == {})
    ensures forall v :: (index, v) in es ==> v !in Ready(es, n, done)
    ensures (index, index) !in es
  {
    forall v: nat
      ensures (index, v) !in es ==> Pending(es, n, v, done + {index}) == Pending(es, n, v, done)
      ensures (index, v) in es ==> Pending(es, n, v, done) != {}
    {
      PendingEmit(es, n, v, done, index);
    }
    var after := Ready(es, n, done + {index});
    forall v | v in after
      ensures v in Ready(es, n, done) - {index} || ((index, v) in es && Pending(es, n, v, done + {index}) == {})
    {
      assert (index, v) !in es ==> Pending(es, n, v, done + {index}) == Pending(es, n, v, done);
    }
    forall v | v in Ready(es, n, done) - {index}
      ensures v in after
    {
      assert (index, v) !in es;
    }
    forall v | v in done + {index}
      ensures (index, v) !in es
    {
    }
  }

  ghost predicate Counts(es: Edges<nat>, n: nat, degrees: seq<nat>, done: set<nat>) {
    |degrees| == n && forall v :: 0 <= v < n ==> degrees[v] == |Pending(es, n, v, done)|
  }

  /** The loop state after emitting `done`. */
  ghost predicate Progress(es: Edges<nat>, n: nat, degrees: seq<nat>, done: set<nat>, ready: set<nat>) {
    Counts(es, n, degrees, done) && Closed(es, n, done) && ready == Ready(es, n, done)
  }

  ghost predicate Successors(es: Edges<nat>, from: nat, next: seq<nat>) {
    Distinct(next) && forall v: nat :: v in next <==> (from, v) in es
  }

  // ---- The algorithm ----

  method Build(n: nat, deps: seq<(nat, nat)>) returns (forward: array<seq<nat>>, degrees: array<nat>)
    requires Distinct(deps) && forall e :: e in deps ==> e.0 < n && e.1 < n
    ensures fresh(forward) && fresh(degrees) && forward.Length == n
    ensures Counts(EdgeSet(deps), n, degrees[..], {})
    ensures forall u :: 0 <= u < n ==> Successors(EdgeSet(deps), u, forward[u])
  {
    forward := new seq<nat>[n](_ => []);
    degrees := new nat[n](_ => 0);
    forall v | 0 <= v < n
      ensures Pending({}, n, v, {}) == {}
    {
    }
    for k := 0 to |deps|
      invariant Counts(EdgeSet(deps[..k]), n, degrees[..], {})
      invariant forall u :: 0 <= u < n ==> Successors(EdgeSet(deps[..k]), u, forward[u])
    {
      var (from, to) := deps[k];
      assert deps[k] in deps;
      ghost var es := EdgeSet(deps[..k]);
      assert EdgeSet(deps[..k + 1]) == es + {(from, to)};
      assert (from, to) !in es;
      forall v | 0 <= v < n
        ensures |Pending(es + {(from, to)}, n, v, {})| == |Pending(es, n, v, {})| + if v == to then 1 else 0
      {
        PendingAdd(es, n, from, to, v);
      }
      assert Successors(es, from, forward[from]);
      forward[from] := forward[from] + [to];
      degrees[to] := degrees[to] + 1;
    }
    assert deps[..|deps|] == deps;
  }

  /** Lowers the degrees of a vertex's successors and collects those that become ready. */
  method Release(ghost es: Edges<nat>, n: nat, next: seq<nat>, degrees: array<nat>, ready: set<nat>,
      ghost done: set<nat>, index: nat) returns (released: set<nat>)
    requires Progress(es, n, degrees[..], done, ready)
    requires forall e :: e in es ==> e.0 < n && e.1 < n
    requires index in ready && Successors(es, index, next)
    modifies degrees
    ensures Progress(es, n, degrees[..], done + {index}, released)
  {
    ghost var after := done + {index};
    ReadyEmit(es, n, done, index);
    forall v | 0 <= v < n
      ensures (index, v) !in es ==> Pending(es, n, v, after) == Pending(es, n, v, done)
      ensures (index, v) in es ==> |Pending(es, n, v, after)| == |Pending(es, n, v, done)| - 1
    {
      PendingEmit(es, n, v, done, index);
    }
    released := ready - {index};
    for k := 0 to |next|
      invariant degrees.Length == n
      invariant forall v :: 0 <= v < n ==>
        degrees[v] == |Pending(es, n, v, if v in next[..k] then after else done)|
      invariant released == (ready - {index}) + set v | v in next[..k] && Pending(es, n, v, after) == {}
    {
      var v := next[k];
      assert v in next && (index, v) in es;
      assert v !in next[..k];
      assert next[..k + 1] == next[..k] + [v];
      degrees[v] := degrees[v] - 1;
      if degrees[v] == 0 {
        released := released + {v};
      }
    }
    assert next[..|next|] == next;
  }

  /**
   * The wait order: None for a cycle, else the vertices in the order that always
   * takes the least ready one.
   */
  method Order(n: nat, deps: seq<(nat, nat)>) returns (r: Option<seq<nat>>)
    requires Distinct(deps) && forall e :: e in deps ==> e.0 < n && e.1 < n
    ensures r.None? <==> Cyclic(EdgeSet(deps))
    ensures r.Some? ==> Topological(EdgeSet(deps), Range(n), r.value)
    ensures r.Some? ==> LexicographicallyLeast(EdgeSet(deps), n, r.value)
  {
    hide *;
    ghost var es := EdgeSet(deps);
    EdgeSetBound(n, deps);
    var forward, degrees := Build(n, deps);
    var ready := Sources(es, n, degrees);
    var order: seq<nat> := [];
    NothingEmitted(es, n, degrees[..], ready);
    while ready != {}
      invariant Progress(es, n, degrees[..], Elements(order), ready)
      invariant forall u :: 0 <= u < n ==> Successors(es, u, forward[u])
      invariant Greedy(es, n, order)
      decreases Range(n) - Elements(order)
    {
      var index := First(ready);
      EmitNext(es, n, degrees[..], order, ready, index);
      ready := Release(es, n, forward[index], degrees, ready, Elements(order), index);
      order := order + [index];
    }
    AllEmitted(es, n, degrees[..], order);
    FinishedOrder(es, n, order);
    r := if |order| != n then None else Some(order);
  }

  lemma EdgeSetBound(n: nat, deps: seq<(nat, nat)>)
    requires forall e :: e in deps ==> e.0 < n && e.1 < n
    ensures forall e :: e in EdgeSet(deps) ==> e.0 < n && e.1 < n
  {
  }

  lemma NothingEmitted(es: Edges<nat>, n: nat, degrees: seq<nat>, ready: set<nat>)
    requires Counts(es, n, degrees, {}) && ready == Ready(es, n, {})
    ensures Progress(es, n, degrees, Elements([]), ready) && Greedy(es, n, [])
  {
    assert Elements([]) == {};
  }

  lemma EmitNext(es: Edges<nat>, n: nat, degrees: seq<nat>, order: seq<nat>, ready: set<nat>, index: nat)
    requires Progress(es, n, degrees, Elements(order), ready) && Greedy(es, n, order)
    requires IsLeast(ready, index)
    ensures index < n && index in ready && Greedy(es, n, order + [index])
    ensures Elements(order + [index]) == Elements(order) + {index}
    ensures Range(n) - Elements(order + [index]) < Range(n) - Elements(order)
  {
    GreedyNext(es, n, order, index);
    assert index in Range(n) - Elements(order);
  }

  lemma AllEmitted(es: Edges<nat>, n: nat, degrees: seq<nat>, order: seq<nat>)
    requires Progress(es, n, degrees, Elements(order), {})
    ensures Ready(es, n, Elements(order)) == {}
  {
  }

  lemma FinishedOrder(es: Edges<nat>, n: nat, order: seq<nat>)
    requires Greedy(es, n, order) && Ready(es, n, Elements(order)) == {}
    requires forall e :: e in es ==> e.0 < n && e.1 < n
    ensures |order| != n <==> Cyclic(es)
    ensures |order| == n ==> Topological(es, Range(n), order) && LexicographicallyLeast(es, n, order)
  {
    GreedyRespects(es, n, order);
    if |order| != n {
      StuckIsCyclic(es, n, order);
    } else {
      CompleteOrder(es, n, order);
    }
  }

  method Sources(ghost es: Edges<nat>, n: nat, degrees: array<nat>) returns (ready: set<nat>)
    requires Counts(es, n, degrees[..], {})
    ensures ready == Ready(es, n, {})
  {
    ready := {};
    for v := 0 to n
      invariant ready == set u | 0 <= u < v && degrees[u] == 0
    {
      if degrees[v] == 0 {
        ready := ready + {v};
      }
    }
    forall v | 0 <= v < n
      ensures degrees[v] == 0 <==> Pending(es, n, v, {}) == {}
    {
    }
  }

  lemma GreedyNext(es: Edges<nat>, n: nat, order: seq<nat>, index: nat)
    requires Greedy(es, n, order)
    requires IsLeast(Ready(es, n, Elements(order)), index)
    ensures Greedy(es, n, order + [index])
  {
    var next := order + [index];
    forall k | 0 <= k < |next|
      ensures IsLeast(Ready(es, n, Elements(next[..k])), next[k])
    {
      if k < |order| {
        assert next[..k] == order[..k];
      } else {
        assert next[..k] == order;
      }
    }
  }

  lemma GreedyRespects(es: Edges<nat>, n: nat, order: seq<nat>)
    requires Greedy(es, n, order)
    requires forall e :: e in es ==> e.0 < n && e.1 < n
    ensures Distinct(order) && Respects(es, order)
    ensures forall v :: v in order ==> v < n
  {
    forall k | 0 <= k < |order|
      ensures order[k] !in order[..k] && order[k] < n
      ensures forall u :: (u, order[k]) in es ==> u in order[..k]
    {
      assert order[k] in Ready(es, n, Elements(order[..k]));
      forall u | (u, order[k]) in es
        ensures u in order[..k]
      {
        assert u !in Pending(es, n, order[k], Elements(order[..k]));
      }
    }
    forall i, j | 0 <= i < j < |order|
      ensures order[i] != order[j]
    {
      assert order[i] == order[..j][i];
    }
  }

  lemma DistinctSize(s: seq<nat>)
    requires Distinct(s)
    ensures |Elements(s)| == |s|
  {
    if s != [] {
      var front := s[..|s| - 1];
      DistinctSize(front);
      assert Elements(s) == Elements(front) + {s[|s| - 1]};
    } else {
      assert Elements(s) == {};
    }
  }

  lemma SubsetSize(a: set<nat>, b: set<nat>)
    requires a <= b
    ensures |a| <= |b|
    ensures |a| == |b| ==> a == b
  {
    assert b == a + (b - a);
  }

  /** Vertices left without a ready one hold each other back. */
  lemma StuckIsCyclic(es: Edges<nat>, n: nat, order: seq<nat>)
    requires Distinct(order) && |order| != n && forall v :: v in order ==> v < n
    requires forall e :: e in es ==> e.0 < n && e.1 < n
    requires Ready(es, n, Elements(order)) == {}
    ensures Cyclic(es)
  {
    var done := Elements(order);
    DistinctSize(order);
    SubsetSize(done, Range(n));
    var left := Range(n) - done;
    forall v | v in left
      ensures HasPredecessor(es, left, v)
    {
      assert v !in Ready(es, n, done);
      var u :| u in Pending(es, n, v, done);
      assert u in left;
    }
    assert left != {};
    NoSourceIsCyclic(es, left);
  }

  lemma CompleteOrder(es: Edges<nat>, n: nat, order: seq<nat>)
    requires Distinct(order) && |order| == n && (forall v :: v in order ==> v < n) && Respects(es, order)
    requires forall e :: e in es ==> e.0 < n && e.1 < n
    requires Greedy(es, n, order)
    ensures Topological(es, Range(n), order) && !Cyclic(es)
    ensures LexicographicallyLeast(es, n, order)
  {
    DistinctSize(order);
    SubsetSize(Elements(order), Range(n));
    assert forall v :: v in order <==> v in Elements(order);
    TopologicalIsAcyclic(es, Range(n), order);
    forall other | Topological(es, Range(n), other)
      ensures other == order || LexLess(order, other)
    {
      DistinctSize(other);
      assert Elements(other) == Range(n);
      if other != order {
        GreedyIsLeast(es, n, order, other);
      }
    }
  }

  lemma NextIsReady(es: Edges<nat>, n: nat, order: seq<nat>, k: nat)
    requires Topological(es, Range(n), order) && k < |order|
    ensures order[k] in Ready(es, n, Elements(order[..k]))
  {
    assert order[k] in order;
    forall u | (u, order[k]) in es
      ensures u in Elements(order[..k])
    {
      assert u in order[..k];
    }
  }

  lemma {:induction false} FirstDifference(a: seq<nat>, b: seq<nat>) returns (k: nat)
    requires |a| == |b| && a != b
    ensures k < |a| && a[..k] == b[..k] && a[k] != b[k]
  {
    var front, last := a[..|a| - 1], |a| - 1;
    if front == b[..last] {
      assert a == front + [a[last]] && b == front + [b[last]];
      k := last;
    } else {
      k := FirstDifference(front, b[..last]);
      assert front[..k] == a[..k] && b[..last][..k] == b[..k];
    }
  }

  /** No topological order is smaller at its first difference from the greedy one. */
  lemma GreedyIsLeast(es: Edges<nat>, n: nat, order: seq<nat>, other: seq<nat>)
    requires Greedy(es, n, order) && |order| == |other| && order != other
    requires Topological(es, Range(n), other)
    ensures LexLess(order, other)
  {
    var k := FirstDifference(order, other);
    NextIsReady(es, n, other, k);
    assert IsLeast(Ready(es, n, Elements(order[..k])), order[k]);
  }
}
