// Finite directed graphs: paths, cycles, reachability.

module Graphs {

  type Edges<V(==)> = set<(V, V)>

  ghost predicate IsPath<V(!new)>(es: Edges<V>, p: seq<V>) {
    |p| > 0 && forall i :: 0 <= i < |p| - 1 ==> (p[i], p[i + 1]) in es
  }

  ghost predicate PathFrom<V(!new)>(es: Edges<V>, p: seq<V>, a: V, b: V) {
    IsPath(es, p) && p[0] == a && p[|p| - 1] == b
  }

  ghost predicate Reaches<V(!new)>(es: Edges<V>, a: V, b: V) {
    exists p :: PathFrom(es, p, a, b)
  }

  ghost predicate IsCycle<V(!new)>(es: Edges<V>, p: seq<V>) {
    IsPath(es, p) && |p| >= 2 && p[0] == p[|p| - 1]
  }

  ghost predicate Cyclic<V(!new)>(es: Edges<V>) {
    exists p :: IsCycle(es, p)
  }

  lemma ReachesSelf<V(!new)>(es: Edges<V>, a: V)
    ensures Reaches(es, a, a)
  {
    assert PathFrom(es, [a], a, a);
  }

  lemma PathPrepend<V(!new)>(es: Edges<V>, a: V, p: seq<V>)
    requires IsPath(es, p) && (a, p[0]) in es
    ensures IsPath(es, [a] + p)
  {
  }

  lemma ReachesStep<V(!new)>(es: Edges<V>, a: V, b: V, c: V)
    requires (a, b) in es && Reaches(es, b, c)
    ensures Reaches(es, a, c)
  {
    var p :| PathFrom(es, p, b, c);
    PathPrepend(es, a, p);
    assert PathFrom(es, [a] + p, a, c);
  }

  lemma ReachesAfter<V(!new)>(es: Edges<V>, a: V, b: V, c: V)
    requires Reaches(es, a, b) && (b, c) in es
    ensures Reaches(es, a, c)
  {
    var p :| PathFrom(es, p, a, b);
    var q := p + [c];
    forall i | 0 <= i < |q| - 1
      ensures (q[i], q[i + 1]) in es
    {
      if i < |p| - 1 {
        assert q[i] == p[i] && q[i + 1] == p[i + 1];
      }
    }
    assert PathFrom(es, q, a, c);
  }

  lemma {:induction false} SubsetOfSameSize<T(!new)>(a: set<T>, b: set<T>)
    requires a <= b && |a| == |b|
    ensures a == b
  {
    if a != {} {
      var x :| x in a;
      SubsetOfSameSize(a - {x}, b - {x});
    }
  }

  /** A sequence longer than the set it runs through repeats itself. */
  lemma {:induction false} Pigeonhole<V(!new)>(p: seq<V>, s: set<V>) returns (i: nat, j: nat)
    requires (forall x :: x in p ==> x in s) && |p| > |s|
    ensures i < j < |p| && p[i] == p[j]
  {
    var last := p[|p| - 1];
    var front := p[..|p| - 1];
    if last in front {
      i :| 0 <= i < |front| && front[i] == last;
      j := |p| - 1;
    } else {
      assert forall x :: x in front ==> x in s - {last};
      i, j := Pigeonhole(front, s - {last});
    }
  }

  ghost predicate HasPredecessor<V(!new)>(es: Edges<V>, s: set<V>, x: V) {
    exists u :: u in s && (u, x) in es
  }

  ghost predicate HasSuccessor<V(!new)>(es: Edges<V>, s: set<V>, x: V) {
    exists u :: u in s && (x, u) in es
  }

  ghost predicate Sourceless<V(!new)>(es: Edges<V>, s: set<V>) {
    forall x {:trigger HasPredecessor(es, s, x)} :: x in s ==> HasPredecessor(es, s, x)
  }

  ghost predicate Sinkless<V(!new)>(es: Edges<V>, s: set<V>) {
    forall x {:trigger HasSuccessor(es, s, x)} :: x in s ==> HasSuccessor(es, s, x)
  }

  /** Walking backwards inside a set where every element has a predecessor. */
  lemma {:induction false} WalkBack<V(!new)>(es: Edges<V>, s: set<V>, v: V, n: nat) returns (p: seq<V>)
    requires v in s && Sourceless(es, s)
    ensures |p| == n + 1 && IsPath(es, p) && forall x :: x in p ==> x in s
  {
    if n == 0 {
      p := [v];
    } else {
      var q := WalkBack(es, s, v, n - 1);
      assert q[0] in q && HasPredecessor(es, s, q[0]);
      var u :| u in s && (u, q[0]) in es;
      PathPrepend(es, u, q);
      p := [u] + q;
    }
  }

  /** If every element of a nonempty set has a predecessor in it, there is a cycle. */
  lemma NoSourceIsCyclic<V(!new)>(es: Edges<V>, s: set<V>)
    requires s != {} && Sourceless(es, s)
    ensures Cyclic(es)
  {
    var v :| v in s;
    var p := WalkBack(es, s, v, |s|);
    var i, j := Pigeonhole(p, s);
    var c := p[i..j + 1];
    assert IsPath(es, c) by {
      forall k | 0 <= k < |c| - 1
        ensures (c[k], c[k + 1]) in es
      {
        assert c[k] == p[i + k] && c[k + 1] == p[i + k + 1];
      }
    }
    assert IsCycle(es, c);
  }

  function Flip<V(==)>(es: Edges<V>): Edges<V> {
    set e | e in es :: (e.1, e.0)
  }

  lemma FlipPath<V(!new)>(es: Edges<V>, p: seq<V>) returns (q: seq<V>)
    requires IsPath(Flip(es), p)
    ensures IsPath(es, q) && |q| == |p| && q[0] == p[|p| - 1] && q[|q| - 1] == p[0]
  {
    q := seq(|p|, i requires 0 <= i < |p| => p[|p| - 1 - i]);
    forall i | 0 <= i < |q| - 1
      ensures (q[i], q[i + 1]) in es
    {
      var k := |p| - 2 - i;
      assert (p[k], p[k + 1]) in Flip(es);
    }
  }

  lemma FlipCyclic<V(!new)>(es: Edges<V>)
    requires Cyclic(Flip(es))
    ensures Cyclic(es)
  {
    var p :| IsCycle(Flip(es), p);
    var q := FlipPath(es, p);
    assert IsCycle(es, q);
  }

  lemma FlipSuccessor<V(!new)>(es: Edges<V>, s: set<V>, x: V)
    requires HasSuccessor(es, s, x)
    ensures HasPredecessor(Flip(es), s, x)
  {
  }

  /** If every element of a nonempty set has a successor in it, there is a cycle. */
  lemma NoSinkIsCyclic<V(!new)>(es: Edges<V>, s: set<V>)
    requires s != {} && Sinkless(es, s)
    ensures Cyclic(es)
  {
    forall x | x in s
      ensures HasPredecessor(Flip(es), s, x)
    {
      assert HasSuccessor(es, s, x);
      FlipSuccessor(es, s, x);
    }
    NoSourceIsCyclic(Flip(es), s);
    FlipCyclic(es);
  }

  // ---- Topological orders ----

  /** Every predecessor of an element comes before it. */
  ghost predicate Respects<V(!new)>(es: Edges<V>, order: seq<V>) {
    forall k, u :: 0 <= k < |order| && (u, order[k]) in es ==> u in order[..k]
  }

  ghost predicate Distinct<V(!new)>(s: seq<V>) {
    forall i, j :: 0 <= i < j < |s| ==> s[i] != s[j]
  }

  ghost predicate Topological<V(!new)>(es: Edges<V>, vs: set<V>, order: seq<V>) {
    Enumerates(order, vs) && Respects(es, order)
  }

  /** Lists every element of the set once.  (Naming a conjunction makes it one fact to check.) */
  ghost predicate Enumerates<V(!new)>(s: seq<V>, vs: set<V>) {
    Distinct(s) && forall v :: v in s <==> v in vs
  }

  lemma EnumeratesSnoc<V(!new)>(s: seq<V>, vs: set<V>, v: V)
    requires Enumerates(s, vs) && v !in vs
    ensures Enumerates(s + [v], vs + {v})
  {
  }

  lemma EnumeratesFront<V(!new)>(s: seq<V>, vs: set<V>)
    requires Enumerates(s, vs) && s != []
    ensures Enumerates(s[..|s| - 1], vs - {s[|s| - 1]})
  {
  }

  lemma {:induction false} PositionsIncrease<V(!new)>(
      es: Edges<V>, order: seq<V>, p: seq<V>, at: nat)
    returns (end: nat)
    requires Distinct(order) && Respects(es, order) && IsPath(es, p)
    requires at < |order| && order[at] == p[|p| - 1]
    ensures end < |order| && order[end] == p[0]
    ensures |p| >= 2 ==> end < at
  {
    end := at;
    var k := |p| - 1;
    while k > 0
      invariant 0 <= k < |p| && end < |order| && order[end] == p[k]
      invariant k < |p| - 1 ==> end < at
    {
      assert (p[k - 1], p[k]) in es;
      assert p[k - 1] in order[..end];
      var e :| 0 <= e < end && order[..end][e] == p[k - 1];
      end := e;
      k := k - 1;
    }
  }

  /** A graph with a topological order has no cycle. */
  lemma TopologicalIsAcyclic<V(!new)>(es: Edges<V>, vs: set<V>, order: seq<V>)
    requires Topological(es, vs, order)
    requires forall e :: e in es ==> e.0 in vs && e.1 in vs
    ensures !Cyclic(es)
  {
    if p :| IsCycle(es, p) {
      assert (p[|p| - 2], p[|p| - 1]) in es;
      assert p[|p| - 1] in order;
      var at :| 0 <= at < |order| && order[at] == p[|p| - 1];
      var end := PositionsIncrease(es, order, p, at);
      assert false;
    }
  }

  /** A graph whose edges all climb has no cycle. */
  lemma ClimbingIsAcyclic<V(!new)>(es: Edges<V>, rank: V -> int)
    requires forall e :: e in es ==> rank(e.0) < rank(e.1)
    ensures !Cyclic(es)
  {
    if p :| IsCycle(es, p) {
      PathClimbs(es, rank, p, |p| - 1);
    }
  }

  lemma {:induction false} PathClimbs<V(!new)>(es: Edges<V>, rank: V -> int, p: seq<V>, k: nat)
    requires forall e :: e in es ==> rank(e.0) < rank(e.1)
    requires IsPath(es, p) && k < |p|
    ensures rank(p[0]) + k <= rank(p[k])
  {
    if k > 0 {
      PathClimbs(es, rank, p, k - 1);
      assert (p[k - 1], p[k]) in es;
    }
  }

  /** A set that no edge leaves holds everything reached from it. */
  lemma ReachStays<V(!new)>(es: Edges<V>, s: set<V>, a: V, b: V)
    requires forall e :: e in es && e.0 in s ==> e.1 in s
    requires a in s && Reaches(es, a, b)
    ensures b in s
  {
    var p :| PathFrom(es, p, a, b);
    for k := 0 to |p| - 1
      invariant p[k] in s
    {
      assert (p[k], p[k + 1]) in es;
    }
  }
}
