// Cycles among the scopes of a document (crates/htlk-analyzer/src/linkage.rs).

module ScopeOrder {
  import opened Graphs
  import opened Documents

  /** How a scope is used: as the root or a sub-scope, or as a loop body. */
  datatype Role = Plain | Body

  /** The scopes that nodes run, with the role each plays. */
  function ChildList(ns: seq<Node>): seq<(Digest, Role)> {
    if ns == [] then [] else
      var front, o := ChildList(ns[..|ns| - 1]), ns[|ns| - 1].operation;
      if o.SubScope? then front + [(o.scope, Plain)] else if o.Loop? then front + [(o.body, Body)] else front
  }

  function Children(s: Scope): seq<(Digest, Role)> {
    ChildList(s.nodes)
  }

  function Runs(scopes: map<Digest, Scope>): Edges<Digest> {
    set d, c | d in scopes && c in Children(scopes[d]) :: (d, c.0)
  }

  ghost predicate ChildrenPresent(scopes: map<Digest, Scope>) {
    forall d, c :: d in scopes && c in Children(scopes[d]) ==> c.0 in scopes
  }

  // ---- Counting the users of a scope ----

  /** How often a list of children names a scope. */
  function Times(children: seq<(Digest, Role)>, c: Digest): nat {
    if children == [] then 0 else
      Times(children[..|children| - 1], c) + if children[|children| - 1].0 == c then 1 else 0
  }

  /** How often the scopes of `ks` outside `done` name a scope. */
  function Degree(scopes: map<Digest, Scope>, ks: seq<Digest>, done: set<Digest>, c: Digest): nat {
    if ks == [] then 0 else
      var k := ks[|ks| - 1];
      Degree(scopes, ks[..|ks| - 1], done, c) + if k in scopes && k !in done then Times(Children(scopes[k]), c) else 0
  }

  lemma {:induction false} TimesZero(children: seq<(Digest, Role)>, c: Digest)
    ensures Times(children, c) == 0 <==> forall x :: x in children ==> x.0 != c
  {
    if children != [] {
      var front, last := children[..|children| - 1], children[|children| - 1];
      TimesZero(front, c);
      assert forall x :: x in children <==> x in front || x == last;
    }
  }

  lemma TimesSnoc(children: seq<(Digest, Role)>, k: nat, c: Digest)
    requires k < |children|
    ensures Times(children[..k + 1], c) == Times(children[..k], c) + if children[k].0 == c then 1 else 0
  {
    assert children[..k + 1][..k] == children[..k];
  }

  lemma {:induction false} DegreeZero(scopes: map<Digest, Scope>, ks: seq<Digest>, done: set<Digest>, c: Digest)
    ensures Degree(scopes, ks, done, c) == 0 <==>
      forall p :: p in ks && p in scopes && p !in done ==> Times(Children(scopes[p]), c) == 0
  {
    if ks != [] {
      DegreeZero(scopes, ks[..|ks| - 1], done, c);
      assert forall p :: p in ks <==> p in ks[..|ks| - 1] || p == ks[|ks| - 1];
    }
  }

  lemma {:induction false} DegreeSame(
      scopes: map<Digest, Scope>, ks: seq<Digest>, done: set<Digest>, d: Digest, c: Digest)
    requires d !in ks
    ensures Degree(scopes, ks, done + {d}, c) == Degree(scopes, ks, done, c)
  {
    if ks != [] {
      DegreeSame(scopes, ks[..|ks| - 1], done, d, c);
    }
  }

  /** Emitting a scope takes away exactly what it names. */
  lemma {:induction false} DegreeDrop(
      scopes: map<Digest, Scope>, ks: seq<Digest>, done: set<Digest>, d: Digest, c: Digest)
    requires Distinct(ks) && d in ks && d in scopes && d !in done
    ensures Degree(scopes, ks, done + {d}, c) + Times(Children(scopes[d]), c) == Degree(scopes, ks, done, c)
  {
    var front, last := ks[..|ks| - 1], ks[|ks| - 1];
    if last == d {
      assert d !in front;
      DegreeSame(scopes, front, done, d, c);
    } else {
      assert d in front;
      DegreeDrop(scopes, front, done, d, c);
    }
  }

  type Degrees = map<Digest, nat>

  /** Every count is what the remaining scopes name. */
  ghost predicate Counted(scopes: map<Digest, Scope>, ks: seq<Digest>, done: set<Digest>, degrees: Degrees) {
    degrees.Keys == scopes.Keys && forall c :: c in scopes ==> degrees[c] == Degree(scopes, ks, done, c)
  }

  /** The counts while the children of `d` are taken away, `k` of them so far. */
  ghost predicate Taking(
      scopes: map<Digest, Scope>, ks: seq<Digest>, done: set<Digest>, d: Digest, k: nat, degrees: Degrees)
    requires d in scopes && k <= |Children(scopes[d])|
  {
    degrees.Keys == scopes.Keys && forall c :: c in scopes ==>
      degrees[c] + Times(Children(scopes[d])[..k], c) == Degree(scopes, ks, done, c)
  }

  /** The stack holds exactly the remaining scopes that nothing remaining names. */
  ghost predicate Stacked(scopes: map<Digest, Scope>, done: set<Digest>, degrees: Degrees, ready: seq<Digest>) {
    Enumerates(ready, set d | d in scopes && d in degrees && d !in done && degrees[d] == 0)
  }

  /** Emitted scopes in an order where every user comes first. */
  ghost predicate Emitted(scopes: map<Digest, Scope>, done: set<Digest>, order: seq<Digest>) {
    Enumerates(order, done) && done <= scopes.Keys && Respects(Runs(scopes), order)
  }

  /** What is emitted is named by nothing that remains. */
  ghost predicate Unnamed(scopes: map<Digest, Scope>, ks: seq<Digest>, done: set<Digest>, upTo: set<Digest>) {
    forall e :: e in upTo ==> Degree(scopes, ks, done, e) == 0
  }

  lemma {:induction false} TimesPrefix(children: seq<(Digest, Role)>, k: nat, c: Digest)
    requires k <= |children|
    ensures Times(children[..k], c) <= Times(children, c)
    decreases |children|
  {
    if k == |children| {
      assert children[..k] == children;
    } else {
      assert children[..|children| - 1][..k] == children[..k];
      TimesPrefix(children[..|children| - 1], k, c);
    }
  }

  /** The next child still counts, and is neither emitted nor on the stack. */
  lemma TakeNext(scopes: map<Digest, Scope>, ks: seq<Digest>, done: set<Digest>, d: Digest, k: nat, degrees: Degrees,
      ready: seq<Digest>)
    requires Distinct(ks) && d in ks && d in scopes && d !in done && k < |Children(scopes[d])|
    requires ChildrenPresent(scopes)
    requires Taking(scopes, ks, done, d, k, degrees) && Unnamed(scopes, ks, done, done + {d})
    requires Stacked(scopes, done + {d}, degrees, ready)
    ensures
      var c := Children(scopes[d])[k].0;
      && c in degrees && degrees[c] > 0
      && Taking(scopes, ks, done, d, k + 1, degrees[c := degrees[c] - 1])
      && Stacked(scopes, done + {d}, degrees[c := degrees[c] - 1], if degrees[c] == 1 then ready + [c] else ready)
  {
    var children := Children(scopes[d]);
    var c := children[k].0;
    assert children[k] in children;
    DegreeDrop(scopes, ks, done, d, c);
    TimesSnoc(children, k, c);
    TimesPrefix(children, k + 1, c);
    var now := degrees[c := degrees[c] - 1];
    TakenOne(scopes, ks, done, d, k, degrees, c, now);
    StackedOne(scopes, done + {d}, degrees, ready, c, now);
  }

  lemma TakenOne(scopes: map<Digest, Scope>, ks: seq<Digest>, done: set<Digest>, d: Digest, k: nat, degrees: Degrees,
      c: Digest, now: Degrees)
    requires d in scopes && k < |Children(scopes[d])| && c == Children(scopes[d])[k].0 && c in scopes
    requires Taking(scopes, ks, done, d, k, degrees) && degrees[c] > 0 && now == degrees[c := degrees[c] - 1]
    ensures Taking(scopes, ks, done, d, k + 1, now)
  {
    forall x | x in scopes
      ensures now[x] + Times(Children(scopes[d])[..k + 1], x) == Degree(scopes, ks, done, x)
    {
      TimesSnoc(Children(scopes[d]), k, x);
    }
  }

  lemma StackedOne(
      scopes: map<Digest, Scope>, done: set<Digest>, degrees: Degrees, ready: seq<Digest>, c: Digest,
      now: Degrees)
    requires Stacked(scopes, done, degrees, ready) && c in scopes && c in degrees && c !in done && degrees[c] > 0
    requires now == degrees[c := degrees[c] - 1]
    ensures Stacked(scopes, done, now, if degrees[c] == 1 then ready + [c] else ready)
  {
    var before := set d | d in scopes && d in degrees && d !in done && degrees[d] == 0;
    var after := set d | d in scopes && d in now && d !in done && now[d] == 0;
    if degrees[c] == 1 {
      assert after == before + {c};
      EnumeratesSnoc(ready, before, c);
    } else {
      assert after == before;
    }
  }

  /** Takes away what one scope names, and stacks what nothing names any more. */
  method Clear(
      scopes: map<Digest, Scope>, ghost ks: seq<Digest>, ghost done: set<Digest>, d: Digest, before: Degrees,
      left: seq<Digest>)
    returns (degrees: Degrees, ready: seq<Digest>)
    requires Distinct(ks) && d in ks && d in scopes && d !in done && ChildrenPresent(scopes)
    requires Counted(scopes, ks, done, before) && Unnamed(scopes, ks, done, done + {d})
    requires Stacked(scopes, done + {d}, before, left)
    ensures Counted(scopes, ks, done + {d}, degrees) && Stacked(scopes, done + {d}, degrees, ready)
  {
    hide *;
    degrees, ready := before, left;
    TakeNone(scopes, ks, done, d, degrees);
    for k := 0 to |Children(scopes[d])|
      invariant Taking(scopes, ks, done, d, k, degrees) && Stacked(scopes, done + {d}, degrees, ready)
    {
      TakeNext(scopes, ks, done, d, k, degrees, ready);
      var c := Children(scopes[d])[k].0;
      if degrees[c] == 1 {
        ready := ready + [c];
      }
      degrees := degrees[c := degrees[c] - 1];
    }
    TakeAll(scopes, ks, done, d, degrees);
  }

  lemma TakeNone(scopes: map<Digest, Scope>, ks: seq<Digest>, done: set<Digest>, d: Digest, degrees: Degrees)
    requires Counted(scopes, ks, done, degrees) && d in scopes
    ensures Taking(scopes, ks, done, d, 0, degrees)
  {
  }

  lemma TakeAll(scopes: map<Digest, Scope>, ks: seq<Digest>, done: set<Digest>, d: Digest, degrees: Degrees)
    requires Distinct(ks) && d in ks && d in scopes && d !in done
    requires Taking(scopes, ks, done, d, |Children(scopes[d])|, degrees)
    ensures Counted(scopes, ks, done + {d}, degrees)
  {
    var children := Children(scopes[d]);
    assert children[..|children|] == children;
    forall c | c in scopes
      ensures degrees[c] == Degree(scopes, ks, done + {d}, c)
    {
      DegreeDrop(scopes, ks, done, d, c);
    }
  }

  // ---- The whole loop ----

  lemma PopScope(
      scopes: map<Digest, Scope>, ks: seq<Digest>, done: set<Digest>, degrees: Degrees, ready: seq<Digest>,
      order: seq<Digest>)
    requires ready != [] && Enumerates(ks, scopes.Keys) && Counted(scopes, ks, done, degrees)
    requires Stacked(scopes, done, degrees, ready) && Emitted(scopes, done, order)
    ensures
      var d := ready[|ready| - 1];
      && d in scopes && d in ks && d !in done && Stacked(scopes, done + {d}, degrees, ready[..|ready| - 1])
      && Unnamed(scopes, ks, done, done + {d}) && Emitted(scopes, done + {d}, order + [d])
  {
    var d := ready[|ready| - 1];
    assert d in ready;
    var before := set x | x in scopes && x in degrees && x !in done && degrees[x] == 0;
    EnumeratesFront(ready, before);
    assert before - {d} == set x | x in scopes && x in degrees && x !in done + {d} && degrees[x] == 0;
    AllUnnamed(scopes, ks, done, order);
    EmitScope(scopes, ks, done, order, d);
  }

  /** A user of a scope that nothing remaining names is emitted. */
  lemma UserEmitted(scopes: map<Digest, Scope>, ks: seq<Digest>, done: set<Digest>, p: Digest, c: Digest)
    requires Enumerates(ks, scopes.Keys) && Degree(scopes, ks, done, c) == 0 && (p, c) in Runs(scopes)
    ensures p in done
  {
    DegreeZero(scopes, ks, done, c);
    TimesZero(Children(scopes[p]), c);
  }

  lemma AllUnnamed(scopes: map<Digest, Scope>, ks: seq<Digest>, done: set<Digest>, order: seq<Digest>)
    requires Enumerates(ks, scopes.Keys) && Emitted(scopes, done, order)
    ensures Unnamed(scopes, ks, done, done)
  {
    forall e | e in done
      ensures Degree(scopes, ks, done, e) == 0
    {
      DegreeZero(scopes, ks, done, e);
      forall p | p in ks && p in scopes && p !in done
        ensures Times(Children(scopes[p]), e) == 0
      {
        TimesZero(Children(scopes[p]), e);
        NotUser(scopes, done, order, p, e);
      }
    }
  }

  lemma UsersInside(scopes: map<Digest, Scope>, done: set<Digest>, order: seq<Digest>, u: Digest, e: Digest)
    requires Emitted(scopes, done, order) && e in done && (u, e) in Runs(scopes)
    ensures u in done
  {
    assert e in order;
    var k :| 0 <= k < |order| && order[k] == e;
    assert u in order[..k];
  }

  lemma NotUser(scopes: map<Digest, Scope>, done: set<Digest>, order: seq<Digest>, p: Digest, e: Digest)
    requires Emitted(scopes, done, order) && e in done && p in scopes && p !in done
    ensures forall x :: x in Children(scopes[p]) ==> x.0 != e
  {
    forall x | x in Children(scopes[p])
      ensures x.0 != e
    {
      assert (p, x.0) in Runs(scopes);
      if x.0 == e {
        UsersInside(scopes, done, order, p, e);
      }
    }
  }

  lemma EmitScope(scopes: map<Digest, Scope>, ks: seq<Digest>, done: set<Digest>, order: seq<Digest>, d: Digest)
    requires Enumerates(ks, scopes.Keys) && Emitted(scopes, done, order) && d in scopes && d !in done
    requires Degree(scopes, ks, done, d) == 0
    ensures Emitted(scopes, done + {d}, order + [d])
  {
    var more := order + [d];
    EnumeratesSnoc(order, done, d);
    forall k, u | 0 <= k < |more| && (u, more[k]) in Runs(scopes)
      ensures u in more[..k]
    {
      if k == |order| {
        UserEmitted(scopes, ks, done, u, d);
        assert more[..k] == order;
      } else {
        assert more[..k] == order[..k];
      }
    }
  }

  /** Scopes left over name each other in a circle. */
  lemma LeftOver(scopes: map<Digest, Scope>, ks: seq<Digest>, done: set<Digest>, degrees: Degrees, order: seq<Digest>)
    requires Enumerates(ks, scopes.Keys) && Counted(scopes, ks, done, degrees) && Stacked(scopes, done, degrees, [])
    requires Emitted(scopes, done, order) && ChildrenPresent(scopes)
    ensures |order| == |scopes| <==> !Cyclic(Runs(scopes))
  {
    EmittedSize(order, done);
    assert |scopes.Keys| == |scopes|;
    if |order| == |scopes| {
      SubsetOfSameSize(done, scopes.Keys);
      AllOrdered(scopes, order);
    } else {
      assert done != scopes.Keys && done <= scopes.Keys;
      RestCyclic(scopes, ks, done, degrees);
    }
  }

  lemma RestCyclic(scopes: map<Digest, Scope>, ks: seq<Digest>, done: set<Digest>, degrees: Degrees)
    requires Enumerates(ks, scopes.Keys) && Counted(scopes, ks, done, degrees) && Stacked(scopes, done, degrees, [])
    requires done < scopes.Keys
    ensures Cyclic(Runs(scopes))
  {
    var rest := scopes.Keys - done;
    assert scopes.Keys == done + rest;
    forall c | c in rest
      ensures HasPredecessor(Runs(scopes), rest, c)
    {
      RestNamed(scopes, ks, done, degrees, c);
    }
    NoSourceIsCyclic(Runs(scopes), rest);
  }

  lemma AllOrdered(scopes: map<Digest, Scope>, order: seq<Digest>)
    requires Emitted(scopes, scopes.Keys, order) && ChildrenPresent(scopes)
    ensures !Cyclic(Runs(scopes))
  {
    TopologicalIsAcyclic(Runs(scopes), scopes.Keys, order);
  }

  lemma RestNamed(scopes: map<Digest, Scope>, ks: seq<Digest>, done: set<Digest>, degrees: Degrees, c: Digest)
    requires Enumerates(ks, scopes.Keys) && Counted(scopes, ks, done, degrees) && Stacked(scopes, done, degrees, [])
    requires c in scopes && c !in done
    ensures HasPredecessor(Runs(scopes), scopes.Keys - done, c)
  {
    assert c !in [];
    DegreeZero(scopes, ks, done, c);
    var p :| p in ks && p in scopes && p !in done && Times(Children(scopes[p]), c) != 0;
    TimesZero(Children(scopes[p]), c);
    assert (p, c) in Runs(scopes);
  }

  lemma {:induction false} EmittedSize(order: seq<Digest>, done: set<Digest>)
    requires Enumerates(order, done)
    ensures |order| == |done|
  {
    if order == [] {
      assert forall x :: x in done ==> x in order;
    } else {
      var last := order[|order| - 1];
      EnumeratesFront(order, done);
      EmittedSize(order[..|order| - 1], done - {last});
      assert last in order && done == (done - {last}) + {last};
    }
  }

  /** How often each scope is named. */
  method CountDegrees(scopes: map<Digest, Scope>, ks: seq<Digest>) returns (degrees: Degrees)
    requires Enumerates(ks, scopes.Keys) && ChildrenPresent(scopes)
    ensures Counted(scopes, ks, {}, degrees)
  {
    hide *;
    degrees := map d | d in scopes :: 0;
    StartCounting(scopes, degrees);
    for i := 0 to |ks|
      invariant Counted(scopes, ks[..i], {}, degrees)
    {
      KeyAt(scopes, ks, i);
      var children := Children(scopes[ks[i]]);
      AddNone(scopes, ks, i, degrees);
      for k := 0 to |children|
        invariant Adding(scopes, ks, i, k, degrees)
      {
        AddNext(scopes, ks, i, k, degrees);
        var c := children[k].0;
        degrees := degrees[c := degrees[c] + 1];
      }
      AddAll(scopes, ks, i, degrees);
    }
    assert ks[..|ks|] == ks;
  }

  ghost predicate Adding(scopes: map<Digest, Scope>, ks: seq<Digest>, i: nat, k: nat, degrees: Degrees)
    requires i < |ks| && ks[i] in scopes && k <= |Children(scopes[ks[i]])|
  {
    degrees.Keys == scopes.Keys && forall c :: c in scopes ==>
      degrees[c] == Degree(scopes, ks[..i], {}, c) + Times(Children(scopes[ks[i]])[..k], c)
  }

  lemma StartCounting(scopes: map<Digest, Scope>, degrees: Degrees)
    requires degrees == map d | d in scopes :: 0
    ensures forall ks: seq<Digest> :: Counted(scopes, ks[..0], {}, degrees)
  {
  }

  lemma KeyAt(scopes: map<Digest, Scope>, ks: seq<Digest>, i: nat)
    requires Enumerates(ks, scopes.Keys) && i < |ks|
    ensures ks[i] in scopes
  {
    assert ks[i] in ks;
  }

  lemma AddNone(scopes: map<Digest, Scope>, ks: seq<Digest>, i: nat, degrees: Degrees)
    requires i < |ks| && ks[i] in scopes && Counted(scopes, ks[..i], {}, degrees)
    ensures Adding(scopes, ks, i, 0, degrees)
  {
  }

  lemma AddNext(scopes: map<Digest, Scope>, ks: seq<Digest>, i: nat, k: nat, degrees: Degrees)
    requires i < |ks| && ks[i] in scopes && k < |Children(scopes[ks[i]])| && Adding(scopes, ks, i, k, degrees)
    requires ChildrenPresent(scopes)
    ensures
      var c := Children(scopes[ks[i]])[k].0;
      c in degrees && Adding(scopes, ks, i, k + 1, degrees[c := degrees[c] + 1])
  {
    var children := Children(scopes[ks[i]]);
    assert children[k] in children;
    var c := children[k].0;
    var now := degrees[c := degrees[c] + 1];
    forall x | x in scopes
      ensures now[x] == Degree(scopes, ks[..i], {}, x) + Times(children[..k + 1], x)
    {
      TimesSnoc(children, k, x);
    }
  }

  lemma AddAll(scopes: map<Digest, Scope>, ks: seq<Digest>, i: nat, degrees: Degrees)
    requires i < |ks| && ks[i] in scopes && Adding(scopes, ks, i, |Children(scopes[ks[i]])|, degrees)
    ensures Counted(scopes, ks[..i + 1], {}, degrees)
  {
    var children := Children(scopes[ks[i]]);
    assert children[..|children|] == children;
    assert ks[..i + 1][..i] == ks[..i];
  }

  /** Whether no scope runs itself, by emitting scopes that nothing remaining names. */
  method NoCycle(scopes: map<Digest, Scope>) returns (ok: bool)
    requires ChildrenPresent(scopes)
    ensures ok <==> !Cyclic(Runs(scopes))
  {
    hide *;
    var ks := ListKeys(scopes.Keys);
    var degrees: Degrees := CountDegrees(scopes, ks);
    var ready: seq<Digest> := ReadyScopes(scopes, ks, degrees);
    ghost var done: set<Digest>, order: seq<Digest> := {}, [];
    StartEmitting(scopes);
    var count := 0;
    while ready != []
      invariant Counted(scopes, ks, done, degrees) && Stacked(scopes, done, degrees, ready)
      invariant Emitted(scopes, done, order)
      invariant count == |order|
      decreases scopes.Keys - done
    {
      PopScope(scopes, ks, done, degrees, ready, order);
      var d := ready[|ready| - 1];
      KeysDistinct(ks, scopes.Keys);
      count := count + 1;
      degrees, ready := Clear(scopes, ks, done, d, degrees, ready[..|ready| - 1]);
      assert d in scopes.Keys - done && d !in scopes.Keys - (done + {d});
      done, order := done + {d}, order + [d];
    }
    LeftOver(scopes, ks, done, degrees, order);
    ok := count == |scopes|;
  }

  lemma KeysDistinct(ks: seq<Digest>, keys: set<Digest>)
    requires Enumerates(ks, keys)
    ensures Distinct(ks)
  {
  }

  lemma StartEmitting(scopes: map<Digest, Scope>)
    ensures Emitted(scopes, {}, [])
  {
  }

  method ListKeys(keys: set<Digest>) returns (ks: seq<Digest>)
    ensures Enumerates(ks, keys)
  {
    ks := [];
    var rest := keys;
    while rest != {}
      invariant rest <= keys && Enumerates(ks, keys - rest)
      decreases rest
    {
      var k :| k in rest;
      EnumeratesSnoc(ks, keys - rest, k);
      assert keys - rest + {k} == keys - (rest - {k});
      ks, rest := ks + [k], rest - {k};
    }
    assert keys - rest == keys;
  }

  /** The scopes that nothing names. */
  method ReadyScopes(scopes: map<Digest, Scope>, ks: seq<Digest>, degrees: Degrees) returns (ready: seq<Digest>)
    requires Counted(scopes, ks, {}, degrees)
    ensures Stacked(scopes, {}, degrees, ready)
  {
    var none := set d | d in scopes && d in degrees && d !in {} && degrees[d] == 0;
    ready := ListKeys(none);
  }
}
