// Admission of one scope use (crates/htlk-analyzer/src/graph_verify.rs:445-812): the
// wait graph is built, ordered and searched over canonical vertex indexes.

module GraphVerify {
  import opened Wrappers
  import opened Graphs
  import opened WaitGraph
  import Kahn
  import opened WaitOrder

  // ---- Vertices by index ----

  function Indexed<V(==)>(es: Edges<V>, vs: seq<V>): Edges<nat> {
    set i: nat, j: nat | i < |vs| && j < |vs| && (vs[i], vs[j]) in es :: (i, j)
  }

  ghost function IndexOf<V(!new)>(vs: seq<V>, v: V): (i: nat)
    requires v in vs
    ensures i < |vs| && vs[i] == v
  {
    var i :| 0 <= i < |vs| && vs[i] == v;
    i
  }

  lemma PathOfVertices<V(!new)>(es: Edges<V>, vs: seq<V>, p: seq<nat>) returns (q: seq<V>)
    requires IsPath(Indexed(es, vs), p) && p[0] < |vs|
    ensures IsPath(es, q) && |q| == |p|
    ensures forall i :: 0 <= i < |p| ==> p[i] < |vs| && q[i] == vs[p[i]]
  {
    forall i | 0 <= i < |p|
      ensures p[i] < |vs|
    {
      if i > 0 {
        assert (p[i - 1], p[i]) in Indexed(es, vs);
      }
    }
    q := seq(|p|, i requires 0 <= i < |p| => vs[p[i]]);
    forall i | 0 <= i < |q| - 1
      ensures (q[i], q[i + 1]) in es
    {
      assert (p[i], p[i + 1]) in Indexed(es, vs);
    }
  }

  lemma PathOfIndexes<V(!new)>(es: Edges<V>, vs: seq<V>, q: seq<V>) returns (p: seq<nat>)
    requires IsPath(es, q) && forall v :: v in q ==> v in vs
    ensures IsPath(Indexed(es, vs), p) && |p| == |q|
    ensures forall i :: 0 <= i < |q| ==> p[i] < |vs| && q[i] == vs[p[i]]
  {
    p := seq(|q|, i requires 0 <= i < |q| => assert q[i] in q; IndexOf(vs, q[i]));
    forall i | 0 <= i < |p| - 1
      ensures (p[i], p[i + 1]) in Indexed(es, vs)
    {
      assert (q[i], q[i + 1]) in es;
    }
  }

  ghost predicate Within<V(!new)>(es: Edges<V>, vs: seq<V>) {
    forall e :: e in es ==> e.0 in vs && e.1 in vs
  }

  lemma PathWithin<V(!new)>(es: Edges<V>, vs: seq<V>, q: seq<V>)
    requires IsPath(es, q) && q[0] in vs && Within(es, vs)
    ensures forall v :: v in q ==> v in vs
  {
    forall i | 0 <= i < |q|
      ensures q[i] in vs
    {
      if i > 0 {
        assert (q[i - 1], q[i]) in es;
      }
    }
  }

  lemma SameCycles<V(!new)>(es: Edges<V>, vs: seq<V>)
    requires Distinct(vs) && Within(es, vs)
    ensures Cyclic(Indexed(es, vs)) <==> Cyclic(es)
  {
    if p :| IsCycle(Indexed(es, vs), p) {
      assert (p[0], p[1]) in Indexed(es, vs);
      var q := PathOfVertices(es, vs, p);
      assert IsCycle(es, q);
    }
    if q :| IsCycle(es, q) {
      assert (q[0], q[1]) in es;
      PathWithin(es, vs, q);
      var p := PathOfIndexes(es, vs, q);
      assert IsCycle(Indexed(es, vs), p);
    }
  }

  lemma SameReach<V(!new)>(es: Edges<V>, vs: seq<V>, i: nat, j: nat)
    requires Distinct(vs) && Within(es, vs) && i < |vs| && j < |vs|
    ensures Reaches(Indexed(es, vs), i, j) <==> Reaches(es, vs[i], vs[j])
  {
    if p :| PathFrom(Indexed(es, vs), p, i, j) {
      var q := PathOfVertices(es, vs, p);
      assert PathFrom(es, q, vs[i], vs[j]);
    }
    if q :| PathFrom(es, q, vs[i], vs[j]) {
      PathWithin(es, vs, q);
      var p := PathOfIndexes(es, vs, q);
      assert PathFrom(Indexed(es, vs), p, i, j);
    }
  }

  // ---- Backward liveness ----

  ghost predicate LiveSound(es: Edges<nat>, observed: set<nat>, s: set<nat>) {
    forall v {:trigger ReachesSome(es, v, observed)} :: v in s ==> ReachesSome(es, v, observed)
  }

  /** Nothing that leads to a live vertex is neither live nor waiting to be visited. */
  ghost predicate Frontier(es: Edges<nat>, live: set<nat>, pending: set<nat>) {
    forall e :: e in es && e.1 in live ==> e.0 in live || e.0 in pending
  }

  /** The worklist finds exactly the vertices that reach an observed one. */
  method Live(n: nat, es: Edges<nat>, observed: set<nat>) returns (live: set<nat>)
    requires forall e :: e in es ==> e.0 < n && e.1 < n
    requires observed <= Kahn.Range(n)
    ensures live <= Kahn.Range(n)
    ensures forall v: nat :: v < n ==> (v in live <==> ReachesSome(es, v, observed))
  {
    live := {};
    var pending := observed;
    ObservedLive(es, observed);
    while pending != {}
      invariant Searching(n, es, observed, live, pending)
      decreases Kahn.Range(n) - live, |pending|
    {
      var v :| v in pending;
      if v !in live {
        assert v in Kahn.Range(n) - live;
        var sources := set e | e in es && e.1 == v :: e.0;
        SearchStep(n, es, observed, live, pending, v, sources);
        live := live + {v};
        pending := pending - {v} + sources;
      } else {
        pending := pending - {v};
      }
    }
    ClosedIsLive(es, observed, live);
  }

  /** What is found or pending reaches an observed vertex, and nothing is forgotten. */
  ghost predicate Searching(n: nat, es: Edges<nat>, observed: set<nat>, live: set<nat>, pending: set<nat>) {
    && LiveSound(es, observed, live) && LiveSound(es, observed, pending)
    && live <= Kahn.Range(n) && pending <= Kahn.Range(n)
    && observed <= live + pending && Frontier(es, live, pending)
  }

  lemma ObservedLive(es: Edges<nat>, observed: set<nat>)
    ensures LiveSound(es, observed, observed)
  {
    forall v | v in observed
      ensures ReachesSome(es, v, observed)
    {
      ReachesSelf(es, v);
    }
  }

  lemma ClosedIsLive(es: Edges<nat>, observed: set<nat>, live: set<nat>)
    requires observed <= live && Frontier(es, live, {})
    ensures forall v: nat :: ReachesSome(es, v, observed) ==> v in live
  {
    forall v: nat | ReachesSome(es, v, observed)
      ensures v in live
    {
      var b :| b in observed && Reaches(es, v, b);
      var p :| PathFrom(es, p, v, b);
      ClosedBackwards(es, live, p);
    }
  }

  lemma SourcesReach(es: Edges<nat>, observed: set<nat>, v: nat, sources: set<nat>)
    requires ReachesSome(es, v, observed)
    requires sources == set e | e in es && e.1 == v :: e.0
    ensures LiveSound(es, observed, sources)
  {
    var b :| b in observed && Reaches(es, v, b);
    forall u | u in sources
      ensures ReachesSome(es, u, observed)
    {
      assert (u, v) in es;
      ReachesStep(es, u, v, b);
    }
  }

  lemma SearchStep(
      n: nat, es: Edges<nat>, observed: set<nat>, live: set<nat>, pending: set<nat>, v: nat, sources: set<nat>)
    requires Searching(n, es, observed, live, pending) && v in pending
    requires forall e :: e in es ==> e.0 < n && e.1 < n
    requires sources == set e | e in es && e.1 == v :: e.0
    ensures Searching(n, es, observed, live + {v}, pending - {v} + sources)
  {
    assert ReachesSome(es, v, observed);
    SourcesReach(es, observed, v, sources);
    assert LiveSound(es, observed, live + {v}) && LiveSound(es, observed, pending - {v} + sources);
    assert sources <= Kahn.Range(n);
    assert Frontier(es, live + {v}, pending - {v} + sources);
  }

  lemma {:induction false} ClosedBackwards<V(!new)>(es: Edges<V>, s: set<V>, p: seq<V>)
    requires IsPath(es, p) && p[|p| - 1] in s
    requires forall e :: e in es && e.1 in s ==> e.0 in s
    ensures p[0] in s
  {
    if |p| > 1 {
      assert (p[0], p[1]) in es;
      var q := p[1..];
      assert forall i :: 0 <= i < |q| - 1 ==> (q[i], q[i + 1]) == (p[i + 1], p[i + 2]);
      ClosedBackwards(es, s, q);
    }
  }

  // ---- Binding groups ----

  function Candidates(edges: seq<Edge>, d: Vertex): nat {
    if edges == [] then 0 else
      Candidates(edges[..|edges| - 1], d) + if edges[|edges| - 1].destination == d then 1 else 0
  }

  function Unconditional(edges: seq<Edge>, d: Vertex): nat {
    if edges == [] then 0 else
      var last := edges[|edges| - 1];
      Unconditional(edges[..|edges| - 1], d) + if last.destination == d && last.always then 1 else 0
  }

  lemma {:induction false} CandidatesExist(edges: seq<Edge>, d: Vertex)
    ensures Candidates(edges, d) > 0 <==> exists e :: e in edges && e.destination == d
  {
    if edges != [] {
      var front, last := edges[..|edges| - 1], edges[|edges| - 1];
      CandidatesExist(front, d);
      assert edges == front + [last];
    }
  }

  lemma {:induction false} UnconditionalPositive(edges: seq<Edge>, d: Vertex)
    ensures Unconditional(edges, d) > 0 <==>
      exists i :: 0 <= i < |edges| && edges[i].destination == d && edges[i].always
  {
    if edges != [] {
      var front, last := edges[..|edges| - 1], edges[|edges| - 1];
      UnconditionalPositive(front, d);
      if Unconditional(front, d) > 0 {
        var i :| 0 <= i < |front| && front[i].destination == d && front[i].always;
        assert edges[i] == front[i];
      }
      if i :| 0 <= i < |edges| && edges[i].destination == d && edges[i].always {
        assert i < |front| ==> front[i] == edges[i];
      }
    }
  }

  ghost predicate Clash(edges: seq<Edge>, d: Vertex, i: nat, j: nat) {
    && i < j < |edges| && edges[i].always && edges[j].always
    && edges[i].destination == d && edges[j].destination == d
  }

  /** Counting detects exactly the destinations with two unconditional writers. */
  lemma {:induction false} UnconditionalPairs(edges: seq<Edge>, d: Vertex)
    ensures Unconditional(edges, d) > 1 <==> exists i, j :: Clash(edges, d, i, j)
  {
    if edges != [] {
      var last := |edges| - 1;
      var front := edges[..last];
      UnconditionalPairs(front, d);
      UnconditionalPositive(front, d);
      if i: nat, j: nat :| Clash(front, d, i, j) {
        assert Clash(edges, d, i, j);
      }
      if i :| 0 <= i < |front| && front[i].destination == d && front[i].always {
        assert edges[last].always && edges[last].destination == d ==> Clash(edges, d, i, last);
      }
      if i: nat, j: nat :| Clash(edges, d, i, j) {
        assert front[i] == edges[i];
        assert j < last ==> Clash(front, d, i, j);
      }
    }
  }

  // ---- Admission ----

  datatype Error = UnknownReference | MissingCandidate | UnconditionalWriters | Cycle | Unobservable

  datatype Plan = Plan(vertices: seq<Vertex>, order: seq<nat>)

  method Enumerate<V(!new,==)>(vs: set<V>) returns (r: seq<V>)
    ensures Enumerates(r, vs)
  {
    r := [];
    var rest := vs;
    while rest != {}
      invariant rest <= vs && Distinct(r)
      invariant forall v :: v in r <==> v in vs && v !in rest
      decreases rest
    {
      var v :| v in rest;
      r := r + [v];
      rest := rest - {v};
    }
  }

  /** All waits of a scope, and whether every edge has a known destination. */
  method Collect(s: Scope) returns (deps: Waits)
    ensures deps == Dependencies(s)
  {
    deps := ScopeWaits(s);
    for k := 0 to |s.nodes|
      invariant deps == ScopeWaits(s) + set n, w | n in s.nodes[..k] && w in NodeWaits(s, n) :: w
    {
      assert s.nodes[..k + 1] == s.nodes[..k] + [s.nodes[k]];
      deps := deps + NodeWaits(s, s.nodes[k]);
    }
    assert s.nodes[..|s.nodes|] == s.nodes;
    ghost var before := deps;
    for k := 0 to |s.edges|
      invariant deps == before + set e, w | e in s.edges[..k] && w in EdgeWaits(e) :: w
    {
      assert s.edges[..k + 1] == s.edges[..k] + [s.edges[k]];
      deps := deps + EdgeWaits(s.edges[k]);
    }
    assert s.edges[..|s.edges|] == s.edges;
  }

  /** Candidate and writer counts of every destination decide coverage. */
  method Coverage(s: Scope) returns (r: Option<Error>)
    requires forall e :: e in s.edges ==> e.destination in Destinations(s)
    ensures r.None? <==> Covered(s)
  {
    var rest := Destinations(s);
    while rest != {}
      invariant rest <= Destinations(s)
      invariant forall d :: d in Destinations(s) && d !in rest ==>
        (d in RequiredDestinations(s) ==> Candidates(s.edges, d) > 0) && Unconditional(s.edges, d) <= 1
      decreases rest
    {
      var d :| d in rest;
      CandidatesExist(s.edges, d);
      if d in RequiredDestinations(s) && Candidates(s.edges, d) == 0 {
        return Some(MissingCandidate);
      }
      if Unconditional(s.edges, d) > 1 {
        UnconditionalPairs(s.edges, d);
        return Some(UnconditionalWriters);
      }
      rest := rest - {d};
    }
    CountsCover(s);
    r := None;
  }

  lemma RequiredIsDestination(s: Scope)
    ensures RequiredDestinations(s) <= Destinations(s)
  {
  }

  lemma CountsCover(s: Scope)
    requires forall e :: e in s.edges ==> e.destination in Destinations(s)
    requires forall d :: d in Destinations(s) ==>
      (d in RequiredDestinations(s) ==> Candidates(s.edges, d) > 0) && Unconditional(s.edges, d) <= 1
    ensures Covered(s)
  {
    RequiredIsDestination(s);
    forall d | d in RequiredDestinations(s)
      ensures exists e :: e in s.edges && e.destination == d
    {
      CandidatesExist(s.edges, d);
    }
    forall i, j | 0 <= i < j < |s.edges| && s.edges[i].always && s.edges[j].always
      ensures s.edges[i].destination != s.edges[j].destination
    {
      var d := s.edges[i].destination;
      assert s.edges[i] in s.edges;
      UnconditionalPairs(s.edges, d);
      assert !Clash(s.edges, d, i, j);
    }
  }

  method OrderOf(deps: Waits, vs: seq<Vertex>) returns (r: Option<seq<nat>>)
    requires Distinct(vs) && Within(deps, vs)
    ensures r.None? <==> Cyclic(deps)
    ensures r.Some? ==> Topological(Indexed(deps, vs), Kahn.Range(|vs|), r.value)
    ensures r.Some? ==> Kahn.LexicographicallyLeast(Indexed(deps, vs), |vs|, r.value)
  {
    var es := Indexed(deps, vs);
    var list := Enumerate(es);
    assert Kahn.EdgeSet(list) == es;
    SameCycles(deps, vs);
    r := Kahn.Order(|vs|, list);
  }

  lemma ObservedResolved(s: Scope)
    requires Resolved(s)
    ensures Observed(s) <= Vertices(s)
  {
    forall v | v in Observed(s)
      ensures v in Vertices(s)
    {
      if v in s.postconditions {
        assert (v, Completion) in ScopeWaits(s);
      } else if s.until.Some? && v in s.until.value {
        assert (v, Until) in ScopeWaits(s);
      }
    }
  }

  lemma SameObservation(deps: Waits, vs: seq<Vertex>, targets: set<Vertex>, i: nat)
    requires Distinct(vs) && Within(deps, vs) && i < |vs|
    requires forall v :: v in targets ==> v in vs
    ensures ReachesSome(Indexed(deps, vs), i, set j: nat | j < |vs| && vs[j] in targets)
      <==> ReachesSome(deps, vs[i], targets)
  {
    var es, js := Indexed(deps, vs), set j: nat | j < |vs| && vs[j] in targets;
    if j :| j in js && Reaches(es, i, j) {
      SameReach(deps, vs, i, j);
    }
    if b :| b in targets && Reaches(deps, vs[i], b) {
      var j := IndexOf(vs, b);
      SameReach(deps, vs, i, j);
      assert j in js;
    }
  }

  method CheckObservable(s: Scope, deps: Waits, vs: seq<Vertex>) returns (ok: bool)
    requires deps == Dependencies(s) && Resolved(s)
    requires Enumerates(vs, Vertices(s))
    ensures ok <==> Observable(s)
  {
    ObservedResolved(s);
    var observed := set j: nat | j < |vs| && vs[j] in Observed(s);
    var live := Live(|vs|, Indexed(deps, vs), observed);
    forall i: nat | i < |vs|
      ensures i in live <==> ReachesSome(deps, vs[i], Observed(s))
    {
      SameObservation(deps, vs, Observed(s), i);
    }
    ok := forall i: nat | i < |vs| :: vs[i].Outcome? && IsNode(s, vs[i].node) ==> i in live;
    NodeOutcomes(s, deps, vs, live);
  }

  predicate IsNode(s: Scope, id: string) {
    exists n :: n in s.nodes && n.id == id
  }

  lemma NodeOutcomes(s: Scope, deps: Waits, vs: seq<Vertex>, live: set<nat>)
    requires deps == Dependencies(s)
    requires forall v :: v in vs <==> v in Vertices(s)
    requires forall i: nat :: i < |vs| ==> (i in live <==> ReachesSome(deps, vs[i], Observed(s)))
    ensures Observable(s) <==>
      forall i: nat :: i < |vs| ==> (vs[i].Outcome? && IsNode(s, vs[i].node) ==> i in live)
  {
    forall n | n in s.nodes
      ensures Outcome(n.id) in vs && IsNode(s, n.id)
    {
      assert Outcome(n.id) in NodeVertices(n);
    }
  }

  /** The order ends with completion. */
  lemma CompletionLast(s: Scope, vs: seq<Vertex>, order: seq<nat>)
    requires Wellformed(s) && Admissible(s)
    requires Enumerates(vs, Vertices(s))
    requires Topological(Indexed(Dependencies(s), vs), Kahn.Range(|vs|), order)
    ensures |order| > 0 && order[|order| - 1] < |vs| && vs[order[|order| - 1]] == Completion
  {
    hide *;
    AdmissibleResolves(s);
    var run := RunOf(s, vs, order);
    CompletionEndsRun(s, run);
  }

  lemma AdmissibleResolves(s: Scope)
    requires Admissible(s)
    ensures Resolved(s)
  {
  }

  lemma RunOf(s: Scope, vs: seq<Vertex>, order: seq<nat>) returns (run: seq<Vertex>)
    requires Resolved(s)
    requires Enumerates(vs, Vertices(s))
    requires Topological(Indexed(Dependencies(s), vs), Kahn.Range(|vs|), order)
    ensures IsRun(s, run) && Completion in run && |run| == |order|
    ensures forall k :: 0 <= k < |order| ==> order[k] < |vs| && run[k] == vs[order[k]]
  {
    hide Indexed, Dependencies, Resolved, Respects, Distinct, IsRun;
    forall k | 0 <= k < |order|
      ensures order[k] < |vs|
    {
      assert order[k] in order;
    }
    run := seq(|order|, k requires 0 <= k < |order| => vs[order[k]]);
    OrderIsRun(s, vs, order, run);
    OrderFires(vs, order, run, Completion);
  }

  lemma OrderFires(vs: seq<Vertex>, order: seq<nat>, run: seq<Vertex>, v: Vertex)
    requires v in vs && forall i: nat :: i < |vs| ==> i in order
    requires |run| == |order| && forall k :: 0 <= k < |order| ==> order[k] < |vs| && run[k] == vs[order[k]]
    ensures v in run
  {
    var c := IndexOf(vs, v);
    assert c in order;
    var at :| 0 <= at < |order| && order[at] == c;
    assert run[at] == v;
  }

  lemma OrderIsRun(s: Scope, vs: seq<Vertex>, order: seq<nat>, run: seq<Vertex>)
    requires Resolved(s)
    requires Enumerates(vs, Vertices(s))
    requires Topological(Indexed(Dependencies(s), vs), Kahn.Range(|vs|), order)
    requires |run| == |order| && forall k :: 0 <= k < |order| ==> order[k] < |vs| && run[k] == vs[order[k]]
    ensures IsRun(s, run)
  {
    hide Indexed, Dependencies, Vertices, Resolved, Respects, Distinct, Within;
    ResolvedWithin(s, vs);
    RunRespects(Dependencies(s), vs, order, run);
    RunDistinct(vs, order, run);
    assert forall v :: v in run ==> v in vs;
  }

  lemma RunDistinct<V(!new)>(vs: seq<V>, order: seq<nat>, run: seq<V>)
    requires Distinct(vs) && Distinct(order)
    requires |run| == |order| && forall k :: 0 <= k < |order| ==> order[k] < |vs| && run[k] == vs[order[k]]
    ensures Distinct(run)
  {
  }

  lemma RunRespects<V(!new)>(es: Edges<V>, vs: seq<V>, order: seq<nat>, run: seq<V>)
    requires Within(es, vs) && Respects(Indexed(es, vs), order)
    requires |run| == |order| && forall k :: 0 <= k < |order| ==> order[k] < |vs| && run[k] == vs[order[k]]
    ensures Respects(es, run)
  {
    forall k, u | 0 <= k < |run| && (u, run[k]) in es
      ensures u in run[..k]
    {
      var i := IndexOf(vs, u);
      assert (i, order[k]) in Indexed(es, vs);
      var at :| 0 <= at < k && order[..k][at] == i;
      assert run[..k][at] == u;
    }
  }

  /**
   * A scope use is admitted exactly when its references resolve, its bindings are
   * covered, its wait graph has no cycle and every node's outcome is observable.  The
   * plan orders all events in turn, completion last.
   */
  method Verify(s: Scope) returns (r: Result<Plan, Error>)
    requires Wellformed(s)
    ensures r.Ok? <==> Admissible(s)
    ensures r.Ok? <==> Runnable(s)
    ensures r.Ok? ==> Ordered(s, r.value) && InTurn(s, (u, v) => PlanBefore(r.value, u, v))
  {
    hide Runnable, InTurn, Admissible, Ordered;
    AdmissibleIff(s);
    AdmissibleParts(s);
    if e :| e in s.edges && e.destination !in Destinations(s) {
      return Err(UnknownReference);
    }
    var covered := Coverage(s);
    if covered.Some? {
      return Err(covered.value);
    }
    var deps := Collect(s);
    if w :| w in deps && !(w.0 in Vertices(s) && w.1 in Vertices(s)) {
      return Err(UnknownReference);
    }
    r := Schedule(s, deps);
    if r.Ok? {
      PlanInTurn(s, r.value);
    }
  }

  lemma AdmissibleParts(s: Scope)
    ensures Admissible(s) <==> Resolved(s) && Covered(s) && !Cyclic(Dependencies(s)) && Observable(s)
  {
  }

  /** The plan has `u` somewhere before `v`. */
  predicate PlanBefore(plan: Plan, u: Vertex, v: Vertex) {
    exists j :: 0 <= j < |plan.order| && PlanHas(plan, j, v) && exists i :: 0 <= i < j && PlanHas(plan, i, u)
  }

  predicate PlanHas(plan: Plan, k: nat, v: Vertex)
    requires k < |plan.order|
  {
    plan.order[k] < |plan.vertices| && plan.vertices[plan.order[k]] == v
  }

  /** The events of a plan come in turn. */
  lemma PlanInTurn(s: Scope, plan: Plan)
    requires Resolved(s) && Ordered(s, plan)
    ensures InTurn(s, (u, v) => PlanBefore(plan, u, v))
  {
    hide InTurn, Awaits, Dependencies, Ordered, PlanBefore;
    forall u, v | Awaits(s, u, v)
      ensures PlanBefore(plan, u, v)
    {
      DependenciesIff(s, u, v);
      PlanRespects(s, plan, u, v);
    }
    AwaitsInTurn(s, (u, v) => PlanBefore(plan, u, v));
  }

  lemma PlanRespects(s: Scope, plan: Plan, u: Vertex, v: Vertex)
    requires Resolved(s) && Ordered(s, plan) && (u, v) in Dependencies(s)
    ensures PlanBefore(plan, u, v)
  {
    hide Dependencies, Kahn.LexicographicallyLeast, Vertices;
    ResolvedWithin(s, plan.vertices);
    var i, j := IndexOf(plan.vertices, u), IndexOf(plan.vertices, v);
    assert (i, j) in Indexed(Dependencies(s), plan.vertices);
    assert j in plan.order;
    var k :| 0 <= k < |plan.order| && plan.order[k] == j;
    assert i in plan.order[..k];
    var l :| 0 <= l < k && plan.order[..k][l] == i;
    assert PlanHas(plan, l, u) && PlanHas(plan, k, v);
  }

  method Schedule(s: Scope, deps: Waits) returns (r: Result<Plan, Error>)
    requires Wellformed(s) && deps == Dependencies(s) && Resolved(s) && Covered(s)
    ensures r.Ok? <==> !Cyclic(deps) && Observable(s)
    ensures r.Ok? ==> Ordered(s, r.value)
  {
    hide *;
    var vs := Enumerate(Vertices(s));
    ResolvedWithin(s, vs);
    var order := OrderOf(deps, vs);
    if order.None? {
      return Err(Cycle);
    }
    var live := CheckObservable(s, deps, vs);
    if !live {
      return Err(Unobservable);
    }
    r := Ok(Plan(vs, order.value));
    PlanOrdered(s, r.value);
  }

  lemma ResolvedWithin(s: Scope, vs: seq<Vertex>)
    requires Resolved(s) && Enumerates(vs, Vertices(s))
    ensures Distinct(vs) && Within(Dependencies(s), vs)
  {
  }

  lemma PlanOrdered(s: Scope, plan: Plan)
    requires Wellformed(s) && Resolved(s) && Covered(s) && !Cyclic(Dependencies(s)) && Observable(s)
    requires Enumerates(plan.vertices, Vertices(s))
    requires Topological(Indexed(Dependencies(s), plan.vertices), Kahn.Range(|plan.vertices|), plan.order)
    requires Kahn.LexicographicallyLeast(Indexed(Dependencies(s), plan.vertices), |plan.vertices|, plan.order)
    ensures Ordered(s, plan)
  {
    CompletionLast(s, plan.vertices, plan.order);
  }

  ghost predicate Ordered(s: Scope, plan: Plan) {
    var n := |plan.vertices|;
    && Enumerates(plan.vertices, Vertices(s))
    && Topological(Indexed(Dependencies(s), plan.vertices), Kahn.Range(n), plan.order)
    && Kahn.LexicographicallyLeast(Indexed(Dependencies(s), plan.vertices), n, plan.order)
    && |plan.order| > 0 && plan.order[|plan.order| - 1] < n
    && plan.vertices[plan.order[|plan.order| - 1]] == Completion
  }
}
