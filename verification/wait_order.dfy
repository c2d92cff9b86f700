// What waits for what in a scope, event by event, and the order that follows
// (crates/htlk-analyzer/src/graph_verify.rs:509-746).

module WaitOrder {
  import opened Wrappers
  import opened Graphs
  import opened WaitGraph

  // ---- Waiting, in terms of nodes, edges and the scope's own conditions ----

  predicate InputOf(n: Node, v: Vertex) {
    v.Input? && v.node == n.id && v.port in n.inputs
  }

  /** Inside a node: guard, admission, inputs, outcome, and then the end of the scope. */
  predicate NodeAwaits(s: Scope, n: Node, u: Vertex, v: Vertex) {
    || (u in n.guard && v == Admission(n.id))
    || (u == Admission(n.id) && (v == Outcome(n.id) || InputOf(n, v)))
    || (InputOf(n, u) && v == Outcome(n.id))
    || (u == Outcome(n.id) && (v == Completion || (s.until.Some? && v == Until)))
  }

  /** A destination waits for what the guard of the edge reads, and for the producer. */
  predicate EdgeAwaits(e: Edge, u: Vertex, v: Vertex) {
    v == e.destination && (u in e.guard || (e.source.Some? && u == Outcome(e.source.value)))
  }

  /** Results of the scope: its outputs, and the next values of a loop body. */
  predicate ResultOf(s: Scope, v: Vertex) {
    (v.Output? && v.port in s.outputs) || (v.Next? && s.until.Some? && v.port in s.carried)
  }

  /** At the end: results before the termination test of a loop body, conditions, completion. */
  predicate EndAwaits(s: Scope, u: Vertex, v: Vertex) {
    || (u in s.postconditions && v == Completion)
    || (ResultOf(s, u) && v == if s.until.Some? then Until else Completion)
    || (s.until.Some? && ((u in s.until.value && v == Until) || (u == Until && v == Completion)))
  }

  /** Event `v` waits for event `u`. */
  ghost predicate Awaits(s: Scope, u: Vertex, v: Vertex) {
    || (exists n :: n in s.nodes && NodeAwaits(s, n, u, v))
    || (exists e :: e in s.edges && EdgeAwaits(e, u, v))
    || EndAwaits(s, u, v)
  }

  lemma NodeWaitsIff(s: Scope, n: Node, u: Vertex, v: Vertex)
    ensures (u, v) in NodeWaits(s, n) <==> NodeAwaits(s, n, u, v)
  {
  }

  lemma EdgeWaitsIff(e: Edge, u: Vertex, v: Vertex)
    ensures (u, v) in EdgeWaits(e) <==> EdgeAwaits(e, u, v)
  {
  }

  lemma ResultIff(s: Scope, v: Vertex)
    ensures v in OutputVertices(s) + NextVertices(s) <==> ResultOf(s, v)
  {
  }

  lemma EndWaitsIff(s: Scope, u: Vertex, v: Vertex)
    ensures (u, v) in ScopeWaits(s) <==> EndAwaits(s, u, v)
  {
    hide OutputVertices, NextVertices, ResultOf;
    ResultIff(s, u);
  }

  /** The dependencies of a scope are exactly what its events wait for. */
  lemma DependenciesIff(s: Scope, u: Vertex, v: Vertex)
    ensures (u, v) in Dependencies(s) <==> Awaits(s, u, v)
  {
    hide NodeWaits, EdgeWaits, ScopeWaits, NodeAwaits, EdgeAwaits, EndAwaits;
    EndWaitsIff(s, u, v);
    forall n | n in s.nodes
      ensures (u, v) in NodeWaits(s, n) <==> NodeAwaits(s, n, u, v)
    {
      NodeWaitsIff(s, n, u, v);
    }
    forall e | e in s.edges
      ensures (u, v) in EdgeWaits(e) <==> EdgeAwaits(e, u, v)
    {
      EdgeWaitsIff(e, u, v);
    }
  }

  // ---- The order of events ----

  /** An order in which everything a scope lays down comes in turn. */
  ghost predicate InTurn(s: Scope, before: (Vertex, Vertex) -> bool) {
    && (forall e, u :: e in s.edges && u in e.guard ==> before(u, e.destination))
    && (forall e :: e in s.edges && e.source.Some? ==> before(Outcome(e.source.value), e.destination))
    && (forall n, u :: n in s.nodes && u in n.guard ==> before(u, Admission(n.id)))
    && (forall n, p :: n in s.nodes && p in n.inputs ==> before(Admission(n.id), Input(n.id, p)))
    && (forall n, p :: n in s.nodes && p in n.inputs ==> before(Input(n.id, p), Outcome(n.id)))
    && (forall n :: n in s.nodes ==> before(Admission(n.id), Outcome(n.id)) && before(Outcome(n.id), Completion))
    && (forall u :: u in s.postconditions ==> before(u, Completion))
    && (s.until.None? ==> forall p :: p in s.outputs ==> before(Output(p), Completion))
    && (s.until.Some? ==> LoopInTurn(s, before))
  }

  ghost predicate LoopInTurn(s: Scope, before: (Vertex, Vertex) -> bool)
    requires s.until.Some?
  {
    && (forall p :: p in s.outputs ==> before(Output(p), Until))
    && (forall p :: p in s.carried ==> before(Next(p), Until))
    && (forall u :: u in s.until.value ==> before(u, Until))
    && (forall n :: n in s.nodes ==> before(Outcome(n.id), Until))
    && before(Until, Completion)
  }

  lemma AwaitsInTurn(s: Scope, before: (Vertex, Vertex) -> bool)
    requires forall u, v :: Awaits(s, u, v) ==> before(u, v)
    ensures InTurn(s, before)
  {
    hide LoopInTurn;
    forall e, u | e in s.edges && u in e.guard
      ensures Awaits(s, u, e.destination)
    {
      assert EdgeAwaits(e, u, e.destination);
    }
    forall e | e in s.edges && e.source.Some?
      ensures Awaits(s, Outcome(e.source.value), e.destination)
    {
      assert EdgeAwaits(e, Outcome(e.source.value), e.destination);
    }
    forall n | n in s.nodes
      ensures forall u, v :: NodeAwaits(s, n, u, v) ==> Awaits(s, u, v)
    {
    }
    forall n, u | n in s.nodes && u in n.guard
      ensures Awaits(s, u, Admission(n.id))
    {
      assert NodeAwaits(s, n, u, Admission(n.id));
    }
    forall n, p | n in s.nodes && p in n.inputs
      ensures Awaits(s, Admission(n.id), Input(n.id, p)) && Awaits(s, Input(n.id, p), Outcome(n.id))
    {
      assert NodeAwaits(s, n, Admission(n.id), Input(n.id, p)) && NodeAwaits(s, n, Input(n.id, p), Outcome(n.id));
    }
    forall n | n in s.nodes
      ensures Awaits(s, Admission(n.id), Outcome(n.id)) && Awaits(s, Outcome(n.id), Completion)
    {
      assert NodeAwaits(s, n, Admission(n.id), Outcome(n.id)) && NodeAwaits(s, n, Outcome(n.id), Completion);
    }
    if s.until.Some? {
      AwaitsLoopInTurn(s, before);
    }
  }

  lemma AwaitsLoopInTurn(s: Scope, before: (Vertex, Vertex) -> bool)
    requires s.until.Some? && forall u, v :: Awaits(s, u, v) ==> before(u, v)
    ensures LoopInTurn(s, before)
  {
    assert forall u, v :: EndAwaits(s, u, v) ==> Awaits(s, u, v);
    assert EndAwaits(s, Until, Completion);
    assert forall p :: p in s.outputs ==> EndAwaits(s, Output(p), Until);
    assert forall p :: p in s.carried ==> EndAwaits(s, Next(p), Until);
    assert forall u :: u in s.until.value ==> EndAwaits(s, u, Until);
    forall n | n in s.nodes
      ensures Awaits(s, Outcome(n.id), Until)
    {
      assert NodeAwaits(s, n, Outcome(n.id), Until);
    }
  }

  /** If `v` has happened in a run, `u` happened earlier. */
  predicate Earlier(run: seq<Vertex>, u: Vertex, v: Vertex) {
    forall k :: 0 <= k < |run| && run[k] == v ==> u in run[..k]
  }

  /** Every run takes events in turn, whatever it has left to do. */
  lemma RunInTurn(s: Scope, run: seq<Vertex>)
    requires IsRun(s, run)
    ensures InTurn(s, (u, v) => Earlier(run, u, v))
  {
    forall u, v | Awaits(s, u, v)
      ensures Earlier(run, u, v)
    {
      DependenciesIff(s, u, v);
    }
    AwaitsInTurn(s, (u, v) => Earlier(run, u, v));
  }

  // ---- Chains of waiting ----

  /** Each event of the sequence waits for the one before it. */
  ghost predicate Chain(s: Scope, p: seq<Vertex>) {
    |p| > 0 && forall i :: 0 <= i < |p| - 1 ==> Awaits(s, p[i], p[i + 1])
  }

  /** Event `v` waits for `u`, directly or not, or is `u`. */
  ghost predicate Follows(s: Scope, u: Vertex, v: Vertex) {
    exists p :: Chain(s, p) && p[0] == u && p[|p| - 1] == v
  }

  lemma ChainIsPath(s: Scope, p: seq<Vertex>)
    ensures Chain(s, p) <==> IsPath(Dependencies(s), p)
  {
    hide Dependencies, Awaits;
    forall i | 0 <= i < |p| - 1
      ensures Awaits(s, p[i], p[i + 1]) <==> (p[i], p[i + 1]) in Dependencies(s)
    {
      DependenciesIff(s, p[i], p[i + 1]);
    }
  }

  lemma FollowsIff(s: Scope, u: Vertex, v: Vertex)
    ensures Follows(s, u, v) <==> Reaches(Dependencies(s), u, v)
  {
    hide Dependencies, Awaits;
    forall p
      ensures Chain(s, p) <==> IsPath(Dependencies(s), p)
    {
      ChainIsPath(s, p);
    }
    if p :| Chain(s, p) && p[0] == u && p[|p| - 1] == v {
      assert PathFrom(Dependencies(s), p, u, v);
    }
    if p :| PathFrom(Dependencies(s), p, u, v) {
      assert Chain(s, p) && p[0] == u && p[|p| - 1] == v;
    }
  }

  // ---- Admission, in the same terms ----

  /** Where an edge may lead. */
  ghost predicate Declared(s: Scope, v: Vertex) {
    ResultOf(s, v) || exists n :: n in s.nodes && InputOf(n, v)
  }

  ghost predicate Event(s: Scope, v: Vertex) {
    || Declared(s, v) || v == Completion || (s.until.Some? && v == Until)
    || exists n :: n in s.nodes && v in {Admission(n.id), Outcome(n.id)}
  }

  predicate Feeds(s: Scope, v: Vertex) {
    exists e :: e in s.edges && e.destination == v
  }

  /** Every required input, output and next value has an edge. */
  ghost predicate Fed(s: Scope) {
    && (forall n, p :: n in s.nodes && p in n.inputs && n.inputs[p] ==> Feeds(s, Input(n.id, p)))
    && (forall p :: p in s.outputs && s.outputs[p] ==> Feeds(s, Output(p)))
    && (s.until.Some? ==> forall p :: p in s.carried && s.carried[p] ==> Feeds(s, Next(p)))
  }

  /** What the outside sees: results, conditions and the termination test. */
  predicate Visible(s: Scope, v: Vertex) {
    ResultOf(s, v) || v in s.postconditions || (s.until.Some? && v in s.until.value)
  }

  /** No event waits for itself, however long the way. */
  ghost predicate NoCircle(s: Scope) {
    forall p :: Chain(s, p) && |p| >= 2 ==> p[0] != p[|p| - 1]
  }

  /** What makes a scope fit to run. */
  ghost predicate Runnable(s: Scope) {
    && (forall e :: e in s.edges ==> Declared(s, e.destination))
    && (forall u, v :: Awaits(s, u, v) ==> Event(s, u) && Event(s, v))
    && Fed(s)
    && (forall i, j :: 0 <= i < j < |s.edges| && s.edges[i].always && s.edges[j].always ==>
      s.edges[i].destination != s.edges[j].destination)
    && NoCircle(s)
    && forall n :: n in s.nodes ==> exists v :: Visible(s, v) && Follows(s, Outcome(n.id), v)
  }

  lemma DeclaredIff(s: Scope, v: Vertex)
    ensures Declared(s, v) <==> v in Destinations(s)
  {
    ResultIff(s, v);
  }

  lemma EventIff(s: Scope, v: Vertex)
    ensures Event(s, v) <==> v in Vertices(s)
  {
    ResultIff(s, v);
    forall n | n in s.nodes
      ensures v in NodeVertices(n) <==> InputOf(n, v) || v in {Admission(n.id), Outcome(n.id)}
    {
    }
  }

  lemma VisibleIff(s: Scope, v: Vertex)
    ensures Visible(s, v) <==> v in Observed(s)
  {
    ResultIff(s, v);
  }

  lemma ResolvedIff(s: Scope)
    ensures Resolved(s) <==>
      (forall e :: e in s.edges ==> Declared(s, e.destination)) &&
      forall u, v :: Awaits(s, u, v) ==> Event(s, u) && Event(s, v)
  {
    hide Declared, Event, Awaits, Dependencies, Vertices, Destinations;
    forall e | e in s.edges
      ensures Declared(s, e.destination) <==> e.destination in Destinations(s)
    {
      DeclaredIff(s, e.destination);
    }
    forall u, v
      ensures (u, v) in Dependencies(s) <==> Awaits(s, u, v)
      ensures Event(s, u) <==> u in Vertices(s)
      ensures Event(s, v) <==> v in Vertices(s)
    {
      DependenciesIff(s, u, v);
      EventIff(s, u);
      EventIff(s, v);
    }
    forall w | w in Dependencies(s)
      ensures Awaits(s, w.0, w.1)
    {
      assert w == (w.0, w.1);
    }
  }

  lemma FedIff(s: Scope)
    ensures Fed(s) <==> forall d :: d in RequiredDestinations(s) ==> exists e :: e in s.edges && e.destination == d
  {
    hide Feeds;
    assert forall d :: Feeds(s, d) <==> exists e :: e in s.edges && e.destination == d by {
      FeedsIs(s);
    }
    if forall d :: d in RequiredDestinations(s) ==> Feeds(s, d) {
      assert forall n, p :: n in s.nodes && p in n.inputs && n.inputs[p] ==> Input(n.id, p) in RequiredDestinations(s);
      assert forall p :: p in s.outputs && s.outputs[p] ==> Output(p) in RequiredDestinations(s);
      assert s.until.Some? ==> forall p :: p in s.carried && s.carried[p] ==> Next(p) in RequiredDestinations(s);
    }
  }

  lemma FeedsIs(s: Scope)
    ensures forall d :: Feeds(s, d) <==> exists e :: e in s.edges && e.destination == d
  {
  }

  lemma NoCircleIff(s: Scope)
    ensures NoCircle(s) <==> !Cyclic(Dependencies(s))
  {
    hide Dependencies, Awaits;
    forall p
      ensures Chain(s, p) <==> IsPath(Dependencies(s), p)
    {
      ChainIsPath(s, p);
    }
    if p :| Chain(s, p) && |p| >= 2 && p[0] == p[|p| - 1] {
      assert IsCycle(Dependencies(s), p);
    }
    if p :| IsCycle(Dependencies(s), p) {
      assert Chain(s, p) && |p| >= 2 && p[0] == p[|p| - 1];
    }
  }

  lemma ObservableIff(s: Scope)
    ensures Observable(s) <==>
      forall n :: n in s.nodes ==> exists v :: Visible(s, v) && Follows(s, Outcome(n.id), v)
  {
    hide Dependencies, Observed, Visible, Follows, Reaches;
    forall n | n in s.nodes
      ensures ReachesSome(Dependencies(s), Outcome(n.id), Observed(s))
        <==> exists v :: Visible(s, v) && Follows(s, Outcome(n.id), v)
    {
      forall v
        ensures Visible(s, v) && Follows(s, Outcome(n.id), v)
          <==> v in Observed(s) && Reaches(Dependencies(s), Outcome(n.id), v)
      {
        VisibleIff(s, v);
        FollowsIff(s, Outcome(n.id), v);
      }
      if v :| v in Observed(s) && Reaches(Dependencies(s), Outcome(n.id), v) {
        assert Visible(s, v) && Follows(s, Outcome(n.id), v);
      }
    }
  }

  /** Admission is exactly fitness to run. */
  lemma AdmissibleIff(s: Scope)
    ensures Admissible(s) <==> Runnable(s)
  {
    hide Dependencies, Observable, Resolved, Fed, NoCircle, Declared, Event, Awaits, Visible, Follows;
    ResolvedIff(s);
    FedIff(s);
    NoCircleIff(s);
    ObservableIff(s);
  }

  /** A guard that reads what only happens after its own destination is never admitted. */
  lemma GuardOnItself(s: Scope, e: Edge, u: Vertex)
    requires e in s.edges && u in e.guard && Follows(s, e.destination, u)
    ensures !Admissible(s)
  {
    hide Admissible, Follows, Runnable;
    AdmissibleIff(s);
    assert Awaits(s, u, e.destination) by {
      assert EdgeAwaits(e, u, e.destination);
    }
    if Runnable(s) {
      CloseCircle(s, e.destination, u);
    }
  }

  lemma CloseCircle(s: Scope, u: Vertex, v: Vertex)
    requires Follows(s, u, v) && Awaits(s, v, u)
    ensures !NoCircle(s) && !Runnable(s)
  {
    hide Awaits, Event, Declared, Fed, Visible;
    var p :| Chain(s, p) && p[0] == u && p[|p| - 1] == v;
    var q := p + [u];
    forall i | 0 <= i < |q| - 1
      ensures Awaits(s, q[i], q[i + 1])
    {
      if i < |p| - 1 {
        assert q[i] == p[i] && q[i + 1] == p[i + 1];
      }
    }
    assert Chain(s, q) && |q| >= 2 && q[0] == q[|q| - 1];
  }

  /** In particular an input may not depend on a guard that reads its node's own outcome. */
  lemma InputOnOwnOutcome(s: Scope, n: Node, e: Edge)
    requires n in s.nodes && e in s.edges && InputOf(n, e.destination) && Outcome(n.id) in e.guard
    ensures !Admissible(s)
  {
    hide Admissible, Follows;
    var p := [e.destination, Outcome(n.id)];
    assert NodeAwaits(s, n, p[0], p[1]);
    assert Chain(s, p);
    FollowsBy(s, p);
    GuardOnItself(s, e, Outcome(n.id));
  }

  lemma FollowsBy(s: Scope, p: seq<Vertex>)
    requires Chain(s, p)
    ensures Follows(s, p[0], p[|p| - 1])
  {
  }

  /** Nor may a node's guard read an outcome that comes after the node. */
  lemma NodeOnItself(s: Scope, n: Node, u: Vertex)
    requires n in s.nodes && u in n.guard && Follows(s, Admission(n.id), u)
    ensures !Admissible(s)
  {
    hide Admissible, Follows, Runnable;
    AdmissibleIff(s);
    assert Awaits(s, u, Admission(n.id)) by {
      assert NodeAwaits(s, n, u, Admission(n.id));
    }
    CloseCircle(s, Admission(n.id), u);
  }
}
