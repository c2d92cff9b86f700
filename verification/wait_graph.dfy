// The wait graph of one scope use: construction, coverage, order and observability
// (crates/htlk-analyzer/src/graph_verify.rs:445-799).

module WaitGraph {
  import opened Wrappers
  import opened Graphs

  datatype Vertex =
    | Admission(node: string)
    | Input(node: string, port: string)
    | Outcome(node: string)
    | Output(port: string)
    | Next(port: string)
    | Until
    | Completion

  /** A node, its input ports with their required flags, and what its guard waits for. */
  datatype Node = Node(id: string, inputs: map<string, bool>, guard: set<Vertex>)

  /** A binding candidate; `source` is the producing node, `always` a literal-true guard. */
  datatype Edge = Edge(source: Option<string>, destination: Vertex, guard: set<Vertex>, always: bool)

  /** One use of a scope; a loop body comes with what its termination test waits for. */
  datatype Scope = Scope(
    outputs: map<string, bool>,
    carried: map<string, bool>,
    nodes: seq<Node>,
    edges: seq<Edge>,
    postconditions: set<Vertex>,
    until: Option<set<Vertex>>)

  type Waits = Edges<Vertex>

  /** Expressions wait for outcomes, outputs and next values only. */
  predicate Reference(v: Vertex) {
    v.Outcome? || v.Output? || v.Next?
  }

  predicate References(vs: set<Vertex>) {
    forall v :: v in vs ==> Reference(v)
  }

  predicate Wellformed(s: Scope) {
    && (forall n :: n in s.nodes ==> References(n.guard))
    && (forall e :: e in s.edges ==> References(e.guard))
    && References(s.postconditions)
    && (s.until.Some? ==> References(s.until.value))
  }

  // ---- The specification of the graph ----

  function NodeVertices(n: Node): set<Vertex> {
    {Admission(n.id), Outcome(n.id)} + set p | p in n.inputs :: Input(n.id, p)
  }

  function OutputVertices(s: Scope): set<Vertex> {
    set p | p in s.outputs :: Output(p)
  }

  function NextVertices(s: Scope): set<Vertex> {
    if s.until.Some? then set p | p in s.carried :: Next(p) else {}
  }

  function Vertices(s: Scope): set<Vertex> {
    {Completion} + OutputVertices(s) + NextVertices(s) + (if s.until.Some? then {Until} else {})
    + set n, v | n in s.nodes && v in NodeVertices(n) :: v
  }

  function To(vs: set<Vertex>, v: Vertex): Waits {
    set u | u in vs :: (u, v)
  }

  function NodeWaits(s: Scope, n: Node): Waits {
    {(Admission(n.id), Outcome(n.id)), (Outcome(n.id), Completion)}
    + (set p | p in n.inputs :: (Admission(n.id), Input(n.id, p)))
    + (set p | p in n.inputs :: (Input(n.id, p), Outcome(n.id)))
    + To(n.guard, Admission(n.id))
    + (if s.until.Some? then {(Outcome(n.id), Until)} else {})
  }

  function EdgeWaits(e: Edge): Waits {
    To(e.guard, e.destination) + (if e.source.Some? then {(Outcome(e.source.value), e.destination)} else {})
  }

  /** What public outputs and next values are waited for by. */
  function Boundary(s: Scope): Vertex {
    if s.until.Some? then Until else Completion
  }

  function ScopeWaits(s: Scope): Waits {
    To(s.postconditions, Completion)
    + To(OutputVertices(s) + NextVertices(s), Boundary(s))
    + (if s.until.Some? then To(s.until.value, Until) + {(Until, Completion)} else {})
  }

  function Dependencies(s: Scope): Waits {
    ScopeWaits(s)
    + (set n, w | n in s.nodes && w in NodeWaits(s, n) :: w)
    + (set e, w | e in s.edges && w in EdgeWaits(e) :: w)
  }

  function Observed(s: Scope): set<Vertex> {
    OutputVertices(s) + NextVertices(s) + s.postconditions + (if s.until.Some? then s.until.value else {})
  }

  /** Binding destinations that require a value. */
  function RequiredDestinations(s: Scope): set<Vertex> {
    (set p | p in s.outputs && s.outputs[p] :: Output(p))
    + (if s.until.Some? then set p | p in s.carried && s.carried[p] :: Next(p) else {})
    + set n, p | n in s.nodes && p in n.inputs && n.inputs[p] :: Input(n.id, p)
  }

  function Destinations(s: Scope): set<Vertex> {
    OutputVertices(s) + NextVertices(s) + set n, p | n in s.nodes && p in n.inputs :: Input(n.id, p)
  }

  // ---- Admission ----

  ghost predicate Resolved(s: Scope) {
    && (forall e :: e in s.edges ==> e.destination in Destinations(s))
    && forall w :: w in Dependencies(s) ==> w.0 in Vertices(s) && w.1 in Vertices(s)
  }

  /** Required destinations have a candidate, and no destination two unconditional ones. */
  ghost predicate Covered(s: Scope) {
    && (forall d :: d in RequiredDestinations(s) ==> exists e :: e in s.edges && e.destination == d)
    && forall i, j :: 0 <= i < j < |s.edges| && s.edges[i].always && s.edges[j].always ==>
      s.edges[i].destination != s.edges[j].destination
  }

  ghost predicate Observable(s: Scope) {
    forall n :: n in s.nodes ==> ReachesSome(Dependencies(s), Outcome(n.id), Observed(s))
  }

  ghost predicate ReachesSome<V(!new)>(es: Edges<V>, a: V, targets: set<V>) {
    exists b :: b in targets && Reaches(es, a, b)
  }

  ghost predicate Admissible(s: Scope) {
    Resolved(s) && Covered(s) && !Cyclic(Dependencies(s)) && Observable(s)
  }

  // ---- The end of a scope ----

  /** Completion is the only event nothing waits for. */
  lemma CompletionIsUniqueSink(s: Scope, v: Vertex)
    requires Wellformed(s) && Resolved(s) && v in Vertices(s)
    ensures (exists u :: (v, u) in Dependencies(s)) <==> v != Completion
  {
    CompletionIsSink(s);
    if v != Completion {
      SuccessorWaits(s, v);
    }
  }

  lemma SuccessorWaits(s: Scope, v: Vertex)
    requires v in Vertices(s) && v != Completion
    ensures (v, Successor(s, v)) in Dependencies(s)
  {
    var w := (v, Successor(s, v));
    if v in OutputVertices(s) + NextVertices(s) || v == Until {
      assert w in To(OutputVertices(s) + NextVertices(s), Boundary(s)) || v == Until;
      assert w in ScopeWaits(s);
    } else {
      var n :| n in s.nodes && v in NodeVertices(n);
      assert w in NodeWaits(s, n);
    }
  }

  function Successor(s: Scope, v: Vertex): Vertex {
    match v
    case Admission(n) => Outcome(n)
    case Input(n, _) => Outcome(n)
    case Outcome(_) => Completion
    case Output(_) => Boundary(s)
    case Next(_) => Boundary(s)
    case _ => Completion
  }

  lemma CompletionIsSink(s: Scope)
    requires Wellformed(s)
    ensures forall w :: w in Dependencies(s) ==> w.0 != Completion
  {
    forall w | w in Dependencies(s)
      ensures w.0 != Completion
    {
      if w in ScopeWaits(s) {
        ScopeWaitsSource(s, w);
      } else if n :| n in s.nodes && w in NodeWaits(s, n) {
        NodeWaitsSource(s, n, w);
      } else {
        var e :| e in s.edges && w in EdgeWaits(e);
      }
    }
  }

  lemma ScopeWaitsSource(s: Scope, w: (Vertex, Vertex))
    requires Wellformed(s) && w in ScopeWaits(s)
    ensures w.0 != Completion
  {
  }

  lemma NodeWaitsSource(s: Scope, n: Node, w: (Vertex, Vertex))
    requires Wellformed(s) && n in s.nodes && w in NodeWaits(s, n)
    ensures w.0 != Completion
  {
  }

  /** In an acyclic graph where only one vertex lacks successors, all lead to it. */
  lemma AllLeadToSink<V(!new)>(es: Edges<V>, vs: set<V>, sink: V, v: V)
    requires !Cyclic(es) && v in vs
    requires forall w :: w in es ==> w.0 in vs && w.1 in vs
    requires forall u :: u in vs && u != sink ==> exists w :: (u, w) in es
    ensures Reaches(es, v, sink)
  {
    if !Reaches(es, v, sink) {
      var lost := set u | u in vs && !Reaches(es, u, sink);
      forall u | u in lost
        ensures HasSuccessor(es, lost, u)
      {
        ReachesSelf(es, u);
        var w :| (u, w) in es;
        if Reaches(es, w, sink) {
          ReachesStep(es, u, w, sink);
        }
        assert (u, w) in es && w in lost;
      }
      assert v in lost;
      NoSinkIsCyclic(es, lost);
    }
  }

  /** Events fired one at a time, each after everything it waits for. */
  ghost predicate IsRun(s: Scope, run: seq<Vertex>) {
    Distinct(run) && (forall v :: v in run ==> v in Vertices(s)) && Respects(Dependencies(s), run)
  }

  /** No scheduler gets stuck before completion. */
  lemma RunExtends(s: Scope, run: seq<Vertex>)
    requires Wellformed(s) && Admissible(s) && IsRun(s, run) && Completion !in run
    ensures exists v :: IsRun(s, run + [v])
  {
    var left := set v | v in Vertices(s) && v !in run;
    var es := Dependencies(s);
    assert Completion in left;
    if v :| v in left && !HasPredecessor(es, left, v) {
      var next := run + [v];
      forall k, u | 0 <= k < |next| && (u, next[k]) in es
        ensures u in next[..k]
      {
        if k < |run| {
          assert next[..k] == run[..k] && next[k] == run[k];
        } else {
          assert next[..k] == run;
          assert u in Vertices(s);
        }
      }
      assert IsRun(s, next);
    } else {
      assert Sourceless(es, left);
      NoSourceIsCyclic(es, left);
    }
  }

  /** Completion is the last event: when it has fired, everything has. */
  lemma CompletionEndsRun(s: Scope, run: seq<Vertex>)
    requires Wellformed(s) && Admissible(s) && IsRun(s, run) && Completion in run
    ensures forall v :: v in Vertices(s) ==> v in run
    ensures run[|run| - 1] == Completion
  {
    var es := Dependencies(s);
    forall v | v in Vertices(s)
      ensures v in run
    {
      forall u | u in Vertices(s) && u != Completion
        ensures exists w :: (u, w) in es
      {
        CompletionIsUniqueSink(s, u);
      }
      AllLeadToSink(es, Vertices(s), Completion, v);
      var p :| PathFrom(es, p, v, Completion);
      var at :| 0 <= at < |run| && run[at] == Completion;
      var end := PositionsIncrease(es, run, p, at);
    }
    var last := run[|run| - 1];
    LastHasNoSuccessor(es, run);
    CompletionIsUniqueSink(s, last);
  }

  lemma LastHasNoSuccessor<V(!new)>(es: Edges<V>, run: seq<V>)
    requires run != [] && Distinct(run) && Respects(es, run)
    ensures forall w :: w in run ==> (run[|run| - 1], w) !in es
  {
  }
}
