// The wait graph of a composed graph: which compositions are admitted
// (crates/htlk-compiler/src/join.rs:343-388, crates/htlk-analyzer/src/graph_verify.rs:445-799).

module JoinGraph {
  import opened Wrappers
  import opened Join
  import Types
  import Graphs
  import WaitGraph
  import GraphVerify

  type Vertex = WaitGraph.Vertex

  // ---- The scope of the wrapper ----

  function Flags(ports: map<string, Types.Port>): map<string, bool> {
    map p | p in ports :: ports[p].required
  }

  function NodeOf(ops: Operands, s: Spec, side: Side): WaitGraph.Node {
    WaitGraph.Node(s.Alias(side), Flags(ops.At(side).inputs), {})
  }

  function Target(s: Spec, to: Endpoint): Vertex {
    WaitGraph.Input(s.Alias(to.side), to.port)
  }

  function Producer(s: Spec, source: Source): Option<string> {
    match source
    case FromInput(_) => None
    case FromOperand(from) => Some(s.Alias(from.side))
  }

  function EntryEdge(s: Spec, e: Entry): WaitGraph.Edge {
    WaitGraph.Edge(Producer(s, e.source), Target(s, e.to), {}, true)
  }

  function ExitEdge(s: Spec, x: Exit): WaitGraph.Edge {
    WaitGraph.Edge(Some(s.Alias(x.from.side)), WaitGraph.Output(x.name), {}, true)
  }

  function EdgesOf(s: Spec, entries: seq<Entry>, exits: seq<Exit>): seq<WaitGraph.Edge> {
    seq(|entries|, i requires 0 <= i < |entries| => EntryEdge(s, entries[i])) +
    seq(|exits|, i requires 0 <= i < |exits| => ExitEdge(s, exits[i]))
  }

  /** Two scope nodes under their aliases, joined by unguarded edges. */
  function ScopeOf(ops: Operands, s: Spec, w: Wrapper): WaitGraph.Scope {
    WaitGraph.Scope(
      Flags(w.outputs), map[], [NodeOf(ops, s, Left), NodeOf(ops, s, Right)],
      EdgesOf(s, w.entries, w.exits), {}, None)
  }

  // ---- Who waits for whom ----

  /** Waits inside one operand's node. */
  predicate NodeLink(ops: Operands, s: Spec, side: Side, u: Vertex, v: Vertex) {
    var n, inputs := s.Alias(side), ops.At(side).inputs;
    || (u == WaitGraph.Admission(n) && v == WaitGraph.Outcome(n))
    || (u == WaitGraph.Outcome(n) && v == WaitGraph.Completion)
    || (u == WaitGraph.Admission(n) && v.Input? && v.node == n && v.port in inputs)
    || (u.Input? && u.node == n && u.port in inputs && v == WaitGraph.Outcome(n))
  }

  /** Waits along one join edge or one public output. */
  ghost predicate EdgeLink(s: Spec, u: Vertex, v: Vertex) {
    || (exists e :: e in s.edges && u == WaitGraph.Outcome(s.Alias(e.from.side)) && v == Target(s, e.to))
    || (exists o :: o in s.outputs && u == WaitGraph.Outcome(s.Alias(o.from.side)) && v == WaitGraph.Output(o.name))
  }

  ghost predicate Link(ops: Operands, s: Spec, u: Vertex, v: Vertex) {
    || NodeLink(ops, s, Left, u, v)
    || NodeLink(ops, s, Right, u, v)
    || EdgeLink(s, u, v)
    || (v == WaitGraph.Completion && exists o :: o in s.outputs && u == WaitGraph.Output(o.name))
  }

  lemma ScopeEdges(ops: Operands, s: Spec, w: Wrapper, e: WaitGraph.Edge)
    requires e in ScopeOf(ops, s, w).edges
    ensures (exists x :: x in w.entries && e == EntryEdge(s, x)) || (exists x :: x in w.exits && e == ExitEdge(s, x))
  {
    var es := EdgesOf(s, w.entries, w.exits);
    var i :| 0 <= i < |es| && es[i] == e;
    if i < |w.entries| {
      assert w.entries[i] in w.entries;
    } else {
      assert w.exits[i - |w.entries|] in w.exits;
    }
  }

  lemma EdgeOfEntry(ops: Operands, s: Spec, w: Wrapper, x: Entry)
    requires x in w.entries
    ensures EntryEdge(s, x) in ScopeOf(ops, s, w).edges
  {
    var i :| 0 <= i < |w.entries| && w.entries[i] == x;
    assert EdgesOf(s, w.entries, w.exits)[i] == EntryEdge(s, x);
  }

  lemma EdgeOfExit(ops: Operands, s: Spec, w: Wrapper, x: Exit)
    requires x in w.exits
    ensures ExitEdge(s, x) in ScopeOf(ops, s, w).edges
  {
    var i :| 0 <= i < |w.exits| && w.exits[i] == x;
    assert EdgesOf(s, w.entries, w.exits)[|w.entries| + i] == ExitEdge(s, x);
  }

  lemma {:induction false} ExposedFromInputs(xs: seq<JoinInput>)
    ensures forall e :: e in Exposed(xs) ==> e.source.FromInput?
  {
    if xs != [] {
      ExposedFromInputs(xs[..|xs| - 1]);
    }
  }

  /** Entries fed by an operand are the join edges. */
  lemma EntriesFromOperands(s: Spec)
    ensures forall x :: x in Entries(s) && x.source.FromOperand? ==> JoinEdge(x.id, x.source.from, x.to) in s.edges
    ensures forall e :: e in s.edges ==> Entry(e.id, FromOperand(e.from), e.to) in Entries(s)
  {
    ExposedFromInputs(SortedInputs(s));
    forall e | e in s.edges
      ensures Entry(e.id, FromOperand(e.from), e.to) in Entries(s)
    {
      var i :| 0 <= i < |s.edges| && s.edges[i] == e;
      assert Entries(s)[i] == Authored(s.edges)[i];
    }
    forall x | x in Entries(s) && x.source.FromOperand?
      ensures JoinEdge(x.id, x.source.from, x.to) in s.edges
    {
      var i :| 0 <= i < |Authored(s.edges)| && Authored(s.edges)[i] == x;
    }
  }

  lemma ExitsOfOutputs(s: Spec)
    ensures forall x :: x in Exits(SortedOutputs(s)) ==> JoinOutput(x.name, x.from) in s.outputs
    ensures forall o :: o in s.outputs ==>
      exists x :: x in Exits(SortedOutputs(s)) && x.from == o.from && x.name == o.name
  {
    SortedMembers(s);
    var sorted := SortedOutputs(s);
    forall o | o in s.outputs
      ensures exists x :: x in Exits(sorted) && x.from == o.from && x.name == o.name
    {
      var i :| 0 <= i < |sorted| && sorted[i] == o;
      assert Exits(sorted)[i] in Exits(sorted);
    }
    forall x | x in Exits(sorted)
      ensures JoinOutput(x.name, x.from) in s.outputs
    {
      var i :| 0 <= i < |sorted| && Exits(sorted)[i] == x;
      assert sorted[i] in sorted;
    }
  }

  lemma OutputNames(ops: Operands, s: Spec, w: Wrapper)
    requires Composes(ops, s, w)
    ensures forall name :: name in ScopeOf(ops, s, w).outputs <==> exists o :: o in s.outputs && o.name == name
  {
    SortedMembers(s);
  }

  lemma ScopeLinks(ops: Operands, s: Spec, w: Wrapper, u: Vertex, v: Vertex)
    requires Composes(ops, s, w)
    ensures (u, v) in WaitGraph.ScopeWaits(ScopeOf(ops, s, w)) <==>
      v == WaitGraph.Completion && exists o :: o in s.outputs && u == WaitGraph.Output(o.name)
  {
    hide *;
    OutputNames(ops, s, w);
    BareScope(ops, s, w);
    BareWaits(ScopeOf(ops, s, w), u, v);
  }

  lemma BareScope(ops: Operands, s: Spec, w: Wrapper)
    ensures
      var c := ScopeOf(ops, s, w);
      c.carried == map[] && c.postconditions == {} && c.until.None?
  {
  }

  /** A scope with nothing but outputs waits for them at the end. */
  lemma BareWaits(c: WaitGraph.Scope, u: Vertex, v: Vertex)
    requires c.carried == map[] && c.postconditions == {} && c.until.None?
    ensures (u, v) in WaitGraph.ScopeWaits(c) <==>
      v == WaitGraph.Completion && exists name :: name in c.outputs && u == WaitGraph.Output(name)
  {
  }

  lemma NodeLinks(ops: Operands, s: Spec, w: Wrapper, side: Side, u: Vertex, v: Vertex)
    ensures (u, v) in WaitGraph.NodeWaits(ScopeOf(ops, s, w), NodeOf(ops, s, side)) <==> NodeLink(ops, s, side, u, v)
  {
  }

  lemma EdgeIsLink(ops: Operands, s: Spec, w: Wrapper, e: WaitGraph.Edge, u: Vertex, v: Vertex)
    requires Composes(ops, s, w) && e in ScopeOf(ops, s, w).edges && (u, v) in WaitGraph.EdgeWaits(e)
    ensures EdgeLink(s, u, v)
  {
    ScopeEdges(ops, s, w, e);
    EntriesFromOperands(s);
    ExitsOfOutputs(s);
    if x :| x in w.entries && e == EntryEdge(s, x) {
      var j := JoinEdge(x.id, x.source.from, x.to);
      assert j in s.edges && u == WaitGraph.Outcome(s.Alias(j.from.side)) && v == Target(s, j.to);
    } else {
      var x :| x in w.exits && e == ExitEdge(s, x);
      var o := JoinOutput(x.name, x.from);
      assert o in s.outputs && u == WaitGraph.Outcome(s.Alias(o.from.side)) && v == WaitGraph.Output(o.name);
    }
  }

  lemma LinkIsEdge(ops: Operands, s: Spec, w: Wrapper, u: Vertex, v: Vertex)
    requires Composes(ops, s, w) && EdgeLink(s, u, v)
    ensures exists e :: e in ScopeOf(ops, s, w).edges && (u, v) in WaitGraph.EdgeWaits(e)
  {
    EntriesFromOperands(s);
    ExitsOfOutputs(s);
    if j :| j in s.edges && u == WaitGraph.Outcome(s.Alias(j.from.side)) && v == Target(s, j.to) {
      var x := Entry(j.id, FromOperand(j.from), j.to);
      EdgeOfEntry(ops, s, w, x);
      assert (u, v) in WaitGraph.EdgeWaits(EntryEdge(s, x));
    } else {
      var o :| o in s.outputs && u == WaitGraph.Outcome(s.Alias(o.from.side)) && v == WaitGraph.Output(o.name);
      var x :| x in Exits(SortedOutputs(s)) && x.from == o.from && x.name == o.name;
      EdgeOfExit(ops, s, w, x);
      assert (u, v) in WaitGraph.EdgeWaits(ExitEdge(s, x));
    }
  }

  lemma DependencyCases(c: WaitGraph.Scope, u: Vertex, v: Vertex)
    requires |c.nodes| == 2
    ensures (u, v) in WaitGraph.Dependencies(c) <==>
      || (u, v) in WaitGraph.ScopeWaits(c)
      || (u, v) in WaitGraph.NodeWaits(c, c.nodes[0])
      || (u, v) in WaitGraph.NodeWaits(c, c.nodes[1])
      || exists e :: e in c.edges && (u, v) in WaitGraph.EdgeWaits(e)
  {
    hide WaitGraph.ScopeWaits, WaitGraph.NodeWaits, WaitGraph.EdgeWaits;
    assert c.nodes[0] in c.nodes && c.nodes[1] in c.nodes;
  }

  /** The wait graph of the wrapper, pair by pair. */
  lemma DependencyIff(ops: Operands, s: Spec, w: Wrapper, u: Vertex, v: Vertex)
    requires Composes(ops, s, w)
    ensures (u, v) in WaitGraph.Dependencies(ScopeOf(ops, s, w)) <==> Link(ops, s, u, v)
  {
    hide Composes, NodeLink, EdgeLink, EdgesOf, NodeOf;
    hide WaitGraph.Dependencies, WaitGraph.ScopeWaits, WaitGraph.NodeWaits, WaitGraph.EdgeWaits;
    var c := ScopeOf(ops, s, w);
    DependencyCases(c, u, v);
    ScopeLinks(ops, s, w, u, v);
    NodeLinks(ops, s, w, Left, u, v);
    NodeLinks(ops, s, w, Right, u, v);
    if e :| e in c.edges && (u, v) in WaitGraph.EdgeWaits(e) {
      EdgeIsLink(ops, s, w, e, u, v);
    }
    if EdgeLink(s, u, v) {
      LinkIsEdge(ops, s, w, u, v);
    }
  }

  // ---- Cycles ----

  /** Some join edge starts at the given operand. */
  predicate Feeds(s: Spec, side: Side) {
    exists e :: e in s.edges && e.from.side == side
  }

  function Opposite(side: Side): Side {
    if side.Left? then Right else Left
  }

  function Rank(s: Spec, first: Side, v: Vertex): int {
    match v
    case Admission(_) => 0
    case Input(n, _) => if n == s.Alias(first) then 1 else 3
    case Outcome(n) => if n == s.Alias(first) then 2 else 4
    case Output(_) => 5
    case Completion => 6
    case Next(_) => 7
    case Until => 7
  }

  lemma LinkClimbs(ops: Operands, s: Spec, first: Side, u: Vertex, v: Vertex)
    requires s.leftAlias != s.rightAlias && (forall e :: e in s.edges ==> EdgeKnown(ops, e))
    requires !Feeds(s, Opposite(first)) && Link(ops, s, u, v)
    ensures Rank(s, first, u) < Rank(s, first, v)
  {
  }

  /** Edges in one direction only: every wait climbs. */
  lemma OneWayAcyclic(ops: Operands, s: Spec, w: Wrapper, first: Side)
    requires s.leftAlias != s.rightAlias && (forall e :: e in s.edges ==> EdgeKnown(ops, e))
    requires Composes(ops, s, w) && !Feeds(s, Opposite(first))
    ensures !Graphs.Cyclic(WaitGraph.Dependencies(ScopeOf(ops, s, w)))
  {
    hide *;
    var es := WaitGraph.Dependencies(ScopeOf(ops, s, w));
    var rank := (v: Vertex) => Rank(s, first, v);
    forall e | e in es
      ensures rank(e.0) < rank(e.1)
    {
      assert e == (e.0, e.1);
      DependencyIff(ops, s, w, e.0, e.1);
      LinkClimbs(ops, s, first, e.0, e.1);
    }
    Graphs.ClimbingIsAcyclic(es, rank);
  }

  /** Edges in both directions close a cycle through the two nodes. */
  lemma TwoWayCyclic(ops: Operands, s: Spec, w: Wrapper)
    requires forall e :: e in s.edges ==> EdgeKnown(ops, e)
    requires Composes(ops, s, w) && Feeds(s, Left) && Feeds(s, Right)
    ensures Graphs.Cyclic(WaitGraph.Dependencies(ScopeOf(ops, s, w)))
  {
    hide Composes, WaitGraph.Dependencies, ScopeOf;
    var es := WaitGraph.Dependencies(ScopeOf(ops, s, w));
    var there :| there in s.edges && there.from.side == Left;
    var back :| back in s.edges && back.from.side == Right;
    assert EdgeKnown(ops, there) && EdgeKnown(ops, back);
    var l, r := WaitGraph.Outcome(s.leftAlias), WaitGraph.Outcome(s.rightAlias);
    var p := [l, Target(s, there.to), r, Target(s, back.to), l];
    DependencyIff(ops, s, w, p[0], p[1]);
    DependencyIff(ops, s, w, p[1], p[2]);
    DependencyIff(ops, s, w, p[2], p[3]);
    DependencyIff(ops, s, w, p[3], p[4]);
    assert EdgeLink(s, p[0], p[1]) && EdgeLink(s, p[2], p[3]);
    FiveCycle(es, p);
  }

  lemma FiveCycle(es: WaitGraph.Waits, p: seq<Vertex>)
    requires |p| == 5 && p[0] == p[4]
    requires (p[0], p[1]) in es && (p[1], p[2]) in es && (p[2], p[3]) in es && (p[3], p[4]) in es
    ensures Graphs.Cyclic(es)
  {
    assert Graphs.IsCycle(es, p);
  }

  /** The wrapper's waits form a cycle exactly when join edges run both ways. */
  lemma CyclicIff(ops: Operands, s: Spec, w: Wrapper)
    requires Accepted(ops, s) && Composes(ops, s, w)
    ensures Graphs.Cyclic(WaitGraph.Dependencies(ScopeOf(ops, s, w))) <==> Feeds(s, Left) && Feeds(s, Right)
  {
    hide *;
    AcceptedParts(ops, s);
    if Feeds(s, Left) && Feeds(s, Right) {
      TwoWayCyclic(ops, s, w);
    } else if Feeds(s, Left) {
      OppositeSide();
      OneWayAcyclic(ops, s, w, Left);
    } else {
      OppositeSide();
      OneWayAcyclic(ops, s, w, Right);
    }
  }

  lemma OppositeSide()
    ensures Opposite(Left) == Right && Opposite(Right) == Left
  {
  }

  // ---- Coverage ----

  lemma NodeVertexOf(ops: Operands, s: Spec, w: Wrapper, side: Side, port: string)
    ensures WaitGraph.Admission(s.Alias(side)) in WaitGraph.Vertices(ScopeOf(ops, s, w))
    ensures WaitGraph.Outcome(s.Alias(side)) in WaitGraph.Vertices(ScopeOf(ops, s, w))
    ensures port in ops.At(side).inputs ==>
      WaitGraph.Input(s.Alias(side), port) in WaitGraph.Vertices(ScopeOf(ops, s, w)) &&
      WaitGraph.Input(s.Alias(side), port) in WaitGraph.Destinations(ScopeOf(ops, s, w))
  {
    var c, n := ScopeOf(ops, s, w), NodeOf(ops, s, side);
    assert n == c.nodes[if side.Left? then 0 else 1];
    assert n in c.nodes;
    assert WaitGraph.Admission(n.id) in WaitGraph.NodeVertices(n) &&
      WaitGraph.Outcome(n.id) in WaitGraph.NodeVertices(n);
    assert port in ops.At(side).inputs ==> WaitGraph.Input(n.id, port) in WaitGraph.NodeVertices(n);
  }

  lemma OutputVertexOf(ops: Operands, s: Spec, w: Wrapper, o: JoinOutput)
    requires Composes(ops, s, w) && o in s.outputs
    ensures WaitGraph.Output(o.name) in WaitGraph.Vertices(ScopeOf(ops, s, w))
    ensures WaitGraph.Output(o.name) in WaitGraph.Destinations(ScopeOf(ops, s, w))
  {
    OutputNames(ops, s, w);
  }

  lemma CompletionOf(c: WaitGraph.Scope)
    ensures WaitGraph.Completion in WaitGraph.Vertices(c)
  {
  }

  lemma NodeLinkResolves(ops: Operands, s: Spec, w: Wrapper, side: Side, u: Vertex, v: Vertex)
    requires NodeLink(ops, s, side, u, v)
    ensures u in WaitGraph.Vertices(ScopeOf(ops, s, w)) && v in WaitGraph.Vertices(ScopeOf(ops, s, w))
  {
    hide WaitGraph.Vertices, ScopeOf;
    CompletionOf(ScopeOf(ops, s, w));
    NodeVertexOf(ops, s, w, side, if u.Input? then u.port else if v.Input? then v.port else "");
  }

  lemma EdgeLinkResolves(ops: Operands, s: Spec, w: Wrapper, u: Vertex, v: Vertex)
    requires Composes(ops, s, w) && EdgeLink(s, u, v) && forall e :: e in s.edges ==> EdgeKnown(ops, e)
    ensures u in WaitGraph.Vertices(ScopeOf(ops, s, w)) && v in WaitGraph.Vertices(ScopeOf(ops, s, w))
  {
    hide Composes, WaitGraph.Vertices, WaitGraph.Destinations, ScopeOf;
    if e :| e in s.edges && u == WaitGraph.Outcome(s.Alias(e.from.side)) && v == Target(s, e.to) {
      NodeVertexOf(ops, s, w, e.from.side, "");
      NodeVertexOf(ops, s, w, e.to.side, e.to.port);
    } else {
      var o :| o in s.outputs && u == WaitGraph.Outcome(s.Alias(o.from.side)) && v == WaitGraph.Output(o.name);
      NodeVertexOf(ops, s, w, o.from.side, "");
      OutputVertexOf(ops, s, w, o);
    }
  }

  lemma LinkResolves(ops: Operands, s: Spec, w: Wrapper, u: Vertex, v: Vertex)
    requires Composes(ops, s, w) && Link(ops, s, u, v) && forall e :: e in s.edges ==> EdgeKnown(ops, e)
    ensures u in WaitGraph.Vertices(ScopeOf(ops, s, w)) && v in WaitGraph.Vertices(ScopeOf(ops, s, w))
  {
    hide Composes, NodeLink, EdgeLink, EdgeKnown, WaitGraph.Vertices, WaitGraph.Destinations, ScopeOf;
    if NodeLink(ops, s, Left, u, v) {
      NodeLinkResolves(ops, s, w, Left, u, v);
    } else if NodeLink(ops, s, Right, u, v) {
      NodeLinkResolves(ops, s, w, Right, u, v);
    } else if EdgeLink(s, u, v) {
      EdgeLinkResolves(ops, s, w, u, v);
    } else {
      var o :| o in s.outputs && u == WaitGraph.Output(o.name);
      OutputVertexOf(ops, s, w, o);
      CompletionOf(ScopeOf(ops, s, w));
    }
  }

  lemma EntryReceived(ops: Operands, s: Spec, x: Entry)
    requires Accepted(ops, s) && x in Entries(s)
    ensures ops.Receives(x.to)
  {
    hide *;
    AcceptedParts(ops, s);
    EntryTargeted(Entries(s), x);
    TargetedIff(s, x.to);
    NamedReceived(ops, s, x.to);
  }

  lemma EntryTargeted(es: seq<Entry>, x: Entry)
    requires x in es
    ensures Targeted(es, x.to)
  {
  }

  lemma NamedReceived(ops: Operands, s: Spec, to: Endpoint)
    requires (exists e :: e in s.edges && e.to == to) || (exists p :: p in s.inputs && to in p.to)
    requires forall e :: e in s.edges ==> EdgeKnown(ops, e)
    requires forall p :: p in s.inputs ==> InputKnown(ops, p)
    ensures ops.Receives(to)
  {
  }

  lemma ScopeResolved(ops: Operands, s: Spec, w: Wrapper)
    requires Accepted(ops, s) && Composes(ops, s, w)
    ensures WaitGraph.Resolved(ScopeOf(ops, s, w))
  {
    hide *;
    var c := ScopeOf(ops, s, w);
    AcceptedParts(ops, s);
    forall e | e in c.edges
      ensures e.destination in WaitGraph.Destinations(c)
    {
      DestinationKnown(ops, s, w, e);
    }
    forall d | d in WaitGraph.Dependencies(c)
      ensures d.0 in WaitGraph.Vertices(c) && d.1 in WaitGraph.Vertices(c)
    {
      assert d == (d.0, d.1);
      DependencyIff(ops, s, w, d.0, d.1);
      LinkResolves(ops, s, w, d.0, d.1);
    }
    MakeResolved(c);
  }

  lemma MakeResolved(c: WaitGraph.Scope)
    requires forall e :: e in c.edges ==> e.destination in WaitGraph.Destinations(c)
    requires forall d :: d in WaitGraph.Dependencies(c) ==> d.0 in WaitGraph.Vertices(c) && d.1 in WaitGraph.Vertices(c)
    ensures WaitGraph.Resolved(c)
  {
  }

  lemma DestinationKnown(ops: Operands, s: Spec, w: Wrapper, e: WaitGraph.Edge)
    requires Accepted(ops, s) && Composes(ops, s, w) && e in ScopeOf(ops, s, w).edges
    ensures e.destination in WaitGraph.Destinations(ScopeOf(ops, s, w))
  {
    hide Accepted, Entries, Exits, WaitGraph.Destinations, WaitGraph.Vertices, PortsOf, OutputPortsOf, EdgesOf;
    ScopeEdges(ops, s, w, e);
    if x :| x in w.entries && e == EntryEdge(s, x) {
      EntryReceived(ops, s, x);
      NodeVertexOf(ops, s, w, x.to.side, x.to.port);
    } else {
      var x :| x in w.exits && e == ExitEdge(s, x);
      ExitsOfOutputs(s);
      OutputVertexOf(ops, s, w, JoinOutput(x.name, x.from));
    }
  }

  lemma AliasesDiffer(s: Spec, a: Side, b: Side)
    requires s.leftAlias != s.rightAlias && s.Alias(a) == s.Alias(b)
    ensures a == b
  {
  }

  lemma EdgesApart(ops: Operands, s: Spec, w: Wrapper, i: nat, j: nat)
    requires s.leftAlias != s.rightAlias && EntriesDistinct(w.entries)
    requires OutputsDistinct(SortedOutputs(s)) && w.exits == Exits(SortedOutputs(s))
    requires i < j < |ScopeOf(ops, s, w).edges|
    ensures ScopeOf(ops, s, w).edges[i].destination != ScopeOf(ops, s, w).edges[j].destination
  {
    var es := ScopeOf(ops, s, w).edges;
    var n := |w.entries|;
    if j < n {
      var a, b := w.entries[i].to, w.entries[j].to;
      if es[i].destination == es[j].destination {
        AliasesDiffer(s, a.side, b.side);
      }
    } else if i >= n {
      assert SortedOutputs(s)[i - n].name != SortedOutputs(s)[j - n].name;
    }
  }

  /** A required destination of the wrapper has an edge. */
  lemma RequiredFed(ops: Operands, s: Spec, w: Wrapper, d: Vertex)
    requires Composes(ops, s, w) && RequiredBound(ops, w.entries)
    requires d in WaitGraph.RequiredDestinations(ScopeOf(ops, s, w))
    ensures exists e :: e in ScopeOf(ops, s, w).edges && e.destination == d
  {
    hide Entries, Exits, EdgesOf, PortsOf, OutputPortsOf;
    var c := ScopeOf(ops, s, w);
    if d.Output? {
      OutputNames(ops, s, w);
      var o :| o in s.outputs && o.name == d.port;
      ExitsOfOutputs(s);
      var x :| x in w.exits && x.from == o.from && x.name == o.name;
      EdgeOfExit(ops, s, w, x);
    } else {
      var n, p :| n in c.nodes && p in n.inputs && n.inputs[p] && d == WaitGraph.Input(n.id, p);
      var side := if n == c.nodes[0] then Left else Right;
      var to := Endpoint(side, p);
      assert ops.Receives(to) && ops.InputPort(to).required;
      RequiredTargeted(ops, w.entries, to);
      var x :| x in w.entries && x.to == to;
      EdgeOfEntry(ops, s, w, x);
    }
  }

  /** Every required destination of the wrapper is fed, and none by two edges. */
  lemma ScopeCovered(ops: Operands, s: Spec, w: Wrapper)
    requires Accepted(ops, s) && Composes(ops, s, w)
    ensures WaitGraph.Covered(ScopeOf(ops, s, w))
  {
    hide *;
    var c := ScopeOf(ops, s, w);
    AcceptedParts(ops, s);
    ComposedEdges(ops, s, w);
    forall d | d in WaitGraph.RequiredDestinations(c)
      ensures exists e :: e in c.edges && e.destination == d
    {
      RequiredFed(ops, s, w, d);
    }
    forall i, j | 0 <= i < j < |c.edges|
      ensures c.edges[i].destination != c.edges[j].destination
    {
      EdgesApart(ops, s, w, i, j);
    }
    MakeCovered(c);
  }

  lemma ComposedEdges(ops: Operands, s: Spec, w: Wrapper)
    requires Composes(ops, s, w)
    ensures w.entries == Entries(s) && w.exits == Exits(SortedOutputs(s))
  {
  }

  lemma MakeCovered(c: WaitGraph.Scope)
    requires forall d :: d in WaitGraph.RequiredDestinations(c) ==> exists e :: e in c.edges && e.destination == d
    requires forall i, j :: 0 <= i < j < |c.edges| ==> c.edges[i].destination != c.edges[j].destination
    ensures WaitGraph.Covered(c)
  {
  }

  // ---- Observability ----

  predicate Exposes(s: Spec, side: Side) {
    exists o :: o in s.outputs && o.from.side == side
  }

  /** An operand is seen through an output of its own, or of the operand it feeds. */
  predicate Seen(s: Spec, side: Side) {
    Exposes(s, side) || (Feeds(s, side) && Exposes(s, Opposite(side)))
  }

  lemma ObservedOutputs(ops: Operands, s: Spec, w: Wrapper, v: Vertex)
    requires Composes(ops, s, w)
    ensures v in WaitGraph.Observed(ScopeOf(ops, s, w)) <==> exists o :: o in s.outputs && v == WaitGraph.Output(o.name)
  {
    OutputNames(ops, s, w);
  }

  /** An operand with an output of its own reaches an observed vertex. */
  lemma ExposedReaches(ops: Operands, s: Spec, w: Wrapper, side: Side)
    requires Composes(ops, s, w) && Exposes(s, side)
    ensures WaitGraph.ReachesSome(WaitGraph.Dependencies(ScopeOf(ops, s, w)),
      WaitGraph.Outcome(s.Alias(side)), WaitGraph.Observed(ScopeOf(ops, s, w)))
  {
    hide Composes, WaitGraph.Dependencies, WaitGraph.Observed, ScopeOf;
    var o :| o in s.outputs && o.from.side == side;
    var u, v := WaitGraph.Outcome(s.Alias(side)), WaitGraph.Output(o.name);
    assert EdgeLink(s, u, v);
    DependencyIff(ops, s, w, u, v);
    ObservedOutputs(ops, s, w, v);
    var es := WaitGraph.Dependencies(ScopeOf(ops, s, w));
    Graphs.ReachesSelf(es, v);
    Graphs.ReachesStep(es, u, v, v);
  }

  lemma SeenReaches(ops: Operands, s: Spec, w: Wrapper, side: Side)
    requires Composes(ops, s, w) && (forall e :: e in s.edges ==> EdgeKnown(ops, e)) && Seen(s, side)
    ensures WaitGraph.ReachesSome(WaitGraph.Dependencies(ScopeOf(ops, s, w)),
      WaitGraph.Outcome(s.Alias(side)), WaitGraph.Observed(ScopeOf(ops, s, w)))
  {
    hide Composes, Exposes, WaitGraph.Dependencies, WaitGraph.Observed, ScopeOf, Graphs.Reaches;
    if Exposes(s, side) {
      ExposedReaches(ops, s, w, side);
    } else {
      var es := WaitGraph.Dependencies(ScopeOf(ops, s, w));
      ExposedReaches(ops, s, w, Opposite(side));
      var e :| e in s.edges && e.from.side == side;
      assert EdgeKnown(ops, e) && e.to.side == Opposite(side);
      var u, t, o := WaitGraph.Outcome(s.Alias(side)), Target(s, e.to), WaitGraph.Outcome(s.Alias(e.to.side));
      assert EdgeLink(s, u, t);
      DependencyIff(ops, s, w, u, t);
      assert NodeLink(ops, s, e.to.side, t, o);
      DependencyIff(ops, s, w, t, o);
      var v :| v in WaitGraph.Observed(ScopeOf(ops, s, w)) && Graphs.Reaches(es, o, v);
      Graphs.ReachesStep(es, t, o, v);
      Graphs.ReachesStep(es, u, t, v);
    }
  }

  lemma UnfedStays(ops: Operands, s: Spec, side: Side, u: Vertex, v: Vertex)
    requires s.leftAlias != s.rightAlias && !Feeds(s, side) && !Exposes(s, side) && Link(ops, s, u, v)
    requires u in {WaitGraph.Outcome(s.Alias(side)), WaitGraph.Completion}
    ensures v == WaitGraph.Completion
  {
    if EdgeLink(s, u, v) {
      if e :| e in s.edges && u == WaitGraph.Outcome(s.Alias(e.from.side)) {
        AliasesDiffer(s, e.from.side, side);
      } else {
        var o :| o in s.outputs && u == WaitGraph.Outcome(s.Alias(o.from.side));
        AliasesDiffer(s, o.from.side, side);
      }
    }
  }

  /** What neither feeds the other operand nor has outputs reaches only completion. */
  lemma UnfedReaches(ops: Operands, s: Spec, w: Wrapper, side: Side, v: Vertex)
    requires Composes(ops, s, w) && s.leftAlias != s.rightAlias && !Feeds(s, side) && !Exposes(s, side)
    requires Graphs.Reaches(WaitGraph.Dependencies(ScopeOf(ops, s, w)), WaitGraph.Outcome(s.Alias(side)), v)
    ensures !v.Output?
  {
    hide *;
    var es := WaitGraph.Dependencies(ScopeOf(ops, s, w));
    var stays := {WaitGraph.Outcome(s.Alias(side)), WaitGraph.Completion};
    forall e | e in es && e.0 in stays
      ensures e.1 in stays
    {
      assert e == (e.0, e.1);
      DependencyIff(ops, s, w, e.0, e.1);
      UnfedStays(ops, s, side, e.0, e.1);
    }
    Graphs.ReachStays(es, stays, WaitGraph.Outcome(s.Alias(side)), v);
  }

  lemma UnseenReaches(ops: Operands, s: Spec, w: Wrapper, side: Side, v: Vertex)
    requires Composes(ops, s, w) && s.leftAlias != s.rightAlias && !Seen(s, side)
    requires Graphs.Reaches(WaitGraph.Dependencies(ScopeOf(ops, s, w)), WaitGraph.Outcome(s.Alias(side)), v)
    ensures v !in WaitGraph.Observed(ScopeOf(ops, s, w))
  {
    hide Composes, Feeds, ScopeOf, WaitGraph.Dependencies, WaitGraph.Observed, Graphs.Reaches;
    ObservedOutputs(ops, s, w, v);
    if !Feeds(s, side) {
      UnfedReaches(ops, s, w, side, v);
    }
  }

  lemma ObservableIff(ops: Operands, s: Spec, w: Wrapper)
    requires Accepted(ops, s) && Composes(ops, s, w)
    ensures WaitGraph.Observable(ScopeOf(ops, s, w)) <==> Seen(s, Left) && Seen(s, Right)
  {
    hide *;
    AcceptedParts(ops, s);
    SeenIff(ops, s, w, Left);
    SeenIff(ops, s, w, Right);
    TwoNodes(ops, s, w);
  }

  lemma SeenIff(ops: Operands, s: Spec, w: Wrapper, side: Side)
    requires Composes(ops, s, w) && s.leftAlias != s.rightAlias && forall e :: e in s.edges ==> EdgeKnown(ops, e)
    ensures Seen(s, side) <==> WaitGraph.ReachesSome(WaitGraph.Dependencies(ScopeOf(ops, s, w)),
      WaitGraph.Outcome(s.Alias(side)), WaitGraph.Observed(ScopeOf(ops, s, w)))
  {
    hide Composes, Seen, EdgeKnown, ScopeOf, WaitGraph.Dependencies, WaitGraph.Observed, Graphs.Reaches;
    if Seen(s, side) {
      SeenReaches(ops, s, w, side);
    } else {
      var es := WaitGraph.Dependencies(ScopeOf(ops, s, w));
      forall v | v in WaitGraph.Observed(ScopeOf(ops, s, w))
        ensures !Graphs.Reaches(es, WaitGraph.Outcome(s.Alias(side)), v)
      {
        if Graphs.Reaches(es, WaitGraph.Outcome(s.Alias(side)), v) {
          UnseenReaches(ops, s, w, side, v);
        }
      }
    }
  }

  lemma TwoNodes(ops: Operands, s: Spec, w: Wrapper)
    ensures
      var c := ScopeOf(ops, s, w);
      var es := WaitGraph.Dependencies(c);
      WaitGraph.Observable(c) <==>
        && WaitGraph.ReachesSome(es, WaitGraph.Outcome(s.Alias(Left)), WaitGraph.Observed(c))
        && WaitGraph.ReachesSome(es, WaitGraph.Outcome(s.Alias(Right)), WaitGraph.Observed(c))
  {
    hide WaitGraph.Dependencies, WaitGraph.Observed, WaitGraph.ReachesSome;
    var c := ScopeOf(ops, s, w);
    assert NodeOf(ops, s, Left) == c.nodes[0] && NodeOf(ops, s, Right) == c.nodes[1];
    assert c.nodes[0] in c.nodes && c.nodes[1] in c.nodes;
    assert forall n :: n in c.nodes <==> n == c.nodes[0] || n == c.nodes[1];
  }

  // ---- Admission ----

  /**
   * A composed graph is admitted exactly when join edges do not run both ways and each
   * operand is seen through some public output.
   */
  lemma AdmittedIff(ops: Operands, s: Spec, w: Wrapper)
    requires Accepted(ops, s) && Composes(ops, s, w)
    ensures WaitGraph.Admissible(ScopeOf(ops, s, w)) <==>
      !(Feeds(s, Left) && Feeds(s, Right)) && Seen(s, Left) && Seen(s, Right)
  {
    hide *;
    ScopeResolved(ops, s, w);
    ScopeCovered(ops, s, w);
    CyclicIff(ops, s, w);
    ObservableIff(ops, s, w);
    AdmissibleParts(ScopeOf(ops, s, w));
  }

  lemma AdmissibleParts(c: WaitGraph.Scope)
    requires WaitGraph.Resolved(c) && WaitGraph.Covered(c)
    ensures WaitGraph.Admissible(c) <==> !Graphs.Cyclic(WaitGraph.Dependencies(c)) && WaitGraph.Observable(c)
  {
  }

  lemma ScopeWellformed(ops: Operands, s: Spec, w: Wrapper)
    ensures WaitGraph.Wellformed(ScopeOf(ops, s, w))
  {
  }

  datatype Refusal = Request(JoinError) | Graph(GraphVerify.Error)

  /** Composes the operands and verifies the wrapper's own graph. */
  method JoinGraphs(ops: Operands, s: Spec) returns (r: Result<(Wrapper, GraphVerify.Plan), Refusal>)
    ensures r.Ok? <==>
      Accepted(ops, s) && !(Feeds(s, Left) && Feeds(s, Right)) && Seen(s, Left) && Seen(s, Right)
    ensures r.Ok? ==> Composes(ops, s, r.value.0)
    ensures r.Ok? ==> GraphVerify.Ordered(ScopeOf(ops, s, r.value.0), r.value.1)
  {
    hide *;
    var wrapper := Compose(ops, s);
    if wrapper.Err? {
      return Err(Request(wrapper.error));
    }
    AdmittedIff(ops, s, wrapper.value);
    ScopeWellformed(ops, s, wrapper.value);
    var plan := GraphVerify.Verify(ScopeOf(ops, s, wrapper.value));
    if plan.Err? {
      return Err(Graph(plan.error));
    }
    r := Ok((wrapper.value, plan.value));
  }
}
