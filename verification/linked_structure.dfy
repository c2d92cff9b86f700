// Link checks followed by structural bounds (crates/htlk-analyzer/src/linkage.rs:451-452,
// crates/htlk-analyzer/src/structure.rs).

module LinkedStructure {
  import opened Wrappers
  import Graphs
  import Documents
  import ScopeOrder
  import Linkage
  import Structure
  import StructureAnalysis

  type Scopes = map<Structure.Digest, Documents.Scope>

  /** The task and loop operations of a scope, with what each multiplies by. */
  function UseList(ns: seq<Documents.Node>): seq<Structure.Use> {
    if ns == [] then []
    else
      var front, o := UseList(ns[..|ns| - 1]), ns[|ns| - 1].operation;
      if o.SubScope? then front + [Structure.Use(o.scope, 1)]
      else if o.Loop? then front + [Structure.Use(o.body, o.iterations)]
      else front
  }

  function Definitions(scopes: Scopes): Structure.Scopes {
    map d | d in scopes :: Structure.Definition(|scopes[d].nodes|, UseList(scopes[d].nodes))
  }

  /** Loops run at least once, as the wire format demands. */
  ghost predicate LoopsRun(scopes: Scopes) {
    forall d, n :: d in scopes && n in scopes[d].nodes && n.operation.Loop? ==> n.operation.iterations >= 1
  }

  /** The uses of a scope are the children that the link checks follow. */
  lemma {:induction false} UsesAreChildren(ns: seq<Documents.Node>)
    ensures |UseList(ns)| == |ScopeOrder.ChildList(ns)|
    ensures forall i :: 0 <= i < |UseList(ns)| ==> UseList(ns)[i].child == ScopeOrder.ChildList(ns)[i].0
  {
    if ns != [] {
      UsesAreChildren(ns[..|ns| - 1]);
    }
  }

  lemma {:induction false} UsesMultiply(ns: seq<Documents.Node>)
    requires forall n :: n in ns && n.operation.Loop? ==> n.operation.iterations >= 1
    ensures forall u :: u in UseList(ns) ==> u.multiplier >= 1
  {
    if ns != [] {
      UsesMultiply(ns[..|ns| - 1]);
    }
  }

  lemma SameEdges(scopes: Scopes)
    ensures Structure.UseEdges(Definitions(scopes)) == ScopeOrder.Runs(scopes)
  {
    var es, runs := Structure.UseEdges(Definitions(scopes)), ScopeOrder.Runs(scopes);
    forall e | e in es
      ensures e in runs
    {
      SameChildren(scopes[e.0].nodes, e.1);
    }
    forall e | e in runs
      ensures e in es
    {
      SameChildren(scopes[e.0].nodes, e.1);
      var u :| u in UseList(scopes[e.0].nodes) && u.child == e.1;
      assert u in Definitions(scopes)[e.0].uses && e == (e.0, u.child);
    }
  }

  lemma SameChildren(ns: seq<Documents.Node>, c: Structure.Digest)
    ensures (exists u :: u in UseList(ns) && u.child == c) <==> exists x :: x in ScopeOrder.ChildList(ns) && x.0 == c
  {
    UsesAreChildren(ns);
    if u :| u in UseList(ns) && u.child == c {
      var i :| 0 <= i < |UseList(ns)| && UseList(ns)[i] == u;
      assert ScopeOrder.ChildList(ns)[i].0 == c;
    }
    if x :| x in ScopeOrder.ChildList(ns) && x.0 == c {
      var i :| 0 <= i < |ScopeOrder.ChildList(ns)| && ScopeOrder.ChildList(ns)[i] == x;
      assert UseList(ns)[i].child == c;
    }
  }

  /** What the bounds take for granted is what the link checks establish. */
  lemma RootedIff(scopes: Scopes, root: Structure.Digest)
    requires LoopsRun(scopes)
    ensures Structure.Rooted(Definitions(scopes), root) <==> Linkage.AllRun(scopes, root)
  {
    SameEdges(scopes);
    forall d | d in scopes
      ensures forall u :: u in UseList(scopes[d].nodes) ==> u.multiplier >= 1
    {
      UsesMultiply(scopes[d].nodes);
    }
  }

  datatype Error = Links(links: Linkage.Error) | Bounds(bounds: StructureAnalysis.Error)

  /** Some bound of the policy is exceeded by the bounds the root has. */
  ghost predicate Exceeds(f: Structure.Scopes, root: Structure.Digest, policy: Structure.Policy) {
    exists depth, expanded :: Structure.Solution(f, depth, expanded) && root in f &&
      (depth[root] > policy.maximumScopeDepth || expanded[root] > policy.maximumExpandedNodes)
  }

  /** In a linked document bounds always exist, so that only the policy can refuse it. */
  lemma LinkedIsBounded(f: Documents.Tables, root: Structure.Digest, policy: Structure.Policy)
    requires Linkage.Linked(f, root) && LoopsRun(f.scopes)
    ensures Structure.Fits(Definitions(f.scopes), root, policy) || Exceeds(Definitions(f.scopes), root, policy)
  {
    var g := Definitions(f.scopes);
    LinkedParts(f, root);
    RootedIff(f.scopes, root);
    SameEdges(f.scopes);
    UsesPresent(f.scopes);
    Structure.SolutionIffAcyclic(g);
    var depth, expanded :| Structure.Solution(g, depth, expanded);
    if depth[root] <= policy.maximumScopeDepth && expanded[root] <= policy.maximumExpandedNodes {
      assert Structure.FitsWith(g, root, policy, depth, expanded);
    }
  }

  lemma LinkedParts(f: Documents.Tables, root: Structure.Digest)
    requires Linkage.Linked(f, root)
    ensures Linkage.AllRun(f.scopes, root) && ScopeOrder.ChildrenPresent(f.scopes)
    ensures !Graphs.Cyclic(ScopeOrder.Runs(f.scopes))
  {
  }

  lemma UsesPresent(scopes: Scopes)
    requires ScopeOrder.ChildrenPresent(scopes)
    ensures forall d :: d in scopes ==> Structure.UsesIn(Definitions(scopes)[d].uses, Definitions(scopes).Keys)
  {
    forall d, u | d in scopes && u in UseList(scopes[d].nodes)
      ensures u.child in scopes
    {
      SameChildren(scopes[d].nodes, u.child);
    }
  }

  /**
   * Links first, then bounds: a document passes exactly when it is linked and the bounds
   * of its root fit the policy.  A linked document never fails for want of bounds.
   */
  method VerifyStructure(f: Documents.Tables, root: Structure.Digest, policy: Structure.Policy)
      returns (r: Result<StructureAnalysis.Summary, Error>)
    requires StructureAnalysis.Machine(policy) && LoopsRun(f.scopes)
    ensures r.Ok? <==> Linkage.Linked(f, root) && Structure.Fits(Definitions(f.scopes), root, policy)
    ensures r.Ok? ==> StructureAnalysis.Solved(Definitions(f.scopes), root, r.value)
    ensures r != Err(Bounds(StructureAnalysis.ScopeCycle))
    ensures r.Err? && r.error.Bounds? ==> Linkage.Linked(f, root) && Exceeds(Definitions(f.scopes), root, policy)
  {
    hide *;
    var roles := Linkage.VerifyLinks(f, root);
    if roles.Err? {
      return Err(Links(roles.error));
    }
    LinkedParts(f, root);
    RootedIff(f.scopes, root);
    LinkedIsBounded(f, root, policy);
    SameEdges(f.scopes);
    var summary := StructureAnalysis.Analyze(Definitions(f.scopes), root, policy);
    r := if summary.Ok? then Ok(summary.value) else Err(Bounds(summary.error));
  }
}
