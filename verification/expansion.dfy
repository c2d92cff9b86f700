// What the structural bounds bound: the node invocations of every execution
// (crates/htlk-analyzer/src/structure.rs:19-36).

module Expansion {
  import Documents
  import Structure
  import LinkedStructure
  import Linkage

  type Scopes = LinkedStructure.Scopes

  /** One execution of a scope: for every node, the executions it starts one after another. */
  datatype Run = Run(scope: Structure.Digest, parts: seq<Part>)

  datatype Part = Part(runs: seq<Run>)

  // ---- Executions ----

  /** A run of a scope starts whatever its nodes may start, each run a run of its own. */
  ghost predicate Executes(scopes: Scopes, r: Run)
    decreases r, 1
  {
    r.scope in scopes && PartsExecute(scopes, r.parts, scopes[r.scope].nodes)
  }

  ghost predicate PartsExecute(scopes: Scopes, parts: seq<Part>, ns: seq<Documents.Node>)
    decreases parts, 0
  {
    |parts| == |ns| && forall i :: 0 <= i < |parts| ==> PartExecutes(scopes, parts[i], ns[i].operation)
  }

  /** A node runs its sub-scope at most once and its body at most as often as it may iterate. */
  ghost predicate PartExecutes(scopes: Scopes, part: Part, o: Documents.Operation)
    decreases part, 2
  {
    && (o.SubScope? ==> |part.runs| <= 1 && forall r :: r in part.runs ==> r.scope == o.scope)
    && (o.Loop? ==> |part.runs| <= o.iterations && forall r :: r in part.runs ==> r.scope == o.body)
    && (!o.SubScope? && !o.Loop? ==> part.runs == [])
    && forall r :: r in part.runs ==> Executes(scopes, r)
  }

  /** The node invocations in a run, at all levels. */
  function Invocations(r: Run): nat
    decreases r, 1
  {
    |r.parts| + PartsInvocations(r.parts)
  }

  function PartsInvocations(parts: seq<Part>): nat
    decreases parts, 0
  {
    if parts == [] then 0
    else PartsInvocations(parts[..|parts| - 1]) + RunsInvocations(parts[|parts| - 1].runs)
  }

  function RunsInvocations(rs: seq<Run>): nat
    decreases rs, 0
  {
    if rs == [] then 0 else RunsInvocations(rs[..|rs| - 1]) + Invocations(rs[|rs| - 1])
  }

  /** The longest chain of runs inside runs. */
  function Levels(r: Run): nat
    decreases r, 1
  {
    1 + PartsLevels(r.parts)
  }

  function PartsLevels(parts: seq<Part>): nat
    decreases parts, 0
  {
    if parts == [] then 0
    else Structure.Max(PartsLevels(parts[..|parts| - 1]), RunsLevels(parts[|parts| - 1].runs))
  }

  function RunsLevels(rs: seq<Run>): nat
    decreases rs, 0
  {
    if rs == [] then 0 else Structure.Max(RunsLevels(rs[..|rs| - 1]), Levels(rs[|rs| - 1]))
  }

  // ---- No execution exceeds the bounds ----

  ghost predicate Bounded(scopes: Scopes, depth: map<Structure.Digest, nat>, expanded: map<Structure.Digest, nat>) {
    Structure.Solution(LinkedStructure.Definitions(scopes), depth, expanded)
  }

  ghost predicate Below(
      r: Run, depth: map<Structure.Digest, nat>, expanded: map<Structure.Digest, nat>, d: Structure.Digest) {
    d in depth && d in expanded && Invocations(r) <= expanded[d] && Levels(r) <= depth[d]
  }

  /** The recursive equations of the bounds. */
  lemma BoundedAt(
      scopes: Scopes, depth: map<Structure.Digest, nat>, expanded: map<Structure.Digest, nat>, d: Structure.Digest)
    requires Bounded(scopes, depth, expanded) && d in scopes
    ensures depth.Keys == expanded.Keys == scopes.Keys
    ensures
      var uses := LinkedStructure.UseList(scopes[d].nodes);
      && Structure.UsesIn(uses, scopes.Keys)
      && depth[d] == 1 + Structure.Deepest(uses, depth, scopes.Keys)
      && expanded[d] == |scopes[d].nodes| + Structure.Sum(uses, expanded, scopes.Keys)
  {
    hide LinkedStructure.UseList, Structure.Sum, Structure.Deepest;
    assert LinkedStructure.Definitions(scopes).Keys == scopes.Keys;
  }

  lemma {:induction false} RunBelow(
      scopes: Scopes, depth: map<Structure.Digest, nat>, expanded: map<Structure.Digest, nat>, r: Run)
    requires Bounded(scopes, depth, expanded) && Executes(scopes, r)
    ensures Below(r, depth, expanded, r.scope)
    decreases r, 1
  {
    hide Bounded, PartsExecute, LinkedStructure.UseList, Structure.Sum, Structure.Deepest;
    BoundedAt(scopes, depth, expanded, r.scope);
    PartsSameLength(scopes, r.parts, scopes[r.scope].nodes);
    PartsBelow(scopes, depth, expanded, r.parts, scopes[r.scope].nodes);
  }

  lemma PartsSameLength(scopes: Scopes, parts: seq<Part>, ns: seq<Documents.Node>)
    requires PartsExecute(scopes, parts, ns)
    ensures |parts| == |ns|
  {
  }

  lemma {:induction false} PartsBelow(
      scopes: Scopes, depth: map<Structure.Digest, nat>, expanded: map<Structure.Digest, nat>,
      parts: seq<Part>, ns: seq<Documents.Node>)
    requires Bounded(scopes, depth, expanded) && PartsExecute(scopes, parts, ns)
    requires depth.Keys == expanded.Keys == scopes.Keys
    ensures PartsInvocations(parts) <= Structure.Sum(LinkedStructure.UseList(ns), expanded, scopes.Keys)
    ensures PartsLevels(parts) <= Structure.Deepest(LinkedStructure.UseList(ns), depth, scopes.Keys)
    decreases parts, 0
  {
    hide Bounded, PartExecutes, RunsInvocations, RunsLevels;
    if parts != [] {
      var last := |parts| - 1;
      assert PartExecutes(scopes, parts[last], ns[last].operation);
      PartsBelow(scopes, depth, expanded, parts[..last], ns[..last]);
      PartBelow(scopes, depth, expanded, parts[last], ns[last].operation);
      UseListSnoc(ns, expanded, depth, scopes.Keys);
    }
  }

  /** What a node adds: nothing, or the bounds of what it runs, as often as it may. */
  function Weight(o: Documents.Operation, expanded: map<Structure.Digest, nat>): nat {
    if o.SubScope? && o.scope in expanded then expanded[o.scope]
    else if o.Loop? && o.body in expanded then o.iterations * expanded[o.body]
    else 0
  }

  function Reach(o: Documents.Operation, depth: map<Structure.Digest, nat>): nat {
    if o.SubScope? && o.scope in depth then depth[o.scope]
    else if o.Loop? && o.body in depth then depth[o.body]
    else 0
  }

  lemma UseListSnoc(
      ns: seq<Documents.Node>, expanded: map<Structure.Digest, nat>, depth: map<Structure.Digest, nat>,
      ids: set<Structure.Digest>)
    requires ns != [] && ids == expanded.Keys == depth.Keys
    ensures
      var front, o := ns[..|ns| - 1], ns[|ns| - 1].operation;
      && Structure.Sum(LinkedStructure.UseList(ns), expanded, ids)
        == Structure.Sum(LinkedStructure.UseList(front), expanded, ids) + Weight(o, expanded)
      && Structure.Deepest(LinkedStructure.UseList(ns), depth, ids)
        == Structure.Max(Structure.Deepest(LinkedStructure.UseList(front), depth, ids), Reach(o, depth))
  {
    var front, o := LinkedStructure.UseList(ns[..|ns| - 1]), ns[|ns| - 1].operation;
    if o.SubScope? {
      assert LinkedStructure.UseList(ns)[..|front|] == front;
    } else if o.Loop? {
      assert LinkedStructure.UseList(ns)[..|front|] == front;
    }
  }

  lemma {:induction false} PartBelow(
      scopes: Scopes, depth: map<Structure.Digest, nat>, expanded: map<Structure.Digest, nat>,
      part: Part, o: Documents.Operation)
    requires Bounded(scopes, depth, expanded) && PartExecutes(scopes, part, o)
    requires depth.Keys == expanded.Keys == scopes.Keys
    ensures RunsInvocations(part.runs) <= Weight(o, expanded) && RunsLevels(part.runs) <= Reach(o, depth)
    decreases part, 2
  {
    hide Bounded, Executes, Below, Invocations, Levels;
    if part.runs != [] {
      var d := if o.SubScope? then o.scope else o.body;
      assert part.runs[0] in part.runs;
      assert Executes(scopes, part.runs[0]) && part.runs[0].scope == d;
      InScopes(scopes, part.runs[0]);
      forall r | r in part.runs
        ensures Below(r, depth, expanded, d)
      {
        RunBelow(scopes, depth, expanded, r);
      }
      RunsBelow(part.runs, depth, expanded, d);
      Times(|part.runs|, if o.SubScope? then 1 else o.iterations, expanded[d]);
    }
  }

  lemma InScopes(scopes: Scopes, r: Run)
    requires Executes(scopes, r)
    ensures r.scope in scopes
  {
  }

  lemma Times(a: nat, b: nat, n: nat)
    requires a <= b
    ensures a * n <= b * n
  {
  }

  lemma {:induction false} RunsBelow(
      rs: seq<Run>, depth: map<Structure.Digest, nat>, expanded: map<Structure.Digest, nat>, d: Structure.Digest)
    requires d in depth && d in expanded && forall r :: r in rs ==> Below(r, depth, expanded, d)
    ensures RunsInvocations(rs) <= |rs| * expanded[d] && RunsLevels(rs) <= depth[d]
  {
    if rs != [] {
      var last := |rs| - 1;
      RunsBelow(rs[..last], depth, expanded, d);
      assert Below(rs[last], depth, expanded, d);
      assert |rs| * expanded[d] == last * expanded[d] + expanded[d];
    }
  }

  // ---- Some execution needs all of them ----

  /** A run of the scope that takes as much as the bounds allow. */
  ghost predicate Longest(
      scopes: Scopes, depth: map<Structure.Digest, nat>, expanded: map<Structure.Digest, nat>,
      d: Structure.Digest, r: Run) {
    && r.scope == d && Executes(scopes, r) && d in depth && d in expanded
    && Invocations(r) == expanded[d] && Levels(r) == depth[d]
  }

  lemma {:induction false} LongestRun(
      scopes: Scopes, depth: map<Structure.Digest, nat>, expanded: map<Structure.Digest, nat>, d: Structure.Digest)
      returns (r: Run)
    requires Bounded(scopes, depth, expanded) && d in scopes && LinkedStructure.LoopsRun(scopes) && d in depth
    ensures Longest(scopes, depth, expanded, d, r)
    decreases depth[d], |scopes[d].nodes| + 1
  {
    hide Bounded, PartsExecute, LinkedStructure.UseList, Structure.Sum, Structure.Deepest;
    hide PartsInvocations, PartsLevels;
    BoundedAt(scopes, depth, expanded, d);
    var ns := scopes[d].nodes;
    var parts := LongestParts(scopes, depth, expanded, d, |ns|);
    assert ns[..|ns|] == ns;
    r := Run(d, parts);
    PartsSameLength(scopes, parts, ns);
  }

  lemma {:induction false} LongestParts(
      scopes: Scopes, depth: map<Structure.Digest, nat>, expanded: map<Structure.Digest, nat>,
      d: Structure.Digest, k: nat) returns (parts: seq<Part>)
    requires Bounded(scopes, depth, expanded) && LinkedStructure.LoopsRun(scopes)
    requires depth.Keys == expanded.Keys == scopes.Keys && d in scopes && k <= |scopes[d].nodes|
    ensures PartsExecute(scopes, parts, scopes[d].nodes[..k])
    ensures PartsInvocations(parts)
      == Structure.Sum(LinkedStructure.UseList(scopes[d].nodes[..k]), expanded, scopes.Keys)
    ensures PartsLevels(parts) == Structure.Deepest(LinkedStructure.UseList(scopes[d].nodes[..k]), depth, scopes.Keys)
    decreases depth[d], k
  {
    hide Bounded, PartExecutes, RunsInvocations, RunsLevels, LinkedStructure.UseList;
    var ns := scopes[d].nodes[..k];
    if k == 0 {
      parts := [];
      NoUses(expanded, depth, scopes.Keys);
    } else {
      var o := scopes[d].nodes[k - 1].operation;
      var front := LongestParts(scopes, depth, expanded, d, k - 1);
      assert ns[..k - 1] == scopes[d].nodes[..k - 1] && ns[k - 1].operation == o;
      UseListSnoc(ns, expanded, depth, scopes.Keys);
      ShallowerUse(scopes, depth, expanded, d, k - 1);
      assert scopes[d].nodes[k - 1] in scopes[d].nodes;
      var part: Part;
      if o.SubScope? || o.Loop? {
        var c := if o.SubScope? then o.scope else o.body;
        var run := LongestRun(scopes, depth, expanded, c);
        part := LongestPart(scopes, depth, expanded, o, run);
      } else {
        part := Part([]);
        NothingStarts(scopes, o);
      }
      parts := front + [part];
    }
  }

  lemma NoUses(expanded: map<Structure.Digest, nat>, depth: map<Structure.Digest, nat>, ids: set<Structure.Digest>)
    requires ids <= expanded.Keys && ids <= depth.Keys
    ensures Structure.Sum(LinkedStructure.UseList([]), expanded, ids) == 0
    ensures Structure.Deepest(LinkedStructure.UseList([]), depth, ids) == 0
  {
  }

  lemma NothingStarts(scopes: Scopes, o: Documents.Operation)
    requires !o.SubScope? && !o.Loop?
    ensures PartExecutes(scopes, Part([]), o) && RunsInvocations([]) == 0 && RunsLevels([]) == 0
  {
  }

  /** A node runs a scope that is known and less deep. */
  lemma ShallowerUse(
      scopes: Scopes, depth: map<Structure.Digest, nat>, expanded: map<Structure.Digest, nat>,
      d: Structure.Digest, k: nat)
    requires Bounded(scopes, depth, expanded) && d in scopes && k < |scopes[d].nodes|
    requires depth.Keys == expanded.Keys == scopes.Keys
    ensures
      var o := scopes[d].nodes[k].operation;
      && (o.SubScope? ==> o.scope in scopes && depth[o.scope] < depth[d])
      && (o.Loop? ==> o.body in scopes && depth[o.body] < depth[d])
  {
    hide Bounded, LinkedStructure.UseList, Structure.Deepest, Structure.Sum;
    BoundedAt(scopes, depth, expanded, d);
    var o, uses := scopes[d].nodes[k].operation, LinkedStructure.UseList(scopes[d].nodes);
    UseListed(scopes[d].nodes, k);
    if o.SubScope? {
      Structure.DeepestMember(uses, depth, scopes.Keys, Structure.Use(o.scope, 1));
    } else if o.Loop? {
      Structure.DeepestMember(uses, depth, scopes.Keys, Structure.Use(o.body, o.iterations));
    }
  }

  lemma {:induction false} UseListed(ns: seq<Documents.Node>, k: nat)
    requires k < |ns|
    ensures
      var o := ns[k].operation;
      && (o.SubScope? ==> Structure.Use(o.scope, 1) in LinkedStructure.UseList(ns))
      && (o.Loop? ==> Structure.Use(o.body, o.iterations) in LinkedStructure.UseList(ns))
  {
    if k < |ns| - 1 {
      UseListed(ns[..|ns| - 1], k);
    }
  }

  lemma {:induction false} LongestPart(
      scopes: Scopes, depth: map<Structure.Digest, nat>, expanded: map<Structure.Digest, nat>,
      o: Documents.Operation, run: Run) returns (part: Part)
    requires o.SubScope? || (o.Loop? && o.iterations >= 1)
    requires Longest(scopes, depth, expanded, if o.SubScope? then o.scope else o.body, run)
    ensures PartExecutes(scopes, part, o)
    ensures RunsInvocations(part.runs) == Weight(o, expanded) && RunsLevels(part.runs) == Reach(o, depth)
  {
    hide Executes, Invocations, Levels;
    var n := if o.SubScope? then 1 else o.iterations;
    part := Part(seq(n, i => run));
    Repeated(run, n);
    assert forall r :: r in part.runs ==> r == run;
  }

  lemma {:induction false} Repeated(run: Run, n: nat)
    ensures RunsInvocations(seq(n, i => run)) == n * Invocations(run)
    ensures RunsLevels(seq(n, i => run)) == if n == 0 then 0 else Levels(run)
  {
    hide Invocations, Levels;
    if n > 0 {
      Repeated(run, n - 1);
      assert seq(n, i => run)[..n - 1] == seq(n - 1, i => run);
      assert n * Invocations(run) == (n - 1) * Invocations(run) + Invocations(run);
    }
  }

  // ---- The policy, by executions ----

  /** Every run of the root keeps to the policy. */
  ghost predicate Kept(scopes: Scopes, root: Structure.Digest, policy: Structure.Policy) {
    forall r :: Executes(scopes, r) && r.scope == root ==>
      Levels(r) <= policy.maximumScopeDepth && Invocations(r) <= policy.maximumExpandedNodes
  }

  /** The bounds of a linked document fit the policy exactly when no execution breaks it. */
  lemma FitsIffKept(f: Documents.Tables, root: Structure.Digest, policy: Structure.Policy)
    requires Linkage.Linked(f, root) && LinkedStructure.LoopsRun(f.scopes)
    ensures Structure.Fits(LinkedStructure.Definitions(f.scopes), root, policy) <==> Kept(f.scopes, root, policy)
  {
    hide Executes, Bounded, Longest, Levels, Invocations, Linkage.Linked, LinkedStructure.Definitions;
    LinkedStructure.LinkedIsBounded(f, root, policy);
    var depth, expanded := BoundsOf(f.scopes, root, policy);
    var longest := LongestRun(f.scopes, depth, expanded, root);
    LongestIs(f.scopes, depth, expanded, root, longest);
    forall r | Executes(f.scopes, r) && r.scope == root
      ensures Below(r, depth, expanded, root)
    {
      RunBelow(f.scopes, depth, expanded, r);
    }
    FitsBounds(f.scopes, root, policy, depth, expanded);
  }

  lemma BoundsOf(scopes: Scopes, root: Structure.Digest, policy: Structure.Policy)
      returns (depth: map<Structure.Digest, nat>, expanded: map<Structure.Digest, nat>)
    requires Structure.Fits(LinkedStructure.Definitions(scopes), root, policy)
      || LinkedStructure.Exceeds(LinkedStructure.Definitions(scopes), root, policy)
    ensures Bounded(scopes, depth, expanded) && root in scopes && root in depth && root in expanded
  {
    var g := LinkedStructure.Definitions(scopes);
    if Structure.Fits(g, root, policy) {
      depth, expanded :| Structure.FitsWith(g, root, policy, depth, expanded);
    } else {
      depth, expanded :| Structure.Solution(g, depth, expanded) && root in g &&
        (depth[root] > policy.maximumScopeDepth || expanded[root] > policy.maximumExpandedNodes);
    }
  }

  lemma LongestIs(
      scopes: Scopes, depth: map<Structure.Digest, nat>, expanded: map<Structure.Digest, nat>,
      d: Structure.Digest, r: Run)
    requires Longest(scopes, depth, expanded, d, r)
    ensures Executes(scopes, r) && r.scope == d && d in depth && d in expanded
    ensures Invocations(r) == expanded[d] && Levels(r) == depth[d]
  {
  }

  lemma FitsBounds(
      scopes: Scopes, root: Structure.Digest, policy: Structure.Policy, depth: map<Structure.Digest, nat>,
      expanded: map<Structure.Digest, nat>)
    requires Bounded(scopes, depth, expanded) && root in scopes && root in depth && root in expanded
    ensures Structure.Fits(LinkedStructure.Definitions(scopes), root, policy) <==>
      depth[root] <= policy.maximumScopeDepth && expanded[root] <= policy.maximumExpandedNodes
  {
    var g := LinkedStructure.Definitions(scopes);
    if Structure.Fits(g, root, policy) {
      var otherDepth, otherExpanded :| Structure.FitsWith(g, root, policy, otherDepth, otherExpanded);
      Structure.PartAgrees(g, g.Keys, depth, expanded, otherDepth, otherExpanded, root);
    }
    if depth[root] <= policy.maximumScopeDepth && expanded[root] <= policy.maximumExpandedNodes {
      assert Structure.FitsWith(g, root, policy, depth, expanded);
    }
  }
}
