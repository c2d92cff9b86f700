// Structural bounds over scope definitions (crates/htlk-analyzer/src/structure.rs).

module Structure {
  import opened Graphs

  type Digest = nat

  const U64_MAX: nat := 0xFFFF_FFFF_FFFF_FFFF

  /** A task or loop operation: the definition it uses and its iteration multiplier. */
  datatype Use = Use(child: Digest, multiplier: nat)

  /** A scope definition: how many nodes it has, and which of them use definitions. */
  datatype Definition = Definition(nodes: nat, uses: seq<Use>)

  type Scopes = map<Digest, Definition>

  datatype Policy = Policy(maximumScopeDepth: nat, maximumExpandedNodes: nat)

  // ---- What the bounds mean ----

  /** Nodes contributed by the uses of definitions in `done`. */
  function Sum(uses: seq<Use>, expanded: map<Digest, nat>, done: set<Digest>): nat
    requires done <= expanded.Keys
  {
    if uses == [] then 0 else
      var u := uses[|uses| - 1];
      Sum(uses[..|uses| - 1], expanded, done) + if u.child in done then u.multiplier * expanded[u.child] else 0
  }

  function Max(a: nat, b: nat): nat {
    if a < b then b else a
  }

  /** The greatest depth among the used definitions in `done`. */
  function Deepest(uses: seq<Use>, depth: map<Digest, nat>, done: set<Digest>): nat
    requires done <= depth.Keys
  {
    if uses == [] then 0 else
      var u := uses[|uses| - 1];
      Max(Deepest(uses[..|uses| - 1], depth, done), if u.child in done then depth[u.child] else 0)
  }

  predicate UsesIn(uses: seq<Use>, ids: set<Digest>) {
    forall u :: u in uses ==> u.child in ids
  }

  /** Depth and node counts that satisfy their recursive definition on a closed set. */
  ghost predicate ClosedOn(f: Scopes, ids: set<Digest>, depth: map<Digest, nat>, expanded: map<Digest, nat>) {
    && ids <= f.Keys && depth.Keys == ids && expanded.Keys == ids
    && forall d :: d in ids ==>
      && UsesIn(f[d].uses, ids)
      && depth[d] == 1 + Deepest(f[d].uses, depth, ids)
      && expanded[d] == f[d].nodes + Sum(f[d].uses, expanded, ids)
  }

  /** The recursive bounds of every definition of the document. */
  ghost predicate Solution(f: Scopes, depth: map<Digest, nat>, expanded: map<Digest, nat>) {
    ClosedOn(f, f.Keys, depth, expanded)
  }

  ghost predicate Fits(f: Scopes, root: Digest, policy: Policy) {
    exists depth, expanded :: FitsWith(f, root, policy, depth, expanded)
  }

  ghost predicate FitsWith(
      f: Scopes, root: Digest, policy: Policy, depth: map<Digest, nat>, expanded: map<Digest, nat>) {
    && Solution(f, depth, expanded) && root in f
    && depth[root] <= policy.maximumScopeDepth && expanded[root] <= policy.maximumExpandedNodes
  }

  function UseEdges(f: Scopes): Edges<Digest> {
    set d, u | d in f && u in f[d].uses :: (d, u.child)
  }

  /** What earlier stages establish: every definition is reached from the root. */
  ghost predicate Rooted(f: Scopes, root: Digest) {
    && root in f
    && (forall d :: d in f ==> Reaches(UseEdges(f), root, d))
    && forall d, u :: d in f && u in f[d].uses ==> u.multiplier >= 1
  }

  // ---- Sums over a growing set of definitions ----

  lemma {:induction false} SumMember(uses: seq<Use>, expanded: map<Digest, nat>, done: set<Digest>, u: Use)
    requires done <= expanded.Keys && u in uses && u.child in done && u.multiplier >= 1
    ensures Sum(uses, expanded, done) >= expanded[u.child]
  {
    var last := uses[|uses| - 1];
    if u == last {
      assert u.multiplier * expanded[u.child] >= expanded[u.child];
    } else {
      assert u in uses[..|uses| - 1];
      SumMember(uses[..|uses| - 1], expanded, done, u);
    }
  }

  lemma {:induction false} DeepestMember(uses: seq<Use>, depth: map<Digest, nat>, done: set<Digest>, u: Use)
    requires done <= depth.Keys && u in uses && u.child in done
    ensures Deepest(uses, depth, done) >= depth[u.child]
  {
    if u != uses[|uses| - 1] {
      assert u in uses[..|uses| - 1];
      DeepestMember(uses[..|uses| - 1], depth, done, u);
    }
  }

  /** Only the values on the chosen definitions matter, and choosing more adds. */
  lemma {:induction false} SumGrows(
      uses: seq<Use>, a: map<Digest, nat>, b: map<Digest, nat>, few: set<Digest>, many: set<Digest>)
    requires few <= a.Keys && many <= b.Keys && few <= many
    requires forall d :: d in few ==> a[d] == b[d]
    ensures Sum(uses, a, few) <= Sum(uses, b, many)
    ensures few == many ==> Sum(uses, a, few) == Sum(uses, b, many)
  {
    if uses != [] {
      SumGrows(uses[..|uses| - 1], a, b, few, many);
      var u := uses[|uses| - 1];
      assert u.child in many ==> u.multiplier * b[u.child] >= 0;
    }
  }

  lemma {:induction false} DeepestGrows(
      uses: seq<Use>, a: map<Digest, nat>, b: map<Digest, nat>, few: set<Digest>, many: set<Digest>)
    requires few <= a.Keys && many <= b.Keys && few <= many
    requires forall d :: d in few ==> a[d] == b[d]
    ensures Deepest(uses, a, few) <= Deepest(uses, b, many)
    ensures few == many ==> Deepest(uses, a, few) == Deepest(uses, b, many)
  {
    if uses != [] {
      DeepestGrows(uses[..|uses| - 1], a, b, few, many);
    }
  }

  // ---- Solutions are unique, and exist exactly without cycles ----

  /** A closed part agrees with every solution. */
  lemma {:induction false} PartAgrees(
      f: Scopes, ids: set<Digest>, depth: map<Digest, nat>, expanded: map<Digest, nat>,
      allDepth: map<Digest, nat>, allExpanded: map<Digest, nat>, d: Digest)
    requires ClosedOn(f, ids, depth, expanded) && Solution(f, allDepth, allExpanded) && d in ids
    ensures depth[d] == allDepth[d] && expanded[d] == allExpanded[d]
    decreases allDepth[d]
  {
    var uses := f[d].uses;
    var used := set u | u in uses :: u.child;
    forall c | c in used
      ensures depth[c] == allDepth[c] && expanded[c] == allExpanded[c]
    {
      var u :| u in uses && u.child == c;
      DeepestMember(uses, allDepth, f.Keys, u);
      PartAgrees(f, ids, depth, expanded, allDepth, allExpanded, c);
    }
    OnlyUsed(uses, depth, expanded, ids, used);
    OnlyUsed(uses, allDepth, allExpanded, f.Keys, used);
    SumGrows(uses, expanded, allExpanded, used, used);
    DeepestGrows(uses, depth, allDepth, used, used);
  }

  /** Definitions that are not used do not count. */
  lemma {:induction false} OnlyUsed(
      uses: seq<Use>, depth: map<Digest, nat>, expanded: map<Digest, nat>, ids: set<Digest>, used: set<Digest>)
    requires ids <= depth.Keys && ids <= expanded.Keys && used <= ids && UsesIn(uses, used)
    ensures Sum(uses, expanded, ids) == Sum(uses, expanded, used)
    ensures Deepest(uses, depth, ids) == Deepest(uses, depth, used)
  {
    if uses != [] {
      var u := uses[|uses| - 1];
      assert u in uses;
      OnlyUsed(uses[..|uses| - 1], depth, expanded, ids, used);
    }
  }

  /** The bounds of a reached definition are within those of the root. */
  lemma {:induction false} ReachedBelow(
      f: Scopes, depth: map<Digest, nat>, expanded: map<Digest, nat>, p: seq<Digest>)
    requires Solution(f, depth, expanded) && IsPath(UseEdges(f), p) && p[0] in f
    requires forall d, u :: d in f && u in f[d].uses ==> u.multiplier >= 1
    ensures p[|p| - 1] in f
    ensures depth[p[|p| - 1]] <= depth[p[0]] && expanded[p[|p| - 1]] <= expanded[p[0]]
    ensures |p| > 1 ==> depth[p[|p| - 1]] < depth[p[0]]
  {
    if |p| > 1 {
      assert (p[0], p[1]) in UseEdges(f);
      var u :| u in f[p[0]].uses && u.child == p[1];
      SumMember(f[p[0]].uses, expanded, f.Keys, u);
      DeepestMember(f[p[0]].uses, depth, f.Keys, u);
      var q := p[1..];
      forall i | 0 <= i < |q| - 1
        ensures (q[i], q[i + 1]) in UseEdges(f)
      {
        assert q[i] == p[i + 1] && q[i + 1] == p[i + 2];
      }
      ReachedBelow(f, depth, expanded, q);
    }
  }

  lemma SolutionIsAcyclic(f: Scopes, depth: map<Digest, nat>, expanded: map<Digest, nat>)
    requires Solution(f, depth, expanded)
    requires forall d, u :: d in f && u in f[d].uses ==> u.multiplier >= 1
    ensures !Cyclic(UseEdges(f))
  {
    if p :| IsCycle(UseEdges(f), p) {
      assert (p[0], p[1]) in UseEdges(f);
      ReachedBelow(f, depth, expanded, p);
      assert false;
    }
  }

  /** A definition whose uses are all solved can be solved. */
  lemma ExtendClosed(
      f: Scopes, ids: set<Digest>, depth: map<Digest, nat>, expanded: map<Digest, nat>, d: Digest)
    requires ClosedOn(f, ids, depth, expanded)
    requires d in f && d !in ids && UsesIn(f[d].uses, ids)
    ensures
      var uses := f[d].uses;
      ClosedOn(f, ids + {d}, depth[d := 1 + Deepest(uses, depth, ids)],
        expanded[d := f[d].nodes + Sum(uses, expanded, ids)])
  {
    var uses := f[d].uses;
    var more := ids + {d};
    var depth' := depth[d := 1 + Deepest(uses, depth, ids)];
    var expanded' := expanded[d := f[d].nodes + Sum(uses, expanded, ids)];
    forall e | e in more
      ensures UsesIn(f[e].uses, more)
      ensures Deepest(f[e].uses, depth', more) == Deepest(f[e].uses, depth, ids)
      ensures Sum(f[e].uses, expanded', more) == Sum(f[e].uses, expanded, ids)
    {
      OnlyUsed(f[e].uses, depth', expanded', more, ids);
      DeepestGrows(f[e].uses, depth, depth', ids, ids);
      SumGrows(f[e].uses, expanded, expanded', ids, ids);
    }
  }

  lemma {:induction false} AcyclicSolution(
      f: Scopes, ids: set<Digest>, depth: map<Digest, nat>, expanded: map<Digest, nat>)
    returns (allDepth: map<Digest, nat>, allExpanded: map<Digest, nat>)
    requires forall d :: d in f ==> UsesIn(f[d].uses, f.Keys)
    requires !Cyclic(UseEdges(f)) && ClosedOn(f, ids, depth, expanded)
    ensures Solution(f, allDepth, allExpanded)
    decreases f.Keys - ids
  {
    if ids == f.Keys {
      allDepth, allExpanded := depth, expanded;
    } else {
      var d := Solvable(f, ids);
      ExtendClosed(f, ids, depth, expanded, d);
      allDepth, allExpanded := AcyclicSolution(f, ids + {d},
        depth[d := 1 + Deepest(f[d].uses, depth, ids)],
        expanded[d := f[d].nodes + Sum(f[d].uses, expanded, ids)]);
    }
  }

  lemma Solvable(f: Scopes, ids: set<Digest>) returns (d: Digest)
    requires forall d :: d in f ==> UsesIn(f[d].uses, f.Keys)
    requires !Cyclic(UseEdges(f)) && ids < f.Keys
    ensures d in f && d !in ids && UsesIn(f[d].uses, ids)
  {
    var left := f.Keys - ids;
    if !exists d :: d in left && UsesIn(f[d].uses, ids) {
      LeftIsCyclic(f, ids);
    }
    d :| d in left && UsesIn(f[d].uses, ids);
  }

  lemma LeftIsCyclic(f: Scopes, ids: set<Digest>)
    requires ids < f.Keys
    requires forall d :: d in f.Keys - ids ==> UsesIn(f[d].uses, f.Keys) && !UsesIn(f[d].uses, ids)
    ensures Cyclic(UseEdges(f))
  {
    var left := f.Keys - ids;
    assert Sinkless(UseEdges(f), left) by {
      forall d | d in left
        ensures HasSuccessor(UseEdges(f), left, d)
      {
        LeftSuccessor(f, ids, d);
      }
    }
    assert left != {} by {
      assert f.Keys == ids + left;
    }
    assert Cyclic(UseEdges(f)) by {
      hide UseEdges;
      NoSinkIsCyclic(UseEdges(f), left);
    }
  }

  lemma LeftSuccessor(f: Scopes, ids: set<Digest>, d: Digest)
    requires d in f && UsesIn(f[d].uses, f.Keys) && !UsesIn(f[d].uses, ids)
    ensures HasSuccessor(UseEdges(f), f.Keys - ids, d)
  {
    var u :| u in f[d].uses && u.child !in ids;
    assert (d, u.child) in UseEdges(f);
  }

  /** Bounds exist exactly when every use is present and no definition uses itself. */
  lemma SolutionIffAcyclic(f: Scopes)
    requires forall d, u :: d in f && u in f[d].uses ==> u.multiplier >= 1
    ensures (exists depth, expanded :: Solution(f, depth, expanded)) <==>
      (forall d :: d in f ==> UsesIn(f[d].uses, f.Keys)) && !Cyclic(UseEdges(f))
  {
    if depth, expanded :| Solution(f, depth, expanded) {
      SolutionIsAcyclic(f, depth, expanded);
    }
    if (forall d :: d in f ==> UsesIn(f[d].uses, f.Keys)) && !Cyclic(UseEdges(f)) {
      var depth, expanded := AcyclicSolution(f, {}, map[], map[]);
    }
  }
}
