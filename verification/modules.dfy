// The import traversal of a bundle (crates/htlk-compiler/src/modules.rs).

module Modules {
  import opened Wrappers
  import opened Graphs
  import opened Chains
  import opened Memoised

  type Digest = nat

  datatype ModuleRef = ModuleRef(package: Digest, path: string)

  /** An import path `package/module`, or one that is not of that form. */
  datatype ImportPath = Malformed | Exact(package: string, path: string)

  datatype Import = Import(alias: string, path: ImportPath)

  /** A parsed module: its token count, graph declarations and imports. */
  datatype Source = Source(tokens: nat, graphs: nat, imports: seq<Import>)

  /** The dependencies of each package, and the modules that exist and parse. */
  datatype Bundle = Bundle(dependencies: map<Digest, map<string, Digest>>, sources: map<ModuleRef, Source>)

  datatype Role = Role(root: ModuleRef, inspection: bool)

  datatype Error = Cycle | TooDeep | Missing | Tokens | GraphCount | BadImport | DuplicateAlias

  function Resolve(b: Bundle, r: ModuleRef, path: ImportPath): Option<ModuleRef> {
    if path.Malformed? then None
    else if path.package == "self" then Some(ModuleRef(r.package, path.path))
    else if r.package in b.dependencies && path.package in b.dependencies[r.package] then
      Some(ModuleRef(b.dependencies[r.package][path.package], path.path))
    else None
  }

  /** The modules a list of imports resolves to. */
  function Targets(b: Bundle, r: ModuleRef, imports: seq<Import>): seq<ModuleRef> {
    if imports == [] then [] else
      var front := Targets(b, r, imports[..|imports| - 1]);
      var last := Resolve(b, r, imports[|imports| - 1].path);
      if last.Some? then front + [last.value] else front
  }

  function ImportDeps(b: Bundle): Deps<ModuleRef> {
    map r | r in b.sources :: Targets(b, r, b.sources[r].imports)
  }

  /** A module may play its part: the compiled one has its graph, an imported one has none. */
  predicate GraphsFit(role: Role, r: ModuleRef, s: Source) {
    if r != role.root then s.graphs == 0 else if role.inspection then s.graphs <= 1 else s.graphs == 1
  }

  predicate ImportsFit(b: Bundle, r: ModuleRef, imports: seq<Import>) {
    && (forall k :: 0 <= k < |imports| ==> Resolve(b, r, imports[k].path).Some?)
    && forall i, j :: 0 <= i < j < |imports| ==> imports[i].alias != imports[j].alias
  }

  ghost predicate Accepts(b: Bundle, role: Role, r: ModuleRef) {
    r in b.sources && GraphsFit(role, r, b.sources[r]) && ImportsFit(b, r, b.sources[r].imports)
  }

  // ---- Token totals over sets of modules ----

  function TokensOf(b: Bundle, r: ModuleRef): nat {
    if r in b.sources then b.sources[r].tokens else 0
  }

  ghost function Total(b: Bundle, s: set<ModuleRef>): nat {
    if s == {} then 0 else
      var r :| r in s;
      TokensOf(b, r) + Total(b, s - {r})
  }

  lemma {:induction false} TotalAdd(b: Bundle, s: set<ModuleRef>, r: ModuleRef)
    requires r !in s
    ensures Total(b, s + {r}) == Total(b, s) + TokensOf(b, r)
  {
    var more := s + {r};
    var x :| x in more && Total(b, more) == TokensOf(b, x) + Total(b, more - {x});
    if x == r {
      assert more - {x} == s;
    } else {
      assert more - {x} == s - {x} + {r};
      TotalAdd(b, s - {x}, r);
      TotalAdd(b, s - {x}, x);
      assert s - {x} + {x} == s;
    }
  }

  lemma {:induction false} TotalGrows(b: Bundle, few: set<ModuleRef>, many: set<ModuleRef>)
    requires few <= many
    ensures Total(b, few) <= Total(b, many)
    decreases many - few
  {
    if few != many {
      assert many == few + (many - few);
      var r :| r in many - few;
      TotalAdd(b, few, r);
      TotalGrows(b, few + {r}, many);
    }
  }

  // ---- What the traversal decides ----

  ghost function Closure(b: Bundle, r: ModuleRef): set<ModuleRef> {
    set q | q in b.sources && Reaches(Links(ImportDeps(b)), r, q)
  }

  /** A module can be added to those already parsed. */
  ghost predicate Admits(b: Bundle, role: Role, parsed: set<ModuleRef>, r: ModuleRef, room: int, maxTokens: nat) {
    && Bounded(ImportDeps(b), r, room)
    && AllAccepted(b, role, Closure(b, r))
    && Total(b, parsed + Closure(b, r)) <= maxTokens
  }

  ghost predicate AllAccepted(b: Bundle, role: Role, s: set<ModuleRef>) {
    forall r :: r in s ==> Accepts(b, role, r)
  }

  lemma SelfInClosure(b: Bundle, r: ModuleRef)
    requires r in b.sources
    ensures r in Closure(b, r)
  {
    ReachesSelf(Links(ImportDeps(b)), r);
  }

  lemma RejectSelf(b: Bundle, role: Role, parsed: set<ModuleRef>, r: ModuleRef, room: int, maxTokens: nat)
    requires r !in b.sources || !Accepts(b, role, r) || !Bounded(ImportDeps(b), r, room)
      || (r !in parsed && Total(b, parsed) + TokensOf(b, r) > maxTokens)
    ensures !Admits(b, role, parsed, r, room, maxTokens)
  {
    if r !in b.sources {
      MissingIsUnbounded(ImportDeps(b), r, room);
    } else {
      SelfInClosure(b, r);
      if r !in parsed {
        TotalAdd(b, parsed, r);
        TotalGrows(b, parsed + {r}, parsed + Closure(b, r));
      }
    }
  }

  lemma RejectDepth(b: Bundle, role: Role, parsed: set<ModuleRef>, r: ModuleRef, room: int, maxTokens: nat)
    requires room <= 0
    ensures !Admits(b, role, parsed, r, room, maxTokens)
  {
    NoRoom(ImportDeps(b), r, room);
  }

  lemma RejectTokens(b: Bundle, role: Role, parsed: set<ModuleRef>, r: ModuleRef, room: int, maxTokens: nat)
    requires r in b.sources && r !in parsed && b.sources[r].tokens > maxTokens - Total(b, parsed)
    ensures !Admits(b, role, parsed, r, room, maxTokens)
  {
    RejectSelf(b, role, parsed, r, room, maxTokens);
  }

  lemma RejectGraphs(b: Bundle, role: Role, parsed: set<ModuleRef>, r: ModuleRef, room: int, maxTokens: nat)
    requires r in b.sources && !GraphsFit(role, r, b.sources[r])
    ensures !Admits(b, role, parsed, r, room, maxTokens)
  {
    RejectSelf(b, role, parsed, r, room, maxTokens);
  }

  /** What is finished stays within the closure of the module being visited. */
  lemma RejectVia(b: Bundle, role: Role, before: set<ModuleRef>, mid: set<ModuleRef>, active: set<ModuleRef>,
      r: ModuleRef, seen: seq<ModuleRef>, d: ModuleRef, room: int, maxTokens: nat)
    requires r in b.sources && d in ImportDeps(b)[r] && (forall x :: x in seen ==> x in ImportDeps(b)[r])
    requires Covers(ImportDeps(b), before, seen, mid) && mid <= b.sources.Keys
    requires !Admits(b, role, mid + (active + {r}), d, room - 1, maxTokens)
    ensures !Admits(b, role, before + active, r, room, maxTokens)
  {
    if Admits(b, role, before + active, r, room, maxTokens) {
      BoundedDown(ImportDeps(b), r, room);
      ClosureDown(b, r, d);
      SelfInClosure(b, r);
      forall q | q in mid
        ensures q in before + Closure(b, r)
      {
        if q !in before {
          var x :| x in seen && Reaches(Links(ImportDeps(b)), x, q);
          ClosureDown(b, r, x);
          assert q in Closure(b, x);
        }
      }
      TotalGrows(b, mid + (active + {r}) + Closure(b, d), before + active + Closure(b, r));
    }
  }

  lemma ClosureDown(b: Bundle, r: ModuleRef, d: ModuleRef)
    requires r in b.sources && d in ImportDeps(b)[r]
    ensures Closure(b, d) <= Closure(b, r)
  {
    forall q | q in Closure(b, d)
      ensures q in Closure(b, r)
    {
      ReachedStep(ImportDeps(b), r, q);
    }
  }

  /** A visited module whose imports are all finished is admitted. */
  lemma AdmitDone(b: Bundle, role: Role, before: set<ModuleRef>, now: set<ModuleRef>, active: set<ModuleRef>,
      r: ModuleRef, room: int, maxTokens: nat)
    requires Covers(ImportDeps(b), before, [r], now) && now <= b.sources.Keys
    requires Bounded(ImportDeps(b), r, room) && AllAccepted(b, role, now)
    requires Total(b, now + active) <= maxTokens
    ensures Admits(b, role, before + active, r, room, maxTokens)
  {
    forall q | q in Closure(b, r)
      ensures q in now
    {
      assert r in [r] && FromSome(ImportDeps(b), [r], q);
    }
    TotalGrows(b, before + active + Closure(b, r), now + active);
  }

  // ---- The module table ----

  /** Every import is in the table under its alias, before the module itself. */
  ghost predicate Linked(b: Bundle, r: ModuleRef, imports: seq<Import>, table: map<string, nat>,
      indices: map<ModuleRef, nat>, index: nat) {
    && (forall k :: 0 <= k < |imports| ==> LinkedOne(b, r, imports[k], table, indices, index))
    && forall a :: a in table ==> exists k :: 0 <= k < |imports| && imports[k].alias == a
  }

  /** One import is in the table, under its alias and with the index of its target. */
  predicate LinkedOne(b: Bundle, r: ModuleRef, i: Import, table: map<string, nat>,
      indices: map<ModuleRef, nat>, index: nat) {
    && i.alias in table && table[i.alias] < index
    && var target := Resolve(b, r, i.path);
       target.Some? && target.value in indices && indices[target.value] == table[i.alias]
  }

  /** The finished modules in the order of their indices. */
  ghost predicate PostOrder(b: Bundle, refs: seq<ModuleRef>, modules: seq<Source>, imports: seq<map<string, nat>>,
      indices: map<ModuleRef, nat>) {
    && |modules| == |refs| == |imports|
    && (forall r :: r in indices <==> r in refs)
    && forall i {:trigger refs[i]} :: 0 <= i < |refs| ==>
      && refs[i] in indices && indices[refs[i]] == i
      && refs[i] in b.sources && modules[i] == b.sources[refs[i]]
      && Linked(b, refs[i], modules[i].imports, imports[i], indices, i)
  }

  ghost predicate HeightsMatch(indices: map<ModuleRef, nat>, heights: seq<nat>, reached: map<ModuleRef, nat>) {
    && reached.Keys == indices.Keys
    && forall r :: r in indices ==> indices[r] < |heights| && heights[indices[r]] == reached[r]
  }

  lemma LinkedLater(b: Bundle, r: ModuleRef, imports: seq<Import>, table: map<string, nat>,
      before: map<ModuleRef, nat>, now: map<ModuleRef, nat>, index: nat, later: nat)
    requires Linked(b, r, imports, table, before, index) && Keeps(before, now) && index <= later
    ensures Linked(b, r, imports, table, now, later)
  {
  }

  lemma PostOrderAdd(b: Bundle, refs: seq<ModuleRef>, modules: seq<Source>, imports: seq<map<string, nat>>,
      indices: map<ModuleRef, nat>, r: ModuleRef, table: map<string, nat>)
    requires PostOrder(b, refs, modules, imports, indices) && r in b.sources && r !in indices
    requires Linked(b, r, b.sources[r].imports, table, indices, |refs|)
    ensures PostOrder(b, refs + [r], modules + [b.sources[r]], imports + [table], indices[r := |refs|])
    ensures Keeps(indices, indices[r := |refs|])
  {
  }

  ghost predicate Indexed(table: map<string, nat>, count: nat) {
    forall a :: a in table ==> table[a] < count
  }

  ghost predicate IsTallest(table: map<string, nat>, heights: seq<nat>, h: nat)
    requires Indexed(table, |heights|)
  {
    && (forall a :: a in table ==> heights[table[a]] <= h)
    && (h == 0 || exists a :: a in table && heights[table[a]] == h)
  }

  /** The greatest height among the imported modules. */
  method Tallest(table: map<string, nat>, heights: seq<nat>) returns (h: nat)
    requires Indexed(table, |heights|)
    ensures IsTallest(table, heights, h)
  {
    h := 0;
    var rest := table.Keys;
    while rest != {}
      invariant rest <= table.Keys
      invariant forall a :: a in table && a !in rest ==> heights[table[a]] <= h
      invariant h == 0 || exists a :: a in table && heights[table[a]] == h
      decreases rest
    {
      var a :| a in rest;
      if heights[table[a]] > h {
        h := heights[table[a]];
      }
      rest := rest - {a};
    }
  }

  lemma {:induction false} TargetsResolved(b: Bundle, r: ModuleRef, imports: seq<Import>)
    requires forall k :: 0 <= k < |imports| ==> Resolve(b, r, imports[k].path).Some?
    ensures |Targets(b, r, imports)| == |imports|
    ensures forall k :: 0 <= k < |imports| ==> Targets(b, r, imports)[k] == Resolve(b, r, imports[k].path).value
  {
    if imports != [] {
      TargetsResolved(b, r, imports[..|imports| - 1]);
    }
  }

  lemma {:induction false} TargetsPrefix(b: Bundle, r: ModuleRef, imports: seq<Import>, k: nat)
    requires k <= |imports|
    ensures forall d :: d in Targets(b, r, imports[..k]) ==> d in Targets(b, r, imports)
    decreases |imports|
  {
    if k < |imports| {
      assert imports[..|imports| - 1][..k] == imports[..k];
      TargetsPrefix(b, r, imports[..|imports| - 1], k);
    } else {
      assert imports[..k] == imports;
    }
  }

  lemma TargetsSnoc(b: Bundle, r: ModuleRef, imports: seq<Import>, k: nat)
    requires k < |imports| && Resolve(b, r, imports[k].path).Some?
    ensures Targets(b, r, imports[..k + 1]) == Targets(b, r, imports[..k]) + [Resolve(b, r, imports[k].path).value]
    ensures Resolve(b, r, imports[k].path).value in Targets(b, r, imports)
    ensures forall d :: d in Targets(b, r, imports[..k]) ==> d in Targets(b, r, imports)
  {
    assert imports[..k + 1][..k] == imports[..k];
    TargetsPrefix(b, r, imports, k + 1);
    TargetsPrefix(b, r, imports, k);
  }

  /** The heights of the table are those of the dependencies. */
  lemma TallestTopsOut(
      b: Bundle, r: ModuleRef, imports: seq<Import>, table: map<string, nat>, indices: map<ModuleRef, nat>,
      index: nat, heights: seq<nat>, reached: map<ModuleRef, nat>, h: nat)
    requires Linked(b, r, imports, table, indices, index) && HeightsMatch(indices, heights, reached)
    requires Indexed(table, |heights|) && IsTallest(table, heights, h)
    ensures TopsOut(ImportDeps(b), Targets(b, r, imports), reached, h)
  {
    TargetsResolved(b, r, imports);
    var ds := Targets(b, r, imports);
    forall d | d in ds
      ensures d in reached && reached[d] <= h
    {
      var k :| 0 <= k < |ds| && ds[k] == d;
      assert imports[k].alias in table;
    }
    if h != 0 {
      var a :| a in table && heights[table[a]] == h;
      var k :| 0 <= k < |imports| && imports[k].alias == a;
      assert ds[k] in ds && reached[ds[k]] == h;
    }
  }

  // ---- The imports of one module ----

  ghost predicate Importing(b: Bundle, r: ModuleRef, seen: seq<Import>, table: map<string, nat>,
      indices: map<ModuleRef, nat>, count: nat) {
    ImportsFit(b, r, seen) && Linked(b, r, seen, table, indices, count)
  }

  lemma ImportingMore(b: Bundle, r: ModuleRef, imports: seq<Import>, k: nat, table: map<string, nat>,
      before: map<ModuleRef, nat>, now: map<ModuleRef, nat>, count: nat, more: nat, d: ModuleRef)
    requires k < |imports| && Importing(b, r, imports[..k], table, before, count) && count <= more
    requires Keeps(before, now) && Resolve(b, r, imports[k].path) == Some(d) && d in now && now[d] < more
    requires imports[k].alias !in table
    ensures Importing(b, r, imports[..k + 1], table[imports[k].alias := now[d]], now, more)
  {
    LinkedLater(b, r, imports[..k], table, before, now, count, more);
    assert imports[..k + 1] == imports[..k] + [imports[k]];
    LinkedMore(b, r, imports[..k], imports[k], table, now, more, d);
    FitMore(b, r, imports[..k], imports[k], table, now, more);
    hide Linked, ImportsFit;
  }

  lemma LinkedMore(b: Bundle, r: ModuleRef, seen: seq<Import>, item: Import, table: map<string, nat>,
      now: map<ModuleRef, nat>, more: nat, d: ModuleRef)
    requires Linked(b, r, seen, table, now, more) && item.alias !in table
    requires Resolve(b, r, item.path) == Some(d) && d in now && now[d] < more
    ensures Linked(b, r, seen + [item], table[item.alias := now[d]], now, more)
  {
    var seen', table' := seen + [item], table[item.alias := now[d]];
    forall a | a in table'
      ensures exists j :: 0 <= j < |seen'| && seen'[j].alias == a
    {
      if a == item.alias {
        assert seen'[|seen|].alias == a;
      } else {
        var j :| 0 <= j < |seen| && seen[j].alias == a;
        assert seen'[j].alias == a;
      }
    }
  }

  lemma FitMore(b: Bundle, r: ModuleRef, seen: seq<Import>, item: Import, table: map<string, nat>,
      now: map<ModuleRef, nat>, more: nat)
    requires ImportsFit(b, r, seen) && Linked(b, r, seen, table, now, more) && item.alias !in table
    requires Resolve(b, r, item.path).Some?
    ensures ImportsFit(b, r, seen + [item])
  {
    assert forall j :: 0 <= j < |seen| ==> seen[j].alias in table;
  }

  lemma UnresolvedRejects(b: Bundle, role: Role, r: ModuleRef, k: nat)
    requires r in b.sources && k < |b.sources[r].imports| && Resolve(b, r, b.sources[r].imports[k].path).None?
    ensures !Accepts(b, role, r)
  {
  }

  lemma DuplicateRejects(b: Bundle, role: Role, r: ModuleRef, k: nat, table: map<string, nat>,
      indices: map<ModuleRef, nat>, count: nat)
    requires r in b.sources && k < |b.sources[r].imports|
    requires Importing(b, r, b.sources[r].imports[..k], table, indices, count) && b.sources[r].imports[k].alias in table
    ensures !Accepts(b, role, r)
  {
  }

  /** The modules being visited start from the compiled one. */
  ghost predicate FromRoot(role: Role, trail: seq<ModuleRef>) {
    trail != [] ==> trail[0] == role.root
  }

  /** More graphs than one, none where the compiled module needs one, or any in an imported module. */
  predicate GraphsMiscounted(role: Role, imported: bool, s: Source) {
    s.graphs > 1 || (!role.inspection && !imported && s.graphs != 1) || (imported && s.graphs != 0)
  }

  lemma RoleOf(b: Bundle, role: Role, trail: seq<ModuleRef>, r: ModuleRef)
    requires FromRoot(role, trail + [r]) && r !in trail && r in b.sources
    ensures GraphsFit(role, r, b.sources[r]) <==> !GraphsMiscounted(role, trail != [], b.sources[r])
    ensures !GraphsFit(role, r, b.sources[r]) ==> !Accepts(b, role, r)
    ensures b.sources[r].tokens == TokensOf(b, r)
  {
  }

  lemma PathOf(role: Role, trail: seq<ModuleRef>, r: ModuleRef, next: ModuleRef)
    requires FromRoot(role, trail + [r])
    ensures FromRoot(role, trail + [r] + [next])
  {
  }

  lemma DepsAt(b: Bundle, r: ModuleRef)
    requires r in b.sources
    ensures r in ImportDeps(b) && ImportDeps(b)[r] == Targets(b, r, b.sources[r].imports)
  {
  }

  ghost predicate Sized(s: set<ModuleRef>, n: nat) {
    |s| == n
  }

  lemma EnterTotal(b: Bundle, finished: set<ModuleRef>, active: set<ModuleRef>, r: ModuleRef, n: nat)
    requires r !in finished && r !in active
    ensures Total(b, finished + (active + {r})) == Total(b, finished + active) + TokensOf(b, r)
    ensures Sized(active, n) ==> Sized(active + {r}, n + 1)
  {
    assert finished + (active + {r}) == finished + active + {r};
    TotalAdd(b, finished + active, r);
  }

  /** Moving a module from the active ones to the finished ones changes no total. */
  lemma LeaveTotal(entered: set<ModuleRef>, reached: map<ModuleRef, nat>, r: ModuleRef, height: nat)
    requires r !in entered
    ensures reached[r := height].Keys + entered == reached.Keys + (entered + {r})
    ensures entered + {r} - {r} == entered
  {
  }

  lemma ImportingStart(b: Bundle, r: ModuleRef, indices: map<ModuleRef, nat>, count: nat)
    ensures Importing(b, r, [], map[], indices, count) && Targets(b, r, []) == []
  {
  }

  lemma VisitingCovers(
      deps: Deps<ModuleRef>, before: map<ModuleRef, nat>, now: map<ModuleRef, nat>, seen: seq<ModuleRef>,
      room: int)
    requires Visiting(deps, before, now, seen, room)
    ensures Covers(deps, before.Keys, seen, now.Keys)
  {
  }

  lemma AdmitsBounded(b: Bundle, role: Role, parsed: set<ModuleRef>, r: ModuleRef, room: int, maxTokens: nat)
    requires Admits(b, role, parsed, r, room, maxTokens)
    ensures Bounded(ImportDeps(b), r, room)
  {
  }

  lemma HeightsAdd(
      indices: map<ModuleRef, nat>, heights: seq<nat>, reached: map<ModuleRef, nat>, r: ModuleRef, height: nat)
    requires HeightsMatch(indices, heights, reached) && r !in indices
    ensures HeightsMatch(indices[r := |heights|], heights + [height], reached[r := height])
  {
  }

  lemma AcceptedAdd(
      b: Bundle, role: Role, finished: set<ModuleRef>, r: ModuleRef, reached: map<ModuleRef, nat>, height: nat)
    requires AllAccepted(b, role, finished) && finished == reached.Keys
    requires r in b.sources && GraphsFit(role, r, b.sources[r]) && ImportsFit(b, r, b.sources[r].imports)
    ensures AllAccepted(b, role, reached[r := height].Keys)
  {
  }

  /** What the remembered heights are once a module is finished. */
  lemma FinishHeights(b: Bundle, r: ModuleRef, table: map<string, nat>, indices: map<ModuleRef, nat>, index: nat,
      heights: seq<nat>, before: map<ModuleRef, nat>, reached: map<ModuleRef, nat>, tallest: nat,
      done: map<ModuleRef, nat>, room: int)
    requires r in b.sources && r !in reached && room >= 1 && done == reached[r := tallest + 1]
    requires Memo(ImportDeps(b), reached) && HeightsMatch(indices, heights, reached)
    requires Linked(b, r, b.sources[r].imports, table, indices, index)
    requires Visiting(ImportDeps(b), before, reached, Targets(b, r, b.sources[r].imports), room - 1)
    requires Indexed(table, |heights|) && IsTallest(table, heights, tallest)
    ensures Memo(ImportDeps(b), done) && Keeps(before, done) && Covers(ImportDeps(b), before.Keys, [r], done.Keys)
    ensures Bounded(ImportDeps(b), r, room) && tallest + 1 <= room
  {
    hide *;
    DepsAt(b, r);
    TallestTopsOut(b, r, b.sources[r].imports, table, indices, index, heights, reached, tallest);
    VisitingEnd(ImportDeps(b), before, reached, r, tallest, room, done);
  }

  class Traversal {
    const bundle: Bundle
    const role: Role
    const maxTokens: nat
    const maxDepth: nat
    var modules: seq<Source>
    var imports: seq<map<string, nat>>
    var indices: map<ModuleRef, nat>
    var active: set<ModuleRef>
    var tokens: nat
    var heights: seq<nat>
    ghost var refs: seq<ModuleRef>
    ghost var reached: map<ModuleRef, nat>

    ghost predicate Valid(trail: seq<ModuleRef>)
      reads this
    {
      PostOrder(bundle, refs, modules, imports, indices) && HeightsMatch(indices, heights, reached)
      && |heights| == |modules| && Memo(ImportDeps(bundle), reached)
      && OnTrail(active, trail, reached) && Sized(active, |trail|) && FromRoot(role, trail)
      && AllAccepted(bundle, role, reached.Keys)
      && tokens == Total(bundle, reached.Keys + active) && tokens <= maxTokens
    }

    constructor (bundle: Bundle, role: Role, maxTokens: nat, maxDepth: nat)
      ensures this.bundle == bundle && this.role == role && this.maxTokens == maxTokens && this.maxDepth == maxDepth
      ensures Valid([]) && reached == map[] && active == {}
    {
      this.bundle, this.role, this.maxTokens, this.maxDepth := bundle, role, maxTokens, maxDepth;
      modules, imports, indices, active, tokens, heights := [], [], map[], {}, 0, [];
      refs, reached := [], map[];
    }

    lemma ValidParts(trail: seq<ModuleRef>)
      requires Valid(trail)
      ensures PostOrder(bundle, refs, modules, imports, indices) && HeightsMatch(indices, heights, reached)
      ensures |heights| == |modules| == |refs| && Memo(ImportDeps(bundle), reached) && indices.Keys == reached.Keys
      ensures OnTrail(active, trail, reached) && Sized(active, |trail|) && FromRoot(role, trail)
      ensures AllAccepted(bundle, role, reached.Keys) && reached.Keys <= bundle.sources.Keys
      ensures tokens == Total(bundle, reached.Keys + active) && tokens <= maxTokens
    {
    }

    lemma ValidFrom(trail: seq<ModuleRef>)
      requires PostOrder(bundle, refs, modules, imports, indices) && HeightsMatch(indices, heights, reached)
      requires |heights| == |modules| && Memo(ImportDeps(bundle), reached)
      requires OnTrail(active, trail, reached) && Sized(active, |trail|) && FromRoot(role, trail)
      requires AllAccepted(bundle, role, reached.Keys)
      requires tokens == Total(bundle, reached.Keys + active) && tokens <= maxTokens
      ensures Valid(trail)
    {
    }

    /** A finished module, whose height is known and which has no graph of its own. */
    lemma Finished(r: ModuleRef, trail: seq<ModuleRef>)
      requires Valid(trail) && r in indices && (trail != [] ==> trail[0] == role.root)
      ensures indices[r] < |modules| && heights[indices[r]] == reached[r]
      ensures trail != [] ==> modules[indices[r]].graphs == 0
    {
    }

    /** One module: its index, once everything it imports has one. */
    method Visit(r: ModuleRef, imported: bool, ghost trail: seq<ModuleRef>) returns (out: Result<nat, Error>)
      requires Valid(trail) && IsPath(Links(ImportDeps(bundle)), trail + [r])
      requires imported == (trail != []) && FromRoot(role, trail + [r])
      modifies this
      decreases if |trail| < maxDepth then maxDepth - |trail| else 0, 1
      ensures out.Ok? <==> Admits(bundle, role, old(reached.Keys + active), r, maxDepth - |trail|, maxTokens)
      ensures out.Ok? ==> Valid(trail) && r in indices && out.value == indices[r] && active == old(active)
      ensures out.Ok? ==> Keeps(old(reached), reached) && Keeps(old(indices), indices) && |modules| >= old(|modules|)
      ensures out.Ok? ==> Covers(ImportDeps(bundle), old(reached).Keys, [r], reached.Keys)
    {
      hide *;
      ValidParts(trail);
      KeyOfActive(active, trail, reached, r);
      if r in active {
        ActiveIsUnbounded(ImportDeps(bundle), trail, r, maxDepth - |trail|);
        RejectSelf(bundle, role, reached.Keys + active, r, maxDepth - |trail|, maxTokens);
        return Err(Cycle);
      }
      if r in indices {
        out := Reuse(r, imported, trail);
        return;
      }
      ghost var before, entered, placed := reached, active, indices;
      var rejected := Enter(r, imported, trail);
      if rejected.Some? {
        return Err(rejected.value);
      }
      PathOf(role, trail, r, r);
      var source := bundle.sources[r];
      var table := VisitImports(r, source, trail, entered);
      if table.Err? {
        return Err(table.error);
      }
      out := Finish(r, source, table.value, trail, entered, before, placed);
    }

    /** How many modules are being visited. */
    method Depth(ghost trail: seq<ModuleRef>) returns (depth: nat)
      requires Sized(active, |trail|)
      ensures depth == |trail|
    {
      depth := |active|;
    }

    /** A finished module is taken from the table if its remembered height fits. */
    method Reuse(r: ModuleRef, imported: bool, ghost trail: seq<ModuleRef>) returns (out: Result<nat, Error>)
      requires Valid(trail) && r in indices && imported == (trail != [])
      ensures out.Ok? <==> Admits(bundle, role, reached.Keys + active, r, maxDepth - |trail|, maxTokens)
      ensures out.Ok? ==> out.value == indices[r]
      ensures Keeps(reached, reached) && Keeps(indices, indices)
      ensures Covers(ImportDeps(bundle), reached.Keys, [r], reached.Keys)
    {
      hide *;
      ValidParts(trail);
      var i := indices[r];
      Finished(r, trail);
      KnownHeight(ImportDeps(bundle), reached, r, maxDepth - |trail|);
      CoversKnown(ImportDeps(bundle), reached, r);
      KeepsSelf(reached);
      KeepsSelf(indices);
      var depth := Depth(trail);
      if depth + heights[i] > maxDepth {
        RejectSelf(bundle, role, reached.Keys + active, r, maxDepth - |trail|, maxTokens);
        return Err(TooDeep);
      }
      if imported && modules[i].graphs != 0 {
        // Only the root may have graphs, and it is still being visited.
        assert false;
      }
      AdmitDone(bundle, role, reached.Keys, reached.Keys, active, r, maxDepth - |trail|, maxTokens);
      return Ok(i);
    }

    /** The checks before a module's imports are visited. */
    method Enter(r: ModuleRef, imported: bool, ghost trail: seq<ModuleRef>) returns (rejected: Option<Error>)
      requires Valid(trail) && r !in active && r !in indices
      requires imported == (trail != []) && FromRoot(role, trail + [r])
      modifies this`tokens, this`active
      ensures rejected.Some? ==> !Admits(bundle, role, old(reached.Keys + active), r, maxDepth - |trail|, maxTokens)
      ensures rejected.None? ==> r in bundle.sources && GraphsFit(role, r, bundle.sources[r]) && |trail| < maxDepth
      ensures rejected.None? ==> Valid(trail + [r]) && active == old(active) + {r}
    {
      hide *;
      ValidParts(trail);
      var depth := Depth(trail);
      if depth >= maxDepth {
        RejectDepth(bundle, role, reached.Keys + active, r, maxDepth - |trail|, maxTokens);
        return Some(TooDeep);
      }
      if r !in bundle.sources {
        RejectSelf(bundle, role, reached.Keys + active, r, maxDepth - |trail|, maxTokens);
        return Some(Missing);
      }
      rejected := Count(r, bundle.sources[r], imported, trail);
    }

    /** The token and graph counts of a module that was found. */
    method Count(r: ModuleRef, source: Source, imported: bool, ghost trail: seq<ModuleRef>)
      returns (rejected: Option<Error>)
      requires Valid(trail) && r !in active && r !in indices && r in bundle.sources && source == bundle.sources[r]
      requires imported == (trail != []) && FromRoot(role, trail + [r])
      modifies this`tokens, this`active
      ensures rejected.Some? ==> !Admits(bundle, role, old(reached.Keys + active), r, maxDepth - |trail|, maxTokens)
      ensures rejected.None? ==> GraphsFit(role, r, source)
      ensures rejected.None? ==> Valid(trail + [r]) && active == old(active) + {r}
    {
      hide *;
      ValidParts(trail);
      KeyOfActive(active, trail, reached, r);
      RoleOf(bundle, role, trail, r);
      if source.tokens > maxTokens - tokens {
        RejectTokens(bundle, role, reached.Keys + active, r, maxDepth - |trail|, maxTokens);
        return Some(Error.Tokens);
      }
      tokens := tokens + source.tokens;
      if GraphsMiscounted(role, imported, source) {
        RejectGraphs(bundle, role, reached.Keys + active, r, maxDepth - |trail|, maxTokens);
        return Some(GraphCount);
      }
      Activate(r, trail);
      return None;
    }

    /** A module counted among the tokens is being visited from now on. */
    method Activate(r: ModuleRef, ghost trail: seq<ModuleRef>)
      requires PostOrder(bundle, refs, modules, imports, indices) && HeightsMatch(indices, heights, reached)
      requires |heights| == |modules| && Memo(ImportDeps(bundle), reached)
      requires OnTrail(active, trail, reached) && Sized(active, |trail|) && r !in active && r !in reached
      requires AllAccepted(bundle, role, reached.Keys) && FromRoot(role, trail + [r])
      requires tokens == Total(bundle, reached.Keys + active) + TokensOf(bundle, r) && tokens <= maxTokens
      modifies this`active
      ensures Valid(trail + [r]) && active == old(active) + {r}
    {
      hide *;
      TrailPush(active, trail, reached, r);
      EnterTotal(bundle, reached.Keys, active, r, |trail|);
      active := active + {r};
      ghost var further := trail + [r];
      assert |further| == |trail| + 1;
      ValidFrom(further);
    }

    /** The table of a module's imports, in the order they are written. */
    method VisitImports(r: ModuleRef, source: Source, ghost trail: seq<ModuleRef>, ghost entered: set<ModuleRef>)
      returns (out: Result<map<string, nat>, Error>)
      requires Valid(trail + [r]) && IsPath(Links(ImportDeps(bundle)), trail + [r]) && FromRoot(role, trail + [r])
      requires r in bundle.sources && source == bundle.sources[r] && |trail| < maxDepth && active == entered + {r}
      requires r !in entered && r !in reached
      modifies this
      decreases if |trail| < maxDepth then maxDepth - |trail| else 0, 0
      ensures out.Err? ==> !Admits(bundle, role, old(reached).Keys + entered, r, maxDepth - |trail|, maxTokens)
      ensures out.Ok? ==> Valid(trail + [r]) && active == old(active)
      ensures out.Ok? ==> Keeps(old(indices), indices) && |modules| >= old(|modules|)
      ensures out.Ok? ==> Importing(bundle, r, source.imports, out.value, indices, |modules|)
      ensures out.Ok? ==> Visiting(ImportDeps(bundle), old(reached), reached,
        Targets(bundle, r, source.imports), maxDepth - |trail| - 1)
    {
      hide *;
      ghost var deps := ImportDeps(bundle);
      ghost var before, room, placed := reached, maxDepth - |trail|, indices;
      ghost var parsed := reached.Keys + entered;
      var table: map<string, nat> := map[];
      VisitingStart(deps, before, room - 1);
      ImportingStart(bundle, r, indices, |modules|);
      KeepsSelf(indices);
      for k := 0 to |source.imports|
        invariant Valid(trail + [r]) && active == entered + {r}
        invariant Keeps(placed, indices) && |modules| >= old(|modules|)
        invariant Visiting(deps, before, reached, Targets(bundle, r, source.imports[..k]), room - 1)
        invariant Importing(bundle, r, source.imports[..k], table, indices, |modules|)
      {
        var item := source.imports[k];
        var target := Resolve(bundle, r, item.path);
        if target.None? {
          UnresolvedRejects(bundle, role, r, k);
          RejectSelf(bundle, role, parsed, r, room, maxTokens);
          return Err(BadImport);
        }
        ghost var was, size := indices, |modules|;
        var index := VisitImport(r, source, trail, entered, before, target.value, k);
        if index.Err? {
          return Err(index.error);
        }
        KeepsMore(placed, was, indices);
        if item.alias in table {
          DuplicateRejects(bundle, role, r, k, table, was, size);
          RejectSelf(bundle, role, parsed, r, room, maxTokens);
          return Err(DuplicateAlias);
        }
        ImportingMore(bundle, r, source.imports, k, table, was, indices, size, |modules|, target.value);
        table := table[item.alias := index.value];
      }
      assert source.imports[..|source.imports|] == source.imports;
      return Ok(table);
    }

    /** One import of a module. */
    method VisitImport(r: ModuleRef, source: Source, ghost trail: seq<ModuleRef>, ghost entered: set<ModuleRef>,
        ghost before: map<ModuleRef, nat>, next: ModuleRef, k: nat)
      returns (out: Result<nat, Error>)
      requires Valid(trail + [r]) && IsPath(Links(ImportDeps(bundle)), trail + [r]) && FromRoot(role, trail + [r])
      requires r in bundle.sources && source == bundle.sources[r] && |trail| < maxDepth && active == entered + {r}
      requires k < |source.imports| && Resolve(bundle, r, source.imports[k].path) == Some(next)
      requires
        Visiting(ImportDeps(bundle), before, reached, Targets(bundle, r, source.imports[..k]), maxDepth - |trail| - 1)
      modifies this
      decreases maxDepth - |trail| - 1, 2
      ensures out.Err? ==> !Admits(bundle, role, before.Keys + entered, r, maxDepth - |trail|, maxTokens)
      ensures out.Ok? ==> Valid(trail + [r]) && active == old(active)
      ensures out.Ok? ==> Keeps(old(indices), indices) && |modules| >= old(|modules|)
      ensures out.Ok? ==> next in indices && out.value == indices[next] < |modules|
      ensures out.Ok? ==> Visiting(ImportDeps(bundle), before, reached,
        Targets(bundle, r, source.imports[..k + 1]), maxDepth - |trail| - 1)
    {
      hide *;
      ghost var deps, room, mid := ImportDeps(bundle), maxDepth - |trail|, reached;
      ghost var seen := Targets(bundle, r, source.imports[..k]);
      TargetsSnoc(bundle, r, source.imports, k);
      DepsAt(bundle, r);
      TrailDown(deps, trail, r, next);
      PathOf(role, trail, r, next);
      ValidParts(trail + [r]);
      VisitingCovers(deps, before, reached, seen, room - 1);
      out := Visit(next, true, trail + [r]);
      if out.Err? {
        RejectVia(bundle, role, before.Keys, mid.Keys, entered, r, seen, next, room, maxTokens);
        return;
      }
      AdmitsBounded(bundle, role, mid.Keys + (entered + {r}), next, room - 1, maxTokens);
      ValidParts(trail + [r]);
      VisitingMore(deps, before, mid, reached, seen, next, room - 1);
      PathOf(role, trail, r, r);
      Finished(next, trail + [r]);
    }

    /** What the module table will be once a module is finished. */
    lemma FinishTable(r: ModuleRef, table: map<string, nat>, trail: seq<ModuleRef>, height: nat,
        located: map<ModuleRef, nat>, done: map<ModuleRef, nat>)
      requires Valid(trail + [r]) && r in bundle.sources && r !in indices
      requires located == indices[r := |modules|] && done == reached[r := height]
      requires Linked(bundle, r, bundle.sources[r].imports, table, indices, |modules|)
      ensures PostOrder(bundle, refs + [r], modules + [bundle.sources[r]], imports + [table], located)
      ensures Keeps(indices, located)
      ensures HeightsMatch(located, heights + [height], done)
    {
      hide *;
      ValidParts(trail + [r]);
      PostOrderAdd(bundle, refs, modules, imports, indices, r, table);
      HeightsAdd(indices, heights, reached, r, height);
    }

    lemma Leaving(r: ModuleRef, trail: seq<ModuleRef>, entered: set<ModuleRef>, left: set<ModuleRef>, height: nat,
        done: map<ModuleRef, nat>)
      requires left == active - {r}
      requires done == reached[r := height]
      requires Valid(trail + [r]) && r in bundle.sources && r !in trail
      requires GraphsFit(role, r, bundle.sources[r]) && ImportsFit(bundle, r, bundle.sources[r].imports)
      requires active == entered + {r} && r !in entered
      ensures OnTrail(entered, trail, done) && left == entered
      ensures AllAccepted(bundle, role, done.Keys) && done.Keys <= bundle.sources.Keys
      ensures tokens == Total(bundle, done.Keys + entered) && tokens <= maxTokens
    {
      hide *;
      ValidParts(trail + [r]);
      LeaveTotal(entered, reached, r, height);
      TrailPop(active, trail, reached, r, height);
      AcceptedAdd(bundle, role, reached.Keys, r, reached, height);
    }

    lemma ReadyTable(r: ModuleRef, table: map<string, nat>, trail: seq<ModuleRef>)
      requires Valid(trail) && r in bundle.sources
      requires Importing(bundle, r, bundle.sources[r].imports, table, indices, |modules|)
      ensures Indexed(table, |heights|) && |heights| == |modules| == |refs|
      ensures ImportsFit(bundle, r, bundle.sources[r].imports)
      ensures Linked(bundle, r, bundle.sources[r].imports, table, indices, |modules|)
      ensures Memo(ImportDeps(bundle), reached) && HeightsMatch(indices, heights, reached)
      ensures r in trail ==> r !in indices && r !in reached
    {
    }

    /** Appends a module whose imports are all in the table. */
    method Finish(r: ModuleRef, source: Source, table: map<string, nat>, ghost trail: seq<ModuleRef>,
        ghost entered: set<ModuleRef>, ghost before: map<ModuleRef, nat>, ghost placed: map<ModuleRef, nat>)
      returns (out: Result<nat, Error>)
      requires Valid(trail + [r]) && FromRoot(role, trail) && Sized(entered, |trail|) && r !in trail
      requires r in bundle.sources && source == bundle.sources[r] && |trail| < maxDepth
      requires active == entered + {r} && r !in entered
      requires GraphsFit(role, r, source) && Importing(bundle, r, source.imports, table, indices, |modules|)
      requires Visiting(ImportDeps(bundle), before, reached, Targets(bundle, r, source.imports), maxDepth - |trail| - 1)
      requires Keeps(placed, indices)
      modifies this
      ensures out.Ok? && Admits(bundle, role, before.Keys + entered, r, maxDepth - |trail|, maxTokens)
      ensures Valid(trail) && r in indices && out.value == indices[r] && active == entered
      ensures Keeps(before, reached) && Keeps(placed, indices) && |modules| >= old(|modules|)
      ensures Covers(ImportDeps(bundle), before.Keys, [r], reached.Keys)
    {
      hide *;
      ReadyTable(r, table, trail + [r]);
      var tallest := Tallest(table, heights);
      var height := tallest + 1;
      var index := |modules|;
      var located := indices[r := index];
      ghost var done := reached[r := height];
      FinishHeights(bundle, r, table, indices, index, heights, before, reached, tallest, done, maxDepth - |trail|);
      FinishTable(r, table, trail, height, located, done);
      var left := active - {r};
      Leaving(r, trail, entered, left, height, done);
      AdmitDone(bundle, role, before.Keys, done.Keys, entered, r, maxDepth - |trail|, maxTokens);
      KeepsMore(placed, indices, located);
      if height > maxDepth {
        // The imports fit below this module.
        assert false;
      }
      active, heights, modules := left, heights + [height], modules + [source];
      imports, indices := imports + [table], located;
      refs, reached := refs + [r], done;
      assert active == entered;
      ValidFrom(trail);
      return Ok(index);
    }
  }

  /** What the traversal of a bundle hands on: modules with their imports by index. */
  datatype Table = Table(modules: seq<Source>, imports: seq<map<string, nat>>, tokens: nat)

  /** The modules of a table are the given ones, each once and after everything it imports. */
  ghost predicate TableOf(b: Bundle, t: Table, refs: seq<ModuleRef>) {
    && Distinct(refs) && |t.modules| == |t.imports| == |refs|
    && forall i {:trigger refs[i]} :: 0 <= i < |refs| ==>
      && refs[i] in b.sources && t.modules[i] == b.sources[refs[i]]
      && ImportsBefore(b, t, refs, i)
  }

  ghost predicate ImportsBefore(b: Bundle, t: Table, refs: seq<ModuleRef>, i: nat)
    requires i < |t.modules| && i < |t.imports| && i < |refs|
  {
    var imports := t.modules[i].imports;
    forall k :: 0 <= k < |imports| ==>
      && imports[k].alias in t.imports[i] && t.imports[i][imports[k].alias] < i
      && Resolve(b, refs[i], imports[k].path) == Some(refs[t.imports[i][imports[k].alias]])
  }

  lemma PostOrderTable(b: Bundle, refs: seq<ModuleRef>, modules: seq<Source>, imports: seq<map<string, nat>>,
      indices: map<ModuleRef, nat>, tokens: nat)
    requires PostOrder(b, refs, modules, imports, indices)
    ensures TableOf(b, Table(modules, imports, tokens), refs)
  {
    forall i | 0 <= i < |refs|
      ensures refs[i] in indices && indices[refs[i]] == i
      ensures ImportsBefore(b, Table(modules, imports, tokens), refs, i)
    {
      forall k | 0 <= k < |modules[i].imports|
        ensures
          var item := modules[i].imports[k];
          && item.alias in imports[i] && imports[i][item.alias] < i
          && Resolve(b, refs[i], item.path) == Some(refs[imports[i][item.alias]])
      {
        var item := modules[i].imports[k];
        var target := Resolve(b, refs[i], item.path).value;
        assert Linked(b, refs[i], modules[i].imports, imports[i], indices, i);
        assert target in indices && target in refs;
        var j :| 0 <= j < |refs| && refs[j] == target;
        assert indices[refs[j]] == j;
      }
    }
  }

  /** A compilation accepts a bundle: depth, roles, imports and the token budget all hold. */
  ghost predicate SessionFits(b: Bundle, role: Role, maxTokens: nat, maxDepth: nat) {
    && Bounded(ImportDeps(b), role.root, maxDepth)
    && AllAccepted(b, role, Closure(b, role.root))
    && Total(b, Closure(b, role.root)) <= maxTokens
  }

  /** The module table of a compilation. */
  method Session(b: Bundle, role: Role, maxTokens: nat, maxDepth: nat)
    returns (out: Result<(Table, nat), Error>, ghost refs: seq<ModuleRef>)
    ensures out.Ok? <==> SessionFits(b, role, maxTokens, maxDepth)
    ensures out.Ok? ==> TableOf(b, out.value.0, refs) && out.value.0.tokens == Total(b, Closure(b, role.root))
    ensures out.Ok? ==> forall q :: q in refs <==> q in Closure(b, role.root)
    ensures out.Ok? ==> out.value.1 < |refs| && refs[out.value.1] == role.root
  {
    hide *;
    var traversal := new Traversal(b, role, maxTokens, maxDepth);
    StartTrail(b, role);
    FitsAlone(b, role, maxTokens, maxDepth, traversal.reached.Keys + traversal.active);
    ghost var none := traversal.reached.Keys;
    var index := traversal.Visit(role.root, false, []);
    refs := traversal.refs;
    if index.Err? {
      return Err(index.error), refs;
    }
    traversal.ValidParts([]);
    var table := Table(traversal.modules, traversal.imports, traversal.tokens);
    PostOrderTable(b, traversal.refs, traversal.modules, traversal.imports, traversal.indices, traversal.tokens);
    ReachedClosure(b, role.root, none, traversal.reached.Keys);
    EmptyTrail(traversal.active, traversal.reached);
    RefsAre(b, traversal.refs, traversal.modules, traversal.imports, traversal.indices, role.root);
    out := Ok((table, index.value));
  }

  lemma StartTrail(b: Bundle, role: Role)
    ensures IsPath(Links(ImportDeps(b)), [] + [role.root]) && FromRoot(role, [] + [role.root])
  {
  }

  lemma FitsAlone(b: Bundle, role: Role, maxTokens: nat, maxDepth: nat, none: set<ModuleRef>)
    requires none == {}
    ensures Admits(b, role, none, role.root, maxDepth, maxTokens) <==> SessionFits(b, role, maxTokens, maxDepth)
  {
    assert none + Closure(b, role.root) == Closure(b, role.root);
  }

  lemma ReachedClosure(b: Bundle, root: ModuleRef, none: set<ModuleRef>, now: set<ModuleRef>)
    requires none == {} && Covers(ImportDeps(b), none, [root], now) && now <= b.sources.Keys
    ensures now == Closure(b, root)
  {
  }

  lemma EmptyTrail(active: set<ModuleRef>, reached: map<ModuleRef, nat>)
    requires OnTrail(active, [], reached)
    ensures reached.Keys + active == reached.Keys
  {
  }

  lemma RefsAre(b: Bundle, refs: seq<ModuleRef>, modules: seq<Source>, imports: seq<map<string, nat>>,
      indices: map<ModuleRef, nat>, root: ModuleRef)
    requires PostOrder(b, refs, modules, imports, indices) && root in indices
    ensures forall q :: q in refs <==> q in indices.Keys
    ensures indices[root] < |refs| && refs[indices[root]] == root
  {
  }
}
