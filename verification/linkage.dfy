// Links between the records of a document (crates/htlk-analyzer/src/linkage.rs).

module Linkage {
  import opened Wrappers
  import opened Graphs
  import opened Documents
  import opened ScopeOrder

  datatype Error = MissingScope | MissingRecord | Unreachable | ScopeCycle

  // ---- Scope roles ----

  /** The root is plain, and every scope that runs gives its children their roles. */
  ghost predicate HasRole(scopes: map<Digest, Scope>, root: Digest, c: (Digest, Role)) {
    c == (root, Plain) || GivenRole(scopes, root, c)
  }

  ghost predicate GivenRole(scopes: map<Digest, Scope>, root: Digest, c: (Digest, Role)) {
    exists p :: p in scopes && Reaches(Runs(scopes), root, p) && c in Children(scopes[p])
  }

  ghost predicate AllRun(scopes: map<Digest, Scope>, root: Digest) {
    root in scopes && forall d :: d in scopes ==> Reaches(Runs(scopes), root, d)
  }

  type Roles = map<Digest, set<Role>>

  /** The role was found for the scope. */
  predicate Known(roles: Roles, c: (Digest, Role)) {
    c.0 in roles && c.1 in roles[c.0]
  }

  ghost predicate Justified(scopes: map<Digest, Scope>, root: Digest, c: (Digest, Role)) {
    HasRole(scopes, root, c) && Reaches(Runs(scopes), root, c.0)
  }

  /** The worklist: everything found is justified, and nothing that follows from it is lost. */
  ghost predicate Finding(scopes: map<Digest, Scope>, root: Digest, roles: Roles, work: seq<(Digest, Role)>) {
    && roles.Keys <= scopes.Keys && (forall d :: d in roles ==> roles[d] != {})
    && (forall c :: Known(roles, c) || c in work ==> Justified(scopes, root, c))
    && (Known(roles, (root, Plain)) || (root, Plain) in work)
    && forall d :: d in roles ==> Followed(scopes, roles, work, d)
  }

  ghost predicate Followed(scopes: map<Digest, Scope>, roles: Roles, work: seq<(Digest, Role)>, d: Digest) {
    d in scopes && forall c :: c in Children(scopes[d]) ==> Known(roles, c) || c in work
  }

  function Add(roles: Roles, c: (Digest, Role)): Roles {
    roles[c.0 := (if c.0 in roles then roles[c.0] else {}) + {c.1}]
  }

  ghost function Pairs(keys: set<Digest>): set<(Digest, Role)> {
    set d, r | d in keys && r in {Plain, Body} :: (d, r)
  }

  ghost function Left(scopes: map<Digest, Scope>, roles: Roles): set<(Digest, Role)> {
    set c | c in Pairs(scopes.Keys) && !Known(roles, c)
  }

  lemma StartFinding(scopes: map<Digest, Scope>, root: Digest)
    ensures Finding(scopes, root, map[], [(root, Plain)])
  {
    ReachesSelf(Runs(scopes), root);
  }

  /** What the top of the worklist establishes. */
  lemma TopOfWork(scopes: map<Digest, Scope>, root: Digest, roles: Roles, work: seq<(Digest, Role)>)
    requires work != [] && Finding(scopes, root, roles, work)
    ensures Justified(scopes, root, work[|work| - 1])
    ensures Known(roles, work[|work| - 1]) ==> Finding(scopes, root, roles, work[..|work| - 1])
  {
  }

  lemma AddRole(scopes: map<Digest, Scope>, root: Digest, roles: Roles, work: seq<(Digest, Role)>)
    requires work != [] && Finding(scopes, root, roles, work)
    requires !Known(roles, work[|work| - 1]) && work[|work| - 1].0 in scopes
    ensures
      var c, rest := work[|work| - 1], work[..|work| - 1];
      && (c.0 in roles ==> Finding(scopes, root, Add(roles, c), rest))
      && (c.0 !in roles ==> Finding(scopes, root, Add(roles, c), rest + Children(scopes[c.0])))
      && Left(scopes, Add(roles, c)) < Left(scopes, roles)
  {
    var c, rest := work[|work| - 1], work[..|work| - 1];
    var now, later := Add(roles, c), if c.0 in roles then rest else rest + Children(scopes[c.0]);
    assert forall x :: x in work <==> x in rest || x == c;
    forall x
      ensures Known(now, x) <==> Known(roles, x) || x == c
    {
    }
    assert c.1 == Plain || c.1 == Body;
    assert (c.0, c.1) in Pairs(scopes.Keys);
    assert Known(now, c) && c in Left(scopes, roles) && c !in Left(scopes, now);
    forall x | x in Children(scopes[c.0])
      ensures Justified(scopes, root, x)
    {
      assert (c.0, x.0) in Runs(scopes);
      ReachesAfter(Runs(scopes), root, c.0, x.0);
    }
    forall d | d in now
      ensures Followed(scopes, now, later, d)
    {
      assert d != c.0 ==> Followed(scopes, roles, work, d);
    }
  }

  /** When the worklist is empty, exactly the scopes that run have roles, and exactly their roles. */
  lemma RolesFound(scopes: map<Digest, Scope>, root: Digest, roles: Roles)
    requires Finding(scopes, root, roles, [])
    ensures forall c :: Known(roles, c) <==> HasRole(scopes, root, c)
    ensures forall d :: d in roles <==> Reaches(Runs(scopes), root, d)
    ensures forall d :: d in roles ==> d in scopes && forall c :: c in Children(scopes[d]) ==> c.0 in scopes
  {
    forall d
      ensures d in roles <==> Reaches(Runs(scopes), root, d)
    {
      if d in roles {
        var r :| r in roles[d];
        assert Known(roles, (d, r));
      }
      if Reaches(Runs(scopes), root, d) {
        var p :| PathFrom(Runs(scopes), p, root, d);
        PathHasRoles(scopes, root, roles, p);
      }
    }
    forall c | HasRole(scopes, root, c)
      ensures Known(roles, c)
    {
      if c != (root, Plain) {
        var p :| p in scopes && Reaches(Runs(scopes), root, p) && c in Children(scopes[p]);
        assert Followed(scopes, roles, [], p);
      }
    }
    forall d | d in roles
      ensures d in scopes && forall c :: c in Children(scopes[d]) ==> c.0 in scopes
    {
      assert Followed(scopes, roles, [], d);
    }
  }

  lemma {:induction false} PathHasRoles(scopes: map<Digest, Scope>, root: Digest, roles: Roles, p: seq<Digest>)
    requires Finding(scopes, root, roles, []) && IsPath(Runs(scopes), p) && p[0] == root
    ensures p[|p| - 1] in roles
    decreases |p|
  {
    if |p| > 1 {
      var from, to := p[|p| - 2], p[|p| - 1];
      PathHasRoles(scopes, root, roles, p[..|p| - 1]);
      assert (from, to) in Runs(scopes);
      var c :| c in Children(scopes[from]) && c.0 == to;
      assert Followed(scopes, roles, [], from);
    }
  }

  lemma MissingChild(scopes: map<Digest, Scope>, root: Digest, c: (Digest, Role))
    requires Justified(scopes, root, c) && c.0 !in scopes
    ensures !(AllRun(scopes, root) && ChildrenPresent(scopes))
  {
  }

  lemma RolesDecide(scopes: map<Digest, Scope>, root: Digest, roles: Roles)
    requires Finding(scopes, root, roles, [])
    ensures |roles| == |scopes| <==> AllRun(scopes, root) && ChildrenPresent(scopes)
    ensures forall c :: Known(roles, c) <==> HasRole(scopes, root, c)
  {
    RolesFound(scopes, root, roles);
    assert |roles.Keys| == |roles| && |scopes.Keys| == |scopes|;
    if |roles| == |scopes| {
      SubsetOfSameSize(roles.Keys, scopes.Keys);
      assert Known(roles, (root, Plain));
    }
    if AllRun(scopes, root) && ChildrenPresent(scopes) {
      assert roles.Keys == scopes.Keys;
    }
  }

  /** The roles of every scope of a document. */
  method ScopeRoles(scopes: map<Digest, Scope>, root: Digest) returns (r: Result<Roles, Error>)
    ensures r.Ok? <==> AllRun(scopes, root) && ChildrenPresent(scopes) && !Cyclic(Runs(scopes))
    ensures r.Ok? ==> forall c :: Known(r.value, c) <==> HasRole(scopes, root, c)
  {
    hide *;
    var roles: Roles, work := map[], [(root, Plain)];
    StartFinding(scopes, root);
    while work != []
      invariant Finding(scopes, root, roles, work)
      decreases Left(scopes, roles), |work|
    {
      TopOfWork(scopes, root, roles, work);
      var c := work[|work| - 1];
      if c.0 !in scopes {
        MissingChild(scopes, root, c);
        return Err(MissingScope);
      }
      if Known(roles, c) {
        work := work[..|work| - 1];
        continue;
      }
      AddRole(scopes, root, roles, work);
      work := work[..|work| - 1];
      if c.0 !in roles {
        work := work + Children(scopes[c.0]);
      }
      roles := Add(roles, c);
    }
    RolesDecide(scopes, root, roles);
    if |roles| != |scopes| {
      return Err(Unreachable);
    }
    var ordered := NoCycle(scopes);
    if !ordered {
      return Err(ScopeCycle);
    }
    r := Ok(roles);
  }

  // ---- Uses of records ----

  /** The records a document must and may hold besides its scopes. */
  datatype Used = Used(bindings: set<Digest>, templates: set<Digest>, libraries: set<Digest>)

  function UsedIn(us: set<Use>): Used {
    Used(
      set u | u in us && u.OfBinding? :: u.id,
      set u | u in us && u.OfTemplate? :: u.id,
      set u | u in us && u.OfLibrary? :: u.id)
  }

  function Join(a: Used, b: Used): Used {
    Used(a.bindings + b.bindings, a.templates + b.templates, a.libraries + b.libraries)
  }

  lemma UsedUnion(a: set<Use>, b: set<Use>)
    ensures UsedIn(a + b) == Join(UsedIn(a), UsedIn(b))
  {
  }

  /** The record a use names is in the table of its kind. */
  predicate Resolves(f: Tables, u: Use) {
    match u
    case OfScope(d) => d in f.scopes
    case OfBody(d) => d in f.scopes
    case OfTemplate(d) => d in f.templates
    case OfBinding(d) => d in f.bindings
    case OfLibrary(d) => d in f.libraries
  }

  predicate AllResolve(f: Tables, us: set<Use>) {
    forall u :: u in us ==> Resolves(f, u)
  }

  /** What has been collected from an expression after `i` of its children. */
  ghost predicate Gathered(e: Expression, f: Tables, before: Used, i: nat, used: Used)
    requires i <= |e.children|
  {
    && used == Join(before, UsedIn(OwnUses(e) + AllUses(e.children[..i])))
    && AllResolve(f, OwnUses(e) + AllUses(e.children[..i]))
  }

  lemma GatherStart(e: Expression, f: Tables, before: Used)
    requires AllResolve(f, OwnUses(e))
    ensures Gathered(e, f, before, 0, Join(before, UsedIn(OwnUses(e))))
  {
  }

  lemma GatherMore(e: Expression, f: Tables, before: Used, i: nat, used: Used)
    requires i < |e.children| && Gathered(e, f, before, i, used) && AllResolve(f, Uses(e.children[i]))
    ensures Gathered(e, f, before, i + 1, Join(used, UsedIn(Uses(e.children[i]))))
  {
    var seen, more := OwnUses(e) + AllUses(e.children[..i]), Uses(e.children[i]);
    Extend(e.children, i);
    assert OwnUses(e) + AllUses(e.children[..i + 1]) == seen + more;
    UsedUnion(seen, more);
    JoinTwice(before, UsedIn(seen), UsedIn(more));
  }

  lemma JoinTwice(a: Used, b: Used, c: Used)
    ensures Join(Join(a, b), c) == Join(a, Join(b, c))
  {
  }

  lemma GatherEnd(e: Expression, f: Tables, before: Used, used: Used)
    requires Gathered(e, f, before, |e.children|, used)
    ensures AllResolve(f, Uses(e)) && used == Join(before, UsedIn(Uses(e)))
  {
    assert e.children[..|e.children|] == e.children;
  }

  lemma GatherFails(e: Expression, f: Tables)
    ensures !AllResolve(f, OwnUses(e)) ==> !AllResolve(f, Uses(e))
    ensures forall i :: 0 <= i < |e.children| && !AllResolve(f, Uses(e.children[i])) ==> !AllResolve(f, Uses(e))
  {
    assert OwnUses(e) <= Uses(e);
    forall i | 0 <= i < |e.children| && !AllResolve(f, Uses(e.children[i]))
      ensures !AllResolve(f, Uses(e))
    {
      InAllUses(e.children, i);
      var u :| u in Uses(e.children[i]) && !Resolves(f, u);
      assert u in Uses(e);
    }
  }

  /** Checks and collects what an expression uses. */
  method Expressions(e: Expression, f: Tables, before: Used) returns (r: Result<Used, Error>)
    ensures r.Ok? <==> AllResolve(f, Uses(e))
    ensures r.Ok? ==> r.value == Join(before, UsedIn(Uses(e)))
    decreases e
  {
    hide *;
    GatherFails(e, f);
    if !AllResolve(f, OwnUses(e)) {
      return Err(MissingRecord);
    }
    var used := Join(before, UsedIn(OwnUses(e)));
    GatherStart(e, f, before);
    for i := 0 to |e.children|
      invariant Gathered(e, f, before, i, used)
    {
      var next := Expressions(e.children[i], f, used);
      if next.Err? {
        return next;
      }
      GatherMore(e, f, before, i, used);
      used := next.value;
    }
    GatherEnd(e, f, before, used);
    r := Ok(used);
  }

  lemma Extend(es: seq<Expression>, i: nat)
    requires i < |es|
    ensures AllUses(es[..i + 1]) == AllUses(es[..i]) + Uses(es[i])
  {
    assert es[..i + 1][..i] == es[..i];
  }

  lemma {:induction false} InAllUses(es: seq<Expression>, i: nat)
    requires i < |es|
    ensures Uses(es[i]) <= AllUses(es)
  {
    if i < |es| - 1 {
      InAllUses(es[..|es| - 1], i);
    }
  }

  // ---- Whole documents ----

  /** Checking some uses: success exactly when all resolve, and then all are collected. */
  ghost predicate Checks(f: Tables, before: Used, us: set<Use>, r: Result<Used, Error>) {
    (r.Ok? <==> AllResolve(f, us)) && (r.Ok? ==> r.value == Join(before, UsedIn(us)))
  }

  lemma ChecksNone(f: Tables, before: Used)
    ensures Checks(f, before, {}, Ok(before))
  {
  }

  lemma ChecksThen(
      f: Tables, before: Used, us: set<Use>, r: Result<Used, Error>, more: set<Use>, next: Result<Used, Error>)
    requires Checks(f, before, us, r) && if r.Ok? then Checks(f, r.value, more, next) else next == r
    ensures Checks(f, before, us + more, next)
  {
  }

  /** One more expression, unless something failed before. */
  method Then(r: Result<Used, Error>, e: Expression, f: Tables, ghost before: Used, ghost us: set<Use>)
    returns (next: Result<Used, Error>)
    requires Checks(f, before, us, r)
    ensures Checks(f, before, us + Uses(e), next)
  {
    next := r;
    if r.Ok? {
      next := Expressions(e, f, r.value);
    }
    ChecksThen(f, before, us, r, Uses(e), next);
  }

  /** The uses of one node. */
  method NodeLinks(r: Result<Used, Error>, n: Node, f: Tables, ghost before: Used, ghost us: set<Use>)
    returns (next: Result<Used, Error>)
    requires Checks(f, before, us, r)
    ensures Checks(f, before, us + NodeUses(n), next)
  {
    hide *;
    ghost var seen := us;
    next := Then(r, n.guard, f, before, seen);
    seen := seen + Uses(n.guard);
    next := Then(next, n.preconditions, f, before, seen);
    seen := seen + Uses(n.preconditions);
    next := Then(next, n.postconditions, f, before, seen);
    seen := seen + Uses(n.postconditions);
    next := OperationLinks(next, n.operation, f, before, seen);
    NodeUsesAre(n, us, seen);
  }

  lemma NodeUsesAre(n: Node, us: set<Use>, seen: set<Use>)
    requires seen == us + Uses(n.guard) + Uses(n.preconditions) + Uses(n.postconditions)
    ensures seen + OperationUses(n.operation) == us + NodeUses(n)
  {
  }

  method OperationLinks(r: Result<Used, Error>, o: Operation, f: Tables, ghost before: Used, ghost us: set<Use>)
    returns (next: Result<Used, Error>)
    requires Checks(f, before, us, r)
    ensures Checks(f, before, us + OperationUses(o), next)
  {
    if o.Eval? {
      next := Then(r, o.expression, f, before, us);
    } else if o.Loop? {
      next := Record(r, OfBody(o.body), f, before, us);
      next := Then(next, o.until, f, before, us + {OfBody(o.body)});
      assert us + {OfBody(o.body)} + Uses(o.until) == us + OperationUses(o);
    } else if o.SubScope? {
      next := Record(r, OfScope(o.scope), f, before, us);
    } else if o.Mcp? {
      next := Record(r, OfBinding(o.binding), f, before, us);
    } else {
      next := r;
      assert us + {} == us;
    }
  }

  /** One direct mention of a record. */
  method Record(r: Result<Used, Error>, u: Use, f: Tables, ghost before: Used, ghost us: set<Use>)
    returns (next: Result<Used, Error>)
    requires Checks(f, before, us, r)
    ensures Checks(f, before, us + {u}, next)
  {
    next := r;
    if r.Ok? {
      next := if Resolves(f, u) then Ok(Join(r.value, UsedIn({u}))) else Err(MissingRecord);
    }
    ChecksThen(f, before, us, r, {u}, next);
  }

  /** The uses of one scope. */
  method ScopeLinks(r: Result<Used, Error>, s: Scope, f: Tables, ghost before: Used, ghost us: set<Use>)
    returns (next: Result<Used, Error>)
    requires Checks(f, before, us, r)
    ensures Checks(f, before, us + ScopeUses(s), next)
  {
    hide *;
    ghost var seen := us + Uses(s.preconditions) + Uses(s.postconditions);
    next := Then(r, s.preconditions, f, before, us);
    next := Then(next, s.postconditions, f, before, us + Uses(s.preconditions));
    NoUses(seen);
    for i := 0 to |s.edgeGuards|
      invariant Checks(f, before, seen + AllUses(s.edgeGuards[..i]), next)
    {
      next := Then(next, s.edgeGuards[i], f, before, seen + AllUses(s.edgeGuards[..i]));
      Extend(s.edgeGuards, i);
      Grouped(seen, AllUses(s.edgeGuards[..i]), Uses(s.edgeGuards[i]));
    }
    assert s.edgeGuards[..|s.edgeGuards|] == s.edgeGuards;
    seen := seen + AllUses(s.edgeGuards);
    NoUses(seen);
    for i := 0 to |s.nodes|
      invariant Checks(f, before, seen + NodesUses(s.nodes[..i]), next)
    {
      next := NodeLinks(next, s.nodes[i], f, before, seen + NodesUses(s.nodes[..i]));
      ExtendNodes(s.nodes, i);
      Grouped(seen, NodesUses(s.nodes[..i]), NodeUses(s.nodes[i]));
    }
    assert s.nodes[..|s.nodes|] == s.nodes;
    ScopeUsesAre(s, us, seen);
  }

  lemma NoUses(seen: set<Use>)
    ensures forall es: seq<Expression> :: seen + AllUses(es[..0]) == seen
    ensures forall ns: seq<Node> :: seen + NodesUses(ns[..0]) == seen
  {
  }

  lemma Grouped(a: set<Use>, b: set<Use>, c: set<Use>)
    ensures a + b + c == a + (b + c)
  {
  }

  lemma ExtendNodes(ns: seq<Node>, i: nat)
    requires i < |ns|
    ensures NodesUses(ns[..i + 1]) == NodesUses(ns[..i]) + NodeUses(ns[i])
  {
    assert ns[..i + 1][..i] == ns[..i];
  }

  lemma ScopeUsesAre(s: Scope, us: set<Use>, seen: set<Use>)
    requires seen == us + Uses(s.preconditions) + Uses(s.postconditions) + AllUses(s.edgeGuards)
    ensures seen + NodesUses(s.nodes) == us + ScopeUses(s)
  {
  }

  /** Everything the given scopes mention. */
  function UsesOf(scopes: map<Digest, Scope>, done: set<Digest>): set<Use> {
    set d, u | d in scopes && d in done && u in ScopeUses(scopes[d]) :: u
  }

  /** A linked document: all its scopes run, none runs itself, every use resolves, and every record is used. */
  ghost predicate Linked(f: Tables, root: Digest) {
    && AllRun(f.scopes, root) && ChildrenPresent(f.scopes) && !Cyclic(Runs(f.scopes))
    && AllResolve(f, UsesOf(f.scopes, f.scopes.Keys)) && Exact(f, UsedIn(UsesOf(f.scopes, f.scopes.Keys)))
  }

  predicate Exact(f: Tables, used: Used) {
    f.bindings.Keys <= used.bindings && f.templates.Keys <= used.templates && f.libraries.Keys <= used.libraries
  }

  lemma UsesOfMore(scopes: map<Digest, Scope>, done: set<Digest>, d: Digest)
    requires d in scopes
    ensures UsesOf(scopes, done + {d}) == UsesOf(scopes, done) + ScopeUses(scopes[d])
  {
  }

  lemma UsesOfNone(scopes: map<Digest, Scope>)
    ensures UsesOf(scopes, {}) == {}
  {
  }

  /** The links of a whole document. */
  method VerifyLinks(f: Tables, root: Digest) returns (r: Result<Roles, Error>)
    ensures r.Ok? <==> Linked(f, root)
    ensures r.Ok? ==> forall c :: Known(r.value, c) <==> HasRole(f.scopes, root, c)
  {
    hide *;
    LinkedIs(f, root);
    r := ScopeRoles(f.scopes, root);
    if r.Err? {
      return;
    }
    ghost var none := Used({}, {}, {});
    var links: Result<Used, Error> := Ok(Used({}, {}, {}));
    ChecksNone(f, none);
    UsesOfNone(f.scopes);
    var rest, done := f.scopes.Keys, {};
    while rest != {}
      invariant rest <= f.scopes.Keys && done == f.scopes.Keys - rest
      invariant Checks(f, none, UsesOf(f.scopes, done), links)
      decreases rest
    {
      var d :| d in rest;
      UsesOfMore(f.scopes, done, d);
      links := ScopeLinks(links, f.scopes[d], f, none, UsesOf(f.scopes, done));
      rest, done := rest - {d}, done + {d};
    }
    assert done == f.scopes.Keys;
    ChecksAll(f, UsesOf(f.scopes, done), links);
    if links.Err? {
      return Err(links.error);
    }
    if !Exact(f, links.value) {
      return Err(Unreachable);
    }
  }

  lemma LinkedIs(f: Tables, root: Digest)
    ensures
      var us := UsesOf(f.scopes, f.scopes.Keys);
      Linked(f, root) <==>
        && AllRun(f.scopes, root) && ChildrenPresent(f.scopes) && !Cyclic(Runs(f.scopes))
        && AllResolve(f, us) && Exact(f, UsedIn(us))
  {
  }

  lemma ChecksAll(f: Tables, us: set<Use>, r: Result<Used, Error>)
    requires Checks(f, Used({}, {}, {}), us, r)
    ensures (r.Ok? <==> AllResolve(f, us)) && (r.Ok? ==> r.value == UsedIn(us))
  {
  }

  // ---- Compiled documents link ----

  /**
   * Every use within reach of the root resolves, no record mentions itself, and no identity
   * names records of two kinds: what content-derived identities give.
   */
  ghost predicate Complete(pool: Tables, root: Digest) {
    && root in pool.scopes && !Cyclic(Mentions(pool))
    && (forall d, u :: d in pool.scopes && Reaches(Mentions(pool), root, d) && u in ScopeUses(pool.scopes[d]) ==>
      Resolves(pool, u))
    && pool.scopes.Keys !! pool.templates.Keys
    && pool.scopes.Keys !! pool.bindings.Keys
    && pool.scopes.Keys !! pool.libraries.Keys
    && pool.templates.Keys !! pool.bindings.Keys && pool.templates.Keys !! pool.libraries.Keys
    && pool.bindings.Keys !! pool.libraries.Keys
  }

  /** Only nodes run scopes. */
  lemma {:induction false} ExpressionsRunNothing(e: Expression, u: Use)
    requires u in Uses(e)
    ensures u.OfTemplate? || u.OfLibrary?
    decreases e, 1
  {
    if u !in OwnUses(e) {
      ListRunsNothing(e.children, u);
    }
  }

  lemma {:induction false} ListRunsNothing(es: seq<Expression>, u: Use)
    requires u in AllUses(es)
    ensures u.OfTemplate? || u.OfLibrary?
    decreases es, 0
  {
    if u in Uses(es[|es| - 1]) {
      ExpressionsRunNothing(es[|es| - 1], u);
    } else {
      ListRunsNothing(es[..|es| - 1], u);
    }
  }

  lemma {:induction false} NodesRun(ns: seq<Node>, u: Use)
    requires u in NodesUses(ns) && (u.OfScope? || u.OfBody?)
    ensures (u.id, if u.OfScope? then Plain else Body) in ChildList(ns)
  {
    var n := ns[|ns| - 1];
    if u in NodeUses(n) {
      if u in Uses(n.guard) {
        ExpressionsRunNothing(n.guard, u);
      } else if u in Uses(n.preconditions) {
        ExpressionsRunNothing(n.preconditions, u);
      } else if u in Uses(n.postconditions) {
        ExpressionsRunNothing(n.postconditions, u);
      } else if n.operation.Eval? {
        ExpressionsRunNothing(n.operation.expression, u);
      } else if n.operation.Loop? && u in Uses(n.operation.until) {
        ExpressionsRunNothing(n.operation.until, u);
      }
    } else {
      NodesRun(ns[..|ns| - 1], u);
    }
  }

  lemma {:induction false} ChildrenUsed(ns: seq<Node>, c: (Digest, Role))
    requires c in ChildList(ns)
    ensures (if c.1 == Plain then OfScope(c.0) else OfBody(c.0)) in NodesUses(ns)
  {
    if c in ChildList(ns[..|ns| - 1]) {
      ChildrenUsed(ns[..|ns| - 1], c);
    }
  }

  lemma ScopeRuns(s: Scope, u: Use)
    requires u in ScopeUses(s) && (u.OfScope? || u.OfBody?)
    ensures (u.id, if u.OfScope? then Plain else Body) in Children(s)
  {
    if u in NodesUses(s.nodes) {
      NodesRun(s.nodes, u);
    } else if u in AllUses(s.edgeGuards) {
      ListRunsNothing(s.edgeGuards, u);
    } else if u in Uses(s.preconditions) {
      ExpressionsRunNothing(s.preconditions, u);
    } else {
      ExpressionsRunNothing(s.postconditions, u);
    }
  }

  /** Between scopes of the pool, mentions are runs of the document. */
  lemma {:induction false} RunsInDocument(pool: Tables, root: Digest, out: Tables, p: seq<Digest>)
    requires Complete(pool, root) && Copies(pool, root, out) && p != []
    requires IsPath(Mentions(pool), p) && p[0] == root && p[|p| - 1] in pool.scopes
    ensures p[|p| - 1] in out.scopes && Reaches(Runs(out.scopes), root, p[|p| - 1])
    decreases |p|
  {
    hide *;
    var last := p[|p| - 1];
    InDocument(pool, root, out, p);
    if |p| == 1 {
      ReachesSelf(Runs(out.scopes), root);
    } else {
      var from := p[|p| - 2];
      FrontPath(pool, p);
      RunsInDocument(pool, root, out, p[..|p| - 1]);
      RunEdge(pool, root, out, from, last);
      ReachesAfter(Runs(out.scopes), root, from, last);
    }
  }

  lemma InDocument(pool: Tables, root: Digest, out: Tables, p: seq<Digest>)
    requires Copies(pool, root, out) && IsPath(Mentions(pool), p) && p[0] == root
    ensures p[|p| - 1] in pool.scopes ==> p[|p| - 1] in out.scopes
  {
    assert PathFrom(Mentions(pool), p, root, p[|p| - 1]);
  }

  lemma FrontPath(pool: Tables, p: seq<Digest>)
    requires IsPath(Mentions(pool), p) && |p| > 1
    ensures IsPath(Mentions(pool), p[..|p| - 1]) && (p[|p| - 2], p[|p| - 1]) in Mentions(pool)
    ensures p[..|p| - 1][|p| - 2] == p[|p| - 2] && p[|p| - 2] in pool.scopes
  {
  }

  lemma SameScope(pool: Tables, root: Digest, out: Tables, d: Digest)
    requires Copies(pool, root, out) && d in out.scopes
    ensures d in pool.scopes && out.scopes[d] == pool.scopes[d] && Reaches(Mentions(pool), root, d)
  {
    assert (d, out.scopes[d]) in out.scopes.Items;
    assert (d, out.scopes[d]) in pool.scopes.Items;
  }

  lemma RunEdge(pool: Tables, root: Digest, out: Tables, from: Digest, to: Digest)
    requires Complete(pool, root) && Copies(pool, root, out) && from in out.scopes
    requires (from, to) in Mentions(pool) && to in pool.scopes
    ensures (from, to) in Runs(out.scopes)
  {
    SameScope(pool, root, out, from);
    var u :| u in ScopeUses(pool.scopes[from]) && u.id == to;
    assert Resolves(pool, u);
    ScopeRuns(pool.scopes[from], u);
  }

  /** What a scope of the document mentions is in the document. */
  lemma UseInDocument(pool: Tables, root: Digest, out: Tables, d: Digest, u: Use)
    requires Complete(pool, root) && Copies(pool, root, out) && d in out.scopes && u in ScopeUses(out.scopes[d])
    ensures Resolves(out, u)
  {
    SameScope(pool, root, out, d);
    assert Resolves(pool, u) && (d, u.id) in Mentions(pool);
    ReachesAfter(Mentions(pool), root, d, u.id);
  }

  /** Whatever is reached and is not a scope is mentioned by a scope of the document. */
  lemma MentionedBy(pool: Tables, root: Digest, out: Tables, t: Digest) returns (u: Use)
    requires Complete(pool, root) && Copies(pool, root, out) && Reaches(Mentions(pool), root, t) && t !in pool.scopes
    ensures u in UsesOf(out.scopes, out.scopes.Keys) && u.id == t && Resolves(pool, u)
  {
    var p :| PathFrom(Mentions(pool), p, root, t);
    assert p[0] == root && root in pool.scopes && p[|p| - 1] == t && IsPath(Mentions(pool), p);
    hide Complete, Copies, Mentions, IsPath, PathFrom, Reaches;
    FrontPath(pool, p);
    InDocument(pool, root, out, p[..|p| - 1]);
    u := MentionOf(pool, root, out, p[|p| - 2], t);
  }

  lemma MentionOf(pool: Tables, root: Digest, out: Tables, from: Digest, t: Digest) returns (u: Use)
    requires Complete(pool, root) && Copies(pool, root, out) && from in out.scopes && (from, t) in Mentions(pool)
    ensures u in UsesOf(out.scopes, out.scopes.Keys) && u.id == t && Resolves(pool, u)
  {
    SameScope(pool, root, out, from);
    u :| u in ScopeUses(pool.scopes[from]) && u.id == t;
  }

  /** A compiled document always passes the link checks. */
  lemma DocumentLinks(pool: Tables, root: Digest, out: Tables)
    requires Complete(pool, root) && Copies(pool, root, out)
    ensures Linked(out, root)
  {
    forall d | d in out.scopes
      ensures Reaches(Runs(out.scopes), root, d)
    {
      SameScope(pool, root, out, d);
      var p :| PathFrom(Mentions(pool), p, root, d);
      RunsInDocument(pool, root, out, p);
    }
    ReachesSelf(Mentions(pool), root);
    forall d, c | d in out.scopes && c in Children(out.scopes[d])
      ensures c.0 in out.scopes
    {
      ChildrenUsed(out.scopes[d].nodes, c);
      UseInDocument(pool, root, out, d, if c.1 == Plain then OfScope(c.0) else OfBody(c.0));
    }
    forall u | u in UsesOf(out.scopes, out.scopes.Keys)
      ensures Resolves(out, u)
    {
      var d :| d in out.scopes && u in ScopeUses(out.scopes[d]);
      UseInDocument(pool, root, out, d, u);
    }
    RunsAcyclic(pool, root, out);
    DocumentExact(pool, root, out);
  }

  lemma RunsAcyclic(pool: Tables, root: Digest, out: Tables)
    requires Complete(pool, root) && Copies(pool, root, out)
    ensures !Cyclic(Runs(out.scopes))
  {
    if p :| IsCycle(Runs(out.scopes), p) {
      forall i | 0 <= i < |p| - 1
        ensures (p[i], p[i + 1]) in Mentions(pool)
      {
        RunMentions(pool, root, out, p[i], p[i + 1]);
      }
      assert IsCycle(Mentions(pool), p);
    }
  }

  lemma RunMentions(pool: Tables, root: Digest, out: Tables, from: Digest, to: Digest)
    requires Copies(pool, root, out) && (from, to) in Runs(out.scopes)
    ensures (from, to) in Mentions(pool)
  {
    SameScope(pool, root, out, from);
    var c :| c in Children(out.scopes[from]) && c.0 == to;
    ChildrenUsed(out.scopes[from].nodes, c);
  }

  lemma DocumentExact(pool: Tables, root: Digest, out: Tables)
    requires Complete(pool, root) && Copies(pool, root, out)
    ensures Exact(out, UsedIn(UsesOf(out.scopes, out.scopes.Keys)))
  {
    forall t | t in out.bindings
      ensures OfBinding(t) in UsesOf(out.scopes, out.scopes.Keys)
    {
      var u := MentionedBy(pool, root, out, t);
    }
    forall t | t in out.templates
      ensures OfTemplate(t) in UsesOf(out.scopes, out.scopes.Keys)
    {
      var u := MentionedBy(pool, root, out, t);
    }
    forall t | t in out.libraries
      ensures OfLibrary(t) in UsesOf(out.scopes, out.scopes.Keys)
    {
      var u := MentionedBy(pool, root, out, t);
    }
  }
}
