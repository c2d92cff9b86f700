// The record closure of a compiled document (crates/htlk-compiler/src/lower.rs).

module Documents {
  import opened Graphs

  type Digest = nat

  /** The record-naming parts of expressions; every other kind only has children. */
  datatype Expression =
    | FunctionRef(library: Digest, children: seq<Expression>)
    | LibraryCall(library: Digest, children: seq<Expression>)
    | Render(template: Digest, children: seq<Expression>)
    | Other(children: seq<Expression>)

  datatype Operation =
    | Eval(expression: Expression)
    | SubScope(scope: Digest)
    | Loop(body: Digest, until: Expression, iterations: nat)
    | Mcp(binding: Digest)
    | Wait

  datatype Node = Node(guard: Expression, preconditions: Expression, postconditions: Expression, operation: Operation)

  datatype Scope = Scope(
    preconditions: Expression, postconditions: Expression, edgeGuards: seq<Expression>, nodes: seq<Node>)

  /** A mention of a record, by its kind. */
  datatype Use =
    | OfScope(id: Digest) | OfBody(id: Digest) | OfTemplate(id: Digest) | OfBinding(id: Digest) | OfLibrary(id: Digest)

  /** Tables of records; templates, bindings and libraries mention no other record. */
  datatype Tables = Tables(
    scopes: map<Digest, Scope>, templates: map<Digest, nat>, bindings: map<Digest, nat>, libraries: map<Digest, nat>)

  // ---- What a scope mentions ----

  function OwnUses(e: Expression): set<Use> {
    match e
    case FunctionRef(l, _) => {OfLibrary(l)}
    case LibraryCall(l, _) => {OfLibrary(l)}
    case Render(t, _) => {OfTemplate(t)}
    case Other(_) => {}
  }

  function Uses(e: Expression): set<Use> {
    OwnUses(e) + AllUses(e.children)
  }

  function AllUses(es: seq<Expression>): set<Use> {
    if es == [] then {} else AllUses(es[..|es| - 1]) + Uses(es[|es| - 1])
  }

  function OperationUses(o: Operation): set<Use> {
    match o
    case Eval(e) => Uses(e)
    case SubScope(d) => {OfScope(d)}
    case Loop(b, u, _) => {OfBody(b)} + Uses(u)
    case Mcp(b) => {OfBinding(b)}
    case Wait => {}
  }

  function NodeUses(n: Node): set<Use> {
    Uses(n.guard) + Uses(n.preconditions) + Uses(n.postconditions) + OperationUses(n.operation)
  }

  function NodesUses(ns: seq<Node>): set<Use> {
    if ns == [] then {} else NodesUses(ns[..|ns| - 1]) + NodeUses(ns[|ns| - 1])
  }

  function ScopeUses(s: Scope): set<Use> {
    Uses(s.preconditions) + Uses(s.postconditions) + AllUses(s.edgeGuards) + NodesUses(s.nodes)
  }

  function Ids(us: set<Use>): set<Digest> {
    set u | u in us :: u.id
  }

  lemma IdsUnion(a: set<Use>, b: set<Use>)
    ensures Ids(a + b) == Ids(a) + Ids(b)
  {
  }

  /** Adds every record an expression mentions. */
  method ExpressionDependencies(e: Expression, before: set<Digest>) returns (out: set<Digest>)
    ensures out == before + Ids(Uses(e))
    decreases e
  {
    out := before + Ids(OwnUses(e));
    for i := 0 to |e.children|
      invariant out == before + Ids(OwnUses(e)) + Ids(AllUses(e.children[..i]))
    {
      out := ExpressionDependencies(e.children[i], out);
      assert e.children[..i + 1][..i] == e.children[..i];
      IdsUnion(AllUses(e.children[..i]), Uses(e.children[i]));
    }
    assert e.children[..|e.children|] == e.children;
    IdsUnion(OwnUses(e), AllUses(e.children));
  }

  /** Adds every record the operation of a node mentions. */
  method OperationDependencies(o: Operation, before: set<Digest>) returns (out: set<Digest>)
    ensures out == before + Ids(OperationUses(o))
  {
    hide Uses;
    out := before;
    match o {
      case Eval(e) => out := ExpressionDependencies(e, out);
      case SubScope(d) => out := out + {d};
      case Loop(b, u, _) =>
        out := out + {b};
        out := ExpressionDependencies(u, out);
        IdsUnion({OfBody(b)}, Uses(u));
      case Mcp(b) => out := out + {b};
      case Wait =>
    }
  }

  /** Adds every record a node mentions. */
  method NodeDependencies(n: Node, before: set<Digest>) returns (out: set<Digest>)
    ensures out == before + Ids(NodeUses(n))
  {
    out := ExpressionDependencies(n.guard, before);
    out := ExpressionDependencies(n.preconditions, out);
    out := ExpressionDependencies(n.postconditions, out);
    out := OperationDependencies(n.operation, out);
    hide Uses, OperationUses, Ids;
    IdsUnion(Uses(n.guard), Uses(n.preconditions));
    IdsUnion(Uses(n.guard) + Uses(n.preconditions), Uses(n.postconditions));
    IdsUnion(Uses(n.guard) + Uses(n.preconditions) + Uses(n.postconditions), OperationUses(n.operation));
  }

  /** Adds every record a scope mentions. */
  method ScopeDependencies(s: Scope, before: set<Digest>) returns (out: set<Digest>)
    ensures out == before + Ids(ScopeUses(s))
  {
    out := ExpressionDependencies(s.preconditions, before);
    out := ExpressionDependencies(s.postconditions, out);
    ghost var start := out;
    for i := 0 to |s.edgeGuards|
      invariant out == start + Ids(AllUses(s.edgeGuards[..i]))
    {
      out := ExpressionDependencies(s.edgeGuards[i], out);
      assert s.edgeGuards[..i + 1][..i] == s.edgeGuards[..i];
      IdsUnion(AllUses(s.edgeGuards[..i]), Uses(s.edgeGuards[i]));
    }
    assert s.edgeGuards[..|s.edgeGuards|] == s.edgeGuards;
    ghost var middle := out;
    for i := 0 to |s.nodes|
      invariant out == middle + Ids(NodesUses(s.nodes[..i]))
    {
      out := NodeDependencies(s.nodes[i], out);
      assert s.nodes[..i + 1][..i] == s.nodes[..i];
      IdsUnion(NodesUses(s.nodes[..i]), NodeUses(s.nodes[i]));
    }
    assert s.nodes[..|s.nodes|] == s.nodes;
    IdsUnion(Uses(s.preconditions), Uses(s.postconditions));
    IdsUnion(Uses(s.preconditions) + Uses(s.postconditions), AllUses(s.edgeGuards));
    IdsUnion(Uses(s.preconditions) + Uses(s.postconditions) + AllUses(s.edgeGuards), NodesUses(s.nodes));
  }

  // ---- The closure ----

  /** From each scope to every record it mentions. */
  function Mentions(pool: Tables): Edges<Digest> {
    set d, u | d in pool.scopes && u in ScopeUses(pool.scopes[d]) :: (d, u.id)
  }

  /** Which records a document copies: those reached, looked up scopes first. */
  ghost predicate Copies(pool: Tables, root: Digest, out: Tables) {
    && (forall d :: d in out.scopes <==> d in pool.scopes && Reaches(Mentions(pool), root, d))
    && (forall d :: d in out.templates <==>
      d in pool.templates && d !in pool.scopes && Reaches(Mentions(pool), root, d))
    && (forall d :: d in out.bindings <==>
      d in pool.bindings && d !in pool.scopes && d !in pool.templates && Reaches(Mentions(pool), root, d))
    && (forall d :: d in out.libraries <==>
      d in pool.libraries && d !in pool.scopes && d !in pool.templates && d !in pool.bindings &&
        Reaches(Mentions(pool), root, d))
    && out.scopes.Items <= pool.scopes.Items && out.templates.Items <= pool.templates.Items
    && out.bindings.Items <= pool.bindings.Items && out.libraries.Items <= pool.libraries.Items
  }

  /** The reached part of a table. */
  ghost function Chosen<T>(table: map<Digest, T>, reached: set<Digest>, earlier: set<Digest>): map<Digest, T> {
    map d | d in table && d in reached && d !in earlier :: table[d]
  }

  /** What has been copied while `reached` were visited. */
  ghost predicate Copied(pool: Tables, reached: set<Digest>, out: Tables) {
    && out.scopes == Chosen(pool.scopes, reached, {})
    && out.templates == Chosen(pool.templates, reached, pool.scopes.Keys)
    && out.bindings == Chosen(pool.bindings, reached, pool.scopes.Keys + pool.templates.Keys)
    && out.libraries == Chosen(pool.libraries, reached, pool.scopes.Keys + pool.templates.Keys + pool.bindings.Keys)
  }

  /** Everything found is reached from the root, and everything a visited scope mentions is found. */
  ghost predicate Frontier(pool: Tables, root: Digest, pending: set<Digest>, reached: set<Digest>) {
    && root in pending + reached
    && (forall d :: d in pending + reached ==> Reaches(Mentions(pool), root, d))
    && forall d, u :: d in reached && d in pool.scopes && u in ScopeUses(pool.scopes[d]) ==> u.id in pending + reached
  }

  ghost function Known(pool: Tables, root: Digest): set<Digest> {
    {root} + (set e | e in Mentions(pool) :: e.1)
  }

  lemma VisitScope(pool: Tables, root: Digest, pending: set<Digest>, reached: set<Digest>, d: Digest)
    requires Frontier(pool, root, pending, reached) && d in pending
    ensures
      var more := if d in pool.scopes then Ids(ScopeUses(pool.scopes[d])) else {};
      Frontier(pool, root, pending - {d} + more, reached + {d})
  {
    if d in pool.scopes {
      forall u | u in ScopeUses(pool.scopes[d])
        ensures Reaches(Mentions(pool), root, u.id)
      {
        assert (d, u.id) in Mentions(pool);
        ReachesAfter(Mentions(pool), root, d, u.id);
      }
    }
  }

  lemma {:induction false} PathReached(pool: Tables, root: Digest, reached: set<Digest>, p: seq<Digest>)
    requires Frontier(pool, root, {}, reached) && IsPath(Mentions(pool), p) && p[0] == root
    ensures p[|p| - 1] in reached
    decreases |p|
  {
    if |p| > 1 {
      var q := p[..|p| - 1];
      PathReached(pool, root, reached, q);
      assert (p[|p| - 2], p[|p| - 1]) in Mentions(pool);
    }
  }

  lemma AllReached(pool: Tables, root: Digest, reached: set<Digest>, out: Tables)
    requires Frontier(pool, root, {}, reached) && Copied(pool, reached, out)
    ensures Copies(pool, root, out)
  {
    forall d | Reaches(Mentions(pool), root, d)
      ensures d in reached
    {
      var p :| PathFrom(Mentions(pool), p, root, d);
      PathReached(pool, root, reached, p);
    }
  }

  /** Copies one record into the table where it is found first. */
  function Copy(pool: Tables, out: Tables, id: Digest): Tables {
    if id in pool.scopes then out.(scopes := out.scopes[id := pool.scopes[id]])
    else if id in pool.templates then out.(templates := out.templates[id := pool.templates[id]])
    else if id in pool.bindings then out.(bindings := out.bindings[id := pool.bindings[id]])
    else if id in pool.libraries then out.(libraries := out.libraries[id := pool.libraries[id]])
    else out
  }

  lemma ChosenMore<T>(table: map<Digest, T>, reached: set<Digest>, earlier: set<Digest>, id: Digest)
    ensures Chosen(table, reached + {id}, earlier)
      == if id in table && id !in earlier then Chosen(table, reached, earlier)[id := table[id]]
        else Chosen(table, reached, earlier)
  {
  }

  lemma CopyOne(pool: Tables, reached: set<Digest>, out: Tables, id: Digest)
    requires Copied(pool, reached, out)
    ensures Copied(pool, reached + {id}, Copy(pool, out, id))
  {
    ChosenMore(pool.scopes, reached, {}, id);
    ChosenMore(pool.templates, reached, pool.scopes.Keys, id);
    ChosenMore(pool.bindings, reached, pool.scopes.Keys + pool.templates.Keys, id);
    ChosenMore(pool.libraries, reached, pool.scopes.Keys + pool.templates.Keys + pool.bindings.Keys, id);
    hide Chosen;
  }

  lemma StartCopy(pool: Tables, root: Digest)
    ensures Frontier(pool, root, {root}, {}) && Copied(pool, {}, Tables(map[], map[], map[], map[]))
    ensures {root} <= Known(pool, root)
  {
    ReachesSelf(Mentions(pool), root);
  }

  lemma FrontierKnown(pool: Tables, root: Digest, pending: set<Digest>, reached: set<Digest>)
    requires Frontier(pool, root, pending, reached)
    ensures pending + reached <= Known(pool, root)
  {
    forall d | d in pending + reached
      ensures d in Known(pool, root)
    {
      var p :| PathFrom(Mentions(pool), p, root, d);
      if |p| > 1 {
        assert (p[|p| - 2], p[|p| - 1]) in Mentions(pool);
      }
    }
  }

  lemma SkipReached(pool: Tables, root: Digest, pending: set<Digest>, reached: set<Digest>, id: Digest)
    requires Frontier(pool, root, pending, reached) && id in reached
    ensures Frontier(pool, root, pending - {id}, reached)
  {
  }

  /** Copies exactly the records reached from the root scope. */
  method Document(pool: Tables, root: Digest) returns (out: Tables)
    ensures Copies(pool, root, out)
  {
    hide *;
    out := Tables(map[], map[], map[], map[]);
    var pending, reached := {root}, {};
    StartCopy(pool, root);
    while pending != {}
      invariant Frontier(pool, root, pending, reached) && Copied(pool, reached, out)
      decreases Known(pool, root) - reached, pending
    {
      var id :| id in pending;
      FrontierKnown(pool, root, pending, reached);
      if id in reached {
        SkipReached(pool, root, pending, reached, id);
        pending := pending - {id};
      } else {
        VisitScope(pool, root, pending, reached, id);
        CopyOne(pool, reached, out, id);
        pending := pending - {id};
        assert pending + {} == pending;
        if id in pool.scopes {
          pending := ScopeDependencies(pool.scopes[id], pending);
        }
        out := Copy(pool, out, id);
        ghost var known := Known(pool, root) - reached;
        assert id in known && id !in Known(pool, root) - (reached + {id});
        reached := reached + {id};
      }
    }
    AllReached(pool, root, reached, out);
  }
}
