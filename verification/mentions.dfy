// What a scope mentions, said by the expressions and operations written in it
// (crates/htlk-compiler/src/lower.rs:1341-1388, crates/htlk-analyzer/src/linkage.rs).

module Mentions {
  import opened Documents
  import opened ScopeOrder

  /** An expression inside another, itself included. */
  ghost predicate Within(part: Expression, e: Expression)
    decreases e, 1
  {
    part == e || WithinAny(part, e.children)
  }

  ghost predicate WithinAny(part: Expression, es: seq<Expression>)
    decreases es, 0
  {
    exists e :: e in es && Within(part, e)
  }

  /** The record that an expression names itself. */
  predicate Names(e: Expression, u: Use) {
    || ((e.FunctionRef? || e.LibraryCall?) && u == OfLibrary(e.library))
    || (e.Render? && u == OfTemplate(e.template))
  }

  ghost predicate NamedIn(e: Expression, u: Use) {
    exists part :: Within(part, e) && Names(part, u)
  }

  /** An expression mentions exactly what the expressions inside it name. */
  lemma {:induction false} UsesIff(e: Expression, u: Use)
    ensures u in Uses(e) <==> NamedIn(e, u)
    decreases e, 1
  {
    ListUsesIff(e.children, u);
    assert u in OwnUses(e) <==> Names(e, u);
    if NamedIn(e, u) && !Names(e, u) {
      var part :| Within(part, e) && Names(part, u);
      assert WithinAny(part, e.children);
      var child :| child in e.children && Within(part, child);
      assert NamedIn(child, u);
    }
    if child :| child in e.children && NamedIn(child, u) {
      var part :| Within(part, child) && Names(part, u);
      assert WithinAny(part, e.children);
      assert Within(part, e);
    }
    if Names(e, u) {
      assert Within(e, e);
    }
  }

  lemma {:induction false} ListUsesIff(es: seq<Expression>, u: Use)
    ensures u in AllUses(es) <==> exists e :: e in es && NamedIn(e, u)
    decreases es, 0
  {
    if es != [] {
      var front, last := es[..|es| - 1], es[|es| - 1];
      ListUsesIff(front, u);
      UsesIff(last, u);
      assert forall e :: e in es <==> e in front || e == last;
    }
  }

  /** The expressions written in a node. */
  predicate WrittenIn(n: Node, e: Expression) {
    || e == n.guard || e == n.preconditions || e == n.postconditions
    || n.operation == Eval(e)
    || (n.operation.Loop? && n.operation.until == e)
  }

  /** The expressions written in a scope. */
  ghost predicate Written(s: Scope, e: Expression) {
    || e == s.preconditions || e == s.postconditions || e in s.edgeGuards
    || exists n :: n in s.nodes && WrittenIn(n, e)
  }

  /** The record that a node runs or calls. */
  predicate Operates(n: Node, u: Use) {
    || (n.operation.SubScope? && u == OfScope(n.operation.scope))
    || (n.operation.Loop? && u == OfBody(n.operation.body))
    || (n.operation.Mcp? && u == OfBinding(n.operation.binding))
  }

  lemma NodeUsesIff(n: Node, u: Use)
    ensures u in NodeUses(n) <==> Operates(n, u) || exists e :: WrittenIn(n, e) && NamedIn(e, u)
  {
    hide Uses, NamedIn;
    forall e
      ensures u in Uses(e) <==> NamedIn(e, u)
    {
      UsesIff(e, u);
    }
    assert WrittenIn(n, n.guard) && WrittenIn(n, n.preconditions) && WrittenIn(n, n.postconditions);
    if n.operation.Eval? {
      assert WrittenIn(n, n.operation.expression);
    }
    if n.operation.Loop? {
      assert WrittenIn(n, n.operation.until);
    }
  }

  lemma {:induction false} NodesUsesIff(ns: seq<Node>, u: Use)
    ensures u in NodesUses(ns) <==> exists n :: n in ns && u in NodeUses(n)
  {
    hide NodeUses;
    if ns != [] {
      var front, last := ns[..|ns| - 1], ns[|ns| - 1];
      NodesUsesIff(front, u);
      assert forall n :: n in ns <==> n in front || n == last;
    }
  }

  /** A scope mentions exactly what is named inside its expressions and what its nodes run or call. */
  lemma ScopeUsesIff(s: Scope, u: Use)
    ensures u in ScopeUses(s) <==>
      || (exists n :: n in s.nodes && Operates(n, u))
      || exists e :: Written(s, e) && NamedIn(e, u)
  {
    UsesIff(s.preconditions, u);
    UsesIff(s.postconditions, u);
    ListUsesIff(s.edgeGuards, u);
    NodesUsesIff(s.nodes, u);
    hide Uses, AllUses, NodesUses, NodeUses, NamedIn, Operates, WrittenIn;
    forall n | n in s.nodes
      ensures u in NodeUses(n) <==> Operates(n, u) || exists e :: WrittenIn(n, e) && NamedIn(e, u)
    {
      NodeUsesIff(n, u);
    }
    assert Written(s, s.preconditions) && Written(s, s.postconditions);
    assert forall e :: e in s.edgeGuards ==> Written(s, e);
    assert forall n, e :: n in s.nodes && WrittenIn(n, e) ==> Written(s, e);
  }

  /** Running a scope in a role. */
  function Run(d: Digest, role: Role): Use {
    if role == Plain then OfScope(d) else OfBody(d)
  }

  /** The children of a scope are what its nodes run, each in its role. */
  lemma {:induction false} ChildIff(ns: seq<Node>, d: Digest, role: Role)
    ensures (d, role) in ChildList(ns) <==>
      exists n :: n in ns && Operates(n, Run(d, role))
  {
    if ns != [] {
      var front, last := ns[..|ns| - 1], ns[|ns| - 1];
      ChildIff(front, d, role);
      var o := last.operation;
      var more := if o.SubScope? then [(o.scope, Plain)] else if o.Loop? then [(o.body, Body)] else [];
      assert ChildList(ns) == ChildList(front) + more;
      assert (d, role) in more <==> Operates(last, Run(d, role));
      assert forall n :: n in ns <==> n in front || n == last;
    }
  }
}
