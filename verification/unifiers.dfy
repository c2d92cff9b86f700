// Unifiers of union-free types: what it means to solve a set of bindings.
//
// A substitution gives a type to every variable.  Applying it forgets the presence
// flags of ports, which unification ignores.

module Unifiers {
  import opened Types
  import opened Bindings

  type Substitution = nat -> Ty

  /** Built without unions, and with distinct field names in every record. */
  predicate Plain(t: Ty) {
    && !t.Union?
    && (t.Record? ==> forall i, j :: 0 <= i < j < |t.fields| ==> t.fields[i].name != t.fields[j].name)
    && forall c :: c in Children(t) ==> Plain(c)
  }

  predicate PlainBindings(b: Bindings) {
    forall x :: x in b ==> Plain(b[x])
  }

  function Ap(theta: Substitution, t: Ty): Ty {
    match t
    case Var(x) => theta(x)
    case List(item) => List(Ap(theta, item))
    case Map(item) => Map(Ap(theta, item))
    case Record(fields) =>
      Record(seq(|fields|, i requires 0 <= i < |fields| =>
        Field(fields[i].name, Port(Ap(theta, fields[i].port.ty), true))))
    case Function(parameters, output) =>
      Function(
        seq(|parameters|, i requires 0 <= i < |parameters| => Port(Ap(theta, parameters[i].ty), true)),
        Port(Ap(theta, output.ty), true))
    case _ => t
  }

  function Identity(): Substitution { (x: nat) => Var(x) }

  /** The substitution solves every binding. */
  ghost predicate Extends(theta: Substitution, b: Bindings) {
    forall x :: x in b ==> theta(x) == Ap(theta, b[x])
  }

  /** Every solution of the bindings makes the two types equal. */
  ghost predicate Entails(b: Bindings, formal: Ty, actual: Ty) {
    forall theta :: Extends(theta, b) ==> Ap(theta, formal) == Ap(theta, actual)
  }

  lemma ExtendsOlder(theta: Substitution, older: Bindings, newer: Bindings)
    requires Grows(older, newer) && Extends(theta, newer)
    ensures Extends(theta, older)
  {
  }

  lemma {:induction false} HeadSolutions(b: Bindings, h: map<nat, nat>, t: Ty, theta: Substitution)
    requires Ranked(b, h) && Extends(theta, b)
    ensures Ap(theta, Head(b, h, t)) == Ap(theta, t)
    decreases Depth(h, t)
  {
    if t.Var? && t.id in b {
      HeadSolutions(b, h, b[t.id], theta);
    }
  }

  lemma {:induction false} HeadPlain(b: Bindings, h: map<nat, nat>, t: Ty)
    requires Ranked(b, h) && PlainBindings(b) && Plain(t)
    ensures Plain(Head(b, h, t))
    decreases Depth(h, t)
  {
    if t.Var? && t.id in b {
      HeadPlain(b, h, b[t.id]);
    }
  }

  lemma ApChildren(theta: Substitution, t: Ty, c: Ty)
    requires !t.Union? && c in Children(t)
    ensures Ap(theta, c) in Children(Ap(theta, t))
  {
    var r := Ap(theta, t);
    if t.Record? {
      var f :| f in t.fields && f.port.ty == c;
      var i :| 0 <= i < |t.fields| && t.fields[i] == f;
      assert r.fields[i] in r.fields;
    } else if t.Function? && c != t.output.ty {
      var p :| p in t.parameters && p.ty == c;
      var i :| 0 <= i < |t.parameters| && t.parameters[i] == p;
      assert r.parameters[i] in r.parameters;
    }
  }

  /** A variable inside a type is strictly smaller than the type under any solution. */
  lemma {:induction false} OccursInside(b: Bindings, h: map<nat, nat>, x: nat, t: Ty, theta: Substitution)
    requires Ranked(b, h) && PlainBindings(b) && Plain(t)
    requires Extends(theta, b) && Occurs(b, h, x, t)
    ensures Depth(map[], theta(x)) <= Depth(map[], Ap(theta, t))
    ensures !t.Var? ==> Depth(map[], theta(x)) < Depth(map[], Ap(theta, t))
    decreases Depth(h, t)
  {
    if t.Var? {
      if t.id in b {
        OccursInside(b, h, x, b[t.id], theta);
      }
    } else {
      var c :| c in Children(t) && Occurs(b, h, x, c);
      OccursInside(b, h, x, c, theta);
      ApChildren(theta, t, c);
    }
  }

  /** The occurs check refuses only problems without a solution. */
  lemma RecursiveHasNoUnifier(b: Bindings, h: map<nat, nat>, x: nat, t: Ty, theta: Substitution)
    requires Ranked(b, h) && PlainBindings(b) && Plain(t)
    requires Occurs(b, h, x, t) && !t.Var?
    requires Extends(theta, b)
    ensures theta(x) != Ap(theta, t)
  {
    OccursInside(b, h, x, t, theta);
  }

  // ---- The resolved bindings are a most general solution ----

  lemma {:induction false} ApSame(theta: Substitution, t: Ty, u: Ty)
    requires Similar(theta, t, u)
    ensures Ap(theta, t) == Ap(theta, u)
  {
  }

  /** Same constructor, and componentwise equal under the substitution. */
  ghost predicate Similar(theta: Substitution, t: Ty, u: Ty) {
    match (t, u)
    case (List(a), List(b)) => Ap(theta, a) == Ap(theta, b)
    case (Map(a), Map(b)) => Ap(theta, a) == Ap(theta, b)
    case (Record(a), Record(b)) =>
      |a| == |b| && forall i :: 0 <= i < |a| ==>
        a[i].name == b[i].name && Ap(theta, a[i].port.ty) == Ap(theta, b[i].port.ty)
    case (Function(a, ar), Function(b, br)) =>
      && |a| == |b| && Ap(theta, ar.ty) == Ap(theta, br.ty)
      && forall i :: 0 <= i < |a| ==> Ap(theta, a[i].ty) == Ap(theta, b[i].ty)
    case _ => t == u
  }

  /** Every solution factors through full substitution. */
  lemma {:induction false} FactorsThrough(b: Bindings, h: map<nat, nat>, theta: Substitution, t: Ty)
    requires Ranked(b, h) && PlainBindings(b) && Plain(t)
    requires Extends(theta, b)
    ensures Ap(theta, Resolve(b, h, t)) == Ap(theta, t)
    decreases Depth(h, t)
  {
    if t.Var? {
      if t.id in b {
        FactorsThrough(b, h, theta, b[t.id]);
      }
    } else {
      forall c | c in Children(t)
        ensures Ap(theta, Resolve(b, h, c)) == Ap(theta, c)
      {
        FactorsThrough(b, h, theta, c);
      }
      ResolveSimilar(b, h, theta, t);
      ApSame(theta, Resolve(b, h, t), t);
    }
  }

  lemma ResolveSimilar(b: Bindings, h: map<nat, nat>, theta: Substitution, t: Ty)
    requires Ranked(b, h) && !t.Var? && !t.Union?
    requires forall c :: c in Children(t) ==> Ap(theta, Resolve(b, h, c)) == Ap(theta, c)
    ensures Similar(theta, Resolve(b, h, t), t)
  {
  }

  /** The substitution the bindings stand for. */
  ghost function Solution(b: Bindings, h: map<nat, nat>): Substitution
    requires Ranked(b, h)
  {
    (x: nat) => Ap(Identity(), Resolve(b, h, Var(x)))
  }

  lemma {:induction false} SolutionResolves(b: Bindings, h: map<nat, nat>, t: Ty)
    requires Ranked(b, h) && PlainBindings(b) && Plain(t)
    ensures Ap(Solution(b, h), t) == Ap(Identity(), Resolve(b, h, t))
    decreases Depth(h, t)
  {
    if !t.Var? {
      forall c | c in Children(t)
        ensures Ap(Solution(b, h), c) == Ap(Identity(), Resolve(b, h, c))
      {
        SolutionResolves(b, h, c);
      }
      ResolveAp(b, h, Solution(b, h), t);
    }
  }

  lemma ResolveAp(b: Bindings, h: map<nat, nat>, theta: Substitution, t: Ty)
    requires Ranked(b, h) && !t.Var? && !t.Union?
    requires forall c :: c in Children(t) ==> Ap(theta, c) == Ap(Identity(), Resolve(b, h, c))
    ensures Ap(theta, t) == Ap(Identity(), Resolve(b, h, t))
  {
  }

  /** Forgetting flags first changes nothing. */
  lemma {:induction false} ApErased(theta: Substitution, t: Ty)
    ensures Ap(theta, Ap(Identity(), t)) == Ap(theta, t)
  {
    if t.List? || t.Map? {
      ApErased(theta, t.item);
    } else if t.Record? {
      forall i | 0 <= i < |t.fields|
        ensures Ap(theta, Ap(Identity(), t.fields[i].port.ty)) == Ap(theta, t.fields[i].port.ty)
      {
        ApErased(theta, t.fields[i].port.ty);
      }
    } else if t.Function? {
      forall i | 0 <= i < |t.parameters|
        ensures Ap(theta, Ap(Identity(), t.parameters[i].ty)) == Ap(theta, t.parameters[i].ty)
      {
        ApErased(theta, t.parameters[i].ty);
      }
      ApErased(theta, t.output.ty);
    }
  }

  /** Every value of `theta` is an instance of the value of `sigma`. */
  ghost predicate FactorsVia(theta: Substitution, sigma: Substitution) {
    forall x: nat :: Ap(theta, sigma(x)) == theta(x)
  }

  lemma SolutionFactors(b: Bindings, h: map<nat, nat>, theta: Substitution)
    requires Ranked(b, h) && PlainBindings(b) && Extends(theta, b)
    ensures FactorsVia(theta, Solution(b, h))
  {
    forall x: nat
      ensures Ap(theta, Solution(b, h)(x)) == theta(x)
    {
      var r := Resolve(b, h, Var(x));
      assert Children(Var(x)) == {};
      FactorsThrough(b, h, theta, Var(x));
      ApErased(theta, r);
    }
  }

  lemma SolutionExtends(b: Bindings, h: map<nat, nat>)
    requires Ranked(b, h) && PlainBindings(b)
    ensures Extends(Solution(b, h), b)
  {
    forall x | x in b
      ensures Solution(b, h)(x) == Ap(Solution(b, h), b[x])
    {
      SolutionResolves(b, h, b[x]);
    }
  }

  /**
   * Robinson's theorem for what unification leaves behind: if the bindings entail
   * two types, their full substitutions are equal up to presence flags, the bindings
   * are solved by that substitution, and every other solution factors through it.
   */
  lemma MostGeneral(b: Bindings, h: map<nat, nat>, formal: Ty, actual: Ty)
    requires Ranked(b, h) && PlainBindings(b) && Plain(formal) && Plain(actual)
    requires Entails(b, formal, actual)
    ensures Extends(Solution(b, h), b)
    ensures Ap(Identity(), Resolve(b, h, formal)) == Ap(Identity(), Resolve(b, h, actual))
    ensures forall theta :: Extends(theta, b) ==> FactorsVia(theta, Solution(b, h))
  {
    SolutionExtends(b, h);
    SolutionResolves(b, h, formal);
    SolutionResolves(b, h, actual);
    forall theta | Extends(theta, b)
      ensures FactorsVia(theta, Solution(b, h))
    {
      SolutionFactors(b, h, theta);
    }
  }
}
