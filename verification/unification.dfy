// What one step of unification achieves, stated by its solutions
// (crates/htlk-analyzer/src/type_check.rs:1510-1612).

module Unification {
  import opened Wrappers
  import opened Types
  import opened Bindings
  import opened Unifiers

  datatype Pair = Pair(formal: Ty, actual: Ty)

  /** Mentions only variables minted so far. */
  ghost predicate Known(serial: nat, t: Ty) {
    forall x :: x in Vars(t) ==> x < serial
  }

  ghost predicate KnownPair(serial: nat, p: Pair) {
    Known(serial, p.formal) && Known(serial, p.actual)
  }

  ghost predicate Equal(theta: Substitution, p: Pair) {
    Ap(theta, p.formal) == Ap(theta, p.actual)
  }

  ghost predicate AllEqual(theta: Substitution, pairs: seq<Pair>) {
    forall i :: 0 <= i < |pairs| ==> Equal(theta, pairs[i])
  }

  /**
   * Going from `before` to `after` loses no solution of the pairs, and adds nothing:
   * if they have a solution over `before`, the step succeeds, every such solution
   * solves `after`, and everything that solves `after` solves the pairs.
   */
  ghost predicate Solved(before: Bindings, pairs: seq<Pair>, ok: bool, after: Bindings) {
    forall theta :: Extends(theta, before) && AllEqual(theta, pairs) ==>
      ok && Extends(theta, after) && EntailsAll(after, pairs)
  }

  ghost predicate EntailsAll(b: Bindings, pairs: seq<Pair>) {
    forall theta :: Extends(theta, b) ==> AllEqual(theta, pairs)
  }

  ghost predicate PlainPairs(pairs: seq<Pair>) {
    forall i :: 0 <= i < |pairs| ==> Plain(pairs[i].formal) && Plain(pairs[i].actual)
  }

  // ---- Component pairs of two types with the same constructor ----

  function RecordPairs(a: seq<Field>, b: seq<Field>): seq<Pair> {
    if a == [] then []
    else
      (match Lookup(b, a[0].name)
       case Some(value) => [Pair(a[0].port.ty, value.ty)]
       case None => []) + RecordPairs(a[1..], b)
  }

  /** What unification compares inside two types; none when the constructors clash. */
  function Components(formal: Ty, actual: Ty): seq<Pair> {
    match (formal, actual)
    case (List(a), List(b)) => [Pair(a, b)]
    case (Map(a), Map(b)) => [Pair(a, b)]
    case (Record(a), Record(b)) => RecordPairs(a, b)
    case (Map(a), Record(b)) => seq(|b|, i requires 0 <= i < |b| => Pair(a, b[i].port.ty))
    case (Function(a, ar), Function(b, br)) =>
      if |a| != |b| then []
      else seq(|a|, i requires 0 <= i < |a| => Pair(a[i].ty, b[i].ty)) + [Pair(ar.ty, br.ty)]
    case _ => []
  }

  lemma {:induction false} RecordPairsMembers(a: seq<Field>, b: seq<Field>)
    ensures forall p :: p in RecordPairs(a, b) ==>
      (exists f :: f in a && f.port.ty == p.formal) && (exists g :: g in b && g.port.ty == p.actual)
  {
    if a != [] {
      RecordPairsMembers(a[1..], b);
      var value := Lookup(b, a[0].name);
      if value.Some? {
        assert Field(a[0].name, value.value) in b;
        assert a[0] in a;
      }
    }
  }

  lemma ComponentsInside(formal: Ty, actual: Ty, p: Pair)
    requires p in Components(formal, actual)
    ensures p.formal in Children(formal) && p.actual in Children(actual)
  {
    if formal.Record? && actual.Record? {
      RecordPairsMembers(formal.fields, actual.fields);
    } else if formal.Map? && actual.Record? {
      var i :| 0 <= i < |actual.fields| && p == Pair(formal.item, actual.fields[i].port.ty);
      assert actual.fields[i] in actual.fields;
    } else if formal.Function? && actual.Function? {
      var ps := Components(formal, actual);
      var i :| 0 <= i < |ps| && ps[i] == p;
      if i < |formal.parameters| {
        assert formal.parameters[i] in formal.parameters && actual.parameters[i] in actual.parameters;
      }
    }
  }

  lemma {:induction false} LookupAt(b: seq<Field>, k: nat)
    requires k < |b|
    requires forall i, j :: 0 <= i < j < |b| ==> b[i].name != b[j].name
    ensures Lookup(b, b[k].name) == Some(b[k].port)
  {
  }

  /** With the same distinct names, lookup pairs fields by position. */
  lemma {:induction false} RecordPairsByPosition(a: seq<Field>, b: seq<Field>, whole: seq<Field>, k: nat)
    requires |a| == |b| && k + |b| == |whole| && b == whole[k..]
    requires forall i :: 0 <= i < |a| ==> a[i].name == b[i].name
    requires forall i, j :: 0 <= i < j < |whole| ==> whole[i].name != whole[j].name
    ensures |RecordPairs(a, whole)| == |a|
    ensures forall i :: 0 <= i < |a| ==> RecordPairs(a, whole)[i] == Pair(a[i].port.ty, b[i].port.ty)
  {
    if a != [] {
      LookupAt(whole, k);
      RecordPairsByPosition(a[1..], b[1..], whole, k + 1);
    }
  }

  /** Two types with a common instance agree exactly when their components do. */
  lemma ComponentsExact(formal: Ty, actual: Ty, theta: Substitution, common: Substitution)
    requires Plain(formal) && Plain(actual) && !formal.Var? && !actual.Var?
    requires Ap(common, formal) == Ap(common, actual)
    ensures Ap(theta, formal) == Ap(theta, actual) <==> AllEqual(theta, Components(formal, actual))
  {
    var ps := Components(formal, actual);
    if formal.Record? {
      RecordExact(formal, actual, theta, common);
    } else if formal.Function? {
      FunctionExact(formal, actual, theta, common);
    } else if formal.List? || formal.Map? {
      assert ps[0] == Pair(formal.item, actual.item);
    }
  }

  lemma RecordExact(formal: Ty, actual: Ty, theta: Substitution, common: Substitution)
    requires Plain(formal) && Plain(actual) && formal.Record? && !actual.Var?
    requires Ap(common, formal) == Ap(common, actual)
    ensures Ap(theta, formal) == Ap(theta, actual) <==> AllEqual(theta, Components(formal, actual))
  {
    var a, b := formal.fields, actual.fields;
    var ca, cb := Ap(common, formal).fields, Ap(common, actual).fields;
    assert forall i :: 0 <= i < |a| ==> a[i].name == ca[i].name == cb[i].name == b[i].name;
    RecordPairsByPosition(a, b, b, 0);
    var ps := Components(formal, actual);
    var ta, tb := Ap(theta, formal).fields, Ap(theta, actual).fields;
    assert forall i :: 0 <= i < |a| ==> (Equal(theta, ps[i]) <==> ta[i] == tb[i]);
    assert ta == tb <==> forall i :: 0 <= i < |a| ==> ta[i] == tb[i];
  }

  lemma FunctionExact(formal: Ty, actual: Ty, theta: Substitution, common: Substitution)
    requires Plain(formal) && Plain(actual) && formal.Function? && !actual.Var?
    requires Ap(common, formal) == Ap(common, actual)
    ensures Ap(theta, formal) == Ap(theta, actual) <==> AllEqual(theta, Components(formal, actual))
  {
    var a, b := formal.parameters, actual.parameters;
    assert |Ap(common, formal).parameters| == |Ap(common, actual).parameters|;
    var ps := Components(formal, actual);
    var ta, tb := Ap(theta, formal), Ap(theta, actual);
    assert forall i :: 0 <= i < |a| ==> (Equal(theta, ps[i]) <==> ta.parameters[i] == tb.parameters[i]);
    assert Equal(theta, ps[|a|]) <==> ta.output == tb.output;
    assert ta.parameters == tb.parameters <==> forall i :: 0 <= i < |a| ==> ta.parameters[i] == tb.parameters[i];
    assert |ps| == |a| + 1;
  }

  // ---- Steps of unification ----

  lemma SingleEqual(theta: Substitution, p: Pair)
    ensures AllEqual(theta, [p]) <==> Equal(theta, p)
  {
    assert AllEqual(theta, [p]) ==> Equal(theta, [p][0]);
  }

  /** Looking through bindings changes nothing about solutions. */
  lemma HeadsSolved(
      b: Bindings, h: map<nat, nat>, formal: Ty, actual: Ty, ok: bool, after: Bindings)
    requires Ranked(b, h) && Grows(b, after)
    requires Solved(b, [Pair(Head(b, h, formal), Head(b, h, actual))], ok, after)
    ensures Solved(b, [Pair(formal, actual)], ok, after)
  {
    var outer, inner := Pair(formal, actual), Pair(Head(b, h, formal), Head(b, h, actual));
    forall theta | Extends(theta, b) && AllEqual(theta, [outer])
      ensures ok && Extends(theta, after) && EntailsAll(after, [outer])
    {
      SameAtHeads(b, h, outer, inner, theta);
      assert AllEqual(theta, [inner]);
      forall other | Extends(other, after)
        ensures AllEqual(other, [outer])
      {
        ExtendsOlder(other, b, after);
        SameAtHeads(b, h, outer, inner, other);
      }
    }
  }

  lemma SameAtHeads(b: Bindings, h: map<nat, nat>, outer: Pair, inner: Pair, theta: Substitution)
    requires Ranked(b, h) && Extends(theta, b)
    requires inner == Pair(Head(b, h, outer.formal), Head(b, h, outer.actual))
    ensures AllEqual(theta, [outer]) <==> AllEqual(theta, [inner])
  {
    HeadSolutions(b, h, outer.formal, theta);
    HeadSolutions(b, h, outer.actual, theta);
    SingleEqual(theta, outer);
    SingleEqual(theta, inner);
  }

  lemma SwapSolved(b: Bindings, p: Pair, ok: bool, after: Bindings)
    requires Solved(b, [Pair(p.actual, p.formal)], ok, after)
    ensures Solved(b, [p], ok, after)
  {
    var q := Pair(p.actual, p.formal);
    forall theta
      ensures AllEqual(theta, [p]) <==> AllEqual(theta, [q])
    {
      SingleEqual(theta, p);
      SingleEqual(theta, q);
    }
    assert EntailsAll(after, [q]) ==> EntailsAll(after, [p]);
  }

  lemma RecursiveSolved(b: Bindings, h: map<nat, nat>, x: nat, a: Ty)
    requires Ranked(b, h) && PlainBindings(b) && Plain(a)
    requires x !in b && a != Var(x) && Occurs(b, h, x, a) && (a.Var? ==> a.id !in b)
    ensures Solved(b, [Pair(Var(x), a)], false, b)
  {
    forall theta | Extends(theta, b)
      ensures !AllEqual(theta, [Pair(Var(x), a)])
    {
      RecursiveHasNoUnifier(b, h, x, a, theta);
      SingleEqual(theta, Pair(Var(x), a));
    }
  }

  lemma BindSolved(b: Bindings, x: nat, a: Ty)
    requires x !in b && PlainBindings(b) && Plain(a)
    ensures PlainBindings(b[x := a])
    ensures Solved(b, [Pair(Var(x), a)], true, b[x := a])
  {
    var after := b[x := a];
    forall theta | Extends(theta, b) && AllEqual(theta, [Pair(Var(x), a)])
      ensures Extends(theta, after)
    {
      SingleEqual(theta, Pair(Var(x), a));
    }
    forall theta | Extends(theta, after)
      ensures AllEqual(theta, [Pair(Var(x), a)])
    {
      assert x in after && after[x] == a;
      SingleEqual(theta, Pair(Var(x), a));
    }
  }

  lemma ComponentsSolved(b: Bindings, formal: Ty, actual: Ty, ok: bool, after: Bindings)
    requires Plain(formal) && Plain(actual) && !formal.Var? && !actual.Var?
    requires Solved(b, Components(formal, actual), ok, after)
    ensures Solved(b, [Pair(formal, actual)], ok, after)
  {
    var p, ps := Pair(formal, actual), Components(formal, actual);
    forall theta | Extends(theta, b) && AllEqual(theta, [p])
      ensures ok && Extends(theta, after) && EntailsAll(after, [p])
    {
      SingleEqual(theta, p);
      ComponentsExact(formal, actual, theta, theta);
      assert EntailsAll(after, ps);
      forall other | Extends(other, after)
        ensures AllEqual(other, [p])
      {
        ComponentsExact(formal, actual, other, theta);
        SingleEqual(other, p);
      }
    }
  }

  lemma ArityClash(b: Bindings, formal: Ty, actual: Ty)
    requires formal.Function? && actual.Function? && |formal.parameters| != |actual.parameters|
    ensures Solved(b, [Pair(formal, actual)], false, b)
  {
    forall theta
      ensures !AllEqual(theta, [Pair(formal, actual)])
    {
      SingleEqual(theta, Pair(formal, actual));
      assert |Ap(theta, formal).parameters| != |Ap(theta, actual).parameters|;
    }
  }

  lemma AllEqualSplit(theta: Substitution, pairs: seq<Pair>, k: nat)
    requires k < |pairs|
    ensures AllEqual(theta, pairs[k..]) <==> Equal(theta, pairs[k]) && AllEqual(theta, pairs[k + 1..])
  {
  }

  lemma NextSolved(first: Bindings, middle: Bindings, pairs: seq<Pair>, k: nat, ok: bool, last: Bindings)
    requires k < |pairs| && Grows(middle, last)
    requires Solved(first, [pairs[k]], true, middle)
    requires Solved(middle, pairs[k + 1..], ok, last)
    ensures Solved(first, pairs[k..], ok, last)
  {
    forall theta | Extends(theta, first) && AllEqual(theta, pairs[k..])
      ensures ok && Extends(theta, last) && EntailsAll(last, pairs[k..])
    {
      AllEqualSplit(theta, pairs, k);
      SingleEqual(theta, pairs[k]);
      forall other | Extends(other, last)
        ensures AllEqual(other, pairs[k..])
      {
        ExtendsOlder(other, middle, last);
        SingleEqual(other, pairs[k]);
        AllEqualSplit(other, pairs, k);
      }
    }
  }

  // ---- Variables stay known ----

  lemma {:induction false} OccursKnown(b: Bindings, h: map<nat, nat>, serial: nat, t: Ty, x: nat)
    requires Ranked(b, h) && Known(serial, t)
    requires forall y :: y in b ==> Known(serial, b[y])
    requires Occurs(b, h, x, t)
    ensures x < serial
    decreases Depth(h, t)
  {
    if t.Var? {
      assert t.id in Vars(t);
      if t.id in b {
        OccursKnown(b, h, serial, b[t.id], x);
      }
    } else {
      var c :| c in Children(t) && Occurs(b, h, x, c);
      KnownChild(serial, t, c);
      OccursKnown(b, h, serial, c, x);
    }
  }

  lemma ResolveKnown(b: Bindings, h: map<nat, nat>, serial: nat, t: Ty)
    requires Ranked(b, h) && Known(serial, t)
    requires forall y :: y in b ==> Known(serial, b[y])
    ensures Known(serial, Resolve(b, h, t))
  {
    forall x | x in Vars(Resolve(b, h, t))
      ensures x < serial
    {
      ResolveVars(b, h, t, x);
      OccursKnown(b, h, serial, t, x);
    }
  }

  lemma JoinKnown(serial: nat, ts: set<Ty>, whole: Ty)
    requires Known(serial, whole)
    requires if whole.Union? then ts <= whole.members else ts == {whole}
    ensures Known(serial, Join(ts))
  {
    forall x | x in Vars(Join(ts))
      ensures x < serial
    {
      JoinVars(ts, x);
      var t :| t in ts && x in Vars(t);
      if whole.Union? {
        assert t in Children(whole);
        assert x in Vars(whole);
      }
    }
  }

  /** A pair over known variables that is lower than `limit`. */
  ghost predicate Fits(serial: nat, h: map<nat, nat>, p: Pair, limit: nat) {
    && Known(serial, p.formal) && Known(serial, p.actual)
    && Depth(h, p.formal) + Depth(h, p.actual) < limit
  }

  ghost predicate Inside(f: Ty, a: Ty, p: Pair) {
    p.formal in Children(f) && p.actual in Children(a)
  }

  lemma ChildPairFits(serial: nat, h: map<nat, nat>, f: Ty, a: Ty, p: Pair)
    requires Known(serial, f) && Known(serial, a)
    requires Inside(f, a, p)
    ensures Fits(serial, h, p, Depth(h, f) + Depth(h, a))
  {
    KnownChild(serial, f, p.formal);
    KnownChild(serial, a, p.actual);
  }

  lemma ComponentsAllInside(f: Ty, a: Ty)
    ensures forall p :: p in Components(f, a) ==> Inside(f, a, p)
  {
    forall p | p in Components(f, a)
      ensures Inside(f, a, p)
    {
      ComponentsInside(f, a, p);
    }
  }

  lemma PairsPlain(f: Ty, a: Ty, ps: seq<Pair>)
    requires Plain(f) && Plain(a)
    requires forall p :: p in ps ==> Inside(f, a, p)
    ensures PlainPairs(ps)
  {
    forall i | 0 <= i < |ps|
      ensures Plain(ps[i].formal) && Plain(ps[i].actual)
    {
      assert Inside(f, a, ps[i]);
    }
  }

  /** What a union's one candidate meets is lower than the union and the actual type. */
  lemma CandidateFits(
      b: Bindings, h: map<nat, nat>, serial: nat, formal: Ty, m: Ty, actual: Ty, remaining: set<Ty>)
    requires Ranked(b, h) && (forall y :: y in b ==> Known(serial, b[y]))
    requires Known(serial, formal) && Known(serial, actual)
    requires formal.Union? && m in formal.members
    requires if actual.Union? then remaining <= actual.members else remaining == {actual}
    ensures Fits(serial, h, Pair(Resolve(b, h, m), Join(remaining)), Depth(h, formal) + Depth(h, actual))
  {
    assert m in Children(formal);
    KnownChild(serial, formal, m);
    ResolveDepth(b, h, m);
    ResolveKnown(b, h, serial, m);
    JoinPart(h, remaining, actual);
    JoinKnown(serial, remaining, actual);
  }

  lemma KnownChild(serial: nat, t: Ty, c: Ty)
    requires Known(serial, t) && c in Children(t)
    ensures Known(serial, c)
  {
    forall x | x in Vars(c)
      ensures x in Vars(t)
    {
      assert !t.Var?;
    }
  }

  // ---- Steps between states ----

  /** `asked` holds every pair that was ever deferred. */
  datatype State = State(bindings: Bindings, height: map<nat, nat>, deferred: seq<Pair>, asked: set<Pair>)

  /** Bindings are acyclic and nothing mentions a variable that was not minted. */
  ghost predicate Consistent(serial: nat, s: State) {
    && Ranked(s.bindings, s.height)
    && (forall x :: x in s.bindings ==> x < serial && Known(serial, s.bindings[x]))
    && (forall p :: p in s.deferred ==> KnownPair(serial, p) && Deferrable(p) && p in s.asked)
  }

  /** What unification defers: a union against another type that is no variable. */
  predicate Deferrable(p: Pair) {
    p.formal.Union? && !p.actual.Var? && p.formal != p.actual
  }

  lemma BindConsistent(serial: nat, s: State, x: nat, a: Ty)
    requires Consistent(serial, s) && x < serial && Known(serial, a) && x !in s.bindings
    requires !Occurs(s.bindings, s.height, x, a)
    ensures Consistent(serial, s.(bindings := s.bindings[x := a], height := Raise(s.bindings, s.height, x, a)))
    ensures Grows(s.bindings, s.bindings[x := a])
  {
    BindRanked(s.bindings, s.height, x, a);
    var after := s.bindings[x := a];
    forall y | y in after
      ensures y < serial && Known(serial, after[y])
    {
    }
  }

  /**
   * A step of unification on some pairs: bindings and deferred constraints only grow,
   * heights change with bindings only, and on union-free types nothing is deferred and
   * the solutions are computed exactly.
   */
  ghost predicate Step(s: State, pairs: seq<Pair>, ok: bool, t: State) {
    && Grows(s.bindings, t.bindings) && s.deferred <= t.deferred
    && (t.bindings == s.bindings ==> t.height == s.height)
    && (PlainBindings(s.bindings) && PlainPairs(pairs) ==>
      PlainBindings(t.bindings) && t.deferred == s.deferred && Solved(s.bindings, pairs, ok, t.bindings))
  }

  lemma StepNone(s: State)
    ensures Step(s, [], true, s)
  {
  }

  lemma StepSame(s: State, t: Ty)
    ensures Step(s, [Pair(t, t)], true, s)
  {
  }

  lemma HeadsPlain(b: Bindings, h: map<nat, nat>, formal: Ty, actual: Ty)
    requires Ranked(b, h) && PlainBindings(b) && PlainPairs([Pair(formal, actual)])
    ensures PlainPairs([Pair(Head(b, h, formal), Head(b, h, actual))])
  {
    var ps := [Pair(formal, actual)];
    assert Plain(ps[0].formal) && Plain(ps[0].actual);
    HeadPlain(b, h, formal);
    HeadPlain(b, h, actual);
  }

  lemma StepHeads(s: State, formal: Ty, actual: Ty, ok: bool, t: State)
    requires Ranked(s.bindings, s.height)
    requires Step(s, [Pair(Head(s.bindings, s.height, formal), Head(s.bindings, s.height, actual))], ok, t)
    ensures Step(s, [Pair(formal, actual)], ok, t)
  {
    if PlainBindings(s.bindings) && PlainPairs([Pair(formal, actual)]) {
      HeadsPlain(s.bindings, s.height, formal, actual);
      HeadsSolved(s.bindings, s.height, formal, actual, ok, t.bindings);
    }
  }

  lemma StepBind(s: State, x: nat, a: Ty, ok: bool, t: State)
    requires Ranked(s.bindings, s.height) && x !in s.bindings
    requires a != Var(x) && (a.Var? ==> a.id !in s.bindings)
    requires ok <==> !Occurs(s.bindings, s.height, x, a)
    requires if ok then t == s.(bindings := s.bindings[x := a], height := t.height) else t == s
    ensures Step(s, [Pair(Var(x), a)], ok, t)
  {
    var p := Pair(Var(x), a);
    if PlainBindings(s.bindings) && PlainPairs([p]) {
      assert Plain([p][0].actual);
      if ok {
        BindSolved(s.bindings, x, a);
      } else {
        RecursiveSolved(s.bindings, s.height, x, a);
      }
    }
  }

  lemma StepSwap(s: State, p: Pair, ok: bool, t: State)
    requires Step(s, [Pair(p.actual, p.formal)], ok, t)
    ensures Step(s, [p], ok, t)
  {
    var q := Pair(p.actual, p.formal);
    if PlainBindings(s.bindings) && PlainPairs([p]) {
      assert Plain([p][0].formal) && Plain([p][0].actual);
      SwapSolved(s.bindings, p, ok, t.bindings);
    }
  }

  lemma StepUnion(s: State, formal: Ty, actual: Ty, ok: bool, t: State)
    requires formal.Union?
    requires Grows(s.bindings, t.bindings) && s.deferred <= t.deferred
    requires t.bindings == s.bindings ==> t.height == s.height
    ensures Step(s, [Pair(formal, actual)], ok, t)
  {
    var ps := [Pair(formal, actual)];
    assert !Plain(formal) && ps[0].formal == formal;
  }

  lemma StepArity(s: State, formal: Ty, actual: Ty)
    requires formal.Function? && actual.Function? && |formal.parameters| != |actual.parameters|
    ensures Step(s, [Pair(formal, actual)], false, s)
  {
    ArityClash(s.bindings, formal, actual);
  }

  lemma StepInside(s: State, formal: Ty, actual: Ty, ok: bool, t: State)
    requires !formal.Var? && !actual.Var?
    requires Step(s, Components(formal, actual), ok, t)
    ensures Step(s, [Pair(formal, actual)], ok, t)
  {
    var p := Pair(formal, actual);
    if PlainBindings(s.bindings) && PlainPairs([p]) {
      assert Plain([p][0].formal) && Plain([p][0].actual);
      ComponentsAllInside(formal, actual);
      PairsPlain(formal, actual, Components(formal, actual));
      ComponentsSolved(s.bindings, formal, actual, ok, t.bindings);
    }
  }

  lemma PlainSplit(pairs: seq<Pair>, k: nat)
    requires k < |pairs| && PlainPairs(pairs[k..])
    ensures PlainPairs([pairs[k]]) && PlainPairs(pairs[k + 1..])
  {
  }

  lemma StepNext(s: State, m: State, pairs: seq<Pair>, k: nat, ok: bool, t: State)
    requires k < |pairs|
    requires Step(s, [pairs[k]], true, m) && Step(m, pairs[k + 1..], ok, t)
    ensures Step(s, pairs[k..], ok, t)
  {
    if PlainBindings(s.bindings) && PlainPairs(pairs[k..]) {
      PlainSplit(pairs, k);
      NextSolved(s.bindings, m.bindings, pairs, k, ok, t.bindings);
    }
  }

  lemma StepFails(s: State, pairs: seq<Pair>, k: nat, t: State)
    requires k < |pairs| && Step(s, [pairs[k]], false, t)
    ensures Step(s, pairs[k..], false, t)
  {
  }

  // ---- When a step succeeds ----

  predicate ArityClashes(f: Ty, a: Ty) {
    f.Function? && a.Function? && |f.parameters| != |a.parameters|
  }

  /**
   * Everything unification compares below a pair is equal under the bindings or differs
   * in constructors only, which is no error.  Formal unions are a matter of their own.
   */
  ghost predicate Settled(b: Bindings, h: map<nat, nat>, p: Pair)
    requires Ranked(b, h)
    decreases Depth(h, p.formal) + Depth(h, p.actual)
  {
    var f, a := Head(b, h, p.formal), Head(b, h, p.actual);
    ComponentsAllInside(f, a);
    f == a
    || (!f.Var? && !a.Var? &&
        (f.Union? || (!ArityClashes(f, a) && forall c :: c in Components(f, a) ==> Settled(b, h, c))))
  }

  /** Some pair that unification compares fails the occurs check or the count of parameters. */
  ghost predicate Fails(b: Bindings, h: map<nat, nat>, p: Pair)
    requires Ranked(b, h)
    decreases Depth(h, p.formal) + Depth(h, p.actual)
  {
    var f, a := Head(b, h, p.formal), Head(b, h, p.actual);
    ComponentsAllInside(f, a);
    f != a &&
    if f.Var? then Occurs(b, h, f.id, a)
    else if a.Var? then Occurs(b, h, a.id, f)
    else ArityClashes(f, a) || exists c :: c in Components(f, a) && Fails(b, h, c)
  }

  lemma {:induction false} SettledNeverFails(b: Bindings, h: map<nat, nat>, p: Pair)
    requires Ranked(b, h) && Settled(b, h, p)
    ensures !Fails(b, h, p)
    decreases Depth(h, p.formal) + Depth(h, p.actual)
  {
    var f, a := Head(b, h, p.formal), Head(b, h, p.actual);
    ComponentsAllInside(f, a);
    if f != a {
      forall c | c in Components(f, a)
        ensures !Fails(b, h, c)
      {
        SettledNeverFails(b, h, c);
      }
    }
  }

  /** Further bindings only extend the chain that leads to a head. */
  lemma {:induction false} HeadGrows(b: Bindings, h: map<nat, nat>, t: Bindings, k: map<nat, nat>, ty: Ty)
    requires Ranked(b, h) && Ranked(t, k) && Grows(b, t)
    ensures Head(t, k, Head(b, h, ty)) == Head(t, k, ty)
    decreases Depth(h, ty)
  {
    if ty.Var? && ty.id in b {
      HeadGrows(b, h, t, k, b[ty.id]);
    }
  }

  lemma {:induction false} SettledGrows(b: Bindings, h: map<nat, nat>, t: Bindings, k: map<nat, nat>, p: Pair)
    requires Ranked(b, h) && Ranked(t, k) && Grows(b, t) && Settled(b, h, p)
    ensures Settled(t, k, p)
    decreases Depth(h, p.formal) + Depth(h, p.actual)
  {
    var f, a := Head(b, h, p.formal), Head(b, h, p.actual);
    HeadGrows(b, h, t, k, p.formal);
    HeadGrows(b, h, t, k, p.actual);
    ComponentsAllInside(f, a);
    if f != a {
      forall c | c in Components(f, a)
        ensures Settled(t, k, c)
      {
        SettledGrows(b, h, t, k, c);
      }
    }
  }

  /** Pairs with the same heads have the same verdict. */
  lemma SameHeads(t: Bindings, k: map<nat, nat>, p: Pair, q: Pair)
    requires Ranked(t, k)
    requires Head(t, k, p.formal) == Head(t, k, q.formal) && Head(t, k, p.actual) == Head(t, k, q.actual)
    ensures Settled(t, k, p) == Settled(t, k, q) && Fails(t, k, p) == Fails(t, k, q)
  {
  }

  ghost predicate AllSettled(t: State, pairs: seq<Pair>)
    requires Ranked(t.bindings, t.height)
  {
    forall p :: p in pairs ==> Settled(t.bindings, t.height, p)
  }

  ghost predicate SomeFails(t: State, pairs: seq<Pair>)
    requires Ranked(t.bindings, t.height)
  {
    exists p :: p in pairs && Fails(t.bindings, t.height, p)
  }

  /**
   * On success everything compared is settled under the bindings left behind; on
   * union-free types failure shows in a compared pair.
   */
  ghost predicate Verdict(s: State, pairs: seq<Pair>, ok: bool, t: State)
    requires Ranked(t.bindings, t.height)
  {
    if ok then AllSettled(t, pairs) else PlainBindings(s.bindings) && PlainPairs(pairs) ==> SomeFails(t, pairs)
  }

  lemma VerdictNone(s: State)
    requires Ranked(s.bindings, s.height)
    ensures Verdict(s, [], true, s)
  {
  }

  lemma VerdictSame(s: State, t: Ty)
    requires Ranked(s.bindings, s.height)
    ensures Verdict(s, [Pair(t, t)], true, s)
  {
  }

  lemma VerdictUnion(s: State, formal: Ty, actual: Ty, ok: bool, t: State)
    requires Ranked(t.bindings, t.height) && formal.Union? && !actual.Var?
    ensures Verdict(s, [Pair(formal, actual)], ok, t)
  {
    assert [Pair(formal, actual)][0].formal == formal;
  }

  lemma VerdictHeads(s: State, formal: Ty, actual: Ty, ok: bool, t: State)
    requires Ranked(s.bindings, s.height) && Ranked(t.bindings, t.height) && Grows(s.bindings, t.bindings)
    requires Verdict(s, [Pair(Head(s.bindings, s.height, formal), Head(s.bindings, s.height, actual))], ok, t)
    ensures Verdict(s, [Pair(formal, actual)], ok, t)
  {
    var p := Pair(formal, actual);
    var q := Pair(Head(s.bindings, s.height, formal), Head(s.bindings, s.height, actual));
    HeadGrows(s.bindings, s.height, t.bindings, t.height, formal);
    HeadGrows(s.bindings, s.height, t.bindings, t.height, actual);
    SameHeads(t.bindings, t.height, p, q);
    assert q in [q] && p in [p];
    if PlainBindings(s.bindings) && PlainPairs([p]) {
      HeadsPlain(s.bindings, s.height, formal, actual);
    }
  }

  /** Binding a free variable settles the pair either way round; the occurs check fails it. */
  lemma VerdictBind(s: State, x: nat, a: Ty, ok: bool, t: State)
    requires Ranked(s.bindings, s.height) && Ranked(t.bindings, t.height) && x !in s.bindings
    requires a != Var(x) && (a.Var? ==> a.id !in s.bindings)
    requires ok <==> !Occurs(s.bindings, s.height, x, a)
    requires if ok then t.bindings == s.bindings[x := a] else t == s
    ensures Verdict(s, [Pair(Var(x), a)], ok, t)
    ensures !a.Var? ==> Verdict(s, [Pair(a, Var(x))], ok, t)
  {
    var p, q := Pair(Var(x), a), Pair(a, Var(x));
    if ok {
      assert Head(t.bindings, t.height, Var(x)) == Head(t.bindings, t.height, a);
      assert Settled(t.bindings, t.height, p) && Settled(t.bindings, t.height, q);
    } else {
      assert Fails(t.bindings, t.height, p) && (!a.Var? ==> Fails(t.bindings, t.height, q));
      assert p in [p] && q in [q];
    }
  }

  lemma VerdictArity(s: State, f: Ty, a: Ty)
    requires Ranked(s.bindings, s.height) && ArityClashes(f, a)
    ensures Verdict(s, [Pair(f, a)], false, s)
  {
    assert Fails(s.bindings, s.height, Pair(f, a));
    assert Pair(f, a) in [Pair(f, a)];
  }

  lemma VerdictInside(s: State, f: Ty, a: Ty, ok: bool, t: State)
    requires Ranked(t.bindings, t.height) && !f.Var? && !a.Var? && f != a && !ArityClashes(f, a)
    requires Verdict(s, Components(f, a), ok, t)
    ensures Verdict(s, [Pair(f, a)], ok, t)
  {
    var p := Pair(f, a);
    ComponentsAllInside(f, a);
    assert p in [p];
    if PlainBindings(s.bindings) && PlainPairs([p]) {
      assert Plain([p][0].formal) && Plain([p][0].actual);
      PairsPlain(f, a, Components(f, a));
    }
  }

  lemma VerdictNext(s: State, m: State, pairs: seq<Pair>, k: nat, ok: bool, t: State)
    requires k < |pairs| && Ranked(m.bindings, m.height) && Ranked(t.bindings, t.height)
    requires Grows(m.bindings, t.bindings)
    requires Step(s, [pairs[k]], true, m)
    requires Verdict(s, [pairs[k]], true, m) && Verdict(m, pairs[k + 1..], ok, t)
    ensures Verdict(s, pairs[k..], ok, t)
  {
    assert pairs[k] in [pairs[k]];
    SettledGrows(m.bindings, m.height, t.bindings, t.height, pairs[k]);
    assert pairs[k..] == [pairs[k]] + pairs[k + 1..];
    if PlainBindings(s.bindings) && PlainPairs(pairs[k..]) {
      PlainSplit(pairs, k);
    }
  }

  lemma VerdictFails(s: State, pairs: seq<Pair>, k: nat, t: State)
    requires k < |pairs| && Ranked(t.bindings, t.height) && Verdict(s, [pairs[k]], false, t)
    ensures Verdict(s, pairs[k..], false, t)
  {
    if PlainBindings(s.bindings) && PlainPairs(pairs[k..]) {
      PlainSplit(pairs, k);
      assert pairs[k] in pairs[k..];
    }
  }

  /** The variables still free; binding one is what makes inference end. */
  ghost function Free(serial: nat, b: Bindings): set<nat> {
    set x | 0 <= x < serial && x !in b
  }

  /** A new binding leaves fewer variables free. */
  lemma GrowsFree(serial: nat, older: Bindings, newer: Bindings)
    requires Grows(older, newer)
    requires forall x :: x in newer ==> x < serial
    ensures newer != older ==> Free(serial, newer) < Free(serial, older)
  {
    if newer != older {
      assert newer.Keys <= older.Keys ==> newer == older;
      var x :| x in newer && x !in older;
      assert x in Free(serial, older) && x !in Free(serial, newer);
    }
  }

  /** A step binds a variable or changes nothing. */
  lemma StepProgress(serial: nat, s: State, pairs: seq<Pair>, ok: bool, t: State)
    requires Step(s, pairs, ok, t) && Consistent(serial, t)
    ensures Grows(s.bindings, t.bindings) && s.deferred <= t.deferred
    ensures Free(serial, t.bindings) < Free(serial, s.bindings) || (t.bindings == s.bindings && t.height == s.height)
  {
    GrowsFree(serial, s.bindings, t.bindings);
  }

  // ---- Main results about a step of unification ----

  ghost predicate Unifiable(b: Bindings, p: Pair) {
    exists theta :: Extends(theta, b) && Equal(theta, p)
  }

  /** The types as they stand after a call, presence flags aside. */
  ghost function Final(after: Bindings, h: map<nat, nat>, t: Ty): Ty
    requires Ranked(after, h)
  {
    Ap(Identity(), Resolve(after, h, t))
  }

  /** Bindings entail an equation exactly when they resolve both sides to the same type. */
  lemma EntailsIff(after: Bindings, h: map<nat, nat>, p: Pair)
    requires Ranked(after, h) && PlainBindings(after) && Plain(p.formal) && Plain(p.actual)
    ensures EntailsAll(after, [p]) <==> Final(after, h, p.formal) == Final(after, h, p.actual)
  {
    var sigma := Solution(after, h);
    SolutionExtends(after, h);
    SolutionResolves(after, h, p.formal);
    SolutionResolves(after, h, p.actual);
    if EntailsAll(after, [p]) {
      SingleEqual(sigma, p);
    }
    if Final(after, h, p.formal) == Final(after, h, p.actual) {
      forall theta | Extends(theta, after)
        ensures AllEqual(theta, [p])
      {
        FactorsThrough(after, h, theta, p.formal);
        FactorsThrough(after, h, theta, p.actual);
        ApErased(theta, Resolve(after, h, p.formal));
        ApErased(theta, Resolve(after, h, p.actual));
        SingleEqual(theta, p);
      }
    }
  }

  /**
   * Two union-free types are unifiable over the bindings before the step exactly when
   * the step succeeds and the bindings after it resolve both to the same type.  (Clashing
   * constructors are left to the later compatibility check, so success alone is not
   * enough: see ClashSucceeds.)
   */
  lemma UnifiableIff(before: Bindings, p: Pair, ok: bool, after: Bindings, h: map<nat, nat>)
    requires Solved(before, [p], ok, after) && Grows(before, after)
    requires Ranked(after, h) && PlainBindings(after) && Plain(p.formal) && Plain(p.actual)
    ensures Unifiable(before, p) <==> ok && Final(after, h, p.formal) == Final(after, h, p.actual)
  {
    EntailsIff(after, h, p);
    if theta :| Extends(theta, before) && Equal(theta, p) {
      SingleEqual(theta, p);
      assert ok && EntailsAll(after, [p]);
    }
    if ok && EntailsAll(after, [p]) {
      var sigma := Solution(after, h);
      SolutionExtends(after, h);
      ExtendsOlder(sigma, before, after);
      SingleEqual(sigma, p);
    }
  }

  /** On unifiable types the bindings left behind are a most general unifier. */
  lemma UnifyMostGeneral(before: Bindings, p: Pair, ok: bool, after: Bindings, h: map<nat, nat>)
    requires Solved(before, [p], ok, after) && Grows(before, after)
    requires Ranked(after, h) && PlainBindings(after) && Plain(p.formal) && Plain(p.actual)
    requires Unifiable(before, p)
    ensures Extends(Solution(after, h), before)
    ensures Ap(Identity(), Resolve(after, h, p.formal)) == Ap(Identity(), Resolve(after, h, p.actual))
    ensures forall theta :: Extends(theta, before) && Equal(theta, p) ==> FactorsVia(theta, Solution(after, h))
  {
    UnifiableIff(before, p, ok, after, h);
    EntailsIff(after, h, p);
    forall theta | Extends(theta, after)
      ensures Ap(theta, p.formal) == Ap(theta, p.actual)
    {
      SingleEqual(theta, p);
    }
    MostGeneral(after, h, p.formal, p.actual);
    ExtendsOlder(Solution(after, h), before, after);
    forall theta | Extends(theta, before) && Equal(theta, p)
      ensures FactorsVia(theta, Solution(after, h))
    {
      SingleEqual(theta, p);
    }
  }

  /** The pair of a list of texts and a text. */
  function Clashing(): Pair {
    Pair(List(Builtin(PString)), Builtin(PString))
  }

  /**
   * A clash of constructors is not an error of unification: whatever the bindings, this
   * pair is settled, with nothing to compare inside, and has no unifier.
   */
  lemma ClashSucceeds(b: Bindings, h: map<nat, nat>)
    requires Ranked(b, h)
    ensures Settled(b, h, Clashing()) && !Fails(b, h, Clashing()) && !Unifiable(b, Clashing())
    ensures Components(Head(b, h, Clashing().formal), Head(b, h, Clashing().actual)) == []
  {
    SettledNeverFails(b, h, Clashing());
  }
}
