// Decided unions under the bindings at the end (crates/htlk-analyzer/src/type_check.rs:798-810).

module DeferralProofs {
  import opened Wrappers
  import opened Graphs
  import opened Types
  import opened Values
  import opened Compatibility
  import CompatibilityExact
  import opened Bindings
  import opened Unifiers
  import opened Unification
  import opened Deferral

  // ---- Substitution under more bindings ----

  /** A type without variables left is the same under all further bindings. */
  lemma {:induction false} GroundStays(u: Bindings, k: Heights, t: Bindings, h: Heights, ty: Ty)
    requires Ranked(u, k) && Ranked(t, h) && Grows(u, t) && !HasVariable(Resolve(u, k, ty))
    ensures Resolve(t, h, ty) == Resolve(u, k, ty)
    decreases Depth(k, ty)
  {
    if ty.Var? {
      if ty.id in u {
        GroundStays(u, k, t, h, u[ty.id]);
      }
    } else {
      forall c | c in Children(ty)
        ensures Resolve(t, h, c) == Resolve(u, k, c)
      {
        GroundChild(u, k, ty, c);
        GroundStays(u, k, t, h, c);
      }
      SameChildren(u, k, t, h, ty);
    }
  }

  lemma GroundChild(u: Bindings, k: Heights, ty: Ty, c: Ty)
    requires Ranked(u, k) && !ty.Var? && c in Children(ty) && !HasVariable(Resolve(u, k, ty))
    ensures !HasVariable(Resolve(u, k, c))
  {
    HasVariableVars(Resolve(u, k, ty));
    HasVariableVars(Resolve(u, k, c));
    if x :| x in Vars(Resolve(u, k, c)) {
      ResolveChildrenVars(u, k, ty, x);
    }
  }

  /** A record's substituted fields, one by one. */
  lemma RecordForm(b: Bindings, h: Heights, t: Ty)
    requires Ranked(b, h) && t.Record?
    ensures
      var r := Resolve(b, h, t);
      && r.Record? && |r.fields| == |t.fields|
      && (forall i :: 0 <= i < |t.fields| ==> t.fields[i].port.ty in Children(t))
      && forall i :: 0 <= i < |t.fields| ==>
        r.fields[i] == Field(t.fields[i].name, Port(Resolve(b, h, t.fields[i].port.ty), t.fields[i].port.required))
  {
    assert forall i :: 0 <= i < |t.fields| ==> t.fields[i] in t.fields;
  }

  lemma FunctionForm(b: Bindings, h: Heights, t: Ty)
    requires Ranked(b, h) && t.Function?
    ensures
      var r := Resolve(b, h, t);
      && r.Function? && |r.parameters| == |t.parameters| && t.output.ty in Children(t)
      && r.output == Port(Resolve(b, h, t.output.ty), t.output.required)
      && (forall i :: 0 <= i < |t.parameters| ==> t.parameters[i].ty in Children(t))
      && forall i :: 0 <= i < |t.parameters| ==>
        r.parameters[i] == Port(Resolve(b, h, t.parameters[i].ty), t.parameters[i].required)
  {
    assert forall i :: 0 <= i < |t.parameters| ==> t.parameters[i] in t.parameters;
  }

  lemma SameChildren(u: Bindings, k: Heights, t: Bindings, h: Heights, ty: Ty)
    requires Ranked(u, k) && Ranked(t, h) && !ty.Var?
    requires forall c :: c in Children(ty) ==> Resolve(t, h, c) == Resolve(u, k, c)
    ensures Resolve(t, h, ty) == Resolve(u, k, ty)
  {
    hide Resolve;
    if ty.Record? {
      SameRecord(u, k, t, h, ty);
    } else if ty.Function? {
      SameFunction(u, k, t, h, ty);
    } else if ty.Union? {
      SameUnion(u, k, t, h, ty);
    } else {
      SameSimple(u, k, t, h, ty);
    }
  }

  ghost function Forms(b: Bindings, h: Heights, ms: set<Ty>): (r: set<Ty>)
    requires Ranked(b, h)
  {
    set m | m in ms :: Resolve(b, h, m)
  }

  lemma UnionForm(b: Bindings, h: Heights, t: Ty)
    requires Ranked(b, h) && t.Union?
    ensures Children(t) == t.members && Resolve(b, h, t) == Join(Forms(b, h, t.members))
  {
    hide Join;
    var forms := Forms(b, h, t.members);
    assert forms == set m | m in t.members :: Resolve(b, h, m);
  }

  lemma SameForms(u: Bindings, k: Heights, t: Bindings, h: Heights, ms: set<Ty>)
    requires Ranked(u, k) && Ranked(t, h) && forall m :: m in ms ==> Resolve(t, h, m) == Resolve(u, k, m)
    ensures Forms(t, h, ms) == Forms(u, k, ms)
  {
    hide Resolve, Ranked;
  }

  lemma SameUnion(u: Bindings, k: Heights, t: Bindings, h: Heights, ty: Ty)
    requires Ranked(u, k) && Ranked(t, h) && ty.Union?
    requires forall c :: c in Children(ty) ==> Resolve(t, h, c) == Resolve(u, k, c)
    ensures Resolve(t, h, ty) == Resolve(u, k, ty)
  {
    hide *;
    UnionForm(u, k, ty);
    UnionForm(t, h, ty);
    SameForms(u, k, t, h, ty.members);
  }

  lemma SameSimple(u: Bindings, k: Heights, t: Bindings, h: Heights, ty: Ty)
    requires Ranked(u, k) && Ranked(t, h) && !ty.Var? && !ty.Record? && !ty.Function? && !ty.Union?
    requires forall c :: c in Children(ty) ==> Resolve(t, h, c) == Resolve(u, k, c)
    ensures Resolve(t, h, ty) == Resolve(u, k, ty)
  {
    hide Join;
  }

  lemma SameRecord(u: Bindings, k: Heights, t: Bindings, h: Heights, ty: Ty)
    requires Ranked(u, k) && Ranked(t, h) && ty.Record?
    requires forall c :: c in Children(ty) ==> Resolve(t, h, c) == Resolve(u, k, c)
    ensures Resolve(t, h, ty) == Resolve(u, k, ty)
  {
    hide Resolve, Children;
    RecordForm(u, k, ty);
    RecordForm(t, h, ty);
    assert Resolve(t, h, ty).fields == Resolve(u, k, ty).fields;
  }

  lemma SameFunction(u: Bindings, k: Heights, t: Bindings, h: Heights, ty: Ty)
    requires Ranked(u, k) && Ranked(t, h) && ty.Function?
    requires forall c :: c in Children(ty) ==> Resolve(t, h, c) == Resolve(u, k, c)
    ensures Resolve(t, h, ty) == Resolve(u, k, ty)
  {
    hide Resolve, Children;
    FunctionForm(u, k, ty);
    FunctionForm(t, h, ty);
    assert Resolve(t, h, ty).parameters == Resolve(u, k, ty).parameters;
  }

  /** Substituting early changes nothing in the end. */
  lemma {:induction false} ResolveTwice(u: Bindings, k: Heights, t: Bindings, h: Heights, ty: Ty)
    requires Ranked(u, k) && Ranked(t, h) && Grows(u, t) && PlainBindings(t) && Plain(ty)
    ensures Resolve(t, h, Resolve(u, k, ty)) == Resolve(t, h, ty)
    ensures Plain(Resolve(u, k, ty))
    decreases Depth(k, ty)
  {
    if ty.Var? {
      if ty.id in u {
        ResolveTwice(u, k, t, h, u[ty.id]);
      } else {
        assert Resolve(u, k, ty) == ty;
      }
    } else {
      forall c | c in Children(ty)
        ensures Resolve(t, h, Resolve(u, k, c)) == Resolve(t, h, c) && Plain(Resolve(u, k, c))
      {
        ResolveTwice(u, k, t, h, c);
      }
      ResolvedTwice(u, k, t, h, ty);
      ResolvedPlain(u, k, ty);
    }
  }

  lemma ResolvedPlain(u: Bindings, k: Heights, ty: Ty)
    requires Ranked(u, k) && Plain(ty) && !ty.Var? && forall c :: c in Children(ty) ==> Plain(Resolve(u, k, c))
    ensures Plain(Resolve(u, k, ty))
  {
    ResolvedComponents(u, k, ty);
  }

  lemma ResolvedTwice(u: Bindings, k: Heights, t: Bindings, h: Heights, ty: Ty)
    requires Ranked(u, k) && Ranked(t, h) && !ty.Var? && !ty.Union?
    requires forall c :: c in Children(ty) ==> Resolve(t, h, Resolve(u, k, c)) == Resolve(t, h, c)
    ensures Resolve(t, h, Resolve(u, k, ty)) == Resolve(t, h, ty)
  {
    if ty.Record? {
      RecordTwice(u, k, t, h, ty);
    } else if ty.Function? {
      FunctionTwice(u, k, t, h, ty);
    }
  }

  lemma RecordTwice(u: Bindings, k: Heights, t: Bindings, h: Heights, ty: Ty)
    requires Ranked(u, k) && Ranked(t, h) && ty.Record?
    requires forall c :: c in Children(ty) ==> Resolve(t, h, Resolve(u, k, c)) == Resolve(t, h, c)
    ensures Resolve(t, h, Resolve(u, k, ty)) == Resolve(t, h, ty)
  {
    hide Resolve, Children;
    RecordForm(u, k, ty);
    RecordForm(t, h, ty);
    RecordForm(t, h, Resolve(u, k, ty));
    assert Resolve(t, h, Resolve(u, k, ty)).fields == Resolve(t, h, ty).fields;
  }

  lemma FunctionTwice(u: Bindings, k: Heights, t: Bindings, h: Heights, ty: Ty)
    requires Ranked(u, k) && Ranked(t, h) && ty.Function?
    requires forall c :: c in Children(ty) ==> Resolve(t, h, Resolve(u, k, c)) == Resolve(t, h, c)
    ensures Resolve(t, h, Resolve(u, k, ty)) == Resolve(t, h, ty)
  {
    hide Resolve, Children;
    FunctionForm(u, k, ty);
    FunctionForm(t, h, ty);
    FunctionForm(t, h, Resolve(u, k, ty));
    assert Resolve(t, h, Resolve(u, k, ty)).parameters == Resolve(t, h, ty).parameters;
  }

  // ---- Settled pairs and substitution ----

  lemma {:induction false} RecordPairsResolved(t: Bindings, h: Heights, a: seq<Field>, ra: seq<Field>, b: seq<Field>)
    requires Ranked(t, h) && |ra| == |a|
    requires forall i :: 0 <= i < |a| ==> ra[i].name == a[i].name && ra[i].port.ty == Resolve(t, h, a[i].port.ty)
    ensures |RecordPairs(ra, b)| == |RecordPairs(a, b)|
    ensures forall i :: 0 <= i < |RecordPairs(a, b)| ==>
      RecordPairs(ra, b)[i] == Pair(Resolve(t, h, RecordPairs(a, b)[i].formal), RecordPairs(a, b)[i].actual)
  {
    if a != [] {
      RecordPairsResolved(t, h, a[1..], ra[1..], b);
    }
  }

  /** Substituting the formal type substitutes the formal side of what is compared. */
  lemma ComponentsResolved(t: Bindings, h: Heights, f: Ty, a: Ty)
    requires Ranked(t, h) && !f.Var? && !f.Union?
    ensures ArityClashes(Resolve(t, h, f), a) == ArityClashes(f, a)
    ensures |Components(Resolve(t, h, f), a)| == |Components(f, a)|
    ensures forall i :: 0 <= i < |Components(f, a)| ==>
      Components(Resolve(t, h, f), a)[i] == Pair(Resolve(t, h, Components(f, a)[i].formal), Components(f, a)[i].actual)
  {
    if f.Record? && a.Record? {
      RecordPairsResolved(t, h, f.fields, Resolve(t, h, f).fields, a.fields);
    }
  }

  /** A type and its full substitution compare as settled. */
  lemma {:induction false} SelfSettled(t: Bindings, h: Heights, f: Ty)
    requires Ranked(t, h) && PlainBindings(t) && Plain(f)
    ensures Settled(t, h, Pair(Resolve(t, h, f), f))
    decreases Depth(h, f)
  {
    var head := Head(t, h, f);
    HeadResolves(t, h, f);
    HeadPlain(t, h, f);
    var r := Resolve(t, h, head);
    if !head.Var? {
      ComponentsAllInside(head, head);
      ComponentsAllInside(r, head);
      ResolvedComponents(t, h, head);
      ComponentsResolved(t, h, head, head);
      forall i | 0 <= i < |Components(head, head)|
        ensures Settled(t, h, Components(r, head)[i])
      {
        var c := Components(head, head)[i];
        assert Inside(head, head, c);
        SameSides(head, i);
        SelfSettled(t, h, c.actual);
      }
    }
  }

  lemma {:induction false} SameRecordPairs(a: seq<Field>, b: seq<Field>, k: nat)
    requires k + |a| == |b| && a == b[k..]
    requires forall i, j :: 0 <= i < j < |b| ==> b[i].name != b[j].name
    ensures forall p :: p in RecordPairs(a, b) ==> p.formal == p.actual
  {
    if a != [] {
      LookupAt(b, k);
      SameRecordPairs(a[1..], b, k + 1);
    }
  }

  /** A type compared with itself meets only equal parts. */
  lemma SameSides(f: Ty, i: nat)
    requires Plain(f) && !f.Var? && i < |Components(f, f)|
    ensures Components(f, f)[i].formal == Components(f, f)[i].actual
  {
    if f.Record? {
      SameRecordPairs(f.fields, f.fields, 0);
      assert Components(f, f)[i] in Components(f, f);
    }
  }

  lemma {:induction false} SettledResolved(t: Bindings, h: Heights, p: Pair)
    requires Ranked(t, h) && PlainBindings(t) && Plain(p.formal) && Settled(t, h, p)
    ensures Settled(t, h, Pair(Resolve(t, h, p.formal), p.actual))
    decreases Depth(h, p.formal) + Depth(h, p.actual)
  {
    var f, a := Head(t, h, p.formal), Head(t, h, p.actual);
    var q := Pair(Resolve(t, h, p.formal), p.actual);
    HeadResolves(t, h, p.formal);
    HeadPlain(t, h, p.formal);
    if f.Var? {
      SameHeads(t, h, p, q);
    } else if f == a {
      SelfSettled(t, h, f);
      SameHeads(t, h, Pair(Resolve(t, h, f), f), q);
    } else {
      ComponentsAllInside(f, a);
      ResolvedComponents(t, h, f);
      ComponentsResolved(t, h, f, a);
      ComponentsAllInside(Resolve(t, h, f), a);
      forall i | 0 <= i < |Components(f, a)|
        ensures Settled(t, h, Components(Resolve(t, h, f), a)[i])
      {
        assert Inside(f, a, Components(f, a)[i]);
        SettledResolved(t, h, Components(f, a)[i]);
      }
      NotUnion(t, h, f);
    }
  }

  lemma NotUnion(t: Bindings, h: Heights, f: Ty)
    requires Ranked(t, h) && !f.Union? && !f.Var?
    ensures !Resolve(t, h, f).Union? && !Resolve(t, h, f).Var?
  {
  }

  // ---- The answer under the bindings at the end ----

  /** Members that lost their variables keep the form they had. */
  lemma OpenShrinks(u: Bindings, k: Heights, t: Bindings, h: Heights, formal: Ty)
    requires Ranked(u, k) && Ranked(t, h) && Grows(u, t) && formal.Union?
    ensures Open(t, h, formal) <= Open(u, k, formal)
    ensures forall m :: m in formal.members && m !in Open(u, k, formal) ==> Resolve(t, h, m) == Resolve(u, k, m)
  {
    hide Resolve, HasVariable;
    forall m | m in formal.members && m !in Open(u, k, formal)
      ensures Resolve(t, h, m) == Resolve(u, k, m)
    {
      GroundStays(u, k, t, h, m);
    }
  }

  lemma KnownStays(
      u: Bindings, k: Heights, t: Bindings, h: Heights, formal: Ty, known: seq<Ty>, candidates: seq<Ty>,
      later: seq<Ty>, open: seq<Ty>)
    requires Ranked(u, k) && Ranked(t, h) && Grows(u, t) && formal.Union?
    requires Divides(u, k, formal, known, candidates) && Divides(t, h, formal, later, open)
    ensures forall r :: r in known ==> r in later
    ensures Open(t, h, formal) == Open(u, k, formal) ==> forall r :: r in later ==> r in known
  {
    hide Resolve, HasVariable;
    OpenShrinks(u, k, t, h, formal);
    forall r | r in known
      ensures r in later
    {
      var m :| m in formal.members && r == Resolve(u, k, m);
      assert m !in Open(u, k, formal);
    }
    if Open(t, h, formal) == Open(u, k, formal) {
      forall r | r in later
        ensures r in known
      {
        var m :| m in formal.members && r == Resolve(t, h, m);
        assert m !in Open(t, h, formal);
      }
    }
  }

  lemma UncoveredShrinks(hints: Hints, actual: Ty, known: seq<Ty>, later: seq<Ty>)
    requires forall r :: r in known ==> r in later
    ensures Uncovered(hints, actual, later) <= Uncovered(hints, actual, known)
    ensures (forall r :: r in later ==> r in known) ==>
      Uncovered(hints, actual, later) == Uncovered(hints, actual, known)
  {
    hide Compatible;
  }

  /** What a union's constraint amounts to under given bindings. */
  ghost predicate Met(hints: Hints, t: State, p: Pair, known: seq<Ty>, candidates: seq<Ty>)
    requires Ranked(t.bindings, t.height)
  {
    var remaining := Uncovered(hints, p.actual, known);
    remaining == {} || candidates == [] ||
    (|candidates| == 1 && Settled(t.bindings, t.height, Pair(candidates[0], Join(remaining))))
  }

  /** Both members that are alone with variables come from one member of the union. */
  lemma SameCandidate(
      u: Bindings, k: Heights, t: Bindings, h: Heights, formal: Ty, known: seq<Ty>, candidates: seq<Ty>,
      later: seq<Ty>, open: seq<Ty>) returns (m: Ty)
    requires Ranked(u, k) && Ranked(t, h) && Grows(u, t) && formal.Union?
    requires Divides(u, k, formal, known, candidates) && Divides(t, h, formal, later, open)
    requires |candidates| == 1 && |open| >= 1
    ensures |open| == 1 && m in formal.members && candidates[0] == Resolve(u, k, m) && open[0] == Resolve(t, h, m)
    ensures Open(t, h, formal) == Open(u, k, formal)
  {
    hide Resolve, HasVariable;
    OpenShrinks(u, k, t, h, formal);
    SingletonUnique(Open(u, k, formal));
    m :| m in Open(t, h, formal);
    assert Open(u, k, formal) == {m};
    assert Open(t, h, formal) == {m};
    assert candidates[0] in candidates && open[0] in open;
    var a :| a in formal.members && candidates[0] == Resolve(u, k, a);
    assert a in Open(u, k, formal);
    var b :| b in formal.members && open[0] == Resolve(t, h, b);
    assert b in Open(t, h, formal);
  }

  /**
   * A decided union is met as the bindings stand: nothing is left over, no member can take
   * it, or the one that can is settled with the rest.
   */
  lemma DecidedNow(hints: Hints, t: State, p: Pair, later: seq<Ty>, open: seq<Ty>)
    requires Ranked(t.bindings, t.height) && PlainBindings(t.bindings)
    requires p.formal.Union? && forall m :: m in p.formal.members ==> Plain(m)
    requires Decided(hints, t, p, true) && Divides(t.bindings, t.height, p.formal, later, open)
    ensures Met(hints, t, p, later, open)
  {
    hide Divides, Uncovered, Settled, Resolve, Ranked;
    var u, k, known, candidates :| Ranked(u, k) && DecidedBy(hints, u, k, known, candidates, t, p, true);
    KnownStays(u, k, t.bindings, t.height, p.formal, known, candidates, later, open);
    UncoveredShrinks(hints, p.actual, known, later);
    var remaining := Uncovered(hints, p.actual, known);
    if remaining != {} && open != [] {
      if candidates == [] {
        NoneLeft(u, k, t.bindings, t.height, p.formal, known, candidates, later, open);
      } else {
        var m := SameCandidate(u, k, t.bindings, t.height, p.formal, known, candidates, later, open);
        ResolveTwice(u, k, t.bindings, t.height, m);
        SettledResolved(t.bindings, t.height, Pair(candidates[0], Join(remaining)));
      }
    }
  }

  lemma NoneLeft(
      u: Bindings, k: Heights, t: Bindings, h: Heights, formal: Ty, known: seq<Ty>, candidates: seq<Ty>,
      later: seq<Ty>, open: seq<Ty>)
    requires Ranked(u, k) && Ranked(t, h) && Grows(u, t) && formal.Union?
    requires Divides(u, k, formal, known, candidates) && Divides(t, h, formal, later, open)
    requires candidates == []
    ensures open == []
  {
    hide Resolve, HasVariable;
    OpenShrinks(u, k, t, h, formal);
    assert Open(u, k, formal) == {};
    assert Open(t, h, formal) == {};
  }

  /** A type is left over exactly when no member without variables holds all its values. */
  lemma UncoveredIff(hints: Hints, w: World, actual: Ty, known: seq<Ty>, v: Ty)
    requires if actual.Union? then v in actual.members else v == actual
    requires CompatibilityExact.Solid(v) && forall m :: m in known ==> CompatibilityExact.Clear(m)
    ensures v in Uncovered(hints, actual, known) <==>
      forall m :: m in known ==> !CompatibilityExact.Included(w, v, m)
  {
    hide Compatible, CompatibilityExact.Included, CompatibilityExact.Solid, CompatibilityExact.Clear;
    CompatibilityExact.AcceptedIff(hints, w, v, known);
  }
}
