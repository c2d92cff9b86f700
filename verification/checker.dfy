// Generic inference: unification over mutable bindings, and the deferred constraints
// (crates/htlk-analyzer/src/type_check.rs:741-810, 865-883, 1510-1673).

module Inference {
  import opened Wrappers
  import opened Types
  import opened Compatibility
  import opened Bindings
  import opened Unifiers
  import opened Unification
  import opened Deferral

  class Checker {
    const hints: Hints
    var bindings: Bindings
    var serial: nat
    var mandatory: set<nat>
    var holes: set<nat>
    var deferred: seq<Pair>
    ghost var height: map<nat, nat>
    ghost var asked: set<Pair>

    ghost predicate Valid()
      reads this
    {
      Consistent(serial, Now())
    }

    ghost function Now(): State
      reads this
    {
      State(bindings, height, deferred, asked)
    }

    /** Whatever was put off is waiting or decided. */
    ghost predicate Settling()
      reads this
      requires Valid()
    {
      Accounted(hints, Now(), [])
    }

    /** Every minted variable belongs to a call site or is an empty-list hole. */
    ghost predicate Named()
      reads `serial, `mandatory, `holes
    {
      forall x: nat :: x < serial <==> x in mandatory || x in holes
    }

    constructor (hints: Hints)
      ensures Valid() && Named() && Settling()
      ensures bindings == map[] && deferred == [] && serial == 0 && asked == {}
    {
      this.hints := hints;
      bindings, serial, mandatory, holes, deferred, height, asked := map[], 0, {}, {}, [], map[], {};
    }

    method Fresh(required: bool) returns (t: Ty)
      requires Valid() && Named()
      modifies `serial, `mandatory, `holes
      ensures Valid() && Named()
      ensures t == Var(old(serial)) && serial == old(serial) + 1
      ensures old(serial) !in bindings
    {
      t := Var(serial);
      if required {
        mandatory := mandatory + {serial};
      } else {
        holes := holes + {serial};
      }
      serial := serial + 1;
    }

    method Deref(t: Ty) returns (head: Ty)
      requires Valid() && Known(serial, t)
      ensures head == Head(bindings, height, t) && Known(serial, head)
    {
      head := t;
      while head.Var? && head.id in bindings
        invariant Head(bindings, height, head) == Head(bindings, height, t)
        invariant Known(serial, head)
        decreases Depth(height, head)
      {
        head := bindings[head.id];
      }
    }

    method OccursIn(x: nat, t: Ty) returns (r: bool)
      requires Valid() && Known(serial, t)
      ensures r == Occurs(bindings, height, x, t)
      decreases Depth(height, t)
    {
      var head := Deref(t);
      HeadOccurs(bindings, height, x, t);
      if head.Var? {
        return head.id == x;
      }
      var rest := Children(head);
      while rest != {}
        invariant rest <= Children(head)
        invariant forall c :: c in Children(head) && c !in rest ==> !Occurs(bindings, height, x, c)
        decreases rest
      {
        var c :| c in rest;
        KnownChild(serial, head, c);
        var inside := OccursIn(x, c);
        if inside {
          return true;
        }
        rest := rest - {c};
      }
      r := false;
    }

    method Substitute(t: Ty) returns (r: Ty)
      requires Valid() && Known(serial, t)
      ensures r == Resolve(bindings, height, t)
      decreases Depth(height, t), 1
    {
      var head := Deref(t);
      HeadResolves(bindings, height, t);
      match head
      case List(item) =>
        KnownChild(serial, head, item);
        var i := Substitute(item);
        r := List(i);
      case Map(item) =>
        KnownChild(serial, head, item);
        var i := Substitute(item);
        r := Map(i);
      case Record(fields) =>
        r := SubstituteRecord(head);
      case Union(members) =>
        var ms;
        ghost var order;
        ms, order := SubstituteMembers(head);
        r := Join(set m | m in ms);
        assert (set m | m in ms) == set m | m in members :: Resolve(bindings, height, m);
      case Function(parameters, output) =>
        r := SubstituteFunction(head);
      case _ =>
        r := head;
    }

    method SubstituteRecord(t: Ty) returns (r: Ty)
      requires Valid() && Known(serial, t) && t.Record?
      ensures r == Resolve(bindings, height, t)
      decreases Depth(height, t), 0
    {
      var fs: seq<Field> := [];
      for k := 0 to |t.fields|
        invariant |fs| == k
        invariant forall i :: 0 <= i < k ==>
          fs[i] ==
            Field(t.fields[i].name, Port(Resolve(bindings, height, t.fields[i].port.ty), t.fields[i].port.required))
      {
        var f := t.fields[k];
        assert f in t.fields;
        KnownChild(serial, t, f.port.ty);
        var ty := Substitute(f.port.ty);
        fs := fs + [Field(f.name, Port(ty, f.port.required))];
      }
      assert fs == Resolve(bindings, height, t).fields;
      r := Record(fs);
    }

    method SubstituteFunction(t: Ty) returns (r: Ty)
      requires Valid() && Known(serial, t) && t.Function?
      ensures r == Resolve(bindings, height, t)
      decreases Depth(height, t), 0
    {
      var ps: seq<Port> := [];
      for k := 0 to |t.parameters|
        invariant |ps| == k
        invariant forall i :: 0 <= i < k ==>
          ps[i] == Port(Resolve(bindings, height, t.parameters[i].ty), t.parameters[i].required)
      {
        var p := t.parameters[k];
        assert p in t.parameters;
        KnownChild(serial, t, p.ty);
        var ty := Substitute(p.ty);
        ps := ps + [Port(ty, p.required)];
      }
      KnownChild(serial, t, t.output.ty);
      var output := Substitute(t.output.ty);
      assert ps == Resolve(bindings, height, t).parameters;
      r := Function(ps, Port(output, t.output.required));
    }

    /** One substituted type for every member of a union, repetitions kept. */
    method SubstituteMembers(t: Ty) returns (ms: seq<Ty>, ghost order: seq<Ty>)
      requires Valid() && Known(serial, t) && t.Union?
      ensures Listed(bindings, height, order, ms) && forall m :: m in order <==> m in t.members
      ensures forall m :: m in t.members ==> Resolve(bindings, height, m) in ms
      ensures forall r :: r in ms ==> exists m :: m in t.members && r == Resolve(bindings, height, m)
      decreases Depth(height, t), 0
    {
      ms, order := [], [];
      var rest := t.members;
      while rest != {}
        invariant rest <= t.members && Listed(bindings, height, order, ms)
        invariant forall m :: m in order <==> m in t.members && m !in rest
        decreases rest
      {
        var m :| m in rest;
        assert m in Children(t);
        KnownChild(serial, t, m);
        var r := Substitute(m);
        ms, order := ms + [r], order + [m];
        rest := rest - {m};
      }
      ListedForms(bindings, height, t, order, ms);
    }

    /**
     * Unification of a formal type with an actual one.  Bindings only grow and stay
     * acyclic.  On union-free types it computes the solutions exactly (Step, Solved), and
     * succeeds exactly when what it compares is settled under the bindings it leaves (Verdict).
     * A formal union is decided or put off (UnionStep).
     */
    method Unify(formal: Ty, actual: Ty) returns (r: Result<(), Failure>)
      requires Valid() && Known(serial, formal) && Known(serial, actual)
      modifies `bindings, `height, `deferred, `asked
      ensures Valid() && Step(old(Now()), [Pair(formal, actual)], r.Ok?, Now())
      ensures Verdict(old(Now()), [Pair(formal, actual)], r.Ok?, Now())
      ensures PutsOff(hints, old(Now()), Now()) && (r.Err? ==> Compared(r.error))
      ensures Deferrable(Pair(formal, actual)) ==>
        UnionStep(hints, old(Now()), Pair(formal, actual), r.Ok?, Now())
      ensures old(Settling()) ==> Settling()
      ensures old(NothingInside(formal, actual)) ==> r.Ok? && Now() == old(Now())
      decreases Free(serial, bindings), Depth(height, formal) + Depth(height, actual), if formal.Var? then 1 else 2, 1
    {
      hide Step, Verdict, PutsOff, UnionStep, Accounted, Ranked;
      ghost var before := Now();
      var f := Deref(formal);
      var a := Deref(actual);
      r := UnifyHeads(f, a);
      StepHeads(before, formal, actual, r.Ok?, Now());
      VerdictHeads(before, formal, actual, r.Ok?, Now());
      if Accounted(hints, before, []) {
        AccountedThen(hints, before, Now(), []);
      }
    }

    /** The heads are no variables and no unions, and leave nothing to compare. */
    ghost predicate NothingInside(formal: Ty, actual: Ty)
      reads this
      requires Valid()
    {
      var f, a := Head(bindings, height, formal), Head(bindings, height, actual);
      !f.Var? && !a.Var? && !f.Union? && !ArityClashes(f, a) && Components(f, a) == []
    }

    method UnifyHeads(f: Ty, a: Ty) returns (r: Result<(), Failure>)
      requires Valid() && Known(serial, f) && Known(serial, a)
      requires (f.Var? ==> f.id !in bindings) && (a.Var? ==> a.id !in bindings)
      modifies `bindings, `height, `deferred, `asked
      ensures Valid() && Step(old(Now()), [Pair(f, a)], r.Ok?, Now())
      ensures Verdict(old(Now()), [Pair(f, a)], r.Ok?, Now())
      ensures PutsOff(hints, old(Now()), Now()) && (r.Err? ==> Compared(r.error))
      ensures Deferrable(Pair(f, a)) ==> UnionStep(hints, old(Now()), Pair(f, a), r.Ok?, Now())
      ensures f.Var? && f != a ==> Bound(old(Now()), f.id, a, r.Ok?, Now())
      ensures !f.Var? && !a.Var? && !f.Union? && !ArityClashes(f, a) && Components(f, a) == [] ==>
        r.Ok? && Now() == old(Now())
      decreases Free(serial, bindings), Depth(height, f) + Depth(height, a), if f.Var? then 1 else 2, 0
    {
      ghost var before := Now();
      if f == a {
        StepSame(before, f);
        VerdictSame(before, f);
        PutsOffNothing(hints, before, Now());
        r := Ok(());
      } else if f.Var? {
        assert f.id in Vars(f);
        r := Bind(f.id, a);
        StepBind(before, f.id, a, r.Ok?, Now());
        VerdictBind(before, f.id, a, r.Ok?, Now());
        PutsOffNothing(hints, before, Now());
      } else if a.Var? {
        r := UnifyHeads(a, f);
        StepSwap(before, Pair(f, a), r.Ok?, Now());
        VerdictBind(before, a.id, f, r.Ok?, Now());
      } else if f.Union? {
        ghost var known, candidates;
        r, known, candidates := UnifyUnion(f, a);
        VerdictUnion(before, f, a, r.Ok?, Now());
      } else {
        r := UnifyInside(f, a);
      }
    }

    method UnifyInside(f: Ty, a: Ty) returns (r: Result<(), Failure>)
      requires Valid() && Known(serial, f) && Known(serial, a)
      requires !f.Var? && !a.Var? && !f.Union? && f != a
      modifies `bindings, `height, `deferred, `asked
      ensures Valid() && Step(old(Now()), [Pair(f, a)], r.Ok?, Now())
      ensures Verdict(old(Now()), [Pair(f, a)], r.Ok?, Now())
      ensures PutsOff(hints, old(Now()), Now()) && (r.Err? ==> Compared(r.error))
      ensures !ArityClashes(f, a) && Components(f, a) == [] ==> r.Ok? && Now() == old(Now())
      decreases Free(serial, bindings), Depth(height, f) + Depth(height, a), 1, 0
    {
      ghost var before := Now();
      if f.Function? && a.Function? && |f.parameters| != |a.parameters| {
        StepArity(before, f, a);
        VerdictArity(before, f, a);
        PutsOffNothing(hints, before, Now());
        return Err(CallbackMismatch);
      }
      ComponentsAllInside(f, a);
      r := UnifyPairs(Components(f, a), 0, f, a);
      assert Components(f, a)[0..] == Components(f, a);
      StepInside(before, f, a, r.Ok?, Now());
      VerdictInside(before, f, a, r.Ok?, Now());
    }

    /** A free variable is bound unless it occurs in the type. */
    method Bind(x: nat, a: Ty) returns (r: Result<(), Failure>)
      requires Valid() && x < serial && Known(serial, a) && x !in bindings
      modifies `bindings, `height
      ensures Valid() && Grows(old(bindings), bindings)
      ensures r.Ok? <==> !Occurs(old(bindings), old(height), x, a)
      ensures r.Err? ==> bindings == old(bindings) && height == old(height)
      ensures r.Ok? ==> bindings == old(bindings)[x := a]
      ensures r.Err? ==> r.error == RecursiveGeneric
    {
      var recursive := OccursIn(x, a);
      if recursive {
        return Err(RecursiveGeneric);
      }
      BindConsistent(serial, Now(), x, a);
      height := Raise(bindings, height, x, a);
      bindings := bindings[x := a];
      r := Ok(());
    }

    /** The pairs from position `k` on, in order, up to the first failure. */
    method UnifyPairs(pairs: seq<Pair>, k: nat, ghost f: Ty, ghost a: Ty) returns (r: Result<(), Failure>)
      requires Valid() && Known(serial, f) && Known(serial, a)
      requires k <= |pairs| && forall p :: p in pairs ==> Inside(f, a, p)
      modifies `bindings, `height, `deferred, `asked
      ensures Valid() && Step(old(Now()), pairs[k..], r.Ok?, Now())
      ensures Verdict(old(Now()), pairs[k..], r.Ok?, Now())
      ensures PutsOff(hints, old(Now()), Now()) && (r.Err? ==> Compared(r.error))
      ensures k == |pairs| ==> r.Ok? && Now() == old(Now())
      decreases Free(serial, bindings), Depth(height, f) + Depth(height, a), 0, |pairs| - k
    {
      hide Step, Verdict, PutsOff, UnionStep, Depth, Children, Vars, Known, Inside, Ranked;
      ghost var before := Now();
      if k == |pairs| {
        assert pairs[k..] == [];
        StepNone(before);
        VerdictNone(before);
        PutsOffNothing(hints, before, Now());
        return Ok(());
      }
      assert Inside(f, a, pairs[k]);
      ChildPairFits(serial, height, f, a, pairs[k]);
      r := Unify(pairs[k].formal, pairs[k].actual);
      ghost var middle := Now();
      StepProgress(serial, before, [pairs[k]], r.Ok?, middle);
      if r.Ok? {
        r := UnifyPairs(pairs, k + 1, f, a);
        StepNext(before, middle, pairs, k, r.Ok?, Now());
        StepProgress(serial, middle, pairs[k + 1..], r.Ok?, Now());
        VerdictNext(before, middle, pairs, k, r.Ok?, Now());
        PutsOffThen(hints, before, middle, Now());
      } else {
        StepFails(before, pairs, k, middle);
        VerdictFails(before, pairs, k, middle);
      }
    }

    /**
     * A formal union: known members absorb what they accept, one candidate takes the rest,
     * and with two or more candidates the pair is deferred.
     */
    method UnifyUnion(formal: Ty, actual: Ty)
      returns (r: Result<(), Failure>, ghost known: seq<Ty>, ghost candidates: seq<Ty>)
      requires Valid() && Known(serial, formal) && Known(serial, actual)
      requires Deferrable(Pair(formal, actual))
      modifies `bindings, `height, `deferred, `asked
      ensures Valid() && Step(old(Now()), [Pair(formal, actual)], r.Ok?, Now())
      ensures PutsOff(hints, old(Now()), Now()) && (r.Err? ==> Compared(r.error))
      ensures Divides(old(bindings), old(height), formal, known, candidates)
      ensures UnionOutcome(hints, old(Now()), formal, actual, known, candidates, r.Ok?, Now())
      decreases Free(serial, bindings), Depth(height, formal) + Depth(height, actual), 0
    {
      hide Step, Verdict, PutsOff, Depth, Children, Vars, Known, Resolve, Join, Divides, Ranked;
      ghost var before := Now();
      var members;
      ghost var order;
      members, order := SubstituteMembers(formal);
      var ground, open := Partition(members);
      known, candidates := ground, open;
      DividesMembers(bindings, height, formal, order, members, known, candidates);
      var remaining := Uncovered(hints, actual, ground);
      if remaining == {} || |open| == 0 {
        PutsOffNothing(hints, before, Now());
        r := Ok(());
      } else if |open| > 1 {
        deferred, asked := deferred + [Pair(formal, actual)], asked + {Pair(formal, actual)};
        PutsOffOne(hints, before, Now(), Pair(formal, actual), known, candidates);
        r := Ok(());
      } else {
        assert open[0] in members;
        ghost var m :| m in formal.members && open[0] == Resolve(bindings, height, m);
        CandidateFits(bindings, height, serial, formal, m, actual, remaining);
        r := Unify(open[0], Join(remaining));
        StepProgress(serial, before, [Pair(open[0], Join(remaining))], r.Ok?, Now());
      }
      StepUnion(before, formal, actual, r.Ok?, Now());
    }

    /**
     * Retries deferred unions until none is left or a round binds nothing.  On success
     * every union that was ever deferred is decided.  Otherwise a comparison failed, or
     * what is left is ambiguous under the bindings as they stand.
     */
    method SolveDeferred() returns (r: Result<(), Failure>)
      requires Valid() && Settling()
      modifies `bindings, `height, `deferred, `asked
      ensures Valid() && Grows(old(bindings), bindings) && old(asked) <= asked
      ensures r.Ok? ==> deferred == [] && Settling()
      ensures r == Err(AmbiguousGeneric) ==> Stuck(hints, Now())
      ensures r.Err? && r.error != AmbiguousGeneric ==> Compared(r.error) && SomeRefused(hints, Now())
    {
      hide PutsOff, UnionStep, Accounted, Stuck, SomeRefused, Ranked;
      while deferred != []
        invariant Valid() && Grows(old(bindings), bindings) && old(asked) <= asked
        invariant Settling()
        decreases Free(serial, bindings), |deferred|
      {
        ghost var before := bindings;
        var count := |bindings|;
        var round := deferred;
        TakeRound(hints, Now());
        deferred := [];
        r := UnifyRound(round);
        if r.Err? {
          return;
        }
        GrowsFree(serial, before, bindings);
        if deferred != [] && |bindings| == count {
          SameCount(before, bindings);
          return Err(AmbiguousGeneric);
        }
      }
      r := Ok(());
    }

    /** One round over the unions that were waiting. */
    method UnifyRound(round: seq<Pair>) returns (r: Result<(), Failure>)
      requires Valid() && deferred == [] && Accounted(hints, Now(), round)
      requires forall p :: p in round ==> KnownPair(serial, p) && Deferrable(p) && p in asked
      modifies `bindings, `height, `deferred, `asked
      ensures Valid() && Grows(old(bindings), bindings) && old(asked) <= asked
      ensures r.Ok? ==> Settling()
      ensures r.Ok? && bindings == old(bindings) && deferred != [] ==> Stuck(hints, Now())
      ensures r.Err? ==> Compared(r.error) && SomeRefused(hints, Now())
    {
      hide PutsOff, UnionStep, Accounted, Stuck, SomeRefused, Ranked;
      ghost var start := Now();
      PutsOffNothing(hints, start, start);
      assert round[0..] == round;
      for k := 0 to |round|
        invariant Valid() && PutsOff(hints, start, Now()) && Accounted(hints, Now(), round[k..])
      {
        assert round[k] in round;
        ghost var before := Now();
        PutsOffParts(hints, start, before);
        r := Unify(round[k].formal, round[k].actual);
        assert round[k..] == [round[k]] + round[k + 1..];
        RoundStep(hints, start, before, round[k], round[k + 1..], r.Ok?, Now());
        PutsOffParts(hints, start, Now());
        if r.Err? {
          Refuses(hints, Now(), round[k]);
          return;
        }
      }
      assert round[|round|..] == [];
      PutsOffParts(hints, start, Now());
      PutsOffStuck(hints, start, Now());
      r := Ok(());
    }

    /**
     * The end of inference (type_check.rs:379-393): deferred unions are solved, call
     * variables must be resolved, and empty-list holes default to json.  Afterwards
     * no substituted type has a variable left.
     */
    method Finish() returns (r: Result<(), Failure>, ghost solved: State)
      requires Valid() && Named() && Settling()
      modifies `bindings, `height, `deferred, `asked
      ensures Valid() && Ranked(solved.bindings, solved.height)
      ensures Grows(old(bindings), solved.bindings) && Grows(solved.bindings, bindings) && old(asked) <= solved.asked
      ensures r.Ok? || r.error == UnresolvedGeneric ==> solved.deferred == [] && Accounted(hints, solved, [])
      ensures r == Err(UnresolvedGeneric) ==> Unresolved(solved, mandatory)
      ensures r == Err(AmbiguousGeneric) ==> Stuck(hints, solved)
      ensures r.Err? && Compared(r.error) ==> SomeRefused(hints, solved)
      ensures r.Err? ==> Now() == solved
      ensures r.Ok? ==> !Unresolved(solved, mandatory) && bindings == Defaulted(solved.bindings, holes)
      ensures r.Ok? ==> deferred == [] && forall t :: Known(serial, t) ==> Vars(Resolve(bindings, height, t)) == {}
    {
      hide Accounted, Stuck, SomeRefused, Ranked;
      r := SolveDeferred();
      solved := Now();
      if r.Err? {
        return;
      }
      var resolved := CheckResolved();
      if !resolved {
        return Err(UnresolvedGeneric), solved;
      }
      DefaultHoles();
      forall t | Known(serial, t)
        ensures Vars(Resolve(bindings, height, t)) == {}
      {
        AllBoundGround(bindings, height, serial, t);
      }
    }

    /** Whether the variables of all calls have types without variables. */
    method CheckResolved() returns (resolved: bool)
      requires Valid() && Named()
      ensures resolved <==> !Unresolved(Now(), mandatory)
      ensures resolved ==> mandatory <= bindings.Keys
    {
      var rest := mandatory;
      while rest != {}
        invariant rest <= mandatory
        invariant forall x :: x in mandatory && x !in rest ==>
          x in bindings && !HasVariable(Resolve(bindings, height, Var(x)))
        decreases rest
      {
        var x :| x in rest;
        assert Known(serial, Var(x));
        var form := Substitute(Var(x));
        if HasVariable(form) {
          return false;
        }
        rest := rest - {x};
      }
      resolved := true;
    }

    method DefaultHoles()
      requires Valid() && Named()
      modifies `bindings, `height
      ensures Valid() && Grows(old(bindings), bindings)
      ensures bindings == Defaulted(old(bindings), holes)
    {
      hide Consistent, Ranked;
      var rest := holes;
      while rest != {}
        invariant rest <= holes
        invariant Valid() && Named() && Grows(old(bindings), bindings)
        invariant bindings == Defaulted(old(bindings), holes - rest)
        decreases rest
      {
        var x :| x in rest;
        if x !in bindings {
          assert Children(Builtin(PJson)) == {} && Vars(Builtin(PJson)) == {};
          assert Known(serial, Builtin(PJson));
          assert x < serial;
          var bound := Bind(x, Builtin(PJson));
        }
        rest := rest - {x};
      }
    }
  }

  /** Free holes become json. */
  function Defaulted(b: Bindings, holes: set<nat>): Bindings {
    map x | x in b.Keys + holes :: if x in b then b[x] else Builtin(PJson)
  }

  /** Some variable of a call has a type that still mentions variables. */
  ghost predicate Unresolved(s: State, mandatory: set<nat>)
    requires Ranked(s.bindings, s.height)
  {
    exists x :: x in mandatory && HasVariable(Resolve(s.bindings, s.height, Var(x)))
  }

  /** A free variable met another head: it is bound, or occurs there and nothing changes. */
  ghost predicate Bound(s: State, x: nat, a: Ty, ok: bool, t: State)
    requires Ranked(s.bindings, s.height)
  {
    && (ok <==> !Occurs(s.bindings, s.height, x, a))
    && if ok then t.bindings == s.bindings[x := a] else t == s
  }

  /** A list against a text: nothing is compared, and the call succeeds. */
  method UnifyClash(checker: Checker) returns (r: Result<(), Failure>)
    requires checker.Valid()
    modifies checker`bindings, checker`height, checker`deferred, checker`asked
    ensures r.Ok? && checker.Now() == old(checker.Now()) && !Unifiable(checker.bindings, Clashing())
  {
    ClashSucceeds(checker.bindings, checker.height);
    r := checker.Unify(Clashing().formal, Clashing().actual);
  }

  lemma AllBoundGround(b: Bindings, h: map<nat, nat>, serial: nat, t: Ty)
    requires Ranked(b, h) && Known(serial, t)
    requires forall x :: x in b ==> Known(serial, b[x])
    requires forall x: nat :: x < serial ==> x in b
    ensures Vars(Resolve(b, h, t)) == {}
  {
    if x :| x in Vars(Resolve(b, h, t)) {
      ResolveVars(b, h, t, x);
      ResolveKnown(b, h, serial, t);
      assert false;
    }
  }

  /** Members without variables, and the candidates that have some. */
  method Partition(members: seq<Ty>) returns (known: seq<Ty>, candidates: seq<Ty>)
    ensures multiset(known) + multiset(candidates) == multiset(members)
    ensures forall m :: m in known ==> m in members && !HasVariable(m)
    ensures forall m :: m in candidates ==> m in members && HasVariable(m)
    ensures |candidates| == VariableCount(members)
  {
    known, candidates := [], [];
    for k := 0 to |members|
      invariant multiset(known) + multiset(candidates) == multiset(members[..k])
      invariant forall m :: m in known ==> m in members && !HasVariable(m)
      invariant forall m :: m in candidates ==> m in members && HasVariable(m)
      invariant |candidates| == VariableCount(members[..k])
    {
      assert members[..k + 1] == members[..k] + [members[k]];
      if HasVariable(members[k]) {
        candidates := candidates + [members[k]];
      } else {
        known := known + [members[k]];
      }
    }
    assert members[..|members|] == members;
  }
}
