// What a formal union asks of an actual type, and when the answer is put off
// (crates/htlk-analyzer/src/type_check.rs:798-810, 1613-1669).

module Deferral {
  import opened Wrappers
  import opened Graphs
  import opened Types
  import opened Compatibility
  import opened Bindings
  import opened Unifiers
  import opened Unification

  datatype Failure = RecursiveGeneric | CallbackMismatch | AmbiguousGeneric | UnresolvedGeneric

  type Heights = map<nat, nat>

  /** The failures of comparing two types; the others belong to the end of inference. */
  predicate Compared(f: Failure) {
    f.RecursiveGeneric? || f.CallbackMismatch?
  }

  /** The members of the actual type that no variable-free member accepts. */
  function Uncovered(hints: Hints, actual: Ty, known: seq<Ty>): (remaining: set<Ty>)
    ensures if actual.Union? then remaining <= actual.members else remaining <= {actual}
  {
    var values := if actual.Union? then actual.members else {actual};
    set v | v in values && !(exists m :: m in known && Compatible(hints, v, m).Yes?)
  }

  // ---- The members of a union under bindings ----

  /** The types among `ms` that still have variables. */
  ghost function OpenAmong(b: Bindings, h: Heights, ms: set<Ty>): set<Ty>
    requires Ranked(b, h)
  {
    set m | m in ms && HasVariable(Resolve(b, h, m))
  }

  ghost function Open(b: Bindings, h: Heights, formal: Ty): set<Ty>
    requires Ranked(b, h) && formal.Union?
  {
    OpenAmong(b, h, formal.members)
  }

  /** The substituted members of a union: those without variables and the candidates, one for each open member. */
  ghost predicate Divides(b: Bindings, h: Heights, formal: Ty, known: seq<Ty>, candidates: seq<Ty>)
    requires Ranked(b, h) && formal.Union?
  {
    && |candidates| == |Open(b, h, formal)|
    && (forall m :: m in formal.members ==>
      Resolve(b, h, m) in if HasVariable(Resolve(b, h, m)) then candidates else known)
    && (forall r :: r in known ==> !HasVariable(r)) && (forall r :: r in candidates ==> HasVariable(r))
    && forall r :: r in known || r in candidates ==> exists m :: m in formal.members && r == Resolve(b, h, m)
  }

  /** How many members have variables. */
  function VariableCount(ms: seq<Ty>): nat {
    if ms == [] then 0
    else VariableCount(ms[..|ms| - 1]) + if HasVariable(ms[|ms| - 1]) then 1 else 0
  }

  /** The members in some order, each with its substituted form. */
  ghost predicate Listed(b: Bindings, h: Heights, order: seq<Ty>, members: seq<Ty>)
    requires Ranked(b, h)
  {
    && |order| == |members|
    && (forall i, j :: 0 <= i < j < |order| ==> order[i] != order[j])
    && forall i :: 0 <= i < |order| ==> members[i] == Resolve(b, h, order[i])
  }

  function Elements(order: seq<Ty>): set<Ty> {
    set m | m in order
  }

  lemma {:induction false} CountsOpen(b: Bindings, h: Heights, order: seq<Ty>, members: seq<Ty>)
    requires Ranked(b, h) && Listed(b, h, order, members)
    ensures VariableCount(members) == |OpenAmong(b, h, Elements(order))|
  {
    hide Resolve, HasVariable, Ranked, OpenAmong;
    if order == [] {
      NoneOpen(b, h);
      assert Elements(order) == {};
    } else {
      var last := |order| - 1;
      CountsOpen(b, h, order[..last], members[..last]);
      OneMoreOpen(b, h, Elements(order[..last]), order[last]);
      assert order == order[..last] + [order[last]];
      assert Elements(order) == Elements(order[..last]) + {order[last]};
    }
  }

  lemma NoneOpen(b: Bindings, h: Heights)
    requires Ranked(b, h)
    ensures OpenAmong(b, h, {}) == {}
  {
  }

  lemma OneMoreOpen(b: Bindings, h: Heights, front: set<Ty>, m: Ty)
    requires Ranked(b, h) && m !in front
    ensures |OpenAmong(b, h, front + {m})|
      == |OpenAmong(b, h, front)| + if HasVariable(Resolve(b, h, m)) then 1 else 0
  {
    hide Resolve, HasVariable, Ranked;
    var open, more := OpenAmong(b, h, front), OpenAmong(b, h, front + {m});
    if HasVariable(Resolve(b, h, m)) {
      assert more == open + {m} && m !in open;
    } else {
      assert more == open;
    }
  }

  lemma DividesMembers(
      b: Bindings, h: Heights, formal: Ty, order: seq<Ty>, members: seq<Ty>, known: seq<Ty>, candidates: seq<Ty>)
    requires Ranked(b, h) && formal.Union? && Listed(b, h, order, members)
    requires forall m :: m in order <==> m in formal.members
    requires multiset(known) + multiset(candidates) == multiset(members)
    requires |candidates| == VariableCount(members)
    requires forall m :: m in known ==> m in members && !HasVariable(m)
    requires forall m :: m in candidates ==> m in members && HasVariable(m)
    ensures Divides(b, h, formal, known, candidates)
  {
    hide *;
    assert Elements(order) == formal.members by {
      ElementsAre(order);
    }
    CountsOpen(b, h, order, members);
    ListedForms(b, h, formal, order, members);
    SplitForms(known, candidates, members);
    MakeDivides(b, h, formal, members, known, candidates);
  }

  lemma ElementsAre(order: seq<Ty>)
    ensures forall m :: m in Elements(order) <==> m in order
  {
  }

  /** The substituted forms are those of the members. */
  ghost predicate FormsOf(b: Bindings, h: Heights, formal: Ty, members: seq<Ty>)
    requires Ranked(b, h) && formal.Union?
  {
    && (forall m :: m in formal.members ==> Resolve(b, h, m) in members)
    && forall r :: r in members ==> exists m :: m in formal.members && r == Resolve(b, h, m)
  }

  lemma ListedForms(b: Bindings, h: Heights, formal: Ty, order: seq<Ty>, members: seq<Ty>)
    requires Ranked(b, h) && formal.Union? && Listed(b, h, order, members)
    requires forall m :: m in order <==> m in formal.members
    ensures FormsOf(b, h, formal, members)
  {
    hide Resolve, Ranked;
    forall m | m in formal.members
      ensures Resolve(b, h, m) in members
    {
      var i :| 0 <= i < |order| && order[i] == m;
      assert members[i] == Resolve(b, h, m);
    }
    forall r | r in members
      ensures exists m :: m in formal.members && r == Resolve(b, h, m)
    {
      var i :| 0 <= i < |members| && members[i] == r;
      assert order[i] in formal.members;
    }
  }

  lemma SplitForms(known: seq<Ty>, candidates: seq<Ty>, members: seq<Ty>)
    requires multiset(known) + multiset(candidates) == multiset(members)
    ensures forall r :: r in members <==> r in known || r in candidates
  {
    forall r: Ty
      ensures r in members <==> r in known || r in candidates
    {
      assert r in multiset(members) <==> r in multiset(known) || r in multiset(candidates);
    }
  }

  lemma MakeDivides(
      b: Bindings, h: Heights, formal: Ty, members: seq<Ty>, known: seq<Ty>, candidates: seq<Ty>)
    requires Ranked(b, h) && formal.Union? && FormsOf(b, h, formal, members)
    requires forall r :: r in members <==> r in known || r in candidates
    requires |candidates| == |OpenAmong(b, h, formal.members)|
    requires forall m :: m in known ==> m in members && !HasVariable(m)
    requires forall m :: m in candidates ==> m in members && HasVariable(m)
    ensures Divides(b, h, formal, known, candidates)
  {
    hide Resolve, HasVariable, Ranked, OpenAmong;
  }

  // ---- One constraint ----

  /** What each number of candidates leads to. */
  ghost predicate UnionOutcome(hints: Hints, s: State, formal: Ty, actual: Ty, known: seq<Ty>, candidates: seq<Ty>,
      ok: bool, t: State)
    requires Ranked(t.bindings, t.height)
  {
    var remaining, p := Uncovered(hints, actual, known), Pair(formal, actual);
    if remaining == {} || candidates == [] then ok && t == s
    else if |candidates| > 1 then ok && t == s.(deferred := s.deferred + [p], asked := s.asked + {p})
    else
      && Step(s, [Pair(candidates[0], Join(remaining))], ok, t)
      && Verdict(s, [Pair(candidates[0], Join(remaining))], ok, t)
  }

  ghost predicate UnionStep(hints: Hints, s: State, p: Pair, ok: bool, t: State)
    requires Ranked(s.bindings, s.height) && Ranked(t.bindings, t.height) && p.formal.Union?
  {
    exists known, candidates ::
      Divides(s.bindings, s.height, p.formal, known, candidates) &&
      UnionOutcome(hints, s, p.formal, p.actual, known, candidates, ok, t)
  }

  /** Values are left over, and more than one member could take them. */
  ghost predicate Ambiguous(hints: Hints, t: State, p: Pair)
    requires Ranked(t.bindings, t.height)
  {
    p.formal.Union? && exists known, candidates ::
      Divides(t.bindings, t.height, p.formal, known, candidates) &&
      Uncovered(hints, p.actual, known) != {} && |candidates| > 1
  }

  /**
   * The constraint was decided under bindings `u`: nothing was left over, or no member
   * could take it, or the one that could was unified with the rest.
   */
  ghost predicate DecidedBy(
      hints: Hints, u: Bindings, k: Heights, known: seq<Ty>, candidates: seq<Ty>, t: State, p: Pair, ok: bool)
    requires Ranked(u, k) && Ranked(t.bindings, t.height) && p.formal.Union?
  {
    && Grows(u, t.bindings) && Divides(u, k, p.formal, known, candidates)
    && var remaining := Uncovered(hints, p.actual, known);
       if remaining == {} || candidates == [] then ok
       else |candidates| == 1 && Answered(u, Pair(candidates[0], Join(remaining)), t, ok)
  }

  /** What the call on the one candidate left behind. */
  ghost predicate Answered(u: Bindings, p: Pair, t: State, ok: bool)
    requires Ranked(t.bindings, t.height)
  {
    if ok then Settled(t.bindings, t.height, p)
    else PlainBindings(u) && PlainPairs([p]) ==> Fails(t.bindings, t.height, p)
  }

  ghost predicate Decided(hints: Hints, t: State, p: Pair, ok: bool)
    requires Ranked(t.bindings, t.height)
  {
    p.formal.Union? && exists u, k, known, candidates ::
      Ranked(u, k) && DecidedBy(hints, u, k, known, candidates, t, p, ok)
  }

  lemma OutcomeDecides(hints: Hints, s: State, p: Pair, ok: bool, t: State)
    requires Ranked(s.bindings, s.height) && Ranked(t.bindings, t.height) && p.formal.Union?
    requires Grows(s.bindings, t.bindings) && UnionStep(hints, s, p, ok, t)
    ensures Decided(hints, t, p, ok) ||
      (ok && p in t.deferred && t.bindings == s.bindings && t.height == s.height && Ambiguous(hints, t, p))
  {
    hide Divides, Step, Settled, Fails, Uncovered;
    var known, candidates :| Divides(s.bindings, s.height, p.formal, known, candidates)
      && UnionOutcome(hints, s, p.formal, p.actual, known, candidates, ok, t);
    var remaining := Uncovered(hints, p.actual, known);
    if remaining != {} && |candidates| == 1 {
      var q := Pair(candidates[0], Join(remaining));
      assert q in [q] && Answered(s.bindings, q, t, ok);
    }
    if remaining == {} || |candidates| <= 1 {
      assert DecidedBy(hints, s.bindings, s.height, known, candidates, t, p, ok);
    }
  }

  /** What was decided stays decided under further bindings. */
  lemma DecidedGrows(hints: Hints, s: State, t: State, p: Pair)
    requires Ranked(s.bindings, s.height) && Ranked(t.bindings, t.height) && Grows(s.bindings, t.bindings)
    requires Decided(hints, s, p, true)
    ensures Decided(hints, t, p, true)
  {
    hide DecidedBy, Ranked, Grows;
    var u, k, known, candidates :| Ranked(u, k) && DecidedBy(hints, u, k, known, candidates, s, p, true);
    DecidedByGrows(hints, u, k, known, candidates, s, t, p);
  }

  lemma DecidedByGrows(
      hints: Hints, u: Bindings, k: Heights, known: seq<Ty>, candidates: seq<Ty>, s: State, t: State, p: Pair)
    requires Ranked(u, k) && Ranked(s.bindings, s.height) && Ranked(t.bindings, t.height)
    requires p.formal.Union? && Grows(s.bindings, t.bindings)
    requires DecidedBy(hints, u, k, known, candidates, s, p, true)
    ensures DecidedBy(hints, u, k, known, candidates, t, p, true)
  {
    hide Divides, Settled, Uncovered, Ranked, Join;
    var remaining := Uncovered(hints, p.actual, known);
    if remaining != {} && candidates != [] {
      SettledGrows(s.bindings, s.height, t.bindings, t.height, Pair(candidates[0], Join(remaining)));
    }
  }

  // ---- What is put off along the way ----

  /**
   * From `s` to `t`: what was put off comes after what was waiting and is remembered, and
   * if nothing was bound it is ambiguous still.
   */
  ghost predicate PutsOff(hints: Hints, s: State, t: State)
    requires Ranked(t.bindings, t.height)
  {
    && Grows(s.bindings, t.bindings) && s.deferred <= t.deferred && s.asked <= t.asked
    && (forall p :: p in t.asked ==> p in s.asked || p in t.deferred)
    && (t.bindings == s.bindings ==>
      t.height == s.height && forall p :: p in t.deferred ==> p in s.deferred || Ambiguous(hints, t, p))
  }

  lemma PutsOffNothing(hints: Hints, s: State, t: State)
    requires Ranked(t.bindings, t.height) && Grows(s.bindings, t.bindings)
    requires t.deferred == s.deferred && t.asked == s.asked && (t.bindings == s.bindings ==> t.height == s.height)
    ensures PutsOff(hints, s, t)
  {
  }

  lemma PutsOffOne(hints: Hints, s: State, t: State, p: Pair, known: seq<Ty>, candidates: seq<Ty>)
    requires Ranked(s.bindings, s.height)
    requires t == s.(deferred := s.deferred + [p], asked := s.asked + {p}) && p.formal.Union?
    requires Divides(s.bindings, s.height, p.formal, known, candidates)
    requires Uncovered(hints, p.actual, known) != {} && |candidates| > 1
    ensures PutsOff(hints, s, t)
  {
    hide Divides, Uncovered;
    assert Ambiguous(hints, t, p);
  }

  lemma PutsOffThen(hints: Hints, s: State, m: State, t: State)
    requires Ranked(m.bindings, m.height) && Ranked(t.bindings, t.height)
    requires PutsOff(hints, s, m) && PutsOff(hints, m, t)
    ensures PutsOff(hints, s, t)
  {
    hide Ambiguous;
    if t.bindings == s.bindings {
      assert m.bindings.Keys == s.bindings.Keys;
      assert m.bindings == s.bindings;
      forall p | p in t.deferred && p !in s.deferred
        ensures Ambiguous(hints, t, p)
      {
        if p in m.deferred {
          SameAmbiguity(hints, m, t, p);
        }
      }
    }
  }

  lemma SameAmbiguity(hints: Hints, s: State, t: State, p: Pair)
    requires Ranked(s.bindings, s.height) && t.bindings == s.bindings && t.height == s.height
    ensures Ambiguous(hints, s, p) == Ambiguous(hints, t, p)
  {
  }

  /** Everything that was ever put off is decided, or waits in `waiting`. */
  ghost predicate Accounted(hints: Hints, t: State, waiting: seq<Pair>)
    requires Ranked(t.bindings, t.height)
  {
    forall p :: p in t.asked ==> p in waiting || p in t.deferred || Decided(hints, t, p, true)
  }

  lemma AccountedThen(hints: Hints, s: State, t: State, waiting: seq<Pair>)
    requires Ranked(s.bindings, s.height) && Ranked(t.bindings, t.height)
    requires PutsOff(hints, s, t) && Accounted(hints, s, waiting)
    ensures Accounted(hints, t, waiting)
  {
    hide Decided, Ambiguous;
    forall p | p in t.asked && p !in waiting && p !in t.deferred
      ensures Decided(hints, t, p, true)
    {
      DecidedGrows(hints, s, t, p);
    }
  }

  /** The first waiting constraint was retried. */
  lemma RoundStep(hints: Hints, start: State, s: State, p: Pair, rest: seq<Pair>, ok: bool, t: State)
    requires Ranked(start.bindings, start.height) && Ranked(s.bindings, s.height) && Ranked(t.bindings, t.height)
    requires Accounted(hints, s, [p] + rest) && p in s.asked && p.formal.Union?
    requires PutsOff(hints, start, s) && PutsOff(hints, s, t) && UnionStep(hints, s, p, ok, t)
    ensures PutsOff(hints, start, t) && p in t.asked
    ensures ok ==> Accounted(hints, t, rest)
    ensures !ok ==> Decided(hints, t, p, false)
  {
    hide Decided, Ambiguous, UnionStep;
    PutsOffThen(hints, start, s, t);
    AccountedThen(hints, s, t, [p] + rest);
    OutcomeDecides(hints, s, p, ok, t);
  }

  lemma PutsOffParts(hints: Hints, s: State, t: State)
    requires Ranked(t.bindings, t.height) && PutsOff(hints, s, t)
    ensures Grows(s.bindings, t.bindings) && s.asked <= t.asked
  {
  }

  /** Unions are waiting, and each of them is ambiguous. */
  ghost predicate Stuck(hints: Hints, t: State)
    requires Ranked(t.bindings, t.height)
  {
    t.deferred != [] && forall p :: p in t.deferred ==> Ambiguous(hints, t, p)
  }

  lemma PutsOffStuck(hints: Hints, s: State, t: State)
    requires Ranked(t.bindings, t.height) && PutsOff(hints, s, t) && s.deferred == []
    ensures t.bindings == s.bindings && t.deferred != [] ==> Stuck(hints, t)
  {
  }

  /** For some union that was put off, the one candidate does not fit the rest. */
  ghost predicate SomeRefused(hints: Hints, t: State)
    requires Ranked(t.bindings, t.height)
  {
    exists p :: p in t.asked && Decided(hints, t, p, false)
  }

  lemma Refuses(hints: Hints, t: State, p: Pair)
    requires Ranked(t.bindings, t.height) && p in t.asked && Decided(hints, t, p, false)
    ensures SomeRefused(hints, t)
  {
  }

  /** A new round starts with everything that waits. */
  lemma TakeRound(hints: Hints, t: State)
    requires Ranked(t.bindings, t.height) && Accounted(hints, t, [])
    ensures Accounted(hints, t.(deferred := []), t.deferred)
  {
    forall p | p in t.asked && p !in t.deferred
      ensures Decided(hints, t.(deferred := []), p, true)
    {
      DecidedGrows(hints, t, t.(deferred := []), p);
    }
  }

  lemma SameCount(older: Bindings, newer: Bindings)
    requires Grows(older, newer) && |newer| == |older|
    ensures newer == older
  {
    assert |older.Keys| == |older| && |newer.Keys| == |newer|;
    SubsetOfSameSize(older.Keys, newer.Keys);
  }
}
