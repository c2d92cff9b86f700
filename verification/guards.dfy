// Guards that cannot hold together, and the overlap flag of a binding plan
// (crates/htlk-analyzer/src/graph_verify.rs:710-734, 812-841).

module Guards {
  import opened Wrappers
  import WaitGraph

  datatype Literal =
    | Null
    | Boolean(truth: bool)
    | Integer(number: int)
    | Float(float: real)
    | Text(text: string)
    | Bytes(data: seq<nat>)

  /** Guard expressions: the forms the test looks at, and any other. */
  datatype Guard =
    | Constant(literal: Literal)
    | Not(inner: Guard)
    | Equal(left: Guard, right: Guard)
    | Other(id: nat, parts: seq<Guard>)

  /** How other forms evaluate; evaluation may fail. */
  type Semantics = (nat, seq<Option<Literal>>) -> Option<Literal>

  /**
   * Equality of two values (crates/htlk-runtime/src/evaluate.rs:792-821): null equals
   * only null, texts, integers, floats and booleans are compared with their own kind,
   * and every other pair is an error, two byte strings included.
   */
  function Compare(a: Literal, b: Literal): Option<bool> {
    if a.Null? || b.Null? then Some(a == b)
    else if SameKind(a, b) && !a.Bytes? then Some(a == b)
    else None
  }

  function Eval(other: Semantics, g: Guard): Option<Literal>
    decreases g, 1
  {
    match g
    case Constant(l) => Some(l)
    case Not(inner) =>
      var v := Eval(other, inner);
      if v.Some? && v.value.Boolean? then Some(Boolean(!v.value.truth)) else None
    case Equal(l, r) =>
      var a, b := Eval(other, l), Eval(other, r);
      if a.Some? && b.Some? then
        var same := Compare(a.value, b.value);
        if same.Some? then Some(Boolean(same.value)) else None
      else None
    case Other(id, parts) => other(id, EvalAll(other, parts))
  }

  function EvalAll(other: Semantics, gs: seq<Guard>): seq<Option<Literal>>
    decreases gs, 0
  {
    if gs == [] then [] else [Eval(other, gs[0])] + EvalAll(other, gs[1..])
  }

  predicate Holds(other: Semantics, g: Guard) {
    Eval(other, g) == Some(Boolean(true))
  }

  /** A comparison with a literal: what is compared, and the literal. */
  function Equality(g: Guard): Option<(Guard, Literal)> {
    if !g.Equal? then None
    else if g.right.Constant? then Some((g.left, g.right.literal))
    else if g.left.Constant? then Some((g.right, g.left.literal))
    else None
  }

  predicate SameKind(a: Literal, b: Literal) {
    && (a.Null? <==> b.Null?) && (a.Boolean? <==> b.Boolean?) && (a.Integer? <==> b.Integer?)
    && (a.Float? <==> b.Float?) && (a.Text? <==> b.Text?) && (a.Bytes? <==> b.Bytes?)
  }

  predicate Exclusive(a: Guard, b: Guard) {
    || a == Not(b) || b == Not(a)
    || a == Constant(Boolean(false)) || b == Constant(Boolean(false))
    || (var x, y := Equality(a), Equality(b);
        x.Some? && y.Some? && x.value.0 == y.value.0 && SameKind(x.value.1, y.value.1) && x.value.1 != y.value.1)
  }

  lemma EqualityHolds(other: Semantics, g: Guard)
    requires Equality(g).Some? && Holds(other, g)
    ensures Eval(other, Equality(g).value.0) == Some(Equality(g).value.1)
  {
    assert g.Equal?;
    var a, b := Eval(other, g.left), Eval(other, g.right);
    assert a.Some? && b.Some? && a.value == b.value;
  }

  /** Guards found exclusive never hold together, whatever else they refer to. */
  lemma ExclusiveSound(other: Semantics, a: Guard, b: Guard)
    requires Exclusive(a, b)
    ensures !(Holds(other, a) && Holds(other, b))
  {
    if Holds(other, a) && Holds(other, b) {
      if Equality(a).Some? && Equality(b).Some? {
        EqualityHolds(other, a);
        EqualityHolds(other, b);
      }
    }
  }

  /** The test is partial: no value equals an integer and a float, yet such guards are not found exclusive. */
  lemma KindsNotCompared(other: Semantics, g: Guard, n: int, x: real)
    ensures !Exclusive(Equal(g, Constant(Integer(n))), Equal(g, Constant(Float(x))))
    ensures !(Holds(other, Equal(g, Constant(Integer(n)))) && Holds(other, Equal(g, Constant(Float(x)))))
  {
    var a, b := Equal(g, Constant(Integer(n))), Equal(g, Constant(Float(x)));
    if Holds(other, a) && Holds(other, b) {
      EqualityHolds(other, a);
      EqualityHolds(other, b);
    }
  }

  /** A comparison with a literal on either side. */
  function Comparison(g: Guard, l: Literal, first: bool): Guard {
    if first then Equal(Constant(l), g) else Equal(g, Constant(l))
  }

  /** Comparisons of one guard are found exclusive exactly for two literals of one kind. */
  lemma ComparisonsExclusive(g: Guard, a: Literal, b: Literal, p: bool, q: bool)
    requires !g.Constant?
    ensures Exclusive(Comparison(g, a, p), Comparison(g, b, q)) <==> SameKind(a, b) && a != b
  {
  }

  /** For literals of one kind that can be compared, the test decides whether both guards can hold. */
  lemma ComparisonsDecided(id: nat, a: Literal, b: Literal, p: bool, q: bool)
    requires SameKind(a, b) && !a.Bytes?
    ensures
      var left, right := Comparison(Other(id, []), a, p), Comparison(Other(id, []), b, q);
      Exclusive(left, right) <==> forall other: Semantics :: !(Holds(other, left) && Holds(other, right))
  {
    var left, right := Comparison(Other(id, []), a, p), Comparison(Other(id, []), b, q);
    ComparisonsExclusive(Other(id, []), a, b, p, q);
    if a == b {
      var constantly: Semantics := (i, parts) => Some(a);
      assert Eval(constantly, Other(id, [])) == Some(a);
      assert Holds(constantly, left) && Holds(constantly, right);
    } else {
      forall other: Semantics
        ensures !(Holds(other, left) && Holds(other, right))
      {
        ExclusiveSound(other, left, right);
      }
    }
  }

  // ---- Binding plans ----

  /** An edge of a scope as its binding sees it. */
  datatype Writer = Writer(edge: string, destination: WaitGraph.Vertex, guard: Guard)

  /** The edges that may write a destination, in order, and whether no two can hold at once. */
  datatype Binding = Binding(destination: WaitGraph.Vertex, candidates: seq<Writer>, exclusive: bool)

  function CandidatesOf(writers: seq<Writer>, d: WaitGraph.Vertex): seq<Writer> {
    if writers == [] then []
    else
      var last := |writers| - 1;
      CandidatesOf(writers[..last], d) + if writers[last].destination == d then [writers[last]] else []
  }

  predicate ExclusiveBefore(ws: seq<Writer>, i: nat, j: nat)
    requires i < |ws| && j <= |ws|
  {
    forall k :: i < k < j ==> Exclusive(ws[i].guard, ws[k].guard)
  }

  predicate PairwiseExclusive(ws: seq<Writer>) {
    forall i, j :: 0 <= i < j < |ws| ==> Exclusive(ws[i].guard, ws[j].guard)
  }

  /** The flag is computed from the pairs in order, up to the first that may overlap. */
  method PlanBinding(writers: seq<Writer>, d: WaitGraph.Vertex) returns (r: Binding)
    ensures r.destination == d && r.candidates == CandidatesOf(writers, d)
    ensures r.exclusive <==> PairwiseExclusive(r.candidates)
  {
    var candidates := [];
    for k := 0 to |writers|
      invariant candidates == CandidatesOf(writers[..k], d)
    {
      assert writers[..k + 1][..k] == writers[..k];
      if writers[k].destination == d {
        candidates := candidates + [writers[k]];
      }
    }
    assert writers[..|writers|] == writers;
    for i := 0 to |candidates|
      invariant forall a: nat :: a < i ==> ExclusiveBefore(candidates, a, |candidates|)
    {
      for j := i + 1 to |candidates|
        invariant ExclusiveBefore(candidates, i, j)
      {
        if !Exclusive(candidates[i].guard, candidates[j].guard) {
          return Binding(d, candidates, false);
        }
      }
    }
    assert PairwiseExclusive(candidates) by {
      forall i, j | 0 <= i < j < |candidates|
        ensures Exclusive(candidates[i].guard, candidates[j].guard)
      {
        assert ExclusiveBefore(candidates, i, |candidates|);
      }
    }
    r := Binding(d, candidates, true);
  }

  /** Edges that write the destination are candidates, in the same order. */
  lemma {:induction false} CandidateAt(writers: seq<Writer>, d: WaitGraph.Vertex, i: nat, j: nat)
      returns (a: nat, b: nat)
    requires i < j < |writers| && writers[i].destination == d && writers[j].destination == d
    ensures a < b < |CandidatesOf(writers, d)|
    ensures CandidatesOf(writers, d)[a] == writers[i] && CandidatesOf(writers, d)[b] == writers[j]
  {
    var last := |writers| - 1;
    var front := writers[..last];
    if j < last {
      a, b := CandidateAt(front, d, i, j);
    } else {
      a := CandidateOne(front, d, i);
      b := |CandidatesOf(front, d)|;
    }
  }

  lemma {:induction false} CandidateOne(writers: seq<Writer>, d: WaitGraph.Vertex, i: nat) returns (a: nat)
    requires i < |writers| && writers[i].destination == d
    ensures a < |CandidatesOf(writers, d)| && CandidatesOf(writers, d)[a] == writers[i]
  {
    var last := |writers| - 1;
    if i < last {
      a := CandidateOne(writers[..last], d, i);
    } else {
      a := |CandidatesOf(writers[..last], d)|;
    }
  }

  /**
   * When the flag of a binding is set, at most one of the edges that write its
   * destination holds, however the guards evaluate.
   */
  lemma AtMostOneHolds(other: Semantics, writers: seq<Writer>, d: WaitGraph.Vertex, i: nat, j: nat)
    requires PairwiseExclusive(CandidatesOf(writers, d))
    requires i < |writers| && writers[i].destination == d && Holds(other, writers[i].guard)
    requires j < |writers| && writers[j].destination == d && Holds(other, writers[j].guard)
    ensures i == j
  {
    if i != j {
      var low, high := if i < j then i else j, if i < j then j else i;
      var a, b := CandidateAt(writers, d, low, high);
      ExclusiveSound(other, writers[low].guard, writers[high].guard);
    }
  }

  /** Candidates come from edges that write the destination, in the same order. */
  lemma {:induction false} WriterAt(writers: seq<Writer>, d: WaitGraph.Vertex, a: nat, b: nat)
      returns (i: nat, j: nat)
    requires a < b < |CandidatesOf(writers, d)|
    ensures i < j < |writers| && writers[i].destination == d && writers[j].destination == d
    ensures CandidatesOf(writers, d)[a] == writers[i] && CandidatesOf(writers, d)[b] == writers[j]
  {
    var last := |writers| - 1;
    var front := writers[..last];
    if b < |CandidatesOf(front, d)| {
      i, j := WriterAt(front, d, a, b);
    } else {
      i := WriterOne(front, d, a);
      j := last;
    }
  }

  lemma {:induction false} WriterOne(writers: seq<Writer>, d: WaitGraph.Vertex, a: nat) returns (i: nat)
    requires a < |CandidatesOf(writers, d)|
    ensures i < |writers| && writers[i].destination == d && CandidatesOf(writers, d)[a] == writers[i]
  {
    var last := |writers| - 1;
    if a < |CandidatesOf(writers[..last], d)| {
      i := WriterOne(writers[..last], d, a);
    } else {
      i := last;
    }
  }

  /** Edges i and j write the destination and may overlap. */
  predicate Overlap(writers: seq<Writer>, d: WaitGraph.Vertex, i: nat, j: nat) {
    && i < j < |writers| && writers[i].destination == d && writers[j].destination == d
    && !Exclusive(writers[i].guard, writers[j].guard)
  }

  /** The flag is cleared exactly by two edges of the scope that may overlap. */
  lemma FlagIff(writers: seq<Writer>, d: WaitGraph.Vertex)
    ensures PairwiseExclusive(CandidatesOf(writers, d)) <==> forall i, j :: !Overlap(writers, d, i, j)
  {
    hide Exclusive, CandidatesOf;
    var cs := CandidatesOf(writers, d);
    if i: nat, j: nat :| Overlap(writers, d, i, j) {
      var a, b := CandidateAt(writers, d, i, j);
      assert !Exclusive(cs[a].guard, cs[b].guard);
    }
    if a: nat, b: nat :| a < b < |cs| && !Exclusive(cs[a].guard, cs[b].guard) {
      var i, j := WriterAt(writers, d, a, b);
      assert Overlap(writers, d, i, j);
    }
  }

  const TRUE := Constant(Boolean(true))
  const FALSE := Constant(Boolean(false))

  /** A literally true guard is found exclusive only with two guards that never hold. */
  lemma TrueExclusive(g: Guard)
    ensures Exclusive(TRUE, g) <==> g in {FALSE, Not(TRUE)}
    ensures Exclusive(g, TRUE) <==> g in {FALSE, Not(TRUE)}
  {
  }

  /** Another edge that writes the destination. */
  predicate Beside(writers: seq<Writer>, d: WaitGraph.Vertex, i: nat, j: nat) {
    j < |writers| && j != i && writers[j].destination == d
  }

  /** All other edges have guards that never hold, at most one of them spelled as a negation. */
  ghost predicate OthersNever(writers: seq<Writer>, d: WaitGraph.Vertex, i: nat) {
    && (forall j: nat :: Beside(writers, d, i, j) ==> writers[j].guard in {FALSE, Not(TRUE)})
    && forall j: nat, k: nat :: j < k && Beside(writers, d, i, j) && Beside(writers, d, i, k) ==>
      writers[j].guard == FALSE || writers[k].guard == FALSE
  }

  /** An unconditional edge leaves the flag of its destination set exactly when no other candidate can hold. */
  lemma AlwaysIff(writers: seq<Writer>, d: WaitGraph.Vertex, i: nat)
    requires i < |writers| && writers[i].destination == d && writers[i].guard == TRUE
    ensures PairwiseExclusive(CandidatesOf(writers, d)) <==> OthersNever(writers, d, i)
  {
    FlagIff(writers, d);
    if OthersNever(writers, d, i) {
      forall j: nat, k: nat
        ensures !Overlap(writers, d, j, k)
      {
        OthersExclusive(writers, d, i, j, k);
      }
    } else if forall j, k :: !Overlap(writers, d, j, k) {
      OthersOverlap(writers, d, i);
    }
  }

  lemma OthersExclusive(writers: seq<Writer>, d: WaitGraph.Vertex, i: nat, j: nat, k: nat)
    requires i < |writers| && writers[i].destination == d && writers[i].guard == TRUE && OthersNever(writers, d, i)
    ensures !Overlap(writers, d, j, k)
  {
    if j < k < |writers| && writers[j].destination == d && writers[k].destination == d {
      assert j != i ==> Beside(writers, d, i, j);
      assert k != i ==> Beside(writers, d, i, k);
      TrueExclusive(writers[j].guard);
      TrueExclusive(writers[k].guard);
    }
  }

  lemma OthersOverlap(writers: seq<Writer>, d: WaitGraph.Vertex, i: nat)
    requires i < |writers| && writers[i].destination == d && writers[i].guard == TRUE
    requires forall j, k :: !Overlap(writers, d, j, k)
    ensures OthersNever(writers, d, i)
  {
    forall j: nat | Beside(writers, d, i, j)
      ensures writers[j].guard in {FALSE, Not(TRUE)}
    {
      TrueExclusive(writers[j].guard);
      assert !Overlap(writers, d, if i < j then i else j, if i < j then j else i);
    }
    forall j: nat, k: nat | j < k && Beside(writers, d, i, j) && Beside(writers, d, i, k)
      ensures writers[j].guard == FALSE || writers[k].guard == FALSE
    {
      assert !Overlap(writers, d, j, k);
    }
  }
}
