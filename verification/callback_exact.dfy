// Which callbacks stand in for which, by all the worlds they may be called in
// (crates/htlk-analyzer/src/type_check.rs:1980-2007), and what counts as JSON.

module CallbackExact {
  import opened Wrappers
  import opened Types
  import opened Values
  import opened Compatibility
  import opened CompatibilitySound
  import opened CompatibilityExact
  import opened Disjointness

  // ---- Callbacks ----

  predicate Whole(t: Ty) {
    Solid(t) && Clear(t)
  }

  /** A callback between ports whose types can be told apart by their values. */
  predicate WholeFunction(t: Ty) {
    t.Function? && Whole(t.output.ty) && forall p :: p in t.parameters ==> Whole(p.ty)
  }

  ghost predicate Fits(w: World, args: seq<Option<Value>>, ports: seq<Port>) {
    |args| == |ports| && forall i :: 0 <= i < |args| ==> HasPort(w, args[i], ports[i])
  }

  /** A world in which calls with certain arguments answer, and all others fail. */
  function Answering(args: seq<Option<Value>>, answer: Option<Value>): World {
    World((p, s) => false, (d, v) => false, v => false, v => false, v => false, (i, v) => false,
      (id, xs) => if xs == args then Some(answer) else None)
  }

  /** The values of these types are the same in all worlds. */
  lemma {:induction false} SameEverywhere(w: World, u: World, v: Value, t: Ty)
    requires Solid(t)
    ensures Has(w, v, t) == Has(u, v, t)
    decreases t
  {
    match t
    case List(item) =>
      forall x
        ensures Has(w, x, item) == Has(u, x, item)
      {
        SameEverywhere(w, u, x, item);
      }
    case Map(item) =>
      forall x
        ensures Has(w, x, item) == Has(u, x, item)
      {
        SameEverywhere(w, u, x, item);
      }
    case Record(fields) =>
      forall x, f | f in fields
        ensures HasPort(w, x, f.port) == HasPort(u, x, f.port)
      {
        if x.Some? {
          SameEverywhere(w, u, x.value, f.port.ty);
        }
      }
    case Union(members) =>
      forall m | m in members
        ensures Has(w, v, m) == Has(u, v, m)
      {
        SameEverywhere(w, u, v, m);
      }
    case Builtin(_) =>
    case Enum(_) =>
    case Schema(_) =>
    case Var(_) =>
    case Function(_, _) =>
  }

  lemma SamePort(w: World, u: World, v: Option<Value>, p: Port)
    requires Solid(p.ty)
    ensures HasPort(w, v, p) == HasPort(u, v, p)
  {
    if v.Some? {
      SameEverywhere(w, u, v.value, p.ty);
    }
  }

  /** Arguments that suit the parameters. */
  lemma {:induction false} SampleArguments(w: World, ports: seq<Port>) returns (args: seq<Option<Value>>)
    requires forall p :: p in ports ==> Solid(p.ty)
    ensures Fits(w, args, ports)
  {
    if ports == [] {
      args := [];
    } else {
      var front, last := ports[..|ports| - 1], ports[|ports| - 1];
      var some := SampleArguments(w, front);
      SolidInhabited(w, last.ty);
      var v :| Has(w, v, last.ty);
      args := some + [Some(v)];
    }
  }

  /** One call tells the callbacks apart: it suits `e` and what it yields does not. */
  lemma OneCall(u: World, a: Ty, e: Ty, args: seq<Option<Value>>, answer: Option<Value>)
    requires WholeFunction(a) && WholeFunction(e) && Fits(u, args, e.parameters)
    requires !HasPort(u, answer, e.output)
    requires Fits(u, args, a.parameters) ==> HasPort(u, answer, a.output)
    ensures
      var w := Answering(args, answer);
      Has(w, Callable(0), a) && !Has(w, Callable(0), e)
  {
    var w := Answering(args, answer);
    hide Solid, Clear;
    SameFit(u, w, args, e.parameters);
    SameFit(u, w, args, a.parameters);
    SamePort(u, w, answer, e.output);
    SamePort(u, w, answer, a.output);
    assert w.call(0, args) == Some(answer);
    forall xs: seq<Option<Value>> | Fits(w, xs, a.parameters)
      ensures Returns(w, w.call(0, xs), a.output)
    {
      if xs == args {
        assert HasPort(w, answer, a.output);
      }
    }
    assert !Returns(w, w.call(0, args), e.output);
  }

  lemma SameFit(w: World, u: World, args: seq<Option<Value>>, ports: seq<Port>)
    requires forall p :: p in ports ==> Solid(p.ty)
    ensures Fits(w, args, ports) == Fits(u, args, ports)
  {
    hide HasPort, Solid;
    if |args| == |ports| {
      forall i | 0 <= i < |args|
        ensures HasPort(w, args[i], ports[i]) == HasPort(u, args[i], ports[i])
      {
        SamePort(w, u, args[i], ports[i]);
      }
    }
  }

  lemma FunctionIs(hints: Hints, a: Ty, e: Ty)
    requires a.Function? && e.Function? && a != e
    ensures Compatible(hints, a, e) == Callback(hints, a, e)
  {
    hide Callback;
  }

  /** A parameter that is refused has an argument that only the expected callback takes. */
  lemma RefusedArgument(hints: Hints, w: World, a: Ty, e: Ty, i: nat) returns (v: Option<Value>)
    requires WholeFunction(a) && WholeFunction(e) && i < |a.parameters| == |e.parameters|
    requires ParameterRefused(hints, a, e, i)
    ensures HasPort(w, v, e.parameters[i]) && !HasPort(w, v, a.parameters[i])
  {
    hide Solid, Clear, Has, Compatible;
    var p, q := a.parameters[i], e.parameters[i];
    assert p in a.parameters && q in e.parameters;
    if !q.required && p.required {
      v := None;
    } else {
      YesIff(hints, w, q.ty, p.ty);
      var x :| Has(w, x, q.ty) && !Has(w, x, p.ty);
      v := Some(x);
    }
  }

  /** A callback that is not accepted is told apart by some call in some world. */
  lemma ToldApart(hints: Hints, a: Ty, e: Ty) returns (w: World)
    requires WholeFunction(a) && WholeFunction(e) && !Compatible(hints, a, e).Yes?
    ensures Has(w, Callable(0), a) && !Has(w, Callable(0), e)
  {
    hide Solid, Clear, Has, Compatible;
    DifferentFunctions(hints, a, e);
    FunctionIs(hints, a, e);
    var u := Answering([], None);
    var args := SampleArguments(u, e.parameters);
    var answer: Option<Value> := Some(Callable(0));
    NoCallable(u, e.output.ty);
    if |a.parameters| != |e.parameters| {
    } else if e.output.required && !a.output.required {
      answer := None;
    } else if i :| 0 <= i < |a.parameters| && ParameterRefused(hints, a, e, i) {
      var v := RefusedArgument(hints, u, a, e, i);
      args := args[i := v];
    } else {
      YesIff(hints, u, a.output.ty, e.output.ty);
      var x :| Has(u, x, a.output.ty) && !Has(u, x, e.output.ty);
      answer := Some(x);
    }
    OneCall(u, a, e, args, answer);
    w := Answering(args, answer);
  }

  lemma DifferentFunctions(hints: Hints, a: Ty, e: Ty)
    requires !Compatible(hints, a, e).Yes?
    ensures a != e
  {
  }

  /** A callback is accepted for another exactly when in every world it may be used instead. */
  lemma FunctionIff(hints: Hints, a: Ty, e: Ty)
    requires WholeFunction(a) && WholeFunction(e)
    ensures Compatible(hints, a, e).Yes? <==> forall w :: Included(w, a, e)
  {
    hide Compatible, Has, WholeFunction;
    if Compatible(hints, a, e).Yes? {
      forall w, v | Has(w, v, a)
        ensures Has(w, v, e)
      {
        YesSound(hints, w, v, a, e);
      }
    } else {
      var w := ToldApart(hints, a, e);
      assert !Included(w, a, e);
    }
  }

  // ---- JSON ----

  /** A world that takes every object for a result of its kind. */
  function Lenient(): World {
    World((p, s) => true, (d, v) => true, v => true, v => true, v => true, (i, v) => true, (id, xs) => None)
  }

  /** A value of the builtin that is not JSON: a number out of range, or something else inside. */
  function NotJson(p: Primitive): Value {
    match p
    case PInteger => Integer(SAFE + 1)
    case PFloat => Float((SAFE + 1) as real)
    case PBytes => Bytes([])
    case PError => Value.Map(map["code" := Text(""), "message" := Text(""), "more" := Bytes([])])
    case PResourceResult => Value.Map(map["more" := Bytes([])])
    case _ => Null
  }

  /** A builtin type is JSON exactly when its values are in every world. */
  lemma ToJsonIff(hints: Hints, p: Primitive)
    ensures Compatible(hints, Builtin(p), Builtin(PJson)).Yes? <==>
      forall w :: Included(w, Builtin(p), Builtin(PJson))
  {
    if Compatible(hints, Builtin(p), Builtin(PJson)).Yes? {
      forall w, v | Has(w, v, Builtin(p))
        ensures Has(w, v, Builtin(PJson))
      {
        YesSound(hints, w, v, Builtin(p), Builtin(PJson));
      }
    } else {
      var v := NotJson(p);
      assert Has(Lenient(), v, Builtin(p)) && !Has(Lenient(), v, Builtin(PJson)) by {
        NotJsonIs(p);
      }
      assert !Included(Lenient(), Builtin(p), Builtin(PJson));
    }
  }

  lemma NotJsonIs(p: Primitive)
    requires p in {PInteger, PFloat, PBytes, PError, PResourceResult}
    ensures HasBuiltin(Lenient(), NotJson(p), p) && !IsJson(NotJson(p))
  {
    if p.PError? || p.PResourceResult? {
      assert !IsJson(NotJson(p).entries["more"]);
    }
  }

  /** The values of an enumeration are JSON, and yet it is left to run time. */
  lemma EnumToJson(hints: Hints, w: World, names: set<string>)
    requires names != {}
    ensures Compatible(hints, Enum(names), Builtin(PJson)).Runtime? && Included(w, Enum(names), Builtin(PJson))
  {
  }
}
