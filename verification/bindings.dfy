// Triangular variable bindings (crates/htlk-analyzer/src/type_check.rs:1510-1569).
//
// A binding maps a variable to a type that may mention other bound variables.  A
// height for every bound variable, above the depth of the type bound to it, witnesses
// that following bindings ends.

module Bindings {
  import opened Types

  type Bindings = map<nat, Ty>

  ghost predicate Ranked(b: Bindings, h: map<nat, nat>) {
    && h.Keys == b.Keys
    && forall x :: x in b ==> Depth(h, b[x]) < h[x]
  }

  /** `newer` keeps every binding of `older`. */
  ghost predicate Grows(older: Bindings, newer: Bindings) {
    older.Keys <= newer.Keys && forall x :: x in older ==> newer[x] == older[x]
  }

  // ---- Unions are flattened and never have a single member ----

  function Flat(t: Ty): (ts: set<Ty>) {
    if t.Union? then set m, u | m in t.members && u in Flat(m) :: u else {t}
  }

  function Join(ts: set<Ty>): Ty {
    var flat := set t, u | t in ts && u in Flat(t) :: u;
    if |flat| == 1 then Only(flat) else Union(flat)
  }

  function Only(ts: set<Ty>): (t: Ty)
    requires |ts| == 1
    ensures ts == {t}
  {
    SingletonUnique(ts);
    var t :| t in ts;
    t
  }

  lemma SingletonUnique(ts: set<Ty>)
    requires |ts| == 1
    ensures forall t, u :: t in ts && u in ts ==> t == u
  {
    var t :| t in ts;
    assert |ts - {t}| == 0;
    assert ts == {t};
  }

  lemma {:induction false} FlatDepth(h: map<nat, nat>, t: Ty)
    ensures forall u :: u in Flat(t) ==> Depth(h, u) <= Depth(h, t)
    ensures t.Union? ==> forall u :: u in Flat(t) ==> Depth(h, u) < Depth(h, t)
  {
    if t.Union? {
      forall u | u in Flat(t)
        ensures Depth(h, u) < Depth(h, t)
      {
        var m :| m in t.members && u in Flat(m);
        assert m in Children(t);
        FlatDepth(h, m);
      }
    }
  }

  /** Joining types is no deeper than listing them in one union. */
  lemma JoinDepth(h: map<nat, nat>, ts: set<Ty>, n: nat)
    requires forall t :: t in ts ==> Depth(h, t) <= n
    ensures Depth(h, Join(ts)) <= n + 1
  {
    var flat := set t, u | t in ts && u in Flat(t) :: u;
    forall u | u in flat
      ensures Depth(h, u) <= n
    {
      var t :| t in ts && u in Flat(t);
      FlatDepth(h, t);
    }
    if |flat| == 1 {
      assert Only(flat) in flat;
    } else {
      DepthBound(h, Union(flat), n);
    }
  }

  /** Joining some members of a flat union stays below it; one plain type is itself. */
  lemma JoinPart(h: map<nat, nat>, ts: set<Ty>, whole: Ty)
    requires if whole.Union? then ts <= whole.members else ts == {whole}
    ensures Depth(h, Join(ts)) <= Depth(h, whole)
  {
    if whole.Union? {
      assert Children(whole) == whole.members;
      JoinDepth(h, ts, Depth(h, whole) - 1);
    } else {
      var flat := set t, u | t in ts && u in Flat(t) :: u;
      assert Flat(whole) == {whole};
      assert flat == {whole};
    }
  }

  lemma {:induction false} FlatVars(t: Ty, x: nat)
    ensures x in Vars(t) <==> exists u :: u in Flat(t) && x in Vars(u)
  {
    if t.Union? {
      forall m | m in t.members
        ensures x in Vars(m) <==> exists u :: u in Flat(m) && x in Vars(u)
      {
        FlatVars(m, x);
      }
      if x in Vars(t) {
        var m :| m in Children(t) && x in Vars(m);
        var u :| u in Flat(m) && x in Vars(u);
        assert u in Flat(t);
      }
      if u :| u in Flat(t) && x in Vars(u) {
        var m :| m in t.members && u in Flat(m);
        assert x in Vars(m) && m in Children(t);
      }
    } else {
      assert t in Flat(t);
    }
  }

  lemma JoinVars(ts: set<Ty>, x: nat)
    ensures x in Vars(Join(ts)) <==> exists t :: t in ts && x in Vars(t)
  {
    var flat := set t, u | t in ts && u in Flat(t) :: u;
    assert x in Vars(Join(ts)) <==> exists u :: u in flat && x in Vars(u) by {
      if |flat| == 1 {
        assert flat == {Only(flat)};
      } else {
        assert Children(Union(flat)) == flat;
      }
    }
    forall t | t in ts
      ensures x in Vars(t) <==> exists u :: u in Flat(t) && x in Vars(u)
    {
      FlatVars(t, x);
    }
    if t :| t in ts && x in Vars(t) {
      var u :| u in Flat(t) && x in Vars(u);
      assert u in flat;
    }
  }

  // ---- Following bindings ----

  /** The first type on a chain of bindings that is not a bound variable. */
  ghost function Head(b: Bindings, h: map<nat, nat>, t: Ty): (head: Ty)
    requires Ranked(b, h)
    ensures head.Var? ==> head.id !in b
    ensures head == t || (t.Var? && Depth(h, head) < Depth(h, t))
    decreases Depth(h, t)
  {
    if t.Var? && t.id in b then Head(b, h, b[t.id]) else t
  }

  lemma {:induction false} HeadResolves(b: Bindings, h: map<nat, nat>, t: Ty)
    requires Ranked(b, h)
    ensures Resolve(b, h, Head(b, h, t)) == Resolve(b, h, t)
    decreases Depth(h, t)
  {
    if t.Var? && t.id in b {
      HeadResolves(b, h, b[t.id]);
    }
  }

  lemma {:induction false} HeadOccurs(b: Bindings, h: map<nat, nat>, x: nat, t: Ty)
    requires Ranked(b, h)
    ensures Occurs(b, h, x, Head(b, h, t)) == Occurs(b, h, x, t)
    decreases Depth(h, t)
  {
    if t.Var? && t.id in b {
      HeadOccurs(b, h, x, b[t.id]);
    }
  }

  /** The fully substituted form of a type. */
  function Resolve(b: Bindings, ghost h: map<nat, nat>, t: Ty): Ty
    requires Ranked(b, h)
    decreases Depth(h, t)
  {
    match t
    case Var(x) => if x in b then Resolve(b, h, b[x]) else t
    case List(item) => List(Resolve(b, h, item))
    case Map(item) => Map(Resolve(b, h, item))
    case Record(fields) =>
      Record(seq(|fields|, i requires 0 <= i < |fields| =>
        assert fields[i] in fields;
        Field(fields[i].name, Port(Resolve(b, h, fields[i].port.ty), fields[i].port.required))))
    case Union(members) => Join(set m | m in members :: Resolve(b, h, m))
    case Function(parameters, output) =>
      Function(
        seq(|parameters|, i requires 0 <= i < |parameters| =>
          assert parameters[i] in parameters;
          Port(Resolve(b, h, parameters[i].ty), parameters[i].required)),
        Port(Resolve(b, h, output.ty), output.required))
    case _ => t
  }

  /** An unbound variable occurs in the fully substituted form of a type. */
  ghost predicate Occurs(b: Bindings, h: map<nat, nat>, x: nat, t: Ty)
    requires Ranked(b, h)
    decreases Depth(h, t)
  {
    if t.Var? then (if t.id in b then Occurs(b, h, x, b[t.id]) else t.id == x)
    else exists c :: c in Children(t) && Occurs(b, h, x, c)
  }

  // ---- A new binding keeps the bindings ranked ----

  /** Heights after binding `x` to `t`: everything that reaches `x` moves up. */
  ghost function Raise(b: Bindings, h: map<nat, nat>, x: nat, t: Ty): map<nat, nat>
    requires Ranked(b, h) && x !in b
  {
    var top := Depth(h, t) + 1;
    map z | z in b.Keys + {x} ::
      if z == x then top else if Occurs(b, h, x, b[z]) then h[z] + top else h[z]
  }

  lemma {:induction false} RaiseDepth(b: Bindings, h: map<nat, nat>, x: nat, t: Ty, u: Ty)
    requires Ranked(b, h) && x !in b
    ensures Depth(Raise(b, h, x, t), u) <= Depth(h, u) + Depth(h, t) + 1
    ensures !Occurs(b, h, x, u) ==> Depth(Raise(b, h, x, t), u) <= Depth(h, u)
    decreases u
  {
    var raised, top := Raise(b, h, x, t), Depth(h, t) + 1;
    if !u.Var? {
      var cs := Children(u);
      forall c | c in cs
        ensures Depth(raised, c) <= MaxDepth(h, u, cs) + top
        ensures !Occurs(b, h, x, u) ==> Depth(raised, c) <= MaxDepth(h, u, cs)
      {
        RaiseDepth(b, h, x, t, c);
      }
      MaxDepthBound(raised, u, cs, MaxDepth(h, u, cs) + if Occurs(b, h, x, u) then top else 0);
    }
  }

  lemma RaisedAbove(b: Bindings, h: map<nat, nat>, x: nat, t: Ty, z: nat)
    requires Ranked(b, h) && x !in b && z in b
    ensures Depth(Raise(b, h, x, t), b[z]) < Raise(b, h, x, t)[z]
  {
    RaiseDepth(b, h, x, t, b[z]);
    assert Depth(h, b[z]) < h[z];
  }

  lemma BindRanked(b: Bindings, h: map<nat, nat>, x: nat, t: Ty)
    requires Ranked(b, h) && x !in b
    requires !Occurs(b, h, x, t)
    ensures Ranked(b[x := t], Raise(b, h, x, t))
    ensures Grows(b, b[x := t])
  {
    var raised := Raise(b, h, x, t);
    assert raised.Keys == b[x := t].Keys;
    RaiseDepth(b, h, x, t, t);
    forall z | z in b
      ensures Depth(raised, b[z]) < raised[z]
    {
      RaisedAbove(b, h, x, t, z);
    }
  }

  // ---- What full substitution achieves ----

  /** Outside unions, substitution acts on the components. */
  lemma ResolvedComponents(b: Bindings, h: map<nat, nat>, t: Ty)
    requires Ranked(b, h) && !t.Var? && !t.Union?
    ensures !Resolve(b, h, t).Var?
    ensures Children(Resolve(b, h, t)) == set c | c in Children(t) :: Resolve(b, h, c)
  {
    var r := Resolve(b, h, t);
    match t
    case Record(fields) =>
      forall c | c in Children(t)
        ensures Resolve(b, h, c) in Children(r)
      {
        var f :| f in fields && f.port.ty == c;
        var i :| 0 <= i < |fields| && fields[i] == f;
        assert r.fields[i] in r.fields;
      }
      forall rc | rc in Children(r)
        ensures exists c :: c in Children(t) && Resolve(b, h, c) == rc
      {
        var f :| f in r.fields && f.port.ty == rc;
        var i :| 0 <= i < |r.fields| && r.fields[i] == f;
        assert fields[i] in fields;
        assert fields[i].port.ty in Children(t);
      }
    case Function(parameters, output) =>
      forall c | c in Children(t)
        ensures Resolve(b, h, c) in Children(r)
      {
        if c != output.ty {
          var p :| p in parameters && p.ty == c;
          var i :| 0 <= i < |parameters| && parameters[i] == p;
          assert r.parameters[i] in r.parameters;
        }
      }
      forall rc | rc in Children(r)
        ensures exists c :: c in Children(t) && Resolve(b, h, c) == rc
      {
        if rc == r.output.ty {
          assert output.ty in Children(t);
        } else {
          var p :| p in r.parameters && p.ty == rc;
          var i :| 0 <= i < |r.parameters| && r.parameters[i] == p;
          assert parameters[i] in parameters;
          assert parameters[i].ty in Children(t);
        }
      }
    case _ =>
  }

  /** No bound variable is left, and a variable is left exactly when it occurs. */
  lemma {:induction false} ResolveVars(b: Bindings, h: map<nat, nat>, t: Ty, x: nat)
    requires Ranked(b, h)
    ensures x in Vars(Resolve(b, h, t)) <==> x !in b && Occurs(b, h, x, t)
    decreases Depth(h, t)
  {
    if t.Var? {
      if t.id in b {
        ResolveVars(b, h, b[t.id], x);
      } else {
        assert Resolve(b, h, t) == t;
      }
    } else {
      forall c | c in Children(t)
        ensures x in Vars(Resolve(b, h, c)) <==> x !in b && Occurs(b, h, x, c)
      {
        ResolveVars(b, h, c, x);
      }
      ResolveChildrenVars(b, h, t, x);
      if x !in b && Occurs(b, h, x, t) {
        var c :| c in Children(t) && Occurs(b, h, x, c);
        assert x in Vars(Resolve(b, h, c));
      }
    }
  }

  lemma ResolveChildrenVars(b: Bindings, h: map<nat, nat>, t: Ty, x: nat)
    requires Ranked(b, h) && !t.Var?
    ensures x in Vars(Resolve(b, h, t)) <==> exists c :: c in Children(t) && x in Vars(Resolve(b, h, c))
  {
    var resolved := set c | c in Children(t) :: Resolve(b, h, c);
    if t.Union? {
      assert resolved == set m | m in t.members :: Resolve(b, h, m);
      JoinVars(resolved, x);
      assert Resolve(b, h, t) == Join(resolved);
    } else {
      ResolvedComponents(b, h, t);
      ComponentVars(Resolve(b, h, t), x);
    }
    if r :| r in resolved && x in Vars(r) {
      var c :| c in Children(t) && Resolve(b, h, c) == r;
    }
    if c :| c in Children(t) && x in Vars(Resolve(b, h, c)) {
      assert Resolve(b, h, c) in resolved;
    }
  }

  lemma ComponentVars(t: Ty, x: nat)
    requires !t.Var?
    ensures x in Vars(t) <==> exists c :: c in Children(t) && x in Vars(c)
  {
  }

  lemma {:induction false} ResolveDepth(b: Bindings, h: map<nat, nat>, t: Ty)
    requires Ranked(b, h)
    ensures Depth(h, Resolve(b, h, t)) <= Depth(h, t)
    decreases Depth(h, t)
  {
    if t.Var? {
      if t.id in b {
        ResolveDepth(b, h, b[t.id]);
      }
    } else if !t.Builtin? {
      forall c | c in Children(t)
        ensures Depth(h, Resolve(b, h, c)) <= Depth(h, t) - 1
      {
        ResolveDepth(b, h, c);
      }
      ResolveDepthStep(b, h, t, set c | c in Children(t) :: Resolve(b, h, c), Depth(h, t) - 1);
    }
  }

  lemma ResolveDepthStep(b: Bindings, h: map<nat, nat>, t: Ty, resolved: set<Ty>, n: nat)
    requires Ranked(b, h) && !t.Var? && !t.Builtin?
    requires resolved == set c | c in Children(t) :: Resolve(b, h, c)
    requires forall r :: r in resolved ==> Depth(h, r) <= n
    ensures Depth(h, Resolve(b, h, t)) <= n + 1
  {
    if t.Union? {
      assert resolved == set m | m in t.members :: Resolve(b, h, m);
      JoinDepth(h, resolved, n);
      assert Resolve(b, h, t) == Join(resolved);
    } else {
      ResolvedComponents(b, h, t);
      assert !Expands(Resolve(b, h, t));
      DepthBound(h, Resolve(b, h, t), n);
    }
  }
}
