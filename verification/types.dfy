// Type descriptions of the expression analyzer (crates/htlk-executable/src/types/mod.rs).
//
// Union and enum members are stored by the source sorted and without repetition, so
// a finite set carries the same information.  Record fields keep their canonical order.

module Types {
  import opened Wrappers

  datatype Primitive =
    | PString | PInteger | PFloat | PBoolean | PNull | PBytes | PJson
    | PRegex | PResourceResult | PPromptResult | PToolResult | PError

  datatype Port = Port(ty: Ty, required: bool)

  datatype Field = Field(name: string, port: Port)

  datatype Ty =
    | Builtin(primitive: Primitive)
    | List(item: Ty)
    | Map(item: Ty)
    | Record(fields: seq<Field>)
    | Union(members: set<Ty>)
    | Enum(names: set<string>)
    | Schema(digest: nat)
    | Var(id: nat)
    | Function(parameters: seq<Port>, output: Port)

  /** The immediate components of a type. */
  function Children(t: Ty): (cs: set<Ty>)
    ensures forall c :: c in cs ==> c < t
  {
    match t
    case List(item) => {item}
    case Map(item) => {item}
    case Record(fields) => set f | f in fields :: f.port.ty
    case Union(members) => members
    case Function(parameters, output) => (set p | p in parameters :: p.ty) + {output.ty}
    case _ => {}
  }

  function Vars(t: Ty): set<nat> {
    if t.Var? then {t.id} else set c, x | c in Children(t) && x in Vars(c) :: x
  }

  predicate HasVariable(t: Ty) {
    t.Var? || exists c :: c in Children(t) && HasVariable(c)
  }

  lemma {:induction false} HasVariableVars(t: Ty)
    ensures HasVariable(t) <==> Vars(t) != {}
  {
    if t.Var? {
      assert t.id in Vars(t);
    } else {
      forall c | c in Children(t)
        ensures HasVariable(c) <==> Vars(c) != {}
      {
        HasVariableVars(c);
      }
      if HasVariable(t) {
        var c :| c in Children(t) && HasVariable(c);
        var x :| x in Vars(c);
        assert x in Vars(t);
      }
    }
  }

  /** The shape of the two builtins the compatibility relation expands. */
  function TextRecord(names: seq<string>): Ty {
    Record(seq(|names|, i requires 0 <= i < |names| => Field(names[i], Port(Builtin(PString), true))))
  }

  predicate Expands(t: Ty) {
    t == Builtin(PError) || t == Builtin(PRegex)
  }

  /**
   * Nesting depth where a bound variable counts for the height given to it.  It is
   * the termination measure of every traversal in the analyzer: components are lower
   * than the whole, and an expanded builtin is higher than its record.
   */
  ghost function Depth(h: map<nat, nat>, t: Ty): (d: nat)
    ensures forall c :: c in Children(t) ==> Depth(h, c) < d
    decreases t, 1
  {
    if t.Var? then (if t.id in h then h[t.id] else 0)
    else (if Expands(t) then 3 else 1) + MaxDepth(h, t, Children(t))
  }

  ghost function MaxDepth(h: map<nat, nat>, t: Ty, cs: set<Ty>): (d: nat)
    requires cs <= Children(t)
    ensures forall c :: c in cs ==> Depth(h, c) <= d
    ensures cs == {} ==> d == 0
    decreases t, 0, |cs|
  {
    if cs == {} then 0 else
      var c :| c in cs;
      var d, rest := Depth(h, c), MaxDepth(h, t, cs - {c});
      if d < rest then rest else d
  }

  lemma {:induction false} MaxDepthBound(h: map<nat, nat>, t: Ty, cs: set<Ty>, n: nat)
    requires cs <= Children(t)
    requires forall c :: c in cs ==> Depth(h, c) <= n
    ensures MaxDepth(h, t, cs) <= n
    decreases |cs|
  {
    forall c | c in cs
      ensures MaxDepth(h, t, cs - {c}) <= n
    {
      MaxDepthBound(h, t, cs - {c}, n);
    }
  }

  /** A bound on every component bounds the whole. */
  lemma DepthBound(h: map<nat, nat>, t: Ty, n: nat)
    requires !t.Var? && !Expands(t)
    requires forall c :: c in Children(t) ==> Depth(h, c) <= n
    ensures Depth(h, t) <= n + 1
  {
    MaxDepthBound(h, t, Children(t), n);
  }

  /** A record's field of the given name (type_check.rs:821-837). */
  function Lookup(fields: seq<Field>, name: string): (r: Option<Port>)
    ensures r.Some? ==> Field(name, r.value) in fields
    ensures r.None? ==> forall f :: f in fields ==> f.name != name
  {
    if fields == [] then None
    else if fields[0].name == name then Some(fields[0].port)
    else Lookup(fields[1..], name)
  }

  lemma TextRecordDepth(h: map<nat, nat>, names: seq<string>)
    ensures Depth(h, TextRecord(names)) <= 2
  {
  }
}
