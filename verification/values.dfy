// Runtime values and their membership in types (crates/htlk-runtime/src/runtime_type.rs).

module Values {
  import opened Wrappers
  import opened Types

  datatype Value =
    | Null
    | Bool(flag: bool)
    | Integer(number: int)
    | Float(float: real)
    | Text(text: string)
    | Bytes(data: seq<nat>)
    | Array(items: seq<Value>)
    | Map(entries: map<string, Value>)
    | Callable(id: nat)  // a static reference to a library function

  const SAFE: int := 0x1F_FFFF_FFFF_FFFF

  predicate SafeInteger(n: int) {
    -SAFE <= n <= SAFE
  }

  /** A value that crosses the JSON boundary: no bytes, no callables, safe numbers. */
  predicate IsJson(v: Value) {
    match v
    case Integer(n) => SafeInteger(n)
    case Float(x) => x == x.Floor as real ==> SafeInteger(x.Floor)
    case Bytes(_) => false
    case Callable(_) => false
    case Array(items) => forall item :: item in items ==> IsJson(item)
    case Map(entries) => forall key :: key in entries ==> IsJson(entries[key])
    case _ => true
  }

  /**
   * What the analyzer treats as external: the regex engine, native schema
   * validation, MCP result shapes, the meaning of a free type variable, and what a
   * callable returns.  A call either fails or yields a possibly absent value.
   */
  datatype World = World(
    regex: (string, string) -> bool,
    schema: (nat, Value) -> bool,
    resource: Value -> bool,
    prompt: Value -> bool,
    tool: Value -> bool,
    variable: (nat, Value) -> bool,
    call: (nat, seq<Option<Value>>) -> Option<Option<Value>>)

  predicate HasBuiltin(w: World, v: Value, p: Primitive) {
    match p
    case PString => v.Text?
    case PInteger => v.Integer?
    case PFloat => v.Float?
    case PBoolean => v.Bool?
    case PNull => v.Null?
    case PBytes => v.Bytes?
    case PJson => IsJson(v)
    case PRegex =>
      && v.Map? && v.entries.Keys == {"pattern", "flags"}
      && v.entries["pattern"].Text? && v.entries["flags"].Text?
      && w.regex(v.entries["pattern"].text, v.entries["flags"].text)
    case PError =>
      v.Map? && forall key :: key in {"code", "message"} ==> key in v.entries && v.entries[key].Text?
    case PResourceResult => v.Map? && w.resource(v)
    case PPromptResult => v.Map? && IsJson(v) && w.prompt(v)
    case PToolResult => v.Map? && IsJson(v) && w.tool(v)
  }

  /** A value inhabits a type: no coercion, and records allow undeclared fields. */
  ghost predicate Has(w: World, v: Value, t: Ty)
    decreases t
  {
    match t
    case Builtin(p) => HasBuiltin(w, v, p)
    case List(item) => v.Array? && forall x :: x in v.items ==> Has(w, x, item)
    case Map(item) => v.Map? && forall key :: key in v.entries ==> Has(w, v.entries[key], item)
    case Record(fields) =>
      v.Map? && forall f :: f in fields ==> HasPort(w, Member(v.entries, f.name), f.port)
    case Union(members) => exists m :: m in members && Has(w, v, m)
    case Enum(names) => v.Text? && v.text in names
    case Schema(digest) => IsJson(v) && w.schema(digest, v)
    case Var(id) => w.variable(id, v)
    case Function(parameters, output) =>
      v.Callable? && forall args: seq<Option<Value>> ::
        |args| == |parameters| && (forall i :: 0 <= i < |args| ==> HasPort(w, args[i], parameters[i]))
        ==> Returns(w, w.call(v.id, args), output)
  }

  ghost predicate HasPort(w: World, v: Option<Value>, port: Port)
    decreases port, 0
  {
    match v
    case None => !port.required
    case Some(x) => Has(w, x, port.ty)
  }

  ghost predicate Returns(w: World, r: Option<Option<Value>>, port: Port)
    decreases port, 1
  {
    r.Some? ==> HasPort(w, r.value, port)
  }

  function Member(entries: map<string, Value>, key: string): Option<Value> {
    if key in entries then Some(entries[key]) else None
  }
}
