// Composition of two graphs through their public ports
// (crates/htlk-compiler/src/join.rs:213-368).

module Join {
  import opened Wrappers
  import Types
  import Json
  import JsonRoundTrip

  datatype Side = Left | Right

  /** A public port of an operand. */
  datatype Endpoint = Endpoint(side: Side, port: string)

  /** The root interface of an operand. */
  datatype Operand = Operand(inputs: map<string, Types.Port>, outputs: map<string, Types.Port>)

  datatype Operands = Operands(left: Operand, right: Operand) {
    function At(side: Side): Operand { if side.Left? then left else right }
    predicate Receives(e: Endpoint) { e.port in At(e.side).inputs }
    predicate Supplies(e: Endpoint) { e.port in At(e.side).outputs }
    function InputPort(e: Endpoint): Types.Port requires Receives(e) { At(e.side).inputs[e.port] }
    function OutputPort(e: Endpoint): Types.Port requires Supplies(e) { At(e.side).outputs[e.port] }
  }

  datatype JoinEdge = JoinEdge(id: string, from: Endpoint, to: Endpoint)
  datatype JoinInput = JoinInput(name: string, to: seq<Endpoint>)
  datatype JoinOutput = JoinOutput(name: string, from: Endpoint)

  datatype Spec = Spec(
    leftAlias: string, rightAlias: string,
    edges: seq<JoinEdge>, inputs: seq<JoinInput>, outputs: seq<JoinOutput>)
  {
    function Alias(side: Side): string { if side.Left? then leftAlias else rightAlias }
  }

  datatype Source = FromInput(name: string) | FromOperand(from: Endpoint)

  /** A wrapper edge into an operand. */
  datatype Entry = Entry(id: string, source: Source, to: Endpoint)

  /** A wrapper edge to a public output. */
  datatype Exit = Exit(id: string, from: Endpoint, name: string)

  datatype Wrapper = Wrapper(
    inputs: map<string, Types.Port>, outputs: map<string, Types.Port>, entries: seq<Entry>, exits: seq<Exit>)

  datatype JoinError =
    | SameAlias | SameOperand | UnknownInput | UnknownOutput | DuplicateEdge
    | BadInput | BoundTwice | TypesDiffer | Unbound | DuplicateOutput | Collision

  // ---- Order of names and endpoints ----

  predicate TextBefore(a: string, b: string) {
    b != "" && (a == "" || a[0] < b[0] || (a[0] == b[0] && TextBefore(a[1..], b[1..])))
  }

  predicate EndpointBefore(a: Endpoint, b: Endpoint) {
    (a.side.Left? && b.side.Right?) || (a.side == b.side && TextBefore(a.port, b.port))
  }

  predicate InputBefore(a: JoinInput, b: JoinInput) {
    TextBefore(a.name, b.name)
  }

  predicate OutputBefore(a: JoinOutput, b: JoinOutput) {
    TextBefore(a.name, b.name)
  }

  lemma {:induction false} TextBeforeTotal(a: string, b: string)
    ensures a != b ==> TextBefore(a, b) || TextBefore(b, a)
    ensures !(TextBefore(a, b) && TextBefore(b, a)) && !TextBefore(a, a)
  {
    if a != "" {
      TextBeforeTotal(a[1..], if b == "" then "" else b[1..]);
      assert b != "" && a[0] == b[0] && a[1..] == b[1..] ==> a == [a[0]] + a[1..] == b;
    }
  }

  lemma {:induction false} TextBeforeTransitive(a: string, b: string, c: string)
    requires TextBefore(a, b) && TextBefore(b, c)
    ensures TextBefore(a, c)
  {
    if a != "" && a[0] == b[0] == c[0] {
      TextBeforeTransitive(a[1..], b[1..], c[1..]);
    }
  }

  /** A text between two others is after the first or before the second. */
  lemma TextBetween(a: string, b: string, c: string)
    requires TextBefore(a, c)
    ensures TextBefore(a, b) || TextBefore(b, c)
  {
    if !TextBefore(a, b) && a != b {
      TextBeforeTotal(a, b);
      TextBeforeTransitive(b, a, c);
    }
  }

  /** A strict order in which elements that neither precede nor follow are alike. */
  ghost predicate Ranks<T(!new)>(before: (T, T) -> bool) {
    && (forall a, b :: before(a, b) ==> !before(b, a))
    && forall a, b, c :: before(a, c) ==> before(a, b) || before(b, c)
  }

  lemma BeforeRanks()
    ensures Ranks(InputBefore) && Ranks(OutputBefore) && Ranks(EndpointBefore)
    ensures forall a, b :: !EndpointBefore(a, b) && !EndpointBefore(b, a) ==> a == b
  {
    forall a: string, b: string
      ensures a != b ==> TextBefore(a, b) || TextBefore(b, a)
      ensures !(TextBefore(a, b) && TextBefore(b, a))
    {
      TextBeforeTotal(a, b);
    }
    forall a: string, b: string, c: string | TextBefore(a, c)
      ensures TextBefore(a, b) || TextBefore(b, c)
    {
      TextBetween(a, b, c);
    }
  }

  function Insert<T(!new)>(before: (T, T) -> bool, x: T, xs: seq<T>): (r: seq<T>)
    ensures multiset(r) == multiset(xs) + multiset{x}
  {
    if xs == [] || !before(x, xs[|xs| - 1]) then xs + [x]
    else
      var last := |xs| - 1;
      assert xs == xs[..last] + [xs[last]];
      Insert(before, x, xs[..last]) + [xs[last]]
  }

  /** A stable sort. */
  function Sort<T(!new)>(before: (T, T) -> bool, xs: seq<T>): (r: seq<T>)
    ensures multiset(r) == multiset(xs)
  {
    if xs == [] then []
    else
      var last := |xs| - 1;
      assert xs == xs[..last] + [xs[last]];
      Insert(before, xs[last], Sort(before, xs[..last]))
  }

  /** No later element belongs before an earlier one. */
  ghost predicate InOrder<T(!new)>(before: (T, T) -> bool, xs: seq<T>) {
    forall i, j :: 0 <= i < j < |xs| ==> !before(xs[j], xs[i])
  }

  lemma InOrderSnoc<T(!new)>(before: (T, T) -> bool, xs: seq<T>, x: T)
    requires InOrder(before, xs) && forall y :: y in xs ==> !before(x, y)
    ensures InOrder(before, xs + [x])
  {
  }

  lemma {:induction false} InsertInOrder<T(!new)>(before: (T, T) -> bool, x: T, xs: seq<T>)
    requires Ranks(before) && InOrder(before, xs)
    ensures InOrder(before, Insert(before, x, xs))
  {
    if xs == [] || !before(x, xs[|xs| - 1]) {
      InOrderSnoc(before, xs, x);
    } else {
      var front, last := xs[..|xs| - 1], xs[|xs| - 1];
      InsertInOrder(before, x, front);
      forall y | y in Insert(before, x, front)
        ensures !before(last, y)
      {
        assert y in multiset(Insert(before, x, front));
      }
      InOrderSnoc(before, Insert(before, x, front), last);
    }
  }

  lemma {:induction false} SortInOrder<T(!new)>(before: (T, T) -> bool, xs: seq<T>)
    requires Ranks(before)
    ensures InOrder(before, Sort(before, xs))
  {
    if xs != [] {
      SortInOrder(before, xs[..|xs| - 1]);
      InsertInOrder(before, xs[|xs| - 1], Sort(before, xs[..|xs| - 1]));
    }
  }

  lemma SortKeeps<T(!new)>(before: (T, T) -> bool, xs: seq<T>)
    ensures |Sort(before, xs)| == |xs|
    ensures forall x :: x in Sort(before, xs) <==> x in xs
  {
    assert |multiset(Sort(before, xs))| == |multiset(xs)|;
    forall x
      ensures x in Sort(before, xs) <==> x in xs
    {
      assert x in multiset(Sort(before, xs)) <==> x in multiset(xs);
    }
  }

  function SortedInputs(s: Spec): seq<JoinInput> {
    Sort(InputBefore, s.inputs)
  }

  function SortedOutputs(s: Spec): seq<JoinOutput> {
    Sort(OutputBefore, s.outputs)
  }

  function SortedEndpoints(to: seq<Endpoint>): seq<Endpoint> {
    Sort(EndpointBefore, to)
  }

  // ---- The edges of the wrapper ----

  function InId(k: nat): string {
    "join_in_" + Json.Decimal(k)
  }

  function OutId(k: nat): string {
    "join_out_" + Json.Decimal(k)
  }

  function Authored(es: seq<JoinEdge>): seq<Entry> {
    seq(|es|, i requires 0 <= i < |es| => Entry(es[i].id, FromOperand(es[i].from), es[i].to))
  }

  /** Edges of one public input, numbered on from `k`. */
  function FanOut(name: string, to: seq<Endpoint>, k: nat): seq<Entry> {
    seq(|to|, i requires 0 <= i < |to| => Entry(InId(k + i), FromInput(name), to[i]))
  }

  function Exposed(inputs: seq<JoinInput>): seq<Entry> {
    if inputs == [] then []
    else
      var last := |inputs| - 1;
      var front := Exposed(inputs[..last]);
      front + FanOut(inputs[last].name, SortedEndpoints(inputs[last].to), |front|)
  }

  function Entries(s: Spec): seq<Entry> {
    Authored(s.edges) + Exposed(SortedInputs(s))
  }

  function Exits(outputs: seq<JoinOutput>): seq<Exit> {
    seq(|outputs|, i requires 0 <= i < |outputs| => Exit(OutId(i), outputs[i].from, outputs[i].name))
  }

  // ---- What is accepted ----

  predicate EdgeKnown(ops: Operands, e: JoinEdge) {
    e.from.side != e.to.side && ops.Supplies(e.from) && ops.Receives(e.to)
  }

  predicate EntriesDistinct(es: seq<Entry>) {
    forall i, j :: 0 <= i < j < |es| ==> es[i].id != es[j].id && es[i].to != es[j].to
  }

  predicate InputsDistinct(xs: seq<JoinInput>) {
    forall i, j :: 0 <= i < j < |xs| ==> xs[i].name != xs[j].name
  }

  predicate OutputsDistinct(xs: seq<JoinOutput>) {
    forall i, j :: 0 <= i < j < |xs| ==> xs[i].name != xs[j].name
  }

  predicate InputKnown(ops: Operands, p: JoinInput) {
    && p.to != []
    && (forall e :: e in p.to ==> ops.Receives(e))
    && forall e, f :: e in p.to && f in p.to ==> ops.InputPort(e).ty == ops.InputPort(f).ty
  }

  predicate Targeted(es: seq<Entry>, to: Endpoint) {
    exists e :: e in es && e.to == to
  }

  ghost predicate RequiredBound(ops: Operands, es: seq<Entry>) {
    forall to: Endpoint :: ops.Receives(to) && ops.InputPort(to).required ==> Targeted(es, to)
  }

  predicate Taken(es: seq<Entry>, id: string) {
    exists e :: e in es && e.id == id
  }

  /** The requests that are composed. */
  ghost predicate Accepted(ops: Operands, s: Spec) {
    && s.leftAlias != s.rightAlias
    && (forall e :: e in s.edges ==> EdgeKnown(ops, e))
    && InputsDistinct(SortedInputs(s)) && (forall p :: p in s.inputs ==> InputKnown(ops, p))
    && EntriesDistinct(Entries(s))
    && RequiredBound(ops, Entries(s))
    && OutputsDistinct(SortedOutputs(s)) && (forall o :: o in s.outputs ==> ops.Supplies(o.from))
    && forall i: nat :: i < |s.outputs| ==> !Taken(Entries(s), OutId(i))
  }

  // ---- Building the wrapper ----

  /** The entries so far, the operand inputs they bind and the identifiers they use. */
  datatype Draft = Draft(entries: seq<Entry>, bound: set<Endpoint>, ids: set<string>) {
    predicate Tracks() {
      && EntriesDistinct(entries)
      && bound == (set e | e in entries :: e.to)
      && ids == (set e | e in entries :: e.id)
    }

    function Add(e: Entry): Draft {
      Draft(entries + [e], bound + {e.to}, ids + {e.id})
    }
  }

  lemma AddTracks(d: Draft, e: Entry)
    requires d.Tracks()
    ensures EntriesDistinct(d.entries + [e]) <==> e.to !in d.bound && e.id !in d.ids
    ensures EntriesDistinct(d.entries + [e]) ==> d.Add(e).Tracks()
  {
    var es := d.entries + [e];
    if e.to in d.bound || e.id in d.ids {
      var i :| 0 <= i < |d.entries| && (d.entries[i].to == e.to || d.entries[i].id == e.id);
      assert es[i] == d.entries[i] && es[|d.entries|] == e;
    } else {
      forall i, j | 0 <= i < j < |es|
        ensures es[i].id != es[j].id && es[i].to != es[j].to
      {
        assert es[i] == d.entries[i] && es[i] in d.entries;
        assert j < |d.entries| ==> es[j] == d.entries[j];
      }
      assert forall x :: x in es <==> x in d.entries || x == e;
    }
  }

  lemma DistinctPrefix(a: seq<Entry>, b: seq<Entry>)
    requires EntriesDistinct(a + b)
    ensures EntriesDistinct(a)
  {
    assert forall i :: 0 <= i < |a| ==> (a + b)[i] == a[i];
  }

  method BindEdges(ops: Operands, es: seq<JoinEdge>) returns (r: Result<Draft, JoinError>)
    ensures r.Ok? <==> (forall e :: e in es ==> EdgeKnown(ops, e)) && EntriesDistinct(Authored(es))
    ensures r.Ok? ==> r.value.Tracks() && r.value.entries == Authored(es)
  {
    var d := Draft([], {}, {});
    for i := 0 to |es|
      invariant d.Tracks() && d.entries == Authored(es[..i])
      invariant forall k :: 0 <= k < i ==> EdgeKnown(ops, es[k])
    {
      var e := es[i];
      assert e in es;
      if e.from.side == e.to.side {
        return Err(SameOperand);
      }
      if !ops.Supplies(e.from) {
        return Err(UnknownOutput);
      }
      if !ops.Receives(e.to) {
        return Err(UnknownInput);
      }
      var entry := Entry(e.id, FromOperand(e.from), e.to);
      AddTracks(d, entry);
      assert Authored(es[..i + 1]) == Authored(es[..i]) + [entry];
      if e.to in d.bound || e.id in d.ids {
        AuthoredPrefix(es, i + 1);
        return Err(DuplicateEdge);
      }
      d := d.Add(entry);
    }
    assert es[..|es|] == es;
    r := Ok(d);
  }

  lemma AuthoredPrefix(es: seq<JoinEdge>, i: nat)
    requires i <= |es| && !EntriesDistinct(Authored(es[..i]))
    ensures !EntriesDistinct(Authored(es))
  {
    assert Authored(es) == Authored(es[..i]) + Authored(es[i..]);
    if EntriesDistinct(Authored(es)) {
      DistinctPrefix(Authored(es[..i]), Authored(es[i..]));
    }
  }

  /** The port a public input gets from the operand inputs it stands for. */
  ghost predicate PortOf(ops: Operands, to: seq<Endpoint>, port: Types.Port) {
    && (forall e :: e in to ==> ops.Receives(e) && ops.InputPort(e).ty == port.ty)
    && (port.required <==> exists e :: e in to && ops.Receives(e) && ops.InputPort(e).required)
  }

  ghost predicate PrefixPort(ops: Operands, to: seq<Endpoint>, port: Option<Types.Port>) {
    match port
    case None => to == []
    case Some(p) => to != [] && PortOf(ops, to, p)
  }

  /** Endpoints bound by one public input, in order. */
  method Expose(ops: Operands, name: string, to: seq<Endpoint>, k: nat, d: Draft)
      returns (r: Result<(Draft, Types.Port), JoinError>)
    requires d.Tracks() && to != []
    ensures r.Ok? <==> InputKnown(ops, JoinInput(name, to)) && EntriesDistinct(d.entries + FanOut(name, to, k))
    ensures r.Ok? ==> r.value.0.Tracks() && r.value.0.entries == d.entries + FanOut(name, to, k)
    ensures r.Ok? ==> PortOf(ops, to, r.value.1)
  {
    var draft := d;
    var port: Option<Types.Port> := None;
    for i := 0 to |to|
      invariant draft.Tracks() && draft.entries == d.entries + FanOut(name, to[..i], k)
      invariant PrefixPort(ops, to[..i], port)
    {
      var e := to[i];
      assert e in to && to[..i + 1] == to[..i] + [e];
      if !ops.Receives(e) {
        return Err(UnknownInput);
      }
      var entry := Entry(InId(k + i), FromInput(name), e);
      AddTracks(draft, entry);
      FanOutPrefix(d.entries, name, to, k, i);
      if e in draft.bound {
        return Err(BoundTwice);
      }
      var target := ops.InputPort(e);
      if port.Some? && port.value.ty != target.ty {
        assert to[0] in to[..i] && to[0] in to;
        return Err(TypesDiffer);
      }
      port := Some(Types.Port(target.ty, (port.Some? && port.value.required) || target.required));
      if entry.id in draft.ids {
        return Err(Collision);
      }
      draft := draft.Add(entry);
    }
    assert to[..|to|] == to;
    r := Ok((draft, port.value));
  }

  /** One more entry of a public input; no later entry repairs a repetition. */
  lemma FanOutPrefix(before: seq<Entry>, name: string, to: seq<Endpoint>, k: nat, i: nat)
    requires i < |to|
    ensures
      before + FanOut(name, to[..i + 1], k) ==
        before + FanOut(name, to[..i], k) + [Entry(InId(k + i), FromInput(name), to[i])]
    ensures EntriesDistinct(before + FanOut(name, to, k)) ==> EntriesDistinct(before + FanOut(name, to[..i + 1], k))
  {
    var all, some, rest := FanOut(name, to, k), FanOut(name, to[..i + 1], k), FanOut(name, to, k)[i + 1..];
    assert all == some + rest;
    if EntriesDistinct(before + all) {
      assert before + all == (before + some) + rest;
      DistinctPrefix(before + some, rest);
    }
  }

  function InputNames(xs: seq<JoinInput>): set<string> {
    set p | p in xs :: p.name
  }

  /** Each public input has the common type of what it stands for, and is required when any of that is. */
  ghost predicate PortsOf(ops: Operands, xs: seq<JoinInput>, ports: map<string, Types.Port>) {
    ports.Keys == InputNames(xs) && forall p :: p in xs ==> p.name in ports && PortOf(ops, p.to, ports[p.name])
  }

  lemma SameInput(ops: Operands, p: JoinInput)
    ensures InputKnown(ops, JoinInput(p.name, SortedEndpoints(p.to))) <==> InputKnown(ops, p)
    ensures SortedEndpoints(p.to) == [] <==> p.to == []
    ensures forall port :: PortOf(ops, SortedEndpoints(p.to), port) <==> PortOf(ops, p.to, port)
  {
    SortKeeps(EndpointBefore, p.to);
    var to := SortedEndpoints(p.to);
    assert forall e :: e in to <==> e in p.to;
  }

  /** What the public inputs read so far contribute. */
  ghost predicate ExposedSoFar(
      ops: Operands, xs: seq<JoinInput>, start: seq<Entry>, d: Draft, ports: map<string, Types.Port>)
  {
    && d.Tracks() && d.entries == start + Exposed(xs)
    && PortsOf(ops, xs, ports) && InputsDistinct(xs)
    && forall p :: p in xs ==> InputKnown(ops, p)
  }

  lemma NameTaken(xs: seq<JoinInput>, i: nat)
    requires i < |xs| && xs[i].name in InputNames(xs[..i])
    ensures !InputsDistinct(xs)
  {
    var p :| p in xs[..i] && p.name == xs[i].name;
    var k :| 0 <= k < i && xs[k] == p;
  }

  /** One more public input; no later one repairs a repetition. */
  lemma ExposedStep(xs: seq<JoinInput>, i: nat, start: seq<Entry>, fan: seq<Entry>)
    requires i < |xs| && fan == FanOut(xs[i].name, SortedEndpoints(xs[i].to), |Exposed(xs[..i])|)
    ensures start + Exposed(xs[..i + 1]) == start + Exposed(xs[..i]) + fan
    ensures EntriesDistinct(start + Exposed(xs)) ==> EntriesDistinct(start + Exposed(xs[..i]) + fan)
  {
    hide EntriesDistinct, FanOut, SortedEndpoints;
    assert xs[..i + 1][..i] == xs[..i];
    assert start + Exposed(xs[..i + 1]) == start + Exposed(xs[..i]) + fan;
    if EntriesDistinct(start + Exposed(xs)) {
      var rest := ExposedPrefix(xs, i + 1);
      assert start + Exposed(xs) == (start + Exposed(xs[..i + 1])) + rest;
      DistinctPrefix(start + Exposed(xs[..i + 1]), rest);
    }
  }

  lemma ExposedSnoc(xs: seq<JoinInput>)
    requires xs != []
    ensures
      var last, front := xs[|xs| - 1], Exposed(xs[..|xs| - 1]);
      Exposed(xs) == front + FanOut(last.name, SortedEndpoints(last.to), |front|)
  {
  }

  lemma {:induction false} ExposedPrefix(xs: seq<JoinInput>, i: nat) returns (rest: seq<Entry>)
    requires i <= |xs|
    ensures Exposed(xs) == Exposed(xs[..i]) + rest
  {
    hide *;
    if i == |xs| {
      assert xs[..i] == xs;
      rest := [];
    } else {
      var last, front := xs[|xs| - 1], xs[..|xs| - 1];
      ExposedSnoc(xs);
      var some := ExposedPrefix(front, i);
      assert front[..i] == xs[..i];
      rest := some + FanOut(last.name, SortedEndpoints(last.to), |Exposed(front)|);
    }
  }

  lemma ExposedNext(
      ops: Operands, xs: seq<JoinInput>, i: nat, start: seq<Entry>,
      d: Draft, ports: map<string, Types.Port>, next: Draft, port: Types.Port)
    requires i < |xs| && ExposedSoFar(ops, xs[..i], start, d, ports)
    requires xs[i].name !in ports && InputKnown(ops, xs[i]) && PortOf(ops, xs[i].to, port)
    requires next.Tracks() && next.entries == start + Exposed(xs[..i + 1])
    ensures ExposedSoFar(ops, xs[..i + 1], start, next, ports[xs[i].name := port])
  {
    hide InputsDistinct, InputKnown, PortOf, Exposed, Draft.Tracks;
    assert xs[..i + 1] == xs[..i] + [xs[i]];
    assert forall p :: p in xs[..i + 1] <==> p in xs[..i] || p == xs[i];
    NamesDistinct(xs, i);
  }

  lemma NamesDistinct(xs: seq<JoinInput>, i: nat)
    requires i < |xs| && InputsDistinct(xs[..i]) && xs[i].name !in InputNames(xs[..i])
    ensures InputsDistinct(xs[..i + 1])
  {
    var some := xs[..i + 1];
    forall a, b | 0 <= a < b < |some|
      ensures some[a].name != some[b].name
    {
      assert some[a] == xs[..i][a] && xs[..i][a] in xs[..i];
      assert b < i ==> some[b] == xs[..i][b];
    }
  }

  method ExposeAll(ops: Operands, xs: seq<JoinInput>, start: Draft)
      returns (r: Result<(Draft, map<string, Types.Port>), JoinError>)
    requires start.Tracks()
    ensures r.Ok? <==>
      InputsDistinct(xs) && (forall p :: p in xs ==> InputKnown(ops, p)) &&
      EntriesDistinct(start.entries + Exposed(xs))
    ensures r.Ok? ==> ExposedSoFar(ops, xs, start.entries, r.value.0, r.value.1)
  {
    hide EntriesDistinct, InputsDistinct, InputKnown, PortOf, Exposed, FanOut, SortedEndpoints;
    var draft, ports := start, map[];
    Nothing(ops, start);
    for i := 0 to |xs|
      invariant ExposedSoFar(ops, xs[..i], start.entries, draft, ports)
    {
      var p := xs[i];
      assert p in xs;
      ghost var fanned := FanOut(p.name, SortedEndpoints(p.to), |Exposed(xs[..i])|);
      ExposedStep(xs, i, start.entries, fanned);
      SameInput(ops, p);
      if p.name in ports {
        NameTaken(xs, i);
        return Err(BadInput);
      }
      if p.to == [] {
        EmptyInput(ops, p);
        return Err(BadInput);
      }
      var counter := |draft.entries| - |start.entries|;
      var fan := Expose(ops, p.name, SortedEndpoints(p.to), counter, draft);
      if fan.Err? {
        return Err(fan.error);
      }
      ExposedNext(ops, xs, i, start.entries, draft, ports, fan.value.0, fan.value.1);
      draft, ports := fan.value.0, ports[p.name := fan.value.1];
    }
    assert xs[..|xs|] == xs;
    r := Ok((draft, ports));
  }

  lemma Nothing(ops: Operands, start: Draft)
    requires start.Tracks()
    ensures ExposedSoFar(ops, [], start.entries, start, map[])
  {
    assert start.entries + [] == start.entries;
  }

  lemma EmptyInput(ops: Operands, p: JoinInput)
    ensures p.to == [] ==> !InputKnown(ops, p)
  {
  }

  /** Whether every required input of one operand is bound. */
  method CheckRequired(ops: Operands, side: Side, bound: set<Endpoint>) returns (ok: bool)
    ensures ok <==> forall port :: port in ops.At(side).inputs && ops.At(side).inputs[port].required ==>
      Endpoint(side, port) in bound
  {
    var rest := ops.At(side).inputs.Keys;
    while rest != {}
      invariant rest <= ops.At(side).inputs.Keys
      invariant forall port :: port in ops.At(side).inputs && port !in rest && ops.At(side).inputs[port].required ==>
        Endpoint(side, port) in bound
      decreases rest
    {
      var port :| port in rest;
      if ops.At(side).inputs[port].required && Endpoint(side, port) !in bound {
        return false;
      }
      rest := rest - {port};
    }
    ok := true;
  }

  lemma BothRequired(ops: Operands, d: Draft)
    requires d.Tracks()
    ensures RequiredBound(ops, d.entries) <==> forall side, port ::
      port in ops.At(side).inputs && ops.At(side).inputs[port].required ==> Endpoint(side, port) in d.bound
  {
    assert forall to: Endpoint :: Targeted(d.entries, to) <==> to in d.bound;
    assert forall to: Endpoint :: to == Endpoint(to.side, to.port);
    if RequiredBound(ops, d.entries) {
      forall side: Side, port: string | port in ops.At(side).inputs && ops.At(side).inputs[port].required
        ensures Endpoint(side, port) in d.bound
      {
        assert ops.Receives(Endpoint(side, port));
      }
    }
  }

  ghost predicate OutputPortsOf(ops: Operands, xs: seq<JoinOutput>, ports: map<string, Types.Port>) {
    && ports.Keys == (set o | o in xs :: o.name)
    && forall o :: o in xs ==> ops.Supplies(o.from) && o.name in ports && ports[o.name] == ops.OutputPort(o.from)
  }

  method Deliver(ops: Operands, xs: seq<JoinOutput>, d: Draft)
      returns (r: Result<(seq<Exit>, map<string, Types.Port>), JoinError>)
    requires d.Tracks()
    ensures r.Ok? <==>
      OutputsDistinct(xs) && (forall o :: o in xs ==> ops.Supplies(o.from)) &&
      forall i: nat :: i < |xs| ==> !Taken(d.entries, OutId(i))
    ensures r.Ok? ==> r.value.0 == Exits(xs) && OutputPortsOf(ops, xs, r.value.1)
  {
    var exits, ports: map<string, Types.Port> := [], map[];
    var ids := d.ids;
    assert forall id :: id in d.ids <==> Taken(d.entries, id);
    for i := 0 to |xs|
      invariant exits == Exits(xs[..i]) && OutputPortsOf(ops, xs[..i], ports)
      invariant OutputsDistinct(xs[..i])
      invariant forall k: nat :: k < i ==> !Taken(d.entries, OutId(k))
      invariant ids == d.ids + set k: nat | k < i :: OutId(k)
    {
      var o := xs[i];
      assert o in xs && xs[..i + 1] == xs[..i] + [o];
      if o.name in ports {
        return Err(DuplicateOutput);
      }
      if !ops.Supplies(o.from) {
        return Err(UnknownOutput);
      }
      OutIdsDiffer(i);
      if OutId(i) in ids {
        return Err(Collision);
      }
      ids := ids + {OutId(i)};
      ports := ports[o.name := ops.OutputPort(o.from)];
      exits := exits + [Exit(OutId(i), o.from, o.name)];
    }
    assert xs[..|xs|] == xs;
    r := Ok((exits, ports));
  }

  /** Numbered identifiers never repeat. */
  lemma OutIdsDiffer(i: nat)
    ensures forall k: nat :: OutId(k) == OutId(i) ==> k == i
    ensures forall k: nat :: InId(k) == InId(i) ==> k == i
    ensures forall k: nat :: OutId(k) != InId(i)
  {
    forall k: nat
      ensures OutId(k) == OutId(i) ==> k == i
      ensures InId(k) == InId(i) ==> k == i
      ensures OutId(k) != InId(i)
    {
      JsonRoundTrip.DecimalBack(k);
      JsonRoundTrip.DecimalBack(i);
      assert OutId(k)[9..] == Json.Decimal(k) && OutId(i)[9..] == Json.Decimal(i);
      assert InId(k)[8..] == Json.Decimal(k) && InId(i)[8..] == Json.Decimal(i);
      assert OutId(k)[5] == 'o' && InId(i)[5] == 'i';
    }
  }

  /** The wrapper carries exactly the entries and exits of the request, with the ports they give. */
  ghost predicate Composes(ops: Operands, s: Spec, w: Wrapper) {
    && w.entries == Entries(s) && w.exits == Exits(SortedOutputs(s))
    && PortsOf(ops, SortedInputs(s), w.inputs)
    && OutputPortsOf(ops, SortedOutputs(s), w.outputs)
  }

  lemma SortedMembers(s: Spec)
    ensures |SortedInputs(s)| == |s.inputs| && |SortedOutputs(s)| == |s.outputs|
    ensures forall p :: p in SortedInputs(s) <==> p in s.inputs
    ensures forall o :: o in SortedOutputs(s) <==> o in s.outputs
  {
    SortKeeps(InputBefore, s.inputs);
    SortKeeps(OutputBefore, s.outputs);
  }

  /** Composition succeeds exactly on the accepted requests. */
  method Compose(ops: Operands, s: Spec) returns (r: Result<Wrapper, JoinError>)
    ensures r.Ok? <==> Accepted(ops, s)
    ensures r.Ok? ==> Composes(ops, s, r.value)
  {
    hide EntriesDistinct, InputsDistinct, OutputsDistinct, InputKnown, EdgeKnown, RequiredBound, Taken;
    hide SortedInputs, SortedOutputs, Authored, Exposed, Exits, PortsOf, OutputPortsOf;
    SortedMembers(s);
    if s.leftAlias == s.rightAlias {
      return Err(SameAlias);
    }
    var authored := BindEdges(ops, s.edges);
    if authored.Err? {
      AuthoredDistinct(s);
      return Err(authored.error);
    }
    var exposed := ExposeAll(ops, SortedInputs(s), authored.value);
    if exposed.Err? {
      return Err(exposed.error);
    }
    var draft := exposed.value.0;
    BothRequired(ops, draft);
    var left := CheckRequired(ops, Left, draft.bound);
    var right := CheckRequired(ops, Right, draft.bound);
    if !left || !right {
      return Err(Unbound);
    }
    var delivered := Deliver(ops, SortedOutputs(s), draft);
    if delivered.Err? {
      return Err(delivered.error);
    }
    r := Ok(Wrapper(exposed.value.1, delivered.value.1, draft.entries, delivered.value.0));
  }

  lemma AuthoredDistinct(s: Spec)
    ensures EntriesDistinct(Entries(s)) ==> EntriesDistinct(Authored(s.edges))
  {
    if EntriesDistinct(Entries(s)) {
      DistinctPrefix(Authored(s.edges), Exposed(SortedInputs(s)));
    }
  }

  // ---- What composition promises ----

  /** The entries into one operand input. */
  function Into(es: seq<Entry>, to: Endpoint): (r: set<nat>)
    ensures forall i: nat :: i in r <==> i < |es| && es[i].to == to
  {
    set i: nat | i < |es| && es[i].to == to
  }

  /**
   * No operand input has two entries, a required one has exactly one, and an input has
   * one exactly when an edge or a public input of the request names it.
   */
  lemma BoundOnce(ops: Operands, s: Spec, to: Endpoint)
    requires Accepted(ops, s)
    ensures forall i, j :: i in Into(Entries(s), to) && j in Into(Entries(s), to) ==> i == j
    ensures ops.Receives(to) && ops.InputPort(to).required ==> exists i :: i in Into(Entries(s), to)
    ensures (exists i :: i in Into(Entries(s), to)) <==>
      (exists e :: e in s.edges && e.to == to) || (exists p :: p in s.inputs && to in p.to)
  {
    hide *;
    AcceptedParts(ops, s);
    EntriesOnce(Entries(s), to);
    TargetedIff(s, to);
    if ops.Receives(to) && ops.InputPort(to).required {
      RequiredTargeted(ops, Entries(s), to);
    }
  }

  lemma AcceptedParts(ops: Operands, s: Spec)
    requires Accepted(ops, s)
    ensures s.leftAlias != s.rightAlias && EntriesDistinct(Entries(s)) && RequiredBound(ops, Entries(s))
    ensures OutputsDistinct(SortedOutputs(s))
    ensures forall e :: e in s.edges ==> EdgeKnown(ops, e)
    ensures forall p :: p in s.inputs ==> InputKnown(ops, p)
    ensures forall o :: o in s.outputs ==> ops.Supplies(o.from)
  {
  }

  lemma EntriesOnce(es: seq<Entry>, to: Endpoint)
    requires EntriesDistinct(es)
    ensures forall i, j :: i in Into(es, to) && j in Into(es, to) ==> i == j
    ensures Targeted(es, to) <==> exists i :: i in Into(es, to)
  {
    if Targeted(es, to) {
      var i :| 0 <= i < |es| && es[i].to == to;
      assert i in Into(es, to);
    }
  }

  lemma RequiredTargeted(ops: Operands, es: seq<Entry>, to: Endpoint)
    requires RequiredBound(ops, es) && ops.Receives(to) && ops.InputPort(to).required
    ensures Targeted(es, to)
  {
  }

  lemma TargetedIff(s: Spec, to: Endpoint)
    ensures Targeted(Entries(s), to) <==>
      (exists e :: e in s.edges && e.to == to) || (exists p :: p in s.inputs && to in p.to)
  {
    SortedMembers(s);
    ExposedTargets(SortedInputs(s), to);
    AuthoredTargets(s.edges, to);
    assert forall e :: e in Entries(s) <==> e in Authored(s.edges) || e in Exposed(SortedInputs(s));
  }

  lemma AuthoredTargets(es: seq<JoinEdge>, to: Endpoint)
    ensures Targeted(Authored(es), to) <==> exists e :: e in es && e.to == to
  {
    if e :| e in es && e.to == to {
      var i :| 0 <= i < |es| && es[i] == e;
      assert Authored(es)[i].to == to;
    }
  }

  lemma FanTargets(name: string, ends: seq<Endpoint>, k: nat, to: Endpoint)
    ensures Targeted(FanOut(name, ends, k), to) <==> to in ends
  {
    var fan := FanOut(name, ends, k);
    if to in ends {
      var i :| 0 <= i < |ends| && ends[i] == to;
      assert fan[i].to == to;
    }
  }

  lemma TargetedSplit(a: seq<Entry>, b: seq<Entry>, to: Endpoint)
    ensures Targeted(a + b, to) <==> Targeted(a, to) || Targeted(b, to)
  {
    assert forall e :: e in a + b <==> e in a || e in b;
  }

  lemma {:induction false} ExposedTargets(xs: seq<JoinInput>, to: Endpoint)
    ensures Targeted(Exposed(xs), to) <==> exists p :: p in xs && to in p.to
  {
    hide Targeted, FanOut, SortedEndpoints, Sort;
    if xs == [] {
      NoTarget(to);
    } else {
      var last := xs[|xs| - 1];
      var front := xs[..|xs| - 1];
      ExposedTargets(front, to);
      EndpointsSorted(last.to);
      FanTargets(last.name, SortedEndpoints(last.to), |Exposed(front)|, to);
      TargetedSplit(Exposed(front), FanOut(last.name, SortedEndpoints(last.to), |Exposed(front)|), to);
      assert xs == front + [last];
    }
  }

  lemma NoTarget(to: Endpoint)
    ensures !Targeted([], to)
  {
  }

  lemma EndpointsSorted(to: seq<Endpoint>)
    ensures forall e :: e in SortedEndpoints(to) <==> e in to
  {
    SortKeeps(EndpointBefore, to);
  }

  // ---- The numbers come from the request as a set ----

  /** A sequence in a strict order. */
  ghost predicate Increasing<T(!new)>(before: (T, T) -> bool, xs: seq<T>) {
    forall i, j :: 0 <= i < j < |xs| ==> before(xs[i], xs[j])
  }

  /** The public ports of an accepted request come in strictly increasing order of their names. */
  lemma NamesIncrease(ops: Operands, s: Spec)
    requires Accepted(ops, s)
    ensures Increasing(InputBefore, SortedInputs(s)) && Increasing(OutputBefore, SortedOutputs(s))
  {
    hide *;
    BeforeRanks();
    AcceptedParts(ops, s);
    AcceptedNames(ops, s);
    SortInOrder(InputBefore, s.inputs);
    SortInOrder(OutputBefore, s.outputs);
    InputsIncrease(s);
    OutputsIncrease(s);
  }

  lemma AcceptedNames(ops: Operands, s: Spec)
    requires Accepted(ops, s)
    ensures InputsDistinct(SortedInputs(s)) && OutputsDistinct(SortedOutputs(s))
  {
  }

  lemma InputsIncrease(s: Spec)
    requires InOrder(InputBefore, Sort(InputBefore, s.inputs)) && InputsDistinct(SortedInputs(s))
    ensures Increasing(InputBefore, SortedInputs(s))
  {
    hide Sort;
    var xs := SortedInputs(s);
    forall i, j | 0 <= i < j < |xs|
      ensures InputBefore(xs[i], xs[j])
    {
      TextBeforeTotal(xs[i].name, xs[j].name);
    }
  }

  lemma OutputsIncrease(s: Spec)
    requires InOrder(OutputBefore, Sort(OutputBefore, s.outputs)) && OutputsDistinct(SortedOutputs(s))
    ensures Increasing(OutputBefore, SortedOutputs(s))
  {
    hide Sort;
    var xs := SortedOutputs(s);
    forall i, j | 0 <= i < j < |xs|
      ensures OutputBefore(xs[i], xs[j])
    {
      TextBeforeTotal(xs[i].name, xs[j].name);
    }
  }

  /** A strictly increasing sequence is determined by its elements. */
  lemma {:induction false} IncreasingUnique<T(!new)>(before: (T, T) -> bool, xs: seq<T>, ys: seq<T>)
    requires Ranks(before) && Increasing(before, xs) && Increasing(before, ys)
    requires forall x :: x in xs <==> x in ys
    ensures xs == ys
  {
    assert xs != [] ==> xs[0] in ys;
    assert ys != [] ==> ys[0] in xs;
    if xs != [] {
      SameLast(before, xs, ys);
      var a, b, last := xs[..|xs| - 1], ys[..|ys| - 1], xs[|xs| - 1];
      assert xs == a + [last] && ys == b + [last];
      FrontElements(before, a, last);
      FrontElements(before, b, last);
      IncreasingUnique(before, a, b);
    }
  }

  lemma SameLast<T(!new)>(before: (T, T) -> bool, xs: seq<T>, ys: seq<T>)
    requires Ranks(before) && Increasing(before, xs) && Increasing(before, ys) && xs != [] && ys != []
    requires forall x :: x in xs <==> x in ys
    ensures xs[|xs| - 1] == ys[|ys| - 1]
  {
    var x, y := xs[|xs| - 1], ys[|ys| - 1];
    assert x in ys && y in xs;
  }

  lemma FrontElements<T(!new)>(before: (T, T) -> bool, front: seq<T>, last: T)
    requires Ranks(before) && Increasing(before, front + [last])
    ensures Increasing(before, front)
    ensures forall x :: x in front <==> x in front + [last] && x != last
  {
    var xs := front + [last];
    forall i | 0 <= i < |front|
      ensures front[i] != last
    {
      assert before(xs[i], xs[|front|]) && !before(last, front[i]);
    }
    forall i, j | 0 <= i < j < |front|
      ensures before(front[i], front[j])
    {
      assert before(xs[i], xs[j]);
    }
  }

  /** Sorting forgets the order when only equal elements are alike. */
  lemma {:induction false} InOrderUnique<T(!new)>(before: (T, T) -> bool, xs: seq<T>, ys: seq<T>)
    requires InOrder(before, xs) && InOrder(before, ys) && multiset(xs) == multiset(ys)
    requires forall a, b :: !before(a, b) && !before(b, a) ==> a == b
    ensures xs == ys
  {
    assert |xs| == |multiset(xs)| == |multiset(ys)| == |ys|;
    if xs != [] {
      hide InOrder;
      var a, b, x, y := xs[..|xs| - 1], ys[..|ys| - 1], xs[|xs| - 1], ys[|ys| - 1];
      assert xs == a + [x] && ys == b + [y];
      NothingAfter(before, a, x, y, ys);
      NothingAfter(before, b, y, x, xs);
      assert x == y;
      InOrderFront(before, a, x);
      InOrderFront(before, b, y);
      MultisetFront(a, b, x);
      InOrderUnique(before, a, b);
    }
  }

  lemma MultisetFront<T(!new)>(a: seq<T>, b: seq<T>, x: T)
    requires multiset(a + [x]) == multiset(b + [x])
    ensures multiset(a) == multiset(b)
  {
    assert multiset(a) == multiset(a + [x]) - multiset{x} && multiset(b) == multiset(b + [x]) - multiset{x};
  }

  lemma NothingAfter<T(!new)>(before: (T, T) -> bool, front: seq<T>, last: T, y: T, ys: seq<T>)
    requires InOrder(before, front + [last]) && y in ys && multiset(front + [last]) == multiset(ys)
    ensures !before(last, y) || last == y
  {
    var xs := front + [last];
    assert y in multiset(xs);
    var i :| 0 <= i < |xs| && xs[i] == y;
    if i < |front| {
      assert !before(xs[|front|], xs[i]);
    }
  }

  lemma InOrderFront<T(!new)>(before: (T, T) -> bool, front: seq<T>, last: T)
    requires InOrder(before, front + [last])
    ensures InOrder(before, front)
  {
    var xs := front + [last];
    forall i, j | 0 <= i < j < |front|
      ensures !before(front[j], front[i])
    {
      assert !before(xs[j], xs[i]);
    }
  }

  /** The operand inputs of a public input are taken in one order, however they are written. */
  lemma EndpointsOrderFree(a: seq<Endpoint>, b: seq<Endpoint>)
    requires multiset(a) == multiset(b)
    ensures SortedEndpoints(a) == SortedEndpoints(b)
  {
    BeforeRanks();
    SortInOrder(EndpointBefore, a);
    SortInOrder(EndpointBefore, b);
    InOrderUnique(EndpointBefore, SortedEndpoints(a), SortedEndpoints(b));
  }

  /** A public input with its operand inputs in order. */
  function Normal(p: JoinInput): JoinInput {
    JoinInput(p.name, SortedEndpoints(p.to))
  }

  function Normals(xs: seq<JoinInput>): (r: seq<JoinInput>)
    ensures |r| == |xs| && forall i :: 0 <= i < |xs| ==> r[i] == Normal(xs[i])
  {
    seq(|xs|, i requires 0 <= i < |xs| => Normal(xs[i]))
  }

  lemma {:induction false} ExposedNormals(xs: seq<JoinInput>, ys: seq<JoinInput>)
    requires Normals(xs) == Normals(ys)
    ensures Exposed(xs) == Exposed(ys)
  {
    assert |xs| == |ys|;
    if xs != [] {
      var last := |xs| - 1;
      hide Exposed, FanOut, SortedEndpoints;
      assert Normals(xs[..last]) == Normals(xs)[..last] && Normals(ys[..last]) == Normals(ys)[..last];
      ExposedNormals(xs[..last], ys[..last]);
      assert Normal(xs[last]) == Normals(xs)[last] == Normals(ys)[last] == Normal(ys[last]);
      ExposedSnoc(xs);
      ExposedSnoc(ys);
    }
  }

  lemma NormalMembers(xs: seq<JoinInput>)
    ensures forall p :: p in Normals(xs) <==> exists q :: q in xs && Normal(q) == p
  {
    forall q | q in xs
      ensures Normal(q) in Normals(xs)
    {
      var i :| 0 <= i < |xs| && xs[i] == q;
      assert Normals(xs)[i] == Normal(q);
    }
  }

  /** The same public ports, whatever the order they and their operand inputs are written in. */
  ghost predicate SamePorts(s: Spec, t: Spec) {
    && (forall p :: p in Normals(s.inputs) <==> p in Normals(t.inputs))
    && forall o :: o in s.outputs <==> o in t.outputs
  }

  lemma SortedNormals(s: Spec)
    ensures forall p :: p in Normals(SortedInputs(s)) <==> p in Normals(s.inputs)
  {
    hide *;
    SortedMembers(s);
    NormalMembers(SortedInputs(s));
    NormalMembers(s.inputs);
  }

  lemma NormalsIncrease(xs: seq<JoinInput>)
    requires Increasing(InputBefore, xs)
    ensures Increasing(InputBefore, Normals(xs))
  {
  }

  /** Accepted requests for the same ports give the same numbered edges. */
  lemma NumbersOrderFree(ops: Operands, s: Spec, t: Spec)
    requires Accepted(ops, s) && Accepted(ops, t) && SamePorts(s, t)
    ensures Exposed(SortedInputs(s)) == Exposed(SortedInputs(t))
    ensures Exits(SortedOutputs(s)) == Exits(SortedOutputs(t))
  {
    hide *;
    BeforeRanks();
    NamesIncrease(ops, s);
    NamesIncrease(ops, t);
    PortsAre(s, t);
    SortedNormals(s);
    SortedNormals(t);
    NormalsIncrease(SortedInputs(s));
    NormalsIncrease(SortedInputs(t));
    IncreasingUnique(InputBefore, Normals(SortedInputs(s)), Normals(SortedInputs(t)));
    ExposedNormals(SortedInputs(s), SortedInputs(t));
    SortedMembers(s);
    SortedMembers(t);
    IncreasingUnique(OutputBefore, SortedOutputs(s), SortedOutputs(t));
  }

  lemma PortsAre(s: Spec, t: Spec)
    requires SamePorts(s, t)
    ensures forall p :: p in Normals(s.inputs) <==> p in Normals(t.inputs)
    ensures forall o :: o in s.outputs <==> o in t.outputs
  {
  }
}
