// Leaf-to-root propagation of the bounds (crates/htlk-analyzer/src/structure.rs).

module StructureAnalysis {
  import opened Wrappers
  import opened Graphs
  import opened Structure

  datatype Summary = Summary(scopeDepth: nat, expandedNodes: nat)

  datatype Error = MissingRecord | ScopeDepth | ExpandedNodes | ScopeCycle

  // ---- Use counts ----

  function Left(uses: seq<Use>, done: set<Digest>): nat {
    if uses == [] then 0 else
      Left(uses[..|uses| - 1], done) + if uses[|uses| - 1].child in done then 0 else 1
  }

  function CountTo(uses: seq<Use>, child: Digest): nat {
    if uses == [] then 0 else
      CountTo(uses[..|uses| - 1], child) + if uses[|uses| - 1].child == child then 1 else 0
  }

  function WeightTo(uses: seq<Use>, child: Digest): nat {
    if uses == [] then 0 else
      var u := uses[|uses| - 1];
      WeightTo(uses[..|uses| - 1], child) + if u.child == child then u.multiplier else 0
  }

  /** One entry per use of a definition: the user and the multiplier. */
  type Parents = seq<(Digest, nat)>

  function CountFrom(entries: Parents, parent: Digest): nat {
    if entries == [] then 0 else
      CountFrom(entries[..|entries| - 1], parent) + if entries[|entries| - 1].0 == parent then 1 else 0
  }

  function WeightFrom(entries: Parents, parent: Digest): nat {
    if entries == [] then 0 else
      var e := entries[|entries| - 1];
      WeightFrom(entries[..|entries| - 1], parent) + if e.0 == parent then e.1 else 0
  }

  lemma {:induction false} LeftZero(uses: seq<Use>, done: set<Digest>)
    ensures Left(uses, done) == 0 <==> UsesIn(uses, done)
  {
    if uses != [] {
      LeftZero(uses[..|uses| - 1], done);
      assert uses[|uses| - 1] in uses;
      assert forall u :: u in uses ==> u in uses[..|uses| - 1] || u == uses[|uses| - 1];
    }
  }

  /** Completing one more definition accounts for exactly its uses. */
  lemma {:induction false} CompleteOne(
      uses: seq<Use>, depth: map<Digest, nat>, expanded: map<Digest, nat>, done: set<Digest>,
      id: Digest, d: nat, n: nat)
    requires depth.Keys == done && expanded.Keys == done && id !in done
    ensures
      var more, depth', expanded' := done + {id}, depth[id := d], expanded[id := n];
      && Left(uses, more) + CountTo(uses, id) == Left(uses, done)
      && Sum(uses, expanded', more) == Sum(uses, expanded, done) + WeightTo(uses, id) * n
      && Deepest(uses, depth', more) ==
        Max(Deepest(uses, depth, done), if CountTo(uses, id) > 0 then d else 0)
  {
    if uses != [] {
      var u, front := uses[|uses| - 1], uses[..|uses| - 1];
      CompleteOne(front, depth, expanded, done, id, d, n);
      if u.child == id {
        Distribute(WeightTo(front, id), u.multiplier, n);
      }
    }
  }

  lemma Distribute(a: nat, b: nat, n: nat)
    ensures (a + b) * n == a * n + b * n
  {
  }

  /** The entries of every definition match the uses of the scanned ones. */
  ghost predicate Recorded(f: Scopes, parents: map<Digest, Parents>, scanned: set<Digest>) {
    forall p, c :: p in f ==>
      Matches(Entries(parents, c), p, if p in scanned then f[p].uses else [], c)
  }

  ghost predicate Matches(entries: Parents, p: Digest, uses: seq<Use>, c: Digest) {
    CountFrom(entries, p) == CountTo(uses, c) && WeightFrom(entries, p) == WeightTo(uses, c)
  }

  function Entries(parents: map<Digest, Parents>, c: Digest): Parents {
    if c in parents then parents[c] else []
  }

  // ---- The algorithm ----

  /** Unfinished uses, and the bounds from the finished ones. */
  datatype Pending = Pending(children: nat, depth: nat, nodes: nat)

  lemma EntriesSnoc(entries: Parents, e: (Digest, nat), q: Digest)
    ensures CountFrom(entries + [e], q) == CountFrom(entries, q) + if e.0 == q then 1 else 0
    ensures WeightFrom(entries + [e], q) == WeightFrom(entries, q) + if e.0 == q then e.1 else 0
  {
  }

  lemma UsesSnoc(uses: seq<Use>, k: nat, c: Digest)
    requires k < |uses|
    ensures CountTo(uses[..k + 1], c) == CountTo(uses[..k], c) + if uses[k].child == c then 1 else 0
    ensures WeightTo(uses[..k + 1], c) == WeightTo(uses[..k], c) + if uses[k].child == c then uses[k].multiplier else 0
  {
    assert uses[..k + 1][..k] == uses[..k];
  }

  ghost predicate EntriesIn(parents: map<Digest, Parents>, ids: set<Digest>) {
    forall c, e :: c in parents && e in parents[c] ==> e.0 in ids
  }

  /** The entries while a definition is scanned, `k` of its uses so far. */
  ghost predicate Recording(f: Scopes, p: Digest, parents: map<Digest, Parents>, scanned: set<Digest>, k: nat)
    requires p in f && k <= |f[p].uses|
  {
    && EntriesIn(parents, f.Keys)
    && (forall q, c :: q in f && q != p ==> Matches(Entries(parents, c), q, if q in scanned then f[q].uses else [], c))
    && forall c :: Matches(Entries(parents, c), p, f[p].uses[..k], c)
  }

  function AddEntry(parents: map<Digest, Parents>, p: Digest, u: Use): map<Digest, Parents> {
    parents[u.child := Entries(parents, u.child) + [(p, u.multiplier)]]
  }

  lemma RecordStep(f: Scopes, p: Digest, parents: map<Digest, Parents>, scanned: set<Digest>, k: nat)
    requires p in f && k < |f[p].uses| && Recording(f, p, parents, scanned, k)
    ensures Recording(f, p, AddEntry(parents, p, f[p].uses[k]), scanned, k + 1)
  {
    var u := f[p].uses[k];
    var next := AddEntry(parents, p, u);
    forall c
      ensures Matches(Entries(next, c), p, f[p].uses[..k + 1], c)
    {
      UsesSnoc(f[p].uses, k, c);
      EntriesSnoc(Entries(parents, u.child), (p, u.multiplier), p);
      assert Matches(Entries(parents, c), p, f[p].uses[..k], c);
    }
    forall q, c | q in f && q != p
      ensures Matches(Entries(next, c), q, if q in scanned then f[q].uses else [], c)
    {
      EntriesSnoc(Entries(parents, u.child), (p, u.multiplier), q);
      assert Matches(Entries(parents, c), q, if q in scanned then f[q].uses else [], c);
    }
  }

  lemma RecordStart(f: Scopes, p: Digest, parents: map<Digest, Parents>, scanned: set<Digest>)
    requires p in f && p !in scanned && Recorded(f, parents, scanned) && EntriesIn(parents, f.Keys)
    ensures Recording(f, p, parents, scanned, 0)
  {
  }

  lemma RecordEnd(f: Scopes, p: Digest, parents: map<Digest, Parents>, scanned: set<Digest>)
    requires p in f && Recording(f, p, parents, scanned, |f[p].uses|)
    ensures Recorded(f, parents, scanned + {p}) && EntriesIn(parents, f.Keys)
  {
    assert f[p].uses[..|f[p].uses|] == f[p].uses;
  }

  /** Appends one entry per use of a definition. */
  method Record(f: Scopes, p: Digest, before: map<Digest, Parents>, ghost scanned: set<Digest>)
    returns (parents: map<Digest, Parents>)
    requires p in f && p !in scanned && Recorded(f, before, scanned) && EntriesIn(before, f.Keys)
    ensures Recorded(f, parents, scanned + {p}) && EntriesIn(parents, f.Keys)
  {
    hide *;
    parents := before;
    RecordStart(f, p, parents, scanned);
    for k := 0 to |f[p].uses|
      invariant Recording(f, p, parents, scanned, k)
    {
      RecordStep(f, p, parents, scanned, k);
      parents := AddEntry(parents, p, f[p].uses[k]);
    }
    RecordEnd(f, p, parents, scanned);
  }

  /** The first pass: node counts within policy, uses present, entries recorded. */
  method Scan(f: Scopes, policy: Policy) returns (r: Option<Error>, parents: map<Digest, Parents>)
    ensures r != Some(ScopeCycle) && (r.None? <==> forall d :: d in f ==> Admitted(f, policy, d))
    ensures r.None? ==> Recorded(f, parents, f.Keys) && EntriesIn(parents, f.Keys)
  {
    parents := map[];
    var rest := f.Keys;
    while rest != {}
      invariant rest <= f.Keys
      invariant forall d :: d in f && d !in rest ==> Admitted(f, policy, d)
      invariant Recorded(f, parents, f.Keys - rest) && EntriesIn(parents, f.Keys)
      decreases rest
    {
      var d :| d in rest;
      if f[d].nodes > policy.maximumExpandedNodes {
        return Some(ExpandedNodes), map[];
      }
      if u :| u in f[d].uses && u.child !in f {
        return Some(MissingRecord), map[];
      }
      parents := Record(f, d, parents, f.Keys - rest);
      rest := rest - {d};
      assert f.Keys - rest == f.Keys - (rest + {d}) + {d};
    }
    assert f.Keys - rest == f.Keys;
    r := None;
  }

  ghost predicate Admitted(f: Scopes, policy: Policy, d: Digest)
    requires d in f
  {
    f[d].nodes <= policy.maximumExpandedNodes && UsesIn(f[d].uses, f.Keys)
  }

  /** What the pending summary of a definition holds once `done` are finished. */
  ghost function Partial(f: Scopes, p: Digest, depth: map<Digest, nat>, expanded: map<Digest, nat>): Pending
    requires p in f && depth.Keys == expanded.Keys
  {
    var done := depth.Keys;
    Pending(Left(f[p].uses, done), 1 + Deepest(f[p].uses, depth, done), f[p].nodes + Sum(f[p].uses, expanded, done))
  }

  // ---- Propagation from one finished definition ----

  /** One pending summary after `entries` of the finished `child` were applied. */
  ghost predicate Applied(now: Pending, was: Pending, child: Pending, p: Digest, entries: Parents) {
    && now.children + CountFrom(entries, p) == was.children
    && now.depth == Max(was.depth, if CountFrom(entries, p) > 0 then child.depth + 1 else 0)
    && now.nodes == was.nodes + WeightFrom(entries, p) * child.nodes
  }

  ghost predicate AllApplied(
      now: map<Digest, Pending>, was: map<Digest, Pending>, child: Pending, entries: Parents) {
    now.Keys == was.Keys && forall p :: p in was ==> Applied(now[p], was[p], child, p, entries)
  }

  /** The stack holds exactly the unfinished definitions without unfinished uses. */
  ghost predicate Stacked(ready: seq<Digest>, pending: map<Digest, Pending>, done: set<Digest>) {
    Enumerates(ready, set p | p in pending && p !in done && pending[p].children == 0)
  }

  ghost predicate Within(pending: map<Digest, Pending>, policy: Policy) {
    forall p :: p in pending ==> pending[p].nodes <= policy.maximumExpandedNodes
  }

  /** The early rejection: what one entry adds is already too much. */
  ghost predicate TooMuch(was: Pending, child: Pending, p: Digest, entries: Parents, policy: Policy) {
    && CountFrom(entries, p) > 0
    && (child.depth + 1 > policy.maximumScopeDepth
      || was.nodes + WeightFrom(entries, p) * child.nodes > policy.maximumExpandedNodes)
  }

  lemma {:induction false} CountPrefix(entries: Parents, k: nat, p: Digest)
    requires k <= |entries|
    ensures CountFrom(entries[..k], p) <= CountFrom(entries, p)
    ensures WeightFrom(entries[..k], p) <= WeightFrom(entries, p)
    decreases |entries|
  {
    if k == |entries| {
      assert entries[..k] == entries;
    } else {
      assert entries[..|entries| - 1][..k] == entries[..k];
      CountPrefix(entries[..|entries| - 1], k, p);
    }
  }

  lemma EntryStep(entries: Parents, k: nat, p: Digest)
    requires k < |entries|
    ensures CountFrom(entries[..k + 1], p) == CountFrom(entries[..k], p) + if entries[k].0 == p then 1 else 0
    ensures WeightFrom(entries[..k + 1], p) ==
      WeightFrom(entries[..k], p) + if entries[k].0 == p then entries[k].1 else 0
    ensures CountFrom(entries[..k + 1], p) <= CountFrom(entries, p)
    ensures WeightFrom(entries[..k + 1], p) <= WeightFrom(entries, p)
  {
    assert entries[..k + 1][..k] == entries[..k];
    CountPrefix(entries, k + 1, p);
  }

  lemma AppliedStep(now: Pending, next: Pending, was: Pending, child: Pending, p: Digest, entries: Parents, k: nat)
    requires k < |entries| && Applied(now, was, child, p, entries[..k])
    requires CountFrom(entries, p) <= was.children
    requires entries[k].0 != p ==> next == now
    requires entries[k].0 == p ==> next == Pending(
      if now.children > 0 then now.children - 1 else 0, Max(now.depth, child.depth + 1),
      now.nodes + child.nodes * entries[k].1)
    ensures Applied(next, was, child, p, entries[..k + 1])
    ensures entries[k].0 == p ==> now.children > 0
  {
    EntryStep(entries, k, p);
    Distribute(WeightFrom(entries[..k], p), entries[k].1, child.nodes);
  }

  /** A rejected entry stays too much however many follow. */
  lemma RejectedIsTooMuch(
      now: Pending, was: Pending, child: Pending, p: Digest, entries: Parents, k: nat, policy: Policy)
    requires k < |entries| && Applied(now, was, child, p, entries[..k]) && entries[k].0 == p
    requires child.depth + 1 > policy.maximumScopeDepth
      || now.nodes + child.nodes * entries[k].1 > policy.maximumExpandedNodes
    ensures TooMuch(was, child, p, entries, policy)
  {
    EntryStep(entries, k, p);
    var a, b, c := WeightFrom(entries[..k], p), entries[k].1, WeightFrom(entries, p);
    Distribute(a, b, child.nodes);
    Distribute(a + b, c - (a + b), child.nodes);
    assert (c - (a + b)) * child.nodes >= 0;
  }

  predicate Machine(policy: Policy) {
    policy.maximumScopeDepth <= U64_MAX && policy.maximumExpandedNodes <= U64_MAX
  }

  /** Adds what one entry contributes, with checked 64-bit arithmetic. */
  method Contribute(parent: Pending, child: Pending, multiplier: nat, policy: Policy)
    returns (r: Result<Pending, Error>)
    requires Machine(policy)
    ensures r != Err(ScopeCycle)
    ensures r.Ok? <==>
      && child.depth + 1 <= policy.maximumScopeDepth
      && parent.nodes + child.nodes * multiplier <= policy.maximumExpandedNodes
    ensures r.Ok? ==> r.value == Pending(if parent.children > 0 then parent.children - 1 else 0,
      Max(parent.depth, child.depth + 1), parent.nodes + child.nodes * multiplier)
  {
    if child.depth + 1 > U64_MAX || child.depth + 1 > policy.maximumScopeDepth {
      return Err(ScopeDepth);
    }
    var product := child.nodes * multiplier;
    if product > U64_MAX || parent.nodes + product > U64_MAX {
      return Err(ExpandedNodes);
    }
    if parent.nodes + product > policy.maximumExpandedNodes {
      return Err(ExpandedNodes);
    }
    r := Ok(Pending(if parent.children > 0 then parent.children - 1 else 0,
      Max(parent.depth, child.depth + 1), parent.nodes + product));
  }

  /** The state after `k` entries. */
  ghost predicate Propagating(now: map<Digest, Pending>, was: map<Digest, Pending>, child: Pending,
      entries: Parents, k: nat, ready: seq<Digest>, done: set<Digest>, policy: Policy)
    requires k <= |entries|
  {
    AllApplied(now, was, child, entries[..k]) && Stacked(ready, now, done) && Within(now, policy)
  }

  ghost predicate Propagates(was: map<Digest, Pending>, entries: Parents, done: set<Digest>) {
    && (forall e :: e in entries ==> e.0 in was && e.0 !in done)
    && forall p :: p in was ==> CountFrom(entries, p) <= was[p].children
  }

  function Pushed(ready: seq<Digest>, p: Digest, now: Pending): seq<Digest> {
    if now.children == 0 then ready + [p] else ready
  }

  lemma StackedPush(ready: seq<Digest>, pending: map<Digest, Pending>, done: set<Digest>, p: Digest, now: Pending)
    requires Stacked(ready, pending, done) && p in pending && p !in done && pending[p].children > 0
    ensures Stacked(Pushed(ready, p, now), pending[p := now], done)
  {
    assert p !in ready;
  }

  lemma PropagateStep(now: map<Digest, Pending>, was: map<Digest, Pending>, child: Pending,
      entries: Parents, k: nat, ready: seq<Digest>, done: set<Digest>, policy: Policy, next: Pending)
    requires k < |entries| && Propagating(now, was, child, entries, k, ready, done, policy)
    requires Propagates(was, entries, done)
    requires
      var p := entries[k].0;
      && p in now && next.nodes <= policy.maximumExpandedNodes
      && next == Pending(if now[p].children > 0 then now[p].children - 1 else 0,
        Max(now[p].depth, child.depth + 1), now[p].nodes + child.nodes * entries[k].1)
    ensures Propagating(now[entries[k].0 := next], was, child, entries, k + 1,
      Pushed(ready, entries[k].0, next), done, policy)
  {
    var p := entries[k].0;
    var now' := now[p := next];
    assert p in was && p !in done;
    AppliedStep(now[p], next, was[p], child, p, entries, k);
    StackedPush(ready, now, done, p, next);
    forall q | q in was
      ensures Applied(now'[q], was[q], child, q, entries[..k + 1])
    {
      AppliedStep(now[q], now'[q], was[q], child, q, entries, k);
    }
  }

  lemma PropagateStart(was: map<Digest, Pending>, child: Pending, entries: Parents, ready: seq<Digest>,
      done: set<Digest>, policy: Policy)
    requires Stacked(ready, was, done) && Within(was, policy)
    ensures Propagating(was, was, child, entries, 0, ready, done, policy)
  {
  }

  lemma EntryAt(now: map<Digest, Pending>, was: map<Digest, Pending>, child: Pending,
      entries: Parents, k: nat, ready: seq<Digest>, done: set<Digest>, policy: Policy)
    requires k < |entries| && Propagating(now, was, child, entries, k, ready, done, policy)
    requires Propagates(was, entries, done)
    ensures entries[k].0 in now && entries[k].0 in was && entries[k] in entries
    ensures Applied(now[entries[k].0], was[entries[k].0], child, entries[k].0, entries[..k])
  {
  }

  lemma PropagateEnd(now: map<Digest, Pending>, was: map<Digest, Pending>, child: Pending,
      entries: Parents, ready: seq<Digest>, done: set<Digest>, policy: Policy)
    requires Propagating(now, was, child, entries, |entries|, ready, done, policy)
    ensures AllApplied(now, was, child, entries) && Stacked(ready, now, done) && Within(now, policy)
  {
    assert entries[..|entries|] == entries;
  }

  ghost predicate Rejects(was: map<Digest, Pending>, child: Pending, entries: Parents, policy: Policy) {
    exists p :: p in was && TooMuch(was[p], child, p, entries, policy)
  }

  /** Applies every entry of a finished definition to its users. */
  method Propagate(was: map<Digest, Pending>, child: Pending, entries: Parents, before: seq<Digest>,
      ghost done: set<Digest>, policy: Policy)
    returns (r: Option<Error>, pending: map<Digest, Pending>, ready: seq<Digest>)
    requires Machine(policy) && Stacked(before, was, done) && Within(was, policy)
    requires Propagates(was, entries, done)
    ensures r.None? ==> AllApplied(pending, was, child, entries)
    ensures r.None? ==> Stacked(ready, pending, done) && Within(pending, policy)
    ensures r != Some(ScopeCycle) && (r.Some? ==> Rejects(was, child, entries, policy))
  {
    hide *;
    pending, ready := was, before;
    PropagateStart(was, child, entries, ready, done, policy);
    for k := 0 to |entries|
      invariant Propagating(pending, was, child, entries, k, ready, done, policy)
    {
      EntryAt(pending, was, child, entries, k, ready, done, policy);
      var (p, multiplier) := entries[k];
      var next := Contribute(pending[p], child, multiplier, policy);
      if next.Err? {
        RejectedIsTooMuch(pending[p], was[p], child, p, entries, k, policy);
        RejectsAt(was, child, entries, policy, p);
        return Some(next.error), pending, ready;
      }
      PropagateStep(pending, was, child, entries, k, ready, done, policy, next.value);
      pending := pending[p := next.value];
      ready := Pushed(ready, p, next.value);
    }
    PropagateEnd(pending, was, child, entries, ready, done, policy);
    r := None;
  }

  lemma RejectsAt(was: map<Digest, Pending>, child: Pending, entries: Parents, policy: Policy, p: Digest)
    requires p in was && TooMuch(was[p], child, p, entries, policy)
    ensures Rejects(was, child, entries, policy)
  {
  }

  // ---- The main loop ----

  /** Every summary holds the contributions of the finished definitions, which are solved. */
  ghost predicate Progress(
      f: Scopes, pending: map<Digest, Pending>, depth: map<Digest, nat>, expanded: map<Digest, nat>)
  {
    && ClosedOn(f, depth.Keys, depth, expanded) && pending.Keys == f.Keys
    && forall p :: p in f ==> pending[p] == Partial(f, p, depth, expanded)
  }

  lemma StartProgress(f: Scopes, p: Digest)
    requires p in f
    ensures Partial(f, p, map[], map[]) == Pending(|f[p].uses|, 1, f[p].nodes)
  {
    var none: map<Digest, nat> := map[];
    assert none.Keys == {};
    StartSums(f[p].uses);
  }

  lemma {:induction false} StartSums(uses: seq<Use>)
    ensures Left(uses, {}) == |uses| && Deepest(uses, map[], {}) == 0 && Sum(uses, map[], {}) == 0
  {
    if uses != [] {
      StartSums(uses[..|uses| - 1]);
    }
  }

  /** Finishing a definition and applying its entries. */
  lemma FinishOne(f: Scopes, parents: map<Digest, Parents>, was: map<Digest, Pending>, now: map<Digest, Pending>,
      depth: map<Digest, nat>, expanded: map<Digest, nat>, id: Digest)
    requires Progress(f, was, depth, expanded) && Recorded(f, parents, f.Keys)
    requires id in f && id !in depth && was[id].children == 0
    requires AllApplied(now, was, was[id], Entries(parents, id))
    ensures Progress(f, now, depth[id := was[id].depth], expanded[id := was[id].nodes])
  {
    Finishable(f, was, depth, expanded, id);
    var depth', expanded' := depth[id := was[id].depth], expanded[id := was[id].nodes];
    forall p | p in f
      ensures now[p] == Partial(f, p, depth', expanded')
    {
      FinishPartial(f, parents, was, now, depth, expanded, id, p);
    }
  }

  lemma Finishable(
      f: Scopes, was: map<Digest, Pending>, depth: map<Digest, nat>, expanded: map<Digest, nat>, id: Digest)
    requires Progress(f, was, depth, expanded) && id in f && id !in depth && was[id].children == 0
    ensures ClosedOn(f, depth.Keys + {id}, depth[id := was[id].depth], expanded[id := was[id].nodes])
  {
    hide *;
    FinishableParts(f, was, depth, expanded, id);
    ExtendClosed(f, depth.Keys, depth, expanded, id);
  }

  lemma FinishableParts(
      f: Scopes, was: map<Digest, Pending>, depth: map<Digest, nat>, expanded: map<Digest, nat>, id: Digest)
    requires Progress(f, was, depth, expanded) && id in f && id !in depth && was[id].children == 0
    ensures ClosedOn(f, depth.Keys, depth, expanded) && UsesIn(f[id].uses, depth.Keys)
    ensures id in was && depth.Keys == expanded.Keys
    ensures was[id].depth == 1 + Deepest(f[id].uses, depth, depth.Keys)
    ensures was[id].nodes == f[id].nodes + Sum(f[id].uses, expanded, depth.Keys)
  {
    LeftZero(f[id].uses, depth.Keys);
  }

  lemma FinishPartial(f: Scopes, parents: map<Digest, Parents>, was: map<Digest, Pending>, now: map<Digest, Pending>,
      depth: map<Digest, nat>, expanded: map<Digest, nat>, id: Digest, p: Digest)
    requires Progress(f, was, depth, expanded) && Recorded(f, parents, f.Keys)
    requires id in f && id !in depth && p in f && p in now
    requires Applied(now[p], was[p], was[id], p, Entries(parents, id))
    ensures now[p] == Partial(f, p, depth[id := was[id].depth], expanded[id := was[id].nodes])
  {
    CompleteOne(f[p].uses, depth, expanded, depth.Keys, id, was[id].depth, was[id].nodes);
    assert Matches(Entries(parents, id), p, f[p].uses, id);
    assert depth[id := was[id].depth].Keys == depth.Keys + {id};
  }

  /** The entries of a finishable definition name unfinished users, with room to decrement. */
  lemma CanPropagate(f: Scopes, parents: map<Digest, Parents>, was: map<Digest, Pending>,
      depth: map<Digest, nat>, expanded: map<Digest, nat>, id: Digest)
    requires Progress(f, was, depth, expanded) && Recorded(f, parents, f.Keys) && EntriesIn(parents, f.Keys)
    requires id in f && id !in depth && was[id].children == 0
    ensures Propagates(was, Entries(parents, id), depth.Keys + {id})
  {
    forall p | p in f
      ensures CountFrom(Entries(parents, id), p) <= was[p].children
    {
      CompleteOne(f[p].uses, depth, expanded, depth.Keys, id, 0, 0);
      assert Matches(Entries(parents, id), p, f[p].uses, id);
    }
    forall e | e in Entries(parents, id)
      ensures e.0 in was && e.0 !in depth.Keys + {id}
    {
      CountMember(Entries(parents, id), e);
      LeftZero(f[e.0].uses, depth.Keys);
    }
  }

  lemma {:induction false} CountMember(entries: Parents, e: (Digest, nat))
    requires e in entries
    ensures CountFrom(entries, e.0) > 0
  {
    if e != entries[|entries| - 1] {
      assert e in entries[..|entries| - 1];
      CountMember(entries[..|entries| - 1], e);
    }
  }

  // ---- Why rejections are right ----

  /** No partial sum exceeds the bounds of the root. */
  lemma PartialBelow(
      f: Scopes, root: Digest, ids: set<Digest>, depth: map<Digest, nat>, expanded: map<Digest, nat>, p: Digest,
      allDepth: map<Digest, nat>, allExpanded: map<Digest, nat>)
    requires Rooted(f, root) && ClosedOn(f, ids, depth, expanded) && p in f
    requires Solution(f, allDepth, allExpanded)
    ensures Partial(f, p, depth, expanded).depth <= allDepth[root]
    ensures Partial(f, p, depth, expanded).nodes <= allExpanded[root]
  {
    forall d | d in ids
      ensures depth[d] == allDepth[d] && expanded[d] == allExpanded[d]
    {
      PartAgrees(f, ids, depth, expanded, allDepth, allExpanded, d);
    }
    SumGrows(f[p].uses, expanded, allExpanded, ids, f.Keys);
    DeepestGrows(f[p].uses, depth, allDepth, ids, f.Keys);
    var path :| PathFrom(UseEdges(f), path, root, p);
    ReachedBelow(f, allDepth, allExpanded, path);
  }

  lemma RejectionIsRight(f: Scopes, root: Digest, parents: map<Digest, Parents>, was: map<Digest, Pending>,
      depth: map<Digest, nat>, expanded: map<Digest, nat>, id: Digest, policy: Policy)
    requires Rooted(f, root) && Progress(f, was, depth, expanded) && Recorded(f, parents, f.Keys)
    requires id in f && id !in depth && was[id].children == 0
    requires Rejects(was, was[id], Entries(parents, id), policy)
    ensures !Fits(f, root, policy)
  {
    if allDepth, allExpanded :| FitsWith(f, root, policy, allDepth, allExpanded) {
      var p :| p in was && TooMuch(was[p], was[id], p, Entries(parents, id), policy);
      Finishable(f, was, depth, expanded, id);
      var depth', expanded' := depth[id := was[id].depth], expanded[id := was[id].nodes];
      CompleteOne(f[p].uses, depth, expanded, depth.Keys, id, was[id].depth, was[id].nodes);
      assert Matches(Entries(parents, id), p, f[p].uses, id);
      assert depth'.Keys == depth.Keys + {id};
      PartialBelow(f, root, depth'.Keys, depth', expanded', p, allDepth, allExpanded);
      assert false;
    }
  }

  /** A stack that runs out early leaves a cycle behind. */
  lemma StuckIsCycle(
      f: Scopes, root: Digest, pending: map<Digest, Pending>, depth: map<Digest, nat>,
      expanded: map<Digest, nat>, policy: Policy)
    requires Rooted(f, root) && Progress(f, pending, depth, expanded) && depth.Keys != f.Keys
    requires Stacked([], pending, depth.Keys) && forall d :: d in f ==> UsesIn(f[d].uses, f.Keys)
    ensures Cyclic(UseEdges(f)) && !Fits(f, root, policy)
  {
    var ids := depth.Keys;
    forall d | d in f.Keys - ids
      ensures !UsesIn(f[d].uses, ids)
    {
      LeftZero(f[d].uses, ids);
      if pending[d].children == 0 {
        assert d in [];
      }
    }
    LeftIsCyclic(f, ids);
    if allDepth, allExpanded :| FitsWith(f, root, policy, allDepth, allExpanded) {
      SolutionIsAcyclic(f, allDepth, allExpanded);
      assert false;
    }
  }

  lemma AdmittedWhenFits(f: Scopes, root: Digest, policy: Policy, d: Digest)
    requires Rooted(f, root) && Fits(f, root, policy) && d in f
    ensures Admitted(f, policy, d)
  {
    var depth, expanded :| FitsWith(f, root, policy, depth, expanded);
    StartProgress(f, d);
    PartialBelow(f, root, {}, map[], map[], d, depth, expanded);
  }

  /** At the end the root's summary is the solution. */
  lemma EndSummary(
      f: Scopes, root: Digest, pending: map<Digest, Pending>, depth: map<Digest, nat>,
      expanded: map<Digest, nat>, policy: Policy)
    requires Rooted(f, root) && Progress(f, pending, depth, expanded) && depth.Keys == f.Keys
    requires Within(pending, policy)
    ensures Solved(f, root, Summary(pending[root].depth, pending[root].nodes))
    ensures Fits(f, root, policy) <==> pending[root].depth <= policy.maximumScopeDepth
  {
    assert Solution(f, depth, expanded);
    if pending[root].depth <= policy.maximumScopeDepth {
      assert FitsWith(f, root, policy, depth, expanded);
    }
    forall allDepth, allExpanded | Solution(f, allDepth, allExpanded)
      ensures allDepth[root] == pending[root].depth && allExpanded[root] == pending[root].nodes
    {
      PartAgrees(f, f.Keys, depth, expanded, allDepth, allExpanded, root);
    }
  }

  /** The summary gives the root's recursive bounds. */
  ghost predicate Solved(f: Scopes, root: Digest, s: Summary) {
    && (exists depth, expanded :: Solution(f, depth, expanded))
    && forall depth, expanded :: Solution(f, depth, expanded) ==> root in f && s == Summary(depth[root], expanded[root])
  }

  lemma PopReady(
      f: Scopes, pending: map<Digest, Pending>, depth: map<Digest, nat>, expanded: map<Digest, nat>,
      ready: seq<Digest>)
    requires Progress(f, pending, depth, expanded) && Stacked(ready, pending, depth.Keys) && ready != []
    ensures
      var id := ready[|ready| - 1];
      && id in f && id in pending && id !in depth && pending[id].children == 0
      && Stacked(ready[..|ready| - 1], pending, depth.Keys + {id})
  {
    var id, front := ready[|ready| - 1], ready[..|ready| - 1];
    assert id in ready;
    var before := set p | p in pending && p !in depth.Keys && pending[p].children == 0;
    EnumeratesFront(ready, before);
    assert before - {id} == set p | p in pending && p !in depth.Keys + {id} && pending[p].children == 0;
  }

  lemma StackedMore(ready: seq<Digest>, pending: map<Digest, Pending>, rest: set<Digest>, p: Digest)
    requires Stacked(ready, pending, rest) && p in rest && p in pending
    ensures Stacked(if pending[p].children == 0 then ready + [p] else ready, pending, rest - {p})
  {
    var before := set q | q in pending && q !in rest && pending[q].children == 0;
    var after := set q | q in pending && q !in rest - {p} && pending[q].children == 0;
    if pending[p].children == 0 {
      assert after == before + {p};
      EnumeratesSnoc(ready, before, p);
    } else {
      assert after == before;
    }
  }

  /** Pending summaries of single definitions, and those without uses on the stack. */
  method Start(f: Scopes) returns (pending: map<Digest, Pending>, ready: seq<Digest>)
    ensures Progress(f, pending, map[], map[]) && Stacked(ready, pending, {})
    ensures forall p :: p in f ==> pending[p].nodes == f[p].nodes
  {
    pending := map p | p in f :: Pending(|f[p].uses|, 1, f[p].nodes);
    forall p | p in f
      ensures pending[p] == Partial(f, p, map[], map[])
    {
      StartProgress(f, p);
    }
    ready := [];
    var rest := f.Keys;
    while rest != {}
      invariant rest <= f.Keys && pending.Keys == f.Keys
      invariant Stacked(ready, pending, rest)
      decreases rest
    {
      var p :| p in rest;
      StackedMore(ready, pending, rest, p);
      if pending[p].children == 0 {
        ready := ready + [p];
      }
      rest := rest - {p};
    }
  }

  ghost predicate Looping(f: Scopes, pending: map<Digest, Pending>, depth: map<Digest, nat>, expanded: map<Digest, nat>,
      ready: seq<Digest>, policy: Policy) {
    Progress(f, pending, depth, expanded) && Stacked(ready, pending, depth.Keys) && Within(pending, policy)
  }

  lemma NotAdmitted(f: Scopes, root: Digest, policy: Policy)
    requires Rooted(f, root) && !forall d :: d in f ==> Admitted(f, policy, d)
    ensures !Fits(f, root, policy)
  {
    var d :| d in f && !Admitted(f, policy, d);
    if Fits(f, root, policy) {
      AdmittedWhenFits(f, root, policy, d);
      assert false;
    }
  }

  lemma StartLooping(f: Scopes, pending: map<Digest, Pending>, ready: seq<Digest>, policy: Policy)
    requires Progress(f, pending, map[], map[]) && Stacked(ready, pending, {})
    requires forall p :: p in f ==> pending[p].nodes == f[p].nodes && Admitted(f, policy, p)
    ensures Looping(f, pending, map[], map[], ready, policy) && pending.Keys == f.Keys
    ensures forall none: map<Digest, nat> :: none == map[] ==> none.Keys == {}
  {
  }

  /** The popped definition is finishable, and its users can be updated. */
  lemma LoopNext(f: Scopes, parents: map<Digest, Parents>, pending: map<Digest, Pending>,
      depth: map<Digest, nat>, expanded: map<Digest, nat>, ready: seq<Digest>, policy: Policy)
    requires Looping(f, pending, depth, expanded, ready, policy) && ready != []
    requires Recorded(f, parents, f.Keys) && EntriesIn(parents, f.Keys)
    ensures
      var id := ready[|ready| - 1];
      && id in f && id in pending && id !in depth && pending[id].children == 0
      && Stacked(ready[..|ready| - 1], pending, depth.Keys + {id})
      && Propagates(pending, Entries(parents, id), depth.Keys + {id})
      && Progress(f, pending, depth, expanded) && Within(pending, policy)
      && |depth.Keys| < |f.Keys|
  {
    PopReady(f, pending, depth, expanded, ready);
    var id := ready[|ready| - 1];
    CanPropagate(f, parents, pending, depth, expanded, id);
    Smaller(depth.Keys, f.Keys);
  }

  lemma {:induction false} Smaller(a: set<Digest>, b: set<Digest>)
    requires a < b
    ensures |a| < |b|
  {
    var x :| x in b && x !in a;
    if a != {} {
      var y :| y in a;
      Smaller(a - {y}, b - {y});
    }
  }

  lemma LoopDone(f: Scopes, parents: map<Digest, Parents>, was: map<Digest, Pending>, now: map<Digest, Pending>,
      depth: map<Digest, nat>, expanded: map<Digest, nat>, id: Digest, ready: seq<Digest>, policy: Policy)
    requires Progress(f, was, depth, expanded) && Recorded(f, parents, f.Keys)
    requires id in f && id in was && id !in depth && was[id].children == 0
    requires AllApplied(now, was, was[id], Entries(parents, id))
    requires Stacked(ready, now, depth.Keys + {id}) && Within(now, policy)
    ensures Looping(f, now, depth[id := was[id].depth], expanded[id := was[id].nodes], ready, policy)
    ensures depth[id := was[id].depth].Keys == depth.Keys + {id} && |depth.Keys + {id}| == |depth.Keys| + 1
  {
    hide *;
    FinishOne(f, parents, was, now, depth, expanded, id);
    assert depth[id := was[id].depth].Keys == depth.Keys + {id};
    LoopingAgain(f, now, depth[id := was[id].depth], expanded[id := was[id].nodes], ready, policy);
  }

  lemma LoopingAgain(f: Scopes, pending: map<Digest, Pending>, depth: map<Digest, nat>, expanded: map<Digest, nat>,
      ready: seq<Digest>, policy: Policy)
    requires Progress(f, pending, depth, expanded) && Stacked(ready, pending, depth.Keys) && Within(pending, policy)
    ensures Looping(f, pending, depth, expanded, ready, policy)
  {
  }

  lemma LoopEnd(
      f: Scopes, root: Digest, pending: map<Digest, Pending>, depth: map<Digest, nat>,
      expanded: map<Digest, nat>, policy: Policy)
    requires Rooted(f, root) && Looping(f, pending, depth, expanded, [], policy)
    ensures Progress(f, pending, depth, expanded) && Stacked([], pending, depth.Keys) && Within(pending, policy)
    ensures |pending| == |f.Keys| && root in pending
    ensures |depth.Keys| == |f.Keys| <==> depth.Keys == f.Keys
  {
    assert |pending| == |pending.Keys|;
    if depth.Keys != f.Keys {
      Smaller(depth.Keys, f.Keys);
    }
  }

  lemma AllPresent(f: Scopes, policy: Policy)
    requires forall d :: d in f ==> Admitted(f, policy, d)
    ensures forall d :: d in f ==> UsesIn(f[d].uses, f.Keys)
  {
  }

  /** The bounds of the root from one pass over the uses, never over invocations. */
  method Analyze(f: Scopes, root: Digest, policy: Policy) returns (r: Result<Summary, Error>)
    requires Machine(policy) && Rooted(f, root)
    ensures r.Ok? <==> Fits(f, root, policy)
    ensures r.Ok? ==> Solved(f, root, r.value)
    ensures r == Err(ScopeCycle) ==> Cyclic(UseEdges(f))
  {
    hide *;
    var scanned, parents := Scan(f, policy);
    if scanned.Some? {
      NotAdmitted(f, root, policy);
      return Err(scanned.value);
    }
    var pending: map<Digest, Pending>, ready: seq<Digest> := Start(f);
    ghost var depth: map<Digest, nat>, expanded: map<Digest, nat> := map[], map[];
    AllPresent(f, policy);
    StartLooping(f, pending, ready, policy);
    var completed := 0;
    while ready != []
      invariant Looping(f, pending, depth, expanded, ready, policy)
      invariant completed == |depth.Keys|
      decreases |f.Keys| - completed
    {
      var id := ready[|ready| - 1];
      LoopNext(f, parents, pending, depth, expanded, ready, policy);
      completed := completed + 1;
      var child := pending[id];
      var was := pending;
      var failed;
      failed, pending, ready := Propagate(pending, child, Entries(parents, id), ready[..|ready| - 1],
        depth.Keys + {id}, policy);
      if failed.Some? {
        RejectionIsRight(f, root, parents, was, depth, expanded, id, policy);
        return Err(failed.value);
      }
      LoopDone(f, parents, was, pending, depth, expanded, id, ready, policy);
      depth, expanded := depth[id := child.depth], expanded[id := child.nodes];
    }
    LoopEnd(f, root, pending, depth, expanded, policy);
    if completed != |pending| {
      StuckIsCycle(f, root, pending, depth, expanded, policy);
      return Err(ScopeCycle);
    }
    EndSummary(f, root, pending, depth, expanded, policy);
    if pending[root].depth > policy.maximumScopeDepth {
      return Err(ScopeDepth);
    }
    r := Ok(Summary(pending[root].depth, pending[root].nodes));
  }
}
