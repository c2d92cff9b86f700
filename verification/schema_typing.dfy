// Schema hints inside expression typing (crates/htlk-analyzer/src/type_check.rs:1809-1840,
// crates/htlk-analyzer/src/schema_hints.rs:17-85).

module SchemaTyping {
  import opened Wrappers
  import opened Types
  import opened Values
  import Schemas
  import opened Compatibility
  import opened CompatibilitySound
  import opened SchemaHints
  import SchemaShapes
  import SchemaFamilies
  import SchemaExact

  /** The schema type of a digest holds only valid instances of the schema at its root location. */
  ghost predicate Grounded(w: World, valid: Schemas.Validator, uris: map<nat, string>) {
    forall d: nat, v: Value :: d in uris && IsJson(v) && w.schema(d, v) ==> valid(Schemas.Location(uris[d], []), v)
  }

  /** The hints of the digests an expression mentions; any other schema type is just JSON. */
  function Hinted(table: map<nat, Ty>): nat -> Ty {
    (d: nat) => if d in table then table[d] else Builtin(PJson)
  }

  /** Every digest of the table has a sound hint of its whole instances. */
  ghost predicate TableSound(w: World, valid: Schemas.Validator, uris: map<nat, string>, table: map<nat, Ty>) {
    table.Keys <= uris.Keys &&
    forall d: nat :: d in table ==>
      exists required :: ShapeSound(w, valid, Schemas.Location(uris[d], []), [], Port(table[d], required))
  }

  lemma HintedSound(w: World, valid: Schemas.Validator, uris: map<nat, string>, table: map<nat, Ty>)
    requires Grounded(w, valid, uris) && TableSound(w, valid, uris, table)
    ensures HintsSound(w, Some(Hinted(table)))
  {
    forall d: nat, v: Value | Has(w, v, Schema(d))
      ensures Has(w, v, Hinted(table)(d))
    {
      if d in table {
        var loc := Schemas.Location(uris[d], []);
        var required :| ShapeSound(w, valid, loc, [], Port(table[d], required));
        assert valid(loc, v) && Schemas.Project(v, []).Present?;
      }
    }
  }

  /** The hint of a plain schema within the depth holds exactly its instances. */
  ghost predicate TableExact(
      catalog: Schemas.Catalog, maxDepth: nat, w: World, valid: Schemas.Validator, uris: map<nat, string>,
      table: map<nat, Ty>) {
    forall d: nat, n: nat, v | d in table && d in uris && n <= maxDepth && IsJson(v) ::
      SchemaExact.PlainAt(catalog, Schemas.Location(uris[d], []), n) ==>
        (Has(w, v, table[d]) <==> valid(Schemas.Location(uris[d], []), v))
  }

  lemma RootExact(walker: Walker, loc: Schemas.Location, r: Result<Port, SchemaShapes.HintError>, n: nat, v: Value)
    requires walker.HintIs(loc, [], r) && SchemaExact.PlainAt(walker.catalog, loc, n) && n <= walker.maxDepth
    requires Schemas.Validates(walker.catalog, walker.valid, walker.other) && SchemaFamilies.Bare(walker.other)
    requires IsJson(v) && r.Ok?
    ensures Has(walker.world, v, r.value.ty) <==> walker.valid(loc, v)
  {
    hide *;
    SchemaExact.NoSteps(walker.catalog, loc, n);
    SchemaExact.PlainHint(walker, loc, [], n, r);
  }

  /**
   * The hints of all schemas an analysis may ask for, each walked from the root of its
   * document: together they are the sound hints that compatibility relies on.
   */
  method HintTable(catalog: Schemas.Catalog, maxDepth: nat, uris: map<nat, string>,
      ghost valid: Schemas.Validator, ghost other: Schemas.Validator, ghost w: World)
      returns (r: Result<map<nat, Ty>, SchemaShapes.HintError>)
    requires Schemas.Validates(catalog, valid, other) && Grounded(w, valid, uris)
    ensures r.Ok? ==> r.value.Keys == uris.Keys
    ensures r.Ok? ==> HintsSound(w, Some(Hinted(r.value)))
    ensures r.Ok? && SchemaFamilies.Bare(other) ==> TableExact(catalog, maxDepth, w, valid, uris, r.value)
  {
    hide SchemaFamilies.Bare, Schemas.Validates, ShapeSound, SchemaExact.PlainAt, Has, IsJson;
    var table: map<nat, Ty> := map[];
    var rest := uris.Keys;
    while rest != {}
      invariant rest <= uris.Keys && table.Keys == uris.Keys - rest
      invariant TableSound(w, valid, uris, table)
      invariant SchemaFamilies.Bare(other) ==> TableExact(catalog, maxDepth, w, valid, uris, table)
      decreases rest
    {
      var d :| d in rest;
      var walker := new Walker(catalog, maxDepth, valid, other, w);
      var hint := walker.ProjectionHint(uris[d], []);
      if hint.Err? {
        return Err(hint.error);
      }
      if SchemaFamilies.Bare(other) {
        forall n: nat, v | SchemaExact.PlainAt(catalog, Schemas.Location(uris[d], []), n) && n <= maxDepth && IsJson(v)
          ensures Has(w, v, hint.value.ty) <==> valid(Schemas.Location(uris[d], []), v)
        {
          RootExact(walker, Schemas.Location(uris[d], []), hint, n, v);
        }
      }
      assert ShapeSound(w, valid, Schemas.Location(uris[d], []), [], Port(hint.value.ty, hint.value.required));
      table := table[d := hint.value.ty];
      rest := rest - {d};
    }
    HintedSound(w, valid, uris, table);
    r := Ok(table);
  }
}
