// JSON documents: reading, normalising and checking canonical text (crates/htlk-executable/src/json.rs).

module JsonDocuments {
  import opened Wrappers
  import IntegralTokens
  import opened Json
  import opened JsonParser
  import opened JsonRoundTrip
  import JsonGrammar
  import JsonSound
  import JsonCanonical
  import opened JsonReader
  import opened JsonOutput

  /** Canonical text and the value it holds. */
  datatype Document = Document(bytes: string, value: Value)

  /** Documents fit in memory. */
  predicate Machine(limits: Limits) {
    limits.maxBytes <= IntegralTokens.LONGEST
  }

  /** A value that can be written within the limits. */
  ghost predicate Fits(v: Value, limits: Limits) {
    Printable(v, limits.maxDepth) && Width(Print(v)) <= limits.maxBytes
  }

  /** The canonical text of a value. */
  method Encode(v: Value, limits: Limits) returns (r: Result<string, JsonError>)
    ensures r.Ok? <==> Fits(v, limits)
    ensures r.Ok? ==> r.value == Print(v)
  {
    hide *;
    var output := new Output(limits);
    var failed := output.WriteValue(v, 0);
    WroteAll(failed, output.bytes, v, limits);
    r := if failed.Some? then Err(failed.value) else Ok(output.bytes);
  }

  lemma WroteAll(r: Option<JsonError>, now: string, v: Value, limits: Limits)
    requires Wrote(r, "", now, Print(v), limits.maxBytes, Printable(v, limits.maxDepth - 0))
    ensures (r.None? <==> Fits(v, limits)) && (r.None? ==> now == Print(v))
  {
    assert "" + Print(v) == Print(v);
  }

  /** A text of the grammar within the limits, whose value can be written within them too. */
  ghost predicate Authored(bytes: string, v: Value, limits: Limits) {
    && Width(bytes) <= limits.maxBytes
    && JsonGrammar.Denotes(bytes, v, limits.maxDepth) && Fits(v, limits)
  }

  /** Reads authored text and normalises it. */
  method New(bytes: string, limits: Limits) returns (r: Result<Document, JsonError>)
    requires Machine(limits)
    ensures r.Ok? <==> exists v :: Authored(bytes, v, limits)
    ensures forall v :: Authored(bytes, v, limits) ==> r == Ok(Document(Print(v), v))
    ensures
      var o := ParseDocument(bytes, limits.maxDepth);
      r.Ok? <==> Width(bytes) <= limits.maxBytes && o.Ok? && Fits(o.value, limits)
    ensures r.Ok? ==>
      ParseDocument(bytes, limits.maxDepth) == Ok(r.value.value) && r.value.bytes == Print(r.value.value)
  {
    hide *;
    if Width(bytes) > limits.maxBytes {
      NotAuthored(bytes, limits);
      return Err(TooLong);
    }
    ReadableSize(bytes, limits);
    var reader := new Reader(bytes, limits.maxDepth);
    var value := reader.ValueAt(0);
    ReadIs(value, reader.pos, bytes, limits.maxDepth);
    if value.Err? {
      NotAuthored(bytes, limits);
      return Err(value.error);
    }
    reader.SkipSpace();
    if reader.pos != |bytes| {
      NotAuthored(bytes, limits);
      return Err(Syntax);
    }
    var encoded := Encode(value.value, limits);
    r := if encoded.Err? then Err(encoded.error) else Ok(Document(encoded.value, value.value));
    AuthoredIs(bytes, value.value, limits);
  }

  lemma AuthoredIs(bytes: string, read: Value, limits: Limits)
    requires ParseDocument(bytes, limits.maxDepth) == Ok(read) && Width(bytes) <= limits.maxBytes
    ensures forall v :: Authored(bytes, v, limits) <==> v == read && Fits(read, limits)
    ensures Authored(bytes, read, limits) <==> Fits(read, limits)
  {
    hide ParseDocument, JsonGrammar.Denotes, Fits;
    forall v
      ensures JsonGrammar.Denotes(bytes, v, limits.maxDepth) <==> v == read
    {
      JsonSound.ReadsGrammar(bytes, v, limits.maxDepth);
    }
  }

  lemma NotAuthored(bytes: string, limits: Limits)
    requires ParseDocument(bytes, limits.maxDepth).Err? || Width(bytes) > limits.maxBytes
    ensures forall v :: !Authored(bytes, v, limits)
  {
    hide ParseDocument, JsonGrammar.Denotes, Fits;
    forall v
      ensures !Authored(bytes, v, limits)
    {
      JsonSound.ReadsGrammar(bytes, v, limits.maxDepth);
    }
  }

  lemma ReadableSize(bytes: string, limits: Limits)
    requires Machine(limits) && Width(bytes) <= limits.maxBytes
    ensures |bytes| <= IntegralTokens.LONGEST
  {
    WidthLength(bytes);
  }

  lemma ReadIs(r: Result<Value, JsonError>, pos: nat, bytes: string, max: nat)
    requires Agrees(r, pos, ParseValue(bytes, 0, 0, max))
    ensures r.Err? ==> ParseDocument(bytes, max).Err?
    ensures r.Ok? ==> pos <= |bytes|
    ensures r.Ok? ==>
      ParseDocument(bytes, max) == if Space(bytes, pos) == |bytes| then Ok(r.value) else Err(Syntax)
  {
  }

  /** The canonical text of something that can be written within the limits. */
  ghost predicate Canonical(bytes: string, v: Value, limits: Limits) {
    Fits(v, limits) && bytes == Print(v)
  }

  /** The spelling of a bare tree within the limits. */
  ghost predicate Bare(bytes: string, n: JsonGrammar.Node, limits: Limits) {
    && Width(bytes) <= limits.maxBytes && JsonGrammar.Good(n) && JsonCanonical.Bare(n)
    && JsonGrammar.Spell(n) == bytes && JsonGrammar.Nesting(n) <= limits.maxDepth
  }

  /** Canonical texts are the spellings of bare trees. */
  lemma CanonicalBare(bytes: string, v: Value, limits: Limits)
    ensures Canonical(bytes, v, limits) <==> exists n :: Bare(bytes, n, limits) && JsonGrammar.Meaning(n) == v
  {
    hide Printable, Print, JsonGrammar.Good, JsonGrammar.Spell, JsonGrammar.Meaning, JsonGrammar.Nesting;
    hide JsonCanonical.Bare, Width;
    JsonCanonical.WrittenIff(bytes, v, limits.maxDepth);
    if Canonical(bytes, v, limits) {
      var n :| JsonCanonical.BareFor(n, v, limits.maxDepth) && JsonGrammar.Spell(n) == bytes;
      assert Bare(bytes, n, limits);
    }
    if n :| Bare(bytes, n, limits) && JsonGrammar.Meaning(n) == v {
      assert JsonCanonical.BareFor(n, v, limits.maxDepth);
    }
  }

  lemma AllBare(bytes: string, limits: Limits)
    ensures (exists v :: Canonical(bytes, v, limits)) <==> exists n :: Bare(bytes, n, limits)
  {
    hide Canonical, JsonGrammar.Meaning;
    if v :| Canonical(bytes, v, limits) {
      CanonicalBare(bytes, v, limits);
    }
    if n :| Bare(bytes, n, limits) {
      CanonicalBare(bytes, JsonGrammar.Meaning(n), limits);
    }
  }

  /**
   * Accepts exactly the texts that the writer produces, each as the value it was written
   * from: those without space, with the shortest lower-case literals, plain numerals and
   * keys in order.
   */
  method Decode(bytes: string, limits: Limits) returns (r: Result<Document, JsonError>)
    requires Machine(limits)
    ensures r.Ok? <==> exists v :: Canonical(bytes, v, limits)
    ensures r.Ok? <==> exists n :: Bare(bytes, n, limits)
    ensures forall v :: Canonical(bytes, v, limits) ==> r == Ok(Document(bytes, v))
  {
    hide *;
    AllBare(bytes, limits);
    r := New(bytes, limits);
    forall v | Canonical(bytes, v, limits)
      ensures r == Ok(Document(bytes, v))
    {
      ReadsBack(bytes, v, limits);
    }
    if r.Ok? {
      if r.value.bytes != bytes {
        return Err(NonCanonical);
      }
      CanonicalIs(bytes, r.value.value, limits);
    }
  }

  lemma ReadsBack(bytes: string, v: Value, limits: Limits)
    requires Canonical(bytes, v, limits)
    ensures Fits(v, limits) && bytes == Print(v) && Width(bytes) <= limits.maxBytes
    ensures ParseDocument(bytes, limits.maxDepth) == Ok(v)
  {
    RoundTrip(v, limits.maxDepth);
  }

  lemma CanonicalIs(bytes: string, v: Value, limits: Limits)
    requires Fits(v, limits) && bytes == Print(v)
    ensures Canonical(bytes, v, limits)
  {
  }

  /** Writing a value and reading the text back never fails for a value that can be written. */
  method FromValue(v: Value, limits: Limits) returns (r: Result<Document, JsonError>)
    requires Machine(limits)
    ensures r.Ok? <==> Fits(v, limits)
    ensures r.Ok? ==> r.value == Document(Print(v), v)
  {
    hide *;
    var encoded := Encode(v, limits);
    if encoded.Err? {
      return Err(encoded.error);
    }
    CanonicalIs(encoded.value, v, limits);
    r := Decode(encoded.value, limits);
  }

  /** Different values have different canonical texts. */
  lemma PrintInjective(a: Value, b: Value, max: nat)
    requires Printable(a, max) && Printable(b, max) && Print(a) == Print(b)
    ensures a == b
  {
    hide *;
    RoundTrip(a, max);
    RoundTrip(b, max);
  }
}
