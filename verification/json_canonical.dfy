// Which spelling is the canonical one (sections 3.2.2 and 3.2.3 of RFC 8785).

module JsonCanonical {
  import opened Wrappers
  import IntegralTokens
  import opened Json
  import JsonParser
  import opened JsonGrammar
  import opened JsonRoundTrip
  import JsonComplete
  import JsonSound

  // ---- Strings: as short as possible, with lower-case digits ----

  predicate UpperHex(c: char) {
    'A' <= c <= 'F'
  }

  /** No escape of the piece is written with an upper-case digit. */
  predicate LowerDigits(p: Piece) {
    match p
    case Plain(_) => true
    case Short(_) => true
    case Code(digits) => forall i :: 0 <= i < |digits| ==> !UpperHex(digits[i])
    case Pair(high, low) =>
      && (forall i :: 0 <= i < |high| ==> !UpperHex(high[i]))
      && forall i :: 0 <= i < |low| ==> !UpperHex(low[i])
  }

  /** No piece for the same character is shorter, and digits are lower-case. */
  ghost predicate Least(p: Piece) {
    && GoodPiece(p) && LowerDigits(p)
    && forall q :: GoodPiece(q) && Character(q) == Character(p) ==> |SpellPiece(p)| <= |SpellPiece(q)|
  }

  lemma HexFour(digits: string)
    requires HexDigits(digits)
    ensures HexNumber(digits)
      == 4096 * JsonParser.HexValue(digits[0]).value + 256 * JsonParser.HexValue(digits[1]).value
      + 16 * JsonParser.HexValue(digits[2]).value + JsonParser.HexValue(digits[3]).value
  {
    assert digits[1..][1..] == digits[2..] && digits[2..][1..] == digits[3..] && digits[3..][1..] == [];
    var n := JsonParser.HexValue(digits[0]).value;
    assert HexFrom(0, digits) == HexFrom(n, digits[1..]);
    var m := 16 * n + JsonParser.HexValue(digits[1]).value;
    assert HexFrom(n, digits[1..]) == HexFrom(m, digits[2..]);
    var l := 16 * m + JsonParser.HexValue(digits[2]).value;
    assert HexFrom(m, digits[2..]) == HexFrom(l, digits[3..]);
    assert HexFrom(l, digits[3..]) == 16 * l + JsonParser.HexValue(digits[3]).value;
  }

  lemma HexRange(c: char)
    requires JsonParser.HexValue(c).Some?
    ensures JsonParser.HexValue(c).value < 16
    ensures !UpperHex(c) ==> c == HEX[JsonParser.HexValue(c).value]
  {
  }

  function ControlDigits(n: nat): string
    requires n < 32
  {
    "00" + [HEX[n / 16], HEX[n % 16]]
  }

  /** Four lower-case digits of a control character are determined by it. */
  lemma LowerControl(digits: string)
    requires HexDigits(digits) && HexNumber(digits) < 32 && forall i :: 0 <= i < |digits| ==> !UpperHex(digits[i])
    ensures digits == ControlDigits(HexNumber(digits))
  {
    HexFour(digits);
    HexRange(digits[0]);
    HexRange(digits[1]);
    HexRange(digits[2]);
    HexRange(digits[3]);
    var n := HexNumber(digits);
    assert JsonParser.HexValue(digits[0]).value == 0 && JsonParser.HexValue(digits[1]).value == 0;
    assert n == 16 * JsonParser.HexValue(digits[2]).value + JsonParser.HexValue(digits[3]).value;
  }

  /** Writing a character never takes more than any piece that denotes it. */
  lemma EscapeShortest(p: Piece)
    requires GoodPiece(p)
    ensures |Escape(Character(p))| <= |SpellPiece(p)|
    ensures |Escape(Character(p))| == |SpellPiece(p)| && LowerDigits(p) ==> Escape(Character(p)) == SpellPiece(p)
  {
    match p
    case Plain(c) =>
    case Short(mark) =>
    case Code(digits) =>
      if |Escape(Character(p))| == 6 && LowerDigits(p) {
        LowerControl(digits);
      }
    case Pair(_, _) =>
  }

  /** The piece that is written for a character. */
  function Written(c: char): (p: Piece)
    ensures GoodPiece(p) && Character(p) == c && SpellPiece(p) == Escape(c) && LowerDigits(p)
  {
    if c == '"' || c == '\\' then Short(c)
    else if c as int == 8 then Short('b')
    else if c as int == 12 then Short('f')
    else if c == '\n' then Short('n')
    else if c == '\r' then Short('r')
    else if c == '\t' then Short('t')
    else if c as int < 32 then
      var digits := ControlDigits(c as int);
      ControlIs(c as int);
      Code(digits)
    else Plain(c)
  }

  lemma ControlIs(n: nat)
    requires n < 32
    ensures HexDigits(ControlDigits(n)) && HexNumber(ControlDigits(n)) == n
    ensures forall i :: 0 <= i < 4 ==> !UpperHex(ControlDigits(n)[i])
  {
    var digits := ControlDigits(n);
    HexDigit(n / 16);
    HexDigit(n % 16);
    assert forall i :: 0 <= i < 4 ==> JsonParser.HexValue(digits[i]).Some?;
    HexFour(digits);
    LowerDigit(n / 16);
    LowerDigit(n % 16);
  }

  lemma LowerDigit(n: nat)
    requires n < 16
    ensures !UpperHex(HEX[n])
  {
  }

  /** A piece is least exactly when it is what is written. */
  lemma LeastIff(p: Piece)
    requires GoodPiece(p)
    ensures Least(p) <==> SpellPiece(p) == Escape(Character(p))
  {
    var w := Written(Character(p));
    EscapeShortest(p);
    if SpellPiece(p) == Escape(Character(p)) {
      SpelledLower(p, w);
      forall q | GoodPiece(q) && Character(q) == Character(p)
        ensures |SpellPiece(p)| <= |SpellPiece(q)|
      {
        EscapeShortest(q);
      }
    }
  }

  lemma SpelledLower(p: Piece, q: Piece)
    requires GoodPiece(p) && GoodPiece(q) && SpellPiece(p) == SpellPiece(q) && LowerDigits(q)
    ensures LowerDigits(p)
  {
    match p
    case Plain(_) =>
    case Short(_) =>
    case Code(digits) =>
      assert SpellPiece(p)[2..] == digits;
      assert q.Code? && SpellPiece(q)[2..] == q.digits;
    case Pair(high, low) =>
      assert |SpellPiece(p)| == 12;
      assert q.Pair?;
      assert SpellPiece(p)[2..6] == high && SpellPiece(p)[8..] == low;
      assert SpellPiece(q)[2..6] == q.high && SpellPiece(q)[8..] == q.low;
  }

  /** Whatever the reader takes for one character is at least as long as what is written for it. */
  lemma ReadShortest(s: string, c: char)
    requires s != "" && s[0] != '"' && JsonParser.Character(s, 0) == Ok((c, |s|))
    ensures |Escape(c)| <= |s|
  {
    var p := JsonSound.PieceSound(s, 0);
    EscapeShortest(p);
  }

  ghost predicate AllLeast(ps: seq<Piece>) {
    forall i :: 0 <= i < |ps| ==> Least(ps[i])
  }

  predicate AllLower(ps: seq<Piece>) {
    forall i :: 0 <= i < |ps| ==> LowerDigits(ps[i])
  }

  lemma {:induction false} PiecesShortest(ps: seq<Piece>)
    requires GoodPieces(ps)
    ensures |Escaped(Characters(ps))| <= |SpellPieces(ps)|
    ensures |Escaped(Characters(ps))| == |SpellPieces(ps)| && AllLower(ps) ==>
      Escaped(Characters(ps)) == SpellPieces(ps)
    ensures AllLeast(ps) ==> Escaped(Characters(ps)) == SpellPieces(ps)
  {
    hide Escape, Character, SpellPiece, GoodPiece, Least;
    if ps != [] {
      assert Characters(ps) == [Character(ps[0])] + Characters(ps[1..]);
      assert Characters(ps)[1..] == Characters(ps[1..]);
      EscapeShortest(ps[0]);
      LeastIff(ps[0]);
      PiecesShortest(ps[1..]);
    }
  }

  /**
   * Among all literals for one text the written one is of least length, and no other of
   * that length has only lower-case digits.
   */
  lemma QuotedShortest(ps: seq<Piece>)
    requires GoodPieces(ps)
    ensures |Quoted(Characters(ps))| <= |SpellQuote(ps)|
    ensures |Quoted(Characters(ps))| == |SpellQuote(ps)| && AllLower(ps) ==> Quoted(Characters(ps)) == SpellQuote(ps)
    ensures AllLeast(ps) ==> Quoted(Characters(ps)) == SpellQuote(ps)
  {
    hide Escaped, Characters, SpellPieces, GoodPieces, AllLeast, AllLower;
    PiecesShortest(ps);
  }

  /** The same about what the reader accepts as a literal. */
  lemma LiteralShortest(s: string, text: string)
    requires JsonParser.ParseString(s, 0) == Ok((text, |s|))
    ensures |Quoted(text)| <= |s|
  {
    hide Quoted, SpellQuote, Characters;
    var gap, ps := JsonSound.QuoteSound(s, 0);
    QuotedShortest(ps);
  }

  function WrittenPieces(text: string): (ps: seq<Piece>)
    ensures |ps| == |text| && forall i :: 0 <= i < |text| ==> ps[i] == Written(text[i])
  {
    seq(|text|, i requires 0 <= i < |text| => Written(text[i]))
  }

  lemma {:induction false} WrittenIs(text: string)
    ensures GoodPieces(WrittenPieces(text)) && Characters(WrittenPieces(text)) == text && AllLeast(WrittenPieces(text))
  {
    var ps := WrittenPieces(text);
    forall i | 0 <= i < |ps|
      ensures GoodPiece(ps[i]) && Least(ps[i])
    {
      LeastIff(ps[i]);
    }
    if text != "" {
      WrittenIs(text[1..]);
      assert ps[1..] == WrittenPieces(text[1..]);
      assert text == [text[0]] + text[1..];
    }
  }

  // ---- The order of keys, character by character ----

  predicate Basic(c: char) {
    c as int < 0x10000
  }

  /** Characters outside the basic plane come between those below and above the surrogates. */
  predicate CharBefore(a: char, b: char) {
    if Basic(a) == Basic(b) then a < b
    else if Basic(a) then (a as int) < 0xD800
    else b as int >= 0xE000
  }

  /** The first character that differs decides, and a prefix comes first. */
  predicate TextBefore(a: string, b: string) {
    b != "" && (a == "" || CharBefore(a[0], b[0]) || (a[0] == b[0] && TextBefore(a[1..], b[1..])))
  }

  lemma BeforeAppend(u: seq<nat>, a: seq<nat>, b: seq<nat>)
    requires 1 <= |u| <= 2
    ensures Before(u + a, u + b) <==> Before(a, b)
  {
    assert (u + a)[1..] == u[1..] + a && (u + b)[1..] == u[1..] + b;
    if |u| == 2 {
      assert u[1..] == [u[1]];
      assert ([u[1]] + a)[1..] == a && ([u[1]] + b)[1..] == b;
    } else {
      assert u[1..] + a == a && u[1..] + b == b;
    }
  }

  lemma UnitsDecideOrder(a: char, b: char, x: seq<nat>, y: seq<nat>)
    requires a != b
    ensures Before(Units(a) + x, Units(b) + y) <==> CharBefore(a, b)
  {
    var u, v := Units(a) + x, Units(b) + y;
    assert u[0] == Units(a)[0] && v[0] == Units(b)[0];
    if !Basic(a) && !Basic(b) {
      assert u[1] == Units(a)[1] && v[1] == Units(b)[1];
      assert u[1..][0] == u[1] && v[1..][0] == v[1];
    }
  }

  /** Ordering by UTF-16 code units is ordering by characters in that order. */
  lemma {:induction false} KeyLessIff(a: string, b: string)
    ensures KeyLess(a, b) <==> TextBefore(a, b)
  {
    if a != "" && b != "" {
      if a[0] == b[0] {
        BeforeAppend(Units(a[0]), Utf16(a[1..]), Utf16(b[1..]));
        KeyLessIff(a[1..], b[1..]);
      } else {
        UnitsDecideOrder(a[0], b[0], Utf16(a[1..]), Utf16(b[1..]));
      }
      CharBeforeSelf(a[0]);
    }
  }

  lemma CharBeforeSelf(c: char)
    ensures !CharBefore(c, c)
  {
  }

  // ---- Whole texts ----

  /** Plain decimal digits, and no minus before zero. */
  predicate PlainNumeral(n: Numeral) {
    n.fraction.None? && n.exponent.None? && (n.negative ==> n.whole != "0")
  }

  /** No space anywhere, least literals, plain numerals, and keys in increasing order. */
  ghost predicate Bare(n: Node) {
    n.space == "" && BareForm(n.form)
  }

  ghost predicate BareForm(f: Form) {
    match f
    case Number(n) => PlainNumeral(n)
    case Quote(ps) => AllLeast(ps)
    case NoItems(gap) => gap == ""
    case List(items) => BareItems(items)
    case NoFields(gap) => gap == ""
    case Record(fields) => BareFields(fields)
    case _ => true
  }

  ghost predicate BareItems(items: Items) {
    Bare(items.item) && items.gap == "" && (items.NextItem? ==> BareItems(items.rest))
  }

  ghost predicate BareKey(k: Key) {
    k.before == "" && AllLeast(k.pieces) && k.after == ""
  }

  /** The order of keys is that of their characters. */
  ghost predicate BareFields(fields: Fields) {
    && BareKey(fields.key) && Bare(fields.value) && fields.gap == ""
    && (fields.NextField? ==>
      && GoodPieces(fields.key.pieces) && GoodPieces(fields.rest.key.pieces)
      && TextBefore(Characters(fields.key.pieces), Characters(fields.rest.key.pieces))
      && BareFields(fields.rest))
  }

  // ---- Numerals ----

  lemma {:induction false} DecimalOf(digits: string)
    requires digits != "" && IntegralTokens.AllDigits(digits) && (digits[0] == '0' ==> |digits| == 1)
    ensures Decimal(IntegralTokens.NatOf(digits)) == digits
    ensures IntegralTokens.NatOf(digits) == 0 <==> digits == "0"
  {
    var front, last := digits[..|digits| - 1], digits[|digits| - 1];
    assert digits == front + [last];
    if front == "" {
      IntegralTokens.Single(last);
      assert digits == [last];
    } else {
      DecimalOf(front);
    }
  }

  lemma NumeralWritten(n: Numeral)
    requires GoodNumeral(n) && PlainNumeral(n)
    ensures SpellNumeral(n) == Signed(NumberOf(n))
  {
    assert n.whole + FractionDigits(n) == n.whole;
    DecimalOf(n.whole);
    assert SpellNumeral(n) == SpellSign(n.negative) + n.whole;
  }

  // ---- A bare tree spells what is written ----

  function KeyOf(fields: Fields): string
    requires GoodPieces(fields.key.pieces)
  {
    Characters(fields.key.pieces)
  }

  ghost predicate GoodKeys(fields: Fields) {
    GoodPieces(fields.key.pieces) && (fields.NextField? ==> GoodKeys(fields.rest))
  }

  ghost function Keys(fields: Fields): seq<string>
    requires GoodKeys(fields)
  {
    [KeyOf(fields)] + if fields.NextField? then Keys(fields.rest) else []
  }

  lemma {:induction false} FieldsKeys(fields: Fields, seen: set<string>)
    requires GoodFields(fields, seen)
    ensures GoodKeys(fields)
    ensures forall k :: k in Keys(fields) <==> k in FieldsMeaning(fields, seen)
  {
    if fields.NextField? {
      FieldsKeys(fields.rest, seen + {KeyOf(fields)});
    }
  }

  lemma TextBeforeTransitive(a: string, b: string, c: string)
    requires TextBefore(a, b) && TextBefore(b, c)
    ensures TextBefore(a, c)
  {
    KeyLessIff(a, b);
    KeyLessIff(b, c);
    KeyLessIff(a, c);
    BeforeTransitive(Utf16(a), Utf16(b), Utf16(c));
  }

  /** The first key comes before all others. */
  lemma {:induction false} FirstKey(fields: Fields)
    requires GoodKeys(fields) && BareFields(fields)
    ensures fields.NextField? ==> forall k :: k in Keys(fields.rest) ==> TextBefore(KeyOf(fields), k)
  {
    hide Characters, Bare, BareKey, TextBefore;
    if fields.NextField? {
      FirstKey(fields.rest);
      forall k | k in Keys(fields.rest)
        ensures TextBefore(KeyOf(fields), k)
      {
        if k != KeyOf(fields.rest) {
          TextBeforeTransitive(KeyOf(fields), KeyOf(fields.rest), k);
        }
      }
    }
  }

  /** Keys in increasing order are the ordered keys. */
  lemma {:induction false} KeysOrdered(fields: Fields)
    requires GoodKeys(fields) && BareFields(fields)
    ensures Keys(fields) == Ordered(set k | k in Keys(fields))
  {
    hide Characters, Bare, BareKey, TextBefore, KeyLess, Ordered;
    var first, all := KeyOf(fields), set k | k in Keys(fields);
    FirstKey(fields);
    forall k | k in all && k != first
      ensures KeyLess(first, k)
    {
      KeyLessIff(first, k);
    }
    NotBeforeItself(first);
    OrderedStep(all, first);
    if fields.NextField? {
      KeysOrdered(fields.rest);
      assert all - {first} == set k | k in Keys(fields.rest);
    } else {
      assert all - {first} == {};
      NoKeys();
    }
  }

  lemma NotBeforeItself(a: string)
    ensures !TextBefore(a, a)
  {
    KeyLessIff(a, a);
    BeforeTotal(Utf16(a), Utf16(a));
  }

  lemma NoKeys()
    ensures Ordered({}) == []
  {
  }

  lemma {:induction false} BareWritten(n: Node)
    requires Good(n) && Bare(n)
    ensures Spell(n) == Print(Meaning(n))
    decreases n, 1
  {
    match n.form
    case Number(numeral) =>
      NumeralWritten(numeral);
    case Quote(ps) =>
      QuotedShortest(ps);
    case List(items) =>
      ItemsWritten(items);
      ListText(n);
    case Record(fields) =>
      RecordWritten(n);
    case NoItems(gap) =>
      assert Spell(n) == "[" + "]";
    case NoFields(gap) =>
      NoKeys();
      assert Spell(n) == "{" + "}";
    case NullWord =>
    case TrueWord =>
    case FalseWord =>
  }

  lemma ListText(n: Node)
    requires Good(n) && n.space == "" && n.form.List? && GoodItems(n.form.items)
    requires SpellItems(n.form.items) == PrintItems(ItemsMeaning(n.form.items)) + "]"
    ensures Spell(n) == Print(Meaning(n))
  {
    hide SpellItems, PrintItems, ItemsMeaning;
    assert Spell(n) == "[" + SpellItems(n.form.items);
  }

  lemma {:induction false} ItemsWritten(items: Items)
    requires GoodItems(items) && BareItems(items)
    ensures SpellItems(items) == PrintItems(ItemsMeaning(items)) + "]"
    ensures ItemsMeaning(items) != []
    decreases items, 0
  {
    hide *;
    ItemsBare(items);
    JsonComplete.ItemsParts(items);
    BareWritten(items.item);
    ItemsText(items);
    if items.NextItem? {
      ItemsWritten(items.rest);
      PrintMore(Meaning(items.item), ItemsMeaning(items.rest));
    } else {
      PrintOne(Meaning(items.item));
    }
  }

  lemma ItemsBare(items: Items)
    requires BareItems(items)
    ensures Bare(items.item) && items.gap == "" && (items.NextItem? ==> BareItems(items.rest))
  {
  }

  lemma ItemsText(items: Items)
    requires items.gap == ""
    ensures items.LastItem? ==> SpellItems(items) == Spell(items.item) + "]"
    ensures items.NextItem? ==> SpellItems(items) == Spell(items.item) + ("," + SpellItems(items.rest))
  {
    hide Spell;
  }

  lemma PrintOne(v: Value)
    ensures PrintItems([v]) + "]" == Print(v) + "]"
  {
    hide Print;
  }

  lemma PrintMore(v: Value, rest: seq<Value>)
    requires rest != []
    ensures PrintItems([v] + rest) + "]" == Print(v) + ("," + (PrintItems(rest) + "]"))
  {
    hide Print;
    var vs := [v] + rest;
    assert vs[0] == v && vs[1..] == rest && |vs| > 1;
    assert PrintItems(vs) == Print(v) + ("," + PrintItems(rest));
  }

  lemma {:induction false} RecordWritten(n: Node)
    requires Good(n) && Bare(n) && n.form.Record?
    ensures Spell(n) == Print(Meaning(n))
    decreases n, 0
  {
    var fields := n.form.fields;
    var v := Meaning(n);
    JsonComplete.RecordParts(n);
    FieldsKeys(fields, {});
    KeysOrdered(fields);
    assert (set k | k in Keys(fields)) == v.fields.Keys;
    FieldsWritten(fields, {}, v);
    RecordText(n, Keys(fields));
  }

  lemma RecordText(n: Node, keys: seq<string>)
    requires Good(n) && n.space == "" && n.form.Record? && Meaning(n).Object? && keys == Ordered(Meaning(n).fields.Keys)
    requires SpellFields(n.form.fields) == PrintFields(Meaning(n), keys) + "}"
    ensures Spell(n) == Print(Meaning(n))
  {
    hide SpellFields, PrintFields, FieldsMeaning, Ordered;
    assert Spell(n) == "{" + SpellFields(n.form.fields);
  }

  lemma {:induction false} FieldsWritten(fields: Fields, seen: set<string>, v: Value)
    requires GoodFields(fields, seen) && BareFields(fields) && GoodKeys(fields) && v.Object?
    requires forall k :: k in FieldsMeaning(fields, seen) ==>
      k in v.fields && v.fields[k] == FieldsMeaning(fields, seen)[k]
    ensures SpellFields(fields) == PrintFields(v, Keys(fields)) + "}"
    decreases fields, 0
  {
    hide Spell, SpellQuote, Meaning, Characters, Bare, Good, Print, Quoted, AllLeast, TextBefore;
    var key, keys := KeyOf(fields), Keys(fields);
    BareWritten(fields.value);
    QuotedShortest(fields.key.pieces);
    BareKeyText(fields.key);
    FieldValue(fields, seen);
    assert keys[0] == key;
    if fields.NextField? {
      FieldsRest(fields, seen);
      FieldsWritten(fields.rest, seen + {key}, v);
      assert keys[1..] == Keys(fields.rest) && |keys| > 1;
    } else {
      assert keys == [key];
    }
  }

  lemma BareKeyText(k: Key)
    requires BareKey(k)
    ensures SpellKey(k) == SpellQuote(k.pieces) + ":"
  {
    hide SpellQuote;
  }

  lemma FieldValue(fields: Fields, seen: set<string>)
    requires GoodFields(fields, seen)
    ensures
      var key := KeyOf(fields);
      key in FieldsMeaning(fields, seen) && FieldsMeaning(fields, seen)[key] == Meaning(fields.value)
  {
    hide Meaning, Characters;
    if fields.NextField? {
      FieldsFresh(fields.rest, seen + {KeyOf(fields)});
    }
  }

  lemma {:induction false} FieldsFresh(fields: Fields, seen: set<string>)
    requires GoodFields(fields, seen)
    ensures forall k :: k in FieldsMeaning(fields, seen) ==> k !in seen
  {
    if fields.NextField? {
      FieldsFresh(fields.rest, seen + {KeyOf(fields)});
    }
  }

  lemma FieldsRest(fields: Fields, seen: set<string>)
    requires GoodFields(fields, seen) && fields.NextField?
    ensures
      var rest := FieldsMeaning(fields.rest, seen + {KeyOf(fields)});
      forall k :: k in rest ==> k in FieldsMeaning(fields, seen) && FieldsMeaning(fields, seen)[k] == rest[k]
  {
    hide Meaning, Characters;
  }

  // ---- Every value that can be written has a bare tree ----

  function NumeralOf(n: int): Numeral {
    Numeral(n < 0, Decimal(if n < 0 then -n else n), None, None)
  }

  lemma NumeralGood(n: int)
    requires 0 - IntegralTokens.SAFE <= n <= IntegralTokens.SAFE
    ensures GoodNumeral(NumeralOf(n)) && PlainNumeral(NumeralOf(n)) && NumberOf(NumeralOf(n)) == n
  {
    var m: nat := if n < 0 then -n else n;
    DecimalBack(m);
    var d := NumeralOf(n);
    assert d.whole + FractionDigits(d) == d.whole;
    LeadingZero(m);
    assert Significand(d) == m && Power(d) == 0;
    assert IntegralTokens.Magnitude(m, 0) == m * IntegralTokens.Pow10(0);
  }

  lemma {:induction false} LeadingZero(m: nat)
    ensures Decimal(m) != "" && (Decimal(m)[0] == '0' ==> m == 0)
    ensures m == 0 <==> Decimal(m) == "0"
  {
    DecimalBack(m);
    if m == 0 {
      assert Decimal(0) == "0";
    }
  }

  /** The node is a bare tree for the value. */
  ghost predicate BareFor(n: Node, v: Value, room: int) {
    Good(n) && Bare(n) && Meaning(n) == v && Nesting(n) <= room
  }

  lemma {:induction false} BareExists(v: Value, room: int) returns (n: Node)
    requires Printable(v, room)
    ensures BareFor(n, v, room)
    decreases v, 2
  {
    match v
    case Null => n := Node("", NullWord);
    case Boolean(b) => n := Node("", if b then TrueWord else FalseWord);
    case Integer(i) =>
      NumeralGood(i);
      n := Node("", Number(NumeralOf(i)));
    case Text(s) =>
      WrittenIs(s);
      n := Node("", Quote(WrittenPieces(s)));
    case Array(items) =>
      if items == [] {
        n := Node("", NoItems(""));
      } else {
        var list := ItemsExist(v, 0, room);
        n := Node("", List(list));
      }
    case Object(fields) =>
      n := ObjectExists(v, room);
  }

  ghost predicate ItemsFor(items: Items, vs: seq<Value>, room: int) {
    GoodItems(items) && BareItems(items) && ItemsMeaning(items) == vs && ItemsNesting(items) <= room - 1
  }

  lemma {:induction false} ItemsExist(v: Value, k: nat, room: int) returns (items: Items)
    requires v.Array? && Printable(v, room) && k < |v.items|
    ensures ItemsFor(items, v.items[k..], room)
    decreases v, 1, |v.items| - k
  {
    hide Good, Bare, Meaning, Nesting, Spell;
    assert v.items[k] in v.items;
    var item := BareExists(v.items[k], room - 1);
    if k + 1 == |v.items| {
      items := LastItem(item, "");
      assert v.items[k..] == [v.items[k]];
    } else {
      var rest := ItemsExist(v, k + 1, room);
      items := NextItem(item, "", rest);
      assert v.items[k..] == [v.items[k]] + v.items[k + 1..];
    }
  }

  /** The fields of the object under the keys from position `k` on. */
  ghost predicate FieldsFor(fields: Fields, seen: set<string>, v: Value, keys: seq<string>, k: nat, room: int)
    requires v.Object? && k < |keys|
  {
    && GoodFields(fields, seen) && BareFields(fields) && FieldsNesting(fields) <= room - 1
    && KeyOf(fields) == keys[k]
    && (forall x :: x in FieldsMeaning(fields, seen) <==> x in keys[k..])
    && forall x :: x in FieldsMeaning(fields, seen) ==> x in v.fields && FieldsMeaning(fields, seen)[x] == v.fields[x]
  }

  lemma {:induction false} ObjectExists(v: Value, room: int) returns (n: Node)
    requires v.Object? && Printable(v, room)
    ensures BareFor(n, v, room)
    decreases v, 1
  {
    var keys := Ordered(v.fields.Keys);
    OrderedIsSorted(v.fields.Keys);
    if keys == [] {
      n := Node("", NoFields(""));
      assert forall k :: k in v.fields ==> k in keys;
      assert v.fields == map[];
    } else {
      assert keys[..0] == [];
      var fields := FieldsExist(v, keys, 0, {}, room);
      n := Node("", Record(fields));
      FieldsAll(fields, v, keys, room);
    }
  }

  lemma FieldsAll(fields: Fields, v: Value, keys: seq<string>, room: int)
    requires v.Object? && keys != [] && (forall k :: k in keys <==> k in v.fields.Keys)
    requires FieldsFor(fields, {}, v, keys, 0, room)
    ensures BareFor(Node("", Record(fields)), v, room)
  {
    hide Bare, BareFields, Meaning;
    assert keys[0..] == keys;
    assert FieldsMeaning(fields, {}) == v.fields;
    BareRecord(fields);
    RecordMeaning(fields);
  }

  lemma BareRecord(fields: Fields)
    requires BareFields(fields)
    ensures Bare(Node("", Record(fields)))
  {
  }

  lemma RecordMeaning(fields: Fields)
    requires GoodFields(fields, {})
    ensures
      var n := Node("", Record(fields));
      Good(n) && Meaning(n) == Object(FieldsMeaning(fields, {})) && Nesting(n) == 1 + FieldsNesting(fields)
  {
  }

  lemma {:induction false} FieldsExist(v: Value, keys: seq<string>, k: nat, seen: set<string>, room: int)
      returns (fields: Fields)
    requires v.Object? && Printable(v, room) && k < |keys| && forall x :: x in seen <==> x in keys[..k]
    requires forall x :: x in keys ==> x in v.fields
    requires forall i, j :: 0 <= i < j < |keys| ==> KeyLess(keys[i], keys[j])
    ensures FieldsFor(fields, seen, v, keys, k, room)
    decreases v, 0, |keys| - k
  {
    hide *;
    var name := keys[k];
    assert name in keys;
    FieldPrintable(v, name, room);
    var value := BareExists(v.fields[name], room - 1);
    WrittenIs(name);
    var key := Key("", WrittenPieces(name), "");
    NotSeen(keys, k);
    if k + 1 == |keys| {
      fields := LastField(key, value, "");
      LastFor(fields, seen, v, keys, k, room);
    } else {
      SeenMore(keys, k, seen);
      var rest := FieldsExist(v, keys, k + 1, seen + {name}, room);
      fields := NextField(key, value, "", rest);
      KeyLessIff(name, keys[k + 1]);
      NextFor(fields, seen, v, keys, k, room);
    }
  }

  lemma FieldPrintable(v: Value, name: string, room: int)
    requires v.Object? && Printable(v, room) && name in v.fields
    ensures Printable(v.fields[name], room - 1)
  {
  }

  lemma SeenMore(keys: seq<string>, k: nat, seen: set<string>)
    requires k < |keys| && forall x :: x in seen <==> x in keys[..k]
    ensures forall x :: x in seen + {keys[k]} <==> x in keys[..k + 1]
  {
    assert keys[..k + 1] == keys[..k] + [keys[k]];
  }

  lemma NotSeen(keys: seq<string>, k: nat)
    requires k < |keys| && forall i, j :: 0 <= i < j < |keys| ==> KeyLess(keys[i], keys[j])
    ensures keys[k] !in keys[..k]
  {
    if i :| 0 <= i < k && keys[i] == keys[k] {
      BeforeTotal(Utf16(keys[i]), Utf16(keys[k]));
    }
  }

  lemma LastFor(fields: Fields, seen: set<string>, v: Value, keys: seq<string>, k: nat, room: int)
    requires v.Object? && k + 1 == |keys| && keys[k] !in seen && keys[k] in v.fields
    requires fields.LastField? && fields.key.before == "" && fields.key.after == "" && fields.gap == ""
    requires GoodPieces(fields.key.pieces) && Characters(fields.key.pieces) == keys[k] && AllLeast(fields.key.pieces)
    requires BareFor(fields.value, v.fields[keys[k]], room - 1)
    ensures FieldsFor(fields, seen, v, keys, k, room)
  {
    hide Good, Bare, Nesting, Meaning, Characters, AllLeast, GoodPieces, GoodFields, BareFields, FieldsMeaning;
    MakeLast(fields, seen, keys[k]);
    assert keys[k..] == [keys[k]];
  }

  lemma NextFor(fields: Fields, seen: set<string>, v: Value, keys: seq<string>, k: nat, room: int)
    requires v.Object? && k + 1 < |keys| && keys[k] !in seen && keys[k] in v.fields
    requires fields.NextField? && fields.key.before == "" && fields.key.after == "" && fields.gap == ""
    requires GoodPieces(fields.key.pieces) && Characters(fields.key.pieces) == keys[k] && AllLeast(fields.key.pieces)
    requires BareFor(fields.value, v.fields[keys[k]], room - 1)
    requires FieldsFor(fields.rest, seen + {keys[k]}, v, keys, k + 1, room) && TextBefore(keys[k], keys[k + 1])
    ensures FieldsFor(fields, seen, v, keys, k, room)
  {
    hide Good, Bare, Nesting, Meaning, Characters, AllLeast, GoodPieces, GoodFields;
    hide BareFields, FieldsMeaning, TextBefore;
    MakeNext(fields, seen, keys[k]);
    assert keys[k..] == [keys[k]] + keys[k + 1..];
  }

  lemma MakeLast(fields: Fields, seen: set<string>, name: string)
    requires fields.LastField? && GoodPieces(fields.key.pieces) && Characters(fields.key.pieces) == name
    requires fields.key.before == "" && fields.key.after == "" && AllLeast(fields.key.pieces) && fields.gap == ""
    requires Good(fields.value) && Bare(fields.value) && name !in seen
    ensures GoodFields(fields, seen) && BareFields(fields) && KeyOf(fields) == name
    ensures FieldsNesting(fields) == Nesting(fields.value)
    ensures FieldsMeaning(fields, seen) == map[name := Meaning(fields.value)]
  {
    hide Good, Bare, Nesting, Meaning, Characters, AllLeast, TextBefore;
  }

  lemma MakeNext(fields: Fields, seen: set<string>, name: string)
    requires fields.NextField? && GoodPieces(fields.key.pieces) && Characters(fields.key.pieces) == name
    requires fields.key.before == "" && fields.key.after == "" && AllLeast(fields.key.pieces) && fields.gap == ""
    requires Good(fields.value) && Bare(fields.value) && name !in seen
    requires GoodFields(fields.rest, seen + {name}) && BareFields(fields.rest) && TextBefore(name, KeyOf(fields.rest))
    ensures GoodFields(fields, seen) && BareFields(fields) && KeyOf(fields) == name
    ensures FieldsNesting(fields) == Deeper(Nesting(fields.value), FieldsNesting(fields.rest))
    ensures FieldsMeaning(fields, seen)
      == map[name := Meaning(fields.value)] + FieldsMeaning(fields.rest, seen + {name})
    ensures name !in FieldsMeaning(fields.rest, seen + {name})
  {
    FieldsFresh(fields.rest, seen + {name});
    hide Good, Bare, Nesting, Meaning, Characters, AllLeast, TextBefore;
  }

  // ---- Canonical texts ----

  /** What is nested no deeper than the room can be written. */
  lemma {:induction false} MeaningPrintable(n: Node, room: int)
    requires Good(n) && Nesting(n) <= room
    ensures Printable(Meaning(n), room)
    decreases n, 1
  {
    match n.form
    case List(items) =>
      ItemsPrintable(items, room - 1);
    case Record(fields) =>
      FieldsPrintable(fields, {}, room - 1);
      JsonComplete.RecordParts(n);
    case Number(numeral) =>
    case Quote(_) =>
    case NoItems(_) =>
    case NoFields(_) =>
    case NullWord =>
    case TrueWord =>
    case FalseWord =>
  }

  lemma {:induction false} ItemsPrintable(items: Items, room: int)
    requires GoodItems(items) && ItemsNesting(items) <= room
    ensures forall v :: v in ItemsMeaning(items) ==> Printable(v, room)
    decreases items, 0
  {
    MeaningPrintable(items.item, room);
    if items.NextItem? {
      ItemsPrintable(items.rest, room);
    }
  }

  lemma {:induction false} FieldsPrintable(fields: Fields, seen: set<string>, room: int)
    requires GoodFields(fields, seen) && FieldsNesting(fields) <= room
    ensures forall k :: k in FieldsMeaning(fields, seen) ==> Printable(FieldsMeaning(fields, seen)[k], room)
    decreases fields, 0
  {
    MeaningPrintable(fields.value, room);
    if fields.NextField? {
      FieldsPrintable(fields.rest, seen + {KeyOf(fields)}, room);
    }
  }

  /** A text is what is written for a value exactly when it is the spelling of a bare tree for it. */
  lemma WrittenIff(s: string, v: Value, room: int)
    ensures Printable(v, room) && s == Print(v) <==> exists n :: BareFor(n, v, room) && Spell(n) == s
  {
    hide Printable, Print, Spell, Good, Bare, Meaning, Nesting;
    if Printable(v, room) && s == Print(v) {
      var n := BareExists(v, room);
      BareWritten(n);
      assert BareFor(n, v, room) && Spell(n) == s;
    }
    if n :| BareFor(n, v, room) && Spell(n) == s {
      BareWritten(n);
      MeaningPrintable(n, room);
    }
  }
}
