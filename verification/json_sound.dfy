// Whatever the JSON reader accepts is a text of the grammar, read as what it means.

module JsonSound {
  import opened Wrappers
  import IntegralTokens
  import opened Json
  import opened JsonParser
  import opened JsonGrammar
  import opened JsonRoundTrip
  import opened JsonComplete

  lemma AtJoin(s: string, pos: nat, a: string, mid: nat, b: string, end: nat)
    requires At(s, pos, a, mid) && At(s, mid, b, end)
    ensures At(s, pos, a + b, end)
  {
    assert s[pos..end] == s[pos..mid] + s[mid..end];
  }

  lemma AtSlice(s: string, pos: nat, end: nat)
    requires pos <= end <= |s|
    ensures At(s, pos, s[pos..end], end)
  {
  }

  lemma AtMark(s: string, pos: nat, mark: char)
    requires Has(s, pos, mark)
    ensures At(s, pos, [mark], pos + 1)
  {
  }

  /** The space that was skipped. */
  lemma {:induction false} SpaceSound(s: string, pos: nat)
    requires pos <= |s|
    ensures At(s, pos, s[pos..Space(s, pos)], Space(s, pos)) && AllSpace(s[pos..Space(s, pos)])
    decreases |s| - pos
  {
    if pos < |s| && IsSpace(s[pos]) {
      SpaceSound(s, pos + 1);
      assert s[pos..Space(s, pos)] == [s[pos]] + s[pos + 1..Space(s, pos)];
    }
  }

  // ---- Strings ----

  lemma {:induction false} HexSound(s: string, pos: nat, count: nat, n: nat)
    requires pos <= |s| && Hex(s, pos, count, n).Ok?
    ensures
      var digits := s[pos..pos + count];
      && (forall i :: 0 <= i < |digits| ==> HexValue(digits[i]).Some?)
      && Hex(s, pos, count, n) == Ok((HexFrom(n, digits), pos + count))
    decreases count
  {
    if count > 0 {
      HexSound(s, pos + 1, count - 1, 16 * n + HexValue(s[pos]).value);
      assert s[pos..pos + count] == [s[pos]] + s[pos + 1..pos + count];
      assert s[pos..pos + count][1..] == s[pos + 1..pos + count];
    }
  }

  /** One escape that stands for itself, or two that stand for one character. */
  lemma UnicodeSound(s: string, pos: nat) returns (p: Piece)
    requires 2 <= pos <= |s| && s[pos - 2] == '\\' && s[pos - 1] == 'u' && Unicode(s, pos).Ok?
    ensures GoodPiece(p) && At(s, pos - 2, SpellPiece(p), Unicode(s, pos).value.1)
    ensures JsonGrammar.Character(p) == Unicode(s, pos).value.0
  {
    hide Hex, Unicode, HexFrom, At, SpellPiece;
    UnicodeParts(s, pos);
    var high := DigitsSound(s, pos);
    assert s[pos - 2..pos] == "\\u";
    if HighSurrogate(HexNumber(high)) {
      var low := DigitsSound(s, pos + 6);
      p := Pair(high, low);
      PairSound(s, pos, high, low);
    } else {
      p := Code(high);
      CodeSound(s, pos, high);
    }
  }

  lemma DigitsSound(s: string, pos: nat) returns (digits: string)
    requires pos <= |s| && Hex(s, pos, 4, 0).Ok?
    ensures pos + 4 <= |s| && digits == s[pos..pos + 4] && HexDigits(digits)
    ensures Hex(s, pos, 4, 0) == Ok((HexNumber(digits), pos + 4))
  {
    HexSound(s, pos, 4, 0);
    digits := s[pos..pos + 4];
  }

  lemma CodeSound(s: string, pos: nat, digits: string)
    requires 2 <= pos && pos + 4 <= |s| && s[pos - 2..pos] == "\\u" && digits == s[pos..pos + 4]
    ensures At(s, pos - 2, SpellPiece(Code(digits)), pos + 4)
  {
    AtJoin(s, pos - 2, "\\u", pos, digits, pos + 4);
  }

  /** What the reader checked. */
  lemma UnicodeParts(s: string, pos: nat)
    requires pos <= |s| && Unicode(s, pos).Ok?
    ensures Hex(s, pos, 4, 0).Ok?
    ensures
      var high := Hex(s, pos, 4, 0).value.0;
      if HighSurrogate(high) then
        && pos + 6 <= |s| && s[pos + 4..pos + 6] == "\\u" && Hex(s, pos + 6, 4, 0).Ok?
        && LowSurrogate(Hex(s, pos + 6, 4, 0).value.0)
        && Unicode(s, pos) == Ok((Joined(high, Hex(s, pos + 6, 4, 0).value.0), pos + 10))
      else !LowSurrogate(high) && high <= 0x10_FFFF && Unicode(s, pos) == Ok((high as char, pos + 4))
  {
    hide Hex;
    if HighSurrogate(Hex(s, pos, 4, 0).value.0) {
      assert s[pos + 4..][..2] == s[pos + 4..pos + 6];
    }
  }

  lemma PairSound(s: string, pos: nat, high: string, low: string)
    requires 2 <= pos && pos + 10 <= |s| && s[pos - 2..pos] == "\\u" && s[pos + 4..pos + 6] == "\\u"
    requires high == s[pos..pos + 4] && low == s[pos + 6..pos + 10]
    ensures At(s, pos - 2, SpellPiece(Pair(high, low)), pos + 10)
  {
    AtJoin(s, pos + 4, "\\u", pos + 6, low, pos + 10);
    AtJoin(s, pos, high, pos + 4, "\\u" + low, pos + 10);
    AtJoin(s, pos - 2, "\\u", pos, high + ("\\u" + low), pos + 10);
  }

  lemma PieceSound(s: string, pos: nat) returns (p: Piece)
    requires pos < |s| && s[pos] != '"' && JsonParser.Character(s, pos).Ok?
    ensures GoodPiece(p) && At(s, pos, SpellPiece(p), JsonParser.Character(s, pos).value.1)
    ensures JsonGrammar.Character(p) == JsonParser.Character(s, pos).value.0
  {
    hide Unicode;
    if s[pos] != '\\' {
      p := Plain(s[pos]);
    } else if s[pos + 1] == 'u' {
      p := UnicodeSound(s, pos + 2);
    } else {
      p := Short(s[pos + 1]);
    }
  }

  lemma {:induction false} PiecesSound(s: string, pos: nat, seen: string) returns (ps: seq<Piece>)
    requires pos <= |s| && StringTail(s, pos, seen).Ok?
    ensures GoodPieces(ps) && At(s, pos, SpellPieces(ps) + "\"", StringTail(s, pos, seen).value.1)
    ensures StringTail(s, pos, seen).value.0 == seen + Characters(ps)
    decreases |s| - pos
  {
    hide JsonParser.Character, JsonGrammar.Character, GoodPiece, SpellPiece;
    if s[pos] == '"' {
      ps := [];
      assert seen + "" == seen && "" + "\"" == "\"";
    } else {
      var p := PieceSound(s, pos);
      var c := JsonParser.Character(s, pos).value;
      var rest := PiecesSound(s, c.1, seen + [c.0]);
      ps := [p] + rest;
      assert ps[1..] == rest;
      PiecesJoin(p, rest);
      AtJoin(s, pos, SpellPiece(p), c.1, SpellPieces(rest) + "\"", StringTail(s, pos, seen).value.1);
      assert seen + [c.0] + Characters(rest) == seen + Characters(ps);
    }
  }

  lemma PiecesJoin(p: Piece, rest: seq<Piece>)
    ensures SpellPieces([p] + rest) + "\"" == SpellPiece(p) + (SpellPieces(rest) + "\"")
  {
    assert ([p] + rest)[1..] == rest;
  }

  /** A string literal and the space before it. */
  lemma QuoteSound(s: string, pos: nat) returns (gap: string, ps: seq<Piece>)
    requires pos <= |s| && ParseString(s, pos).Ok?
    ensures AllSpace(gap) && GoodPieces(ps) && Characters(ps) == ParseString(s, pos).value.0
    ensures At(s, pos, gap + SpellQuote(ps), ParseString(s, pos).value.1)
    ensures gap == s[pos..Space(s, pos)]
  {
    hide StringTail, SpellPieces, Characters;
    var start := Space(s, pos);
    SpaceSound(s, pos);
    gap := s[pos..start];
    ps := PiecesSound(s, start + 1, "");
    var end := ParseString(s, pos).value.1;
    AtMark(s, start, '"');
    AtJoin(s, start, "\"", start + 1, SpellPieces(ps) + "\"", end);
    AtJoin(s, pos, gap, start, SpellQuote(ps), end);
    assert "" + Characters(ps) == Characters(ps);
  }

  // ---- Numbers ----

  lemma SlicesJoin(s: string, a: nat, b: nat, c: nat)
    requires a <= b <= c <= |s|
    ensures s[a..b] + s[b..c] == s[a..c]
  {
  }

  /** The digits before the point. */
  lemma WholeSound(s: string, first: nat, whole: nat)
    requires first < |s| && IntegralTokens.IsDigit(s[first])
    requires whole == if s[first] == '0' then first + 1 else DigitsEnd(s, first + 1)
    ensures first < whole <= |s| && IntegralTokens.AllDigits(s[first..whole])
    ensures s[first] == '0' ==> whole == first + 1
  {
    if s[first] != '0' {
      assert s[first..whole] == [s[first]] + s[first + 1..whole];
    }
  }

  /** Where the digits before the point start and end. */
  lemma MantissaParts(s: string, pos: nat) returns (first: nat, middle: nat)
    requires pos < |s| && MantissaEnd(s, pos).Ok?
    ensures first == (if s[pos] == '-' then pos + 1 else pos) && first < |s| && IntegralTokens.IsDigit(s[first])
    ensures middle == if s[first] == '0' then first + 1 else DigitsEnd(s, first + 1)
    ensures
      var end := MantissaEnd(s, pos).value;
      middle <= end <= |s| && (middle == end || (Has(s, middle, '.') && end == DigitsEnd(s, middle + 1) > middle + 1))
  {
    hide DigitsEnd;
    first := if s[pos] == '-' then pos + 1 else pos;
    middle := if s[first] == '0' then first + 1 else DigitsEnd(s, first + 1);
  }

  lemma FractionSound(s: string, pos: nat, end: nat) returns (fraction: Option<string>)
    requires pos <= end <= |s| && (pos == end || (Has(s, pos, '.') && end == DigitsEnd(s, pos + 1) > pos + 1))
    ensures At(s, pos, SpellFraction(fraction), end)
    ensures fraction.Some? ==> fraction.value != "" && IntegralTokens.AllDigits(fraction.value)
  {
    if pos == end {
      fraction := None;
    } else {
      fraction := Some(s[pos + 1..end]);
      AtMark(s, pos, '.');
      AtSlice(s, pos + 1, end);
      AtJoin(s, pos, ".", pos + 1, fraction.value, end);
    }
  }

  lemma MantissaSound(s: string, pos: nat) returns (negative: bool, whole: string, fraction: Option<string>)
    requires pos < |s| && MantissaEnd(s, pos).Ok?
    ensures
      var n := Numeral(negative, whole, fraction, None);
      WrittenNumeral(n) && At(s, pos, SpellMantissa(n), MantissaEnd(s, pos).value)
  {
    hide DigitsEnd, MantissaEnd, At, SpellFraction, IntegralTokens.IsDigit, IntegralTokens.AllDigits;
    var end := MantissaEnd(s, pos).value;
    var first, middle := MantissaParts(s, pos);
    WholeSound(s, first, middle);
    negative, whole := s[pos] == '-', s[first..middle];
    fraction := FractionSound(s, middle, end);
    AtSlice(s, first, middle);
    AtJoin(s, first, whole, middle, SpellFraction(fraction), end);
    SignSound(s, pos, first);
    AtJoin(s, pos, SpellSign(negative), first, whole + SpellFraction(fraction), end);
  }

  lemma SignSound(s: string, pos: nat, first: nat)
    requires pos < |s| && first == if s[pos] == '-' then pos + 1 else pos
    ensures At(s, pos, SpellSign(s[pos] == '-'), first)
  {
  }

  lemma ExponentSound(s: string, pos: nat) returns (e: Option<Exponent>)
    requires pos <= |s| && ExponentAt(s, pos).Ok?
    ensures e.Some? ==> GoodExponent(e.value)
    ensures At(s, pos, SpellExponent(e), ExponentAt(s, pos).value.2)
    ensures ExponentAt(s, pos).value.0 == (e.Some? && e.value.sign == "-")
    ensures ExponentAt(s, pos).value.1 == if e.Some? then e.value.digits else ""
  {
    hide DigitsEnd;
    if Has(s, pos, 'e') || Has(s, pos, 'E') {
      var begin := if Has(s, pos + 1, '+') || Has(s, pos + 1, '-') then pos + 2 else pos + 1;
      var end := DigitsEnd(s, begin);
      var x := Exponent(s[pos], s[pos + 1..begin], s[begin..end]);
      assert x.sign == if begin == pos + 1 then "" else [s[pos + 1]];
      assert |x.digits| == end - begin > 0;
      AtMark(s, pos, s[pos]);
      AtSlice(s, pos + 1, begin);
      AtSlice(s, begin, end);
      AtJoin(s, pos + 1, x.sign, begin, x.digits, end);
      AtJoin(s, pos, [x.mark], pos + 1, x.sign + x.digits, end);
      e := Some(x);
    } else {
      e := None;
    }
  }

  lemma NumeralSound(s: string, pos: nat) returns (n: Numeral)
    requires pos < |s| && ParseNumber(s, pos).Ok?
    ensures GoodNumeral(n) && At(s, pos, SpellNumeral(n), ParseNumber(s, pos).value.1)
    ensures ParseNumber(s, pos).value.0 == Integer(NumberOf(n))
  {
    hide MantissaEnd, ExponentAt, IntegerOf, SpellMantissa;
    var mid := MantissaEnd(s, pos).value;
    var negative, whole, fraction := MantissaSound(s, pos);
    var e := ExponentSound(s, mid);
    n := Numeral(negative, whole, fraction, e);
    SameMantissa(n, Numeral(negative, whole, fraction, None));
    IntegerOfNumeral(n);
    AtJoin(s, pos, SpellMantissa(n), mid, SpellExponent(e), ParseNumber(s, pos).value.1);
    assert s[pos..mid] == SpellMantissa(n);
  }

  lemma SameMantissa(n: Numeral, m: Numeral)
    requires n.negative == m.negative && n.whole == m.whole && n.fraction == m.fraction
    ensures SpellMantissa(n) == SpellMantissa(m)
  {
  }

  // ---- Values ----

  /** The node was read from `pos` to `end`. */
  ghost predicate Stands(s: string, pos: nat, n: Node, v: Value, end: nat, depth: nat, max: nat) {
    Good(n) && At(s, pos, Spell(n), end) && Meaning(n) == v && depth + Nesting(n) <= max
  }

  lemma Placed(s: string, pos: nat, start: nat, f: Form, v: Value, end: nat, depth: nat, max: nat) returns (n: Node)
    requires StartsAt(s, pos, start, depth, max) && GoodForm(f) && At(s, start, SpellForm(f), end)
    requires FormMeaning(f) == v && depth + Nesting(Node("", f)) <= max
    ensures Stands(s, pos, n, v, end, depth, max)
  {
    hide SpellForm, GoodForm, Space;
    SpaceSound(s, pos);
    n := Node(s[pos..start], f);
    AtJoin(s, pos, s[pos..start], start, SpellForm(f), end);
  }

  lemma {:induction false} ValueSound(s: string, pos: nat, depth: nat, max: nat) returns (n: Node)
    requires pos <= |s| && ParseValue(s, pos, depth, max).Ok?
    ensures
      var (v, end) := ParseValue(s, pos, depth, max).value;
      Stands(s, pos, n, v, end, depth, max)
    decreases |s| - pos, 1
  {
    hide *;
    ValueStarts(s, pos, depth, max);
    var start := Space(s, pos);
    StartRange(s, pos, start, depth, max);
    if s[start] == '[' {
      n := ListSound(s, pos, start, depth, max);
    } else if s[start] == '{' {
      n := RecordSound(s, pos, start, depth, max);
    } else if s[start] == '"' {
      n := TextSound(s, pos, start, depth, max);
    } else if s[start] == '-' || IntegralTokens.IsDigit(s[start]) {
      n := NumberSound(s, pos, start, depth, max);
    } else {
      n := WordSound(s, pos, start, depth, max);
    }
  }

  lemma StartRange(s: string, pos: nat, start: nat, depth: nat, max: nat)
    requires StartsAt(s, pos, start, depth, max)
    ensures pos <= start < |s| && depth <= max
  {
  }

  lemma TextSound(s: string, pos: nat, start: nat, depth: nat, max: nat) returns (n: Node)
    requires StartsAt(s, pos, start, depth, max) && s[start] == '"' && ParseValue(s, pos, depth, max).Ok?
    ensures
      var (v, end) := ParseValue(s, pos, depth, max).value;
      Stands(s, pos, n, v, end, depth, max)
  {
    hide ParseValue, ParseString, SpellQuote, Stands;
    ValueOfString(s, pos, start, depth, max);
    SpaceAgain(s, pos);
    var gap, ps := QuoteSound(s, start);
    var end := ParseString(s, start).value.1;
    assert gap == "" && "" + SpellQuote(ps) == SpellQuote(ps);
    n := Placed(s, pos, start, Quote(ps), Text(Characters(ps)), end, depth, max);
  }

  lemma NumberSound(s: string, pos: nat, start: nat, depth: nat, max: nat) returns (n: Node)
    requires StartsAt(s, pos, start, depth, max) && (s[start] == '-' || IntegralTokens.IsDigit(s[start]))
    requires ParseValue(s, pos, depth, max).Ok?
    ensures
      var (v, end) := ParseValue(s, pos, depth, max).value;
      Stands(s, pos, n, v, end, depth, max)
  {
    hide ParseValue, ParseNumber, Space, SpellNumeral, Stands;
    ValueOfNumber(s, pos, start, depth, max);
    var m := NumeralSound(s, start);
    n := Placed(s, pos, start, Number(m), Integer(NumberOf(m)), ParseNumber(s, start).value.1, depth, max);
  }

  lemma WordAt(s: string, start: nat, word: string, v: Value)
    requires start <= |s| && word != "" && ParseWord(s, start, word, v).Ok?
    ensures At(s, start, word, start + |word|) && ParseWord(s, start, word, v) == Ok((v, start + |word|))
  {
    assert s[start..][..|word|] == s[start..start + |word|];
  }

  lemma WordSound(s: string, pos: nat, start: nat, depth: nat, max: nat) returns (n: Node)
    requires StartsAt(s, pos, start, depth, max) && ParseValue(s, pos, depth, max).Ok?
    requires s[start] !in {'"', '[', '{', '-'} && !IntegralTokens.IsDigit(s[start])
    ensures
      var (v, end) := ParseValue(s, pos, depth, max).value;
      Stands(s, pos, n, v, end, depth, max)
  {
    hide ParseValue, ParseWord, Space, Stands;
    ValueOfWord(s, pos, start, depth, max);
    if s[start] == 't' {
      WordAt(s, start, "true", Boolean(true));
      n := Placed(s, pos, start, TrueWord, Boolean(true), start + 4, depth, max);
    } else if s[start] == 'f' {
      WordAt(s, start, "false", Boolean(false));
      n := Placed(s, pos, start, FalseWord, Boolean(false), start + 5, depth, max);
    } else {
      WordAt(s, start, "null", Null);
      n := Placed(s, pos, start, NullWord, Null, start + 4, depth, max);
    }
  }

  // ---- Lists ----

  lemma {:induction false} ListSound(s: string, pos: nat, start: nat, depth: nat, max: nat) returns (n: Node)
    requires StartsAt(s, pos, start, depth, max) && s[start] == '[' && ParseValue(s, pos, depth, max).Ok?
    requires pos <= start
    ensures
      var (v, end) := ParseValue(s, pos, depth, max).value;
      Stands(s, pos, n, v, end, depth, max)
    decreases |s| - pos, 0
  {
    hide *;
    ValueOfList(s, pos, start, depth, max);
    ItemsSkip(s, start + 1, depth, max);
    HasMark(s, start, '[');
    AtMark(s, start, '[');
    var first := Space(s, start + 1);
    if Has(s, first, ']') {
      n := EmptyListSound(s, pos, start, depth, max);
    } else {
      var items := ItemsSound(s, start + 1, depth, max);
      var (vs, end) := ParseItems(s, start + 1, depth, max).value;
      AtJoin(s, start, "[", start + 1, SpellItems(items), end);
      ListForm(items);
      n := Placed(s, pos, start, List(items), Array(vs), end, depth, max);
    }
  }

  lemma ListForm(items: Items)
    requires GoodItems(items)
    ensures GoodForm(List(items)) && SpellForm(List(items)) == "[" + SpellItems(items)
    ensures FormMeaning(List(items)) == Array(ItemsMeaning(items))
    ensures Nesting(Node("", List(items))) == 1 + ItemsNesting(items)
  {
  }

  lemma EmptyListSound(s: string, pos: nat, start: nat, depth: nat, max: nat) returns (n: Node)
    requires StartsAt(s, pos, start, depth, max) && s[start] == '[' && Has(s, Space(s, start + 1), ']')
    ensures Stands(s, pos, n, Array([]), Space(s, start + 1) + 1, depth, max)
  {
    hide Space, Stands;
    var first := Space(s, start + 1);
    var gap := s[start + 1..first];
    SpaceSound(s, start + 1);
    AtMark(s, start, '[');
    AtMark(s, first, ']');
    AtJoin(s, start + 1, gap, first, "]", first + 1);
    AtJoin(s, start, "[", start + 1, gap + "]", first + 1);
    n := Placed(s, pos, start, NoItems(gap), Array([]), first + 1, depth, max);
  }

  lemma {:induction false} ItemsSound(s: string, pos: nat, depth: nat, max: nat) returns (items: Items)
    requires pos <= |s| && ParseItems(s, pos, depth, max).Ok?
    ensures
      var (vs, end) := ParseItems(s, pos, depth, max).value;
      && GoodItems(items) && At(s, pos, SpellItems(items), end) && ItemsMeaning(items) == vs
      && depth + 1 + ItemsNesting(items) <= max
    decreases |s| - pos, 2
  {
    hide *;
    ItemsUnfold(s, pos, depth, max);
    var item := ValueSound(s, pos, depth + 1, max);
    var (v, mid) := ParseValue(s, pos, depth + 1, max).value;
    var next := Space(s, mid);
    var gap := s[mid..next];
    SpaceSound(s, mid);
    StandsParts(s, pos, item, v, mid, depth + 1, max);
    if Has(s, next, ']') {
      items := LastItem(item, gap);
      AtMark(s, next, ']');
      AtJoin(s, mid, gap, next, "]", next + 1);
      AtJoin(s, pos, Spell(item), mid, gap + "]", next + 1);
    } else {
      var rest := ItemsSound(s, next + 1, depth, max);
      var (vs, end) := ParseItems(s, next + 1, depth, max).value;
      items := NextItem(item, gap, rest);
      AtMark(s, next, ',');
      AtJoin(s, next, ",", next + 1, SpellItems(rest), end);
      AtJoin(s, mid, gap, next, "," + SpellItems(rest), end);
      AtJoin(s, pos, Spell(item), mid, gap + ("," + SpellItems(rest)), end);
    }
    ItemsMade(items);
  }

  lemma StandsParts(s: string, pos: nat, n: Node, v: Value, end: nat, depth: nat, max: nat)
    requires Stands(s, pos, n, v, end, depth, max)
    ensures Good(n) && At(s, pos, Spell(n), end) && Meaning(n) == v && depth + Nesting(n) <= max
  {
  }

  lemma ItemsMade(items: Items)
    requires Good(items.item) && AllSpace(items.gap) && (items.NextItem? ==> GoodItems(items.rest))
    ensures GoodItems(items)
    ensures items.LastItem? ==> SpellItems(items) == Spell(items.item) + (items.gap + "]")
    ensures items.NextItem? ==>
      SpellItems(items) == Spell(items.item) + (items.gap + ("," + SpellItems(items.rest)))
    ensures items.LastItem? ==>
      ItemsMeaning(items) == [Meaning(items.item)] && ItemsNesting(items) == Nesting(items.item)
    ensures items.NextItem? ==>
      && ItemsMeaning(items) == [Meaning(items.item)] + ItemsMeaning(items.rest)
      && ItemsNesting(items) == Deeper(Nesting(items.item), ItemsNesting(items.rest))
    ensures forall a, b :: Deeper(a, b) == a || Deeper(a, b) == b
  {
    hide Good, Spell, Meaning, Nesting;
    if items.LastItem? {
      assert [Meaning(items.item)] + [] == [Meaning(items.item)];
    }
  }

  // ---- Objects ----

  lemma {:induction false} RecordSound(s: string, pos: nat, start: nat, depth: nat, max: nat) returns (n: Node)
    requires StartsAt(s, pos, start, depth, max) && s[start] == '{' && ParseValue(s, pos, depth, max).Ok?
    requires pos <= start
    ensures
      var (v, end) := ParseValue(s, pos, depth, max).value;
      Stands(s, pos, n, v, end, depth, max)
    decreases |s| - pos, 0
  {
    hide *;
    ValueOfObject(s, pos, start, depth, max);
    FieldsSkip(s, start + 1, depth, max, map[]);
    HasMark(s, start, '{');
    AtMark(s, start, '{');
    NothingSeen();
    var first := Space(s, start + 1);
    if Has(s, first, '}') {
      n := EmptyObjectSound(s, pos, start, depth, max);
    } else {
      var fields := FieldsSound(s, start + 1, depth, max, map[]);
      var (vs, end) := ParseFields(s, start + 1, depth, max, map[]).value;
      AtJoin(s, start, "{", start + 1, SpellFields(fields), end);
      RecordForm(fields);
      assert map[] + FieldsMeaning(fields, {}) == FieldsMeaning(fields, {});
      n := Placed(s, pos, start, Record(fields), Object(vs), end, depth, max);
    }
  }

  lemma RecordForm(fields: Fields)
    requires GoodFields(fields, {})
    ensures GoodForm(Record(fields)) && SpellForm(Record(fields)) == "{" + SpellFields(fields)
    ensures FormMeaning(Record(fields)) == Object(FieldsMeaning(fields, {}))
    ensures Nesting(Node("", Record(fields))) == 1 + FieldsNesting(fields)
  {
  }

  lemma EmptyObjectSound(s: string, pos: nat, start: nat, depth: nat, max: nat) returns (n: Node)
    requires StartsAt(s, pos, start, depth, max) && s[start] == '{' && Has(s, Space(s, start + 1), '}')
    ensures Stands(s, pos, n, Object(map[]), Space(s, start + 1) + 1, depth, max)
  {
    hide Space, Stands;
    var first := Space(s, start + 1);
    var gap := s[start + 1..first];
    SpaceSound(s, start + 1);
    AtMark(s, start, '{');
    AtMark(s, first, '}');
    AtJoin(s, start + 1, gap, first, "}", first + 1);
    AtJoin(s, start, "{", start + 1, gap + "}", first + 1);
    n := Placed(s, pos, start, NoFields(gap), Object(map[]), first + 1, depth, max);
  }

  /** A key with the space around it and its colon. */
  lemma KeySound(s: string, pos: nat) returns (k: Key)
    requires pos <= |s| && ParseString(s, pos).Ok? && Has(s, Space(s, ParseString(s, pos).value.1), ':')
    ensures GoodKey(k) && GoodPieces(k.pieces) && Characters(k.pieces) == ParseString(s, pos).value.0
    ensures At(s, pos, SpellKey(k), Space(s, ParseString(s, pos).value.1) + 1)
  {
    hide ParseString, Space, SpellQuote, Characters, At;
    var mid := ParseString(s, pos).value.1;
    var colon := Space(s, mid);
    var before, ps := QuoteSound(s, pos);
    k := Key(before, ps, s[mid..colon]);
    SpaceSound(s, mid);
    AtMark(s, colon, ':');
    AtJoin(s, mid, k.after, colon, ":", colon + 1);
    AtJoin(s, pos, before + SpellQuote(ps), mid, k.after + ":", colon + 1);
    KeyParts(k);
  }

  lemma {:induction false} FieldsSound(s: string, pos: nat, depth: nat, max: nat, seen: map<string, Value>)
      returns (fields: Fields)
    requires pos <= |s| && ParseFields(s, pos, depth, max, seen).Ok?
    ensures
      var (vs, end) := ParseFields(s, pos, depth, max, seen).value;
      && GoodFields(fields, seen.Keys) && At(s, pos, SpellFields(fields), end)
      && vs == seen + FieldsMeaning(fields, seen.Keys) && depth + 1 + FieldsNesting(fields) <= max
    decreases |s| - pos, 2
  {
    hide *;
    FieldsUnfold(s, pos, depth, max, seen);
    MemberUnfold(s, pos, depth, max, seen);
    var key := KeySound(s, pos);
    var colon := Space(s, ParseString(s, pos).value.1);
    AtEnd(s, pos, SpellKey(key), colon + 1);
    KeyLonger(key);
    var value := ValueSound(s, colon + 1, depth + 1, max);
    var (v, mid) := ParseValue(s, colon + 1, depth + 1, max).value;
    StandsParts(s, colon + 1, value, v, mid, depth + 1, max);
    var next := Space(s, mid);
    var gap := s[mid..next];
    var name := Characters(key.pieces);
    KeysAdd(seen, name, v);
    SpaceSound(s, mid);
    if Has(s, next, '}') {
      fields := LastField(key, value, gap);
      AtMark(s, next, '}');
      FieldPlaced(s, pos, SpellKey(key), colon + 1, Spell(value), mid, gap, next, "}", next + 1);
    } else {
      var rest := FieldsSound(s, next + 1, depth, max, seen[name := v]);
      var (vs, end) := ParseFields(s, next + 1, depth, max, seen[name := v]).value;
      fields := NextField(key, value, gap, rest);
      AtMark(s, next, ',');
      AtJoin(s, next, ",", next + 1, SpellFields(rest), end);
      FieldPlaced(s, pos, SpellKey(key), colon + 1, Spell(value), mid, gap, next, "," + SpellFields(rest), end);
    }
    FieldsMade(fields, seen.Keys);
    FieldsAdd(fields, seen);
  }

  lemma FieldPlaced(
      s: string, pos: nat, key: string, colon: nat, value: string, mid: nat, gap: string, next: nat, tail: string,
      end: nat)
    requires At(s, pos, key, colon) && At(s, colon, value, mid) && At(s, mid, gap, next) && At(s, next, tail, end)
    ensures At(s, pos, key + (value + (gap + tail)), end)
  {
    hide *;
    AtJoin(s, mid, gap, next, tail, end);
    AtJoin(s, colon, value, mid, gap + tail, end);
    AtJoin(s, pos, key, colon, value + (gap + tail), end);
  }

  lemma KeysAdd(seen: map<string, Value>, name: string, v: Value)
    ensures seen[name := v].Keys == seen.Keys + {name}
  {
  }

  lemma KeyLonger(k: Key)
    ensures |SpellKey(k)| > 0
  {
  }

  lemma FieldsMade(fields: Fields, seen: set<string>)
    requires GoodKey(fields.key) && GoodPieces(fields.key.pieces) && Characters(fields.key.pieces) !in seen
    requires Good(fields.value) && AllSpace(fields.gap)
    requires fields.NextField? ==> GoodFields(fields.rest, seen + {Characters(fields.key.pieces)})
    ensures GoodFields(fields, seen)
    ensures fields.LastField? ==>
      SpellFields(fields) == SpellKey(fields.key) + (Spell(fields.value) + (fields.gap + "}"))
    ensures fields.NextField? ==>
      SpellFields(fields) ==
        SpellKey(fields.key) + (Spell(fields.value) + (fields.gap + ("," + SpellFields(fields.rest))))
    ensures FieldsNesting(fields) ==
      Deeper(Nesting(fields.value), if fields.NextField? then FieldsNesting(fields.rest) else 0)
    ensures forall a, b :: Deeper(a, b) == a || Deeper(a, b) == b
  {
    hide Good, Spell, Nesting, Characters;
  }

  // ---- Documents ----

  /** Whatever is accepted is a text of the grammar with the value that was read. */
  lemma DocumentSound(s: string, max: nat) returns (n: Node, tail: string)
    requires ParseDocument(s, max).Ok?
    ensures Writes(s, n, tail) && Nesting(n) <= max && Meaning(n) == ParseDocument(s, max).value
  {
    hide *;
    DocumentIs(s, max);
    n := ValueSound(s, 0, 0, max);
    var (v, end) := ParseValue(s, 0, 0, max).value;
    StandsParts(s, 0, n, v, end, 0, max);
    SpaceSound(s, end);
    tail := s[end..Space(s, end)];
    AtJoin(s, 0, Spell(n), end, tail, |s|);
    WholeIs(s, Spell(n) + tail);
    MakeWrites(s, n, tail);
  }

  lemma WholeIs(s: string, t: string)
    requires At(s, 0, t, |s|)
    ensures s == t
  {
    assert s[0..|s|] == s;
  }

  lemma MakeWrites(s: string, n: Node, tail: string)
    requires Good(n) && AllSpace(tail) && s == Spell(n) + tail
    ensures Writes(s, n, tail)
  {
  }

  /** The reader accepts exactly the texts of the grammar, each with the value it means. */
  lemma ReadsGrammar(s: string, v: Value, max: nat)
    ensures ParseDocument(s, max) == Ok(v) <==> Denotes(s, v, max)
  {
    hide ParseDocument, Meaning, Nesting, Spell, Good;
    if ParseDocument(s, max) == Ok(v) {
      var n, tail := DocumentSound(s, max);
    }
    if Denotes(s, v, max) {
      var n, tail :| Writes(s, n, tail) && Meaning(n) == v && Nesting(n) <= max;
      DocumentComplete(s, n, tail, max);
    }
  }

  /** No text has two meanings, however its space and escapes are read. */
  lemma OneMeaning(s: string, m: Node, n: Node, before: string, after: string)
    requires Writes(s, m, before) && Writes(s, n, after)
    ensures Meaning(m) == Meaning(n)
  {
    hide *;
    var max := Nesting(m) + Nesting(n);
    DocumentComplete(s, m, before, max);
    DocumentComplete(s, n, after, max);
    WritesParts(s, m, before);
    WritesParts(s, n, after);
  }
}
