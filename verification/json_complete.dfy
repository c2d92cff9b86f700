// Every text of the JSON grammar is read as what it means.

module JsonComplete {
  import opened Wrappers
  import IntegralTokens
  import opened Json
  import opened JsonParser
  import opened JsonGrammar
  import opened JsonRoundTrip

  /** What may follow a value in a text. */
  predicate Follows(s: string, end: nat) {
    end >= |s| || IsSpace(s[end]) || s[end] in {',', ']', '}'}
  }

  // ---- Space ----

  lemma {:induction false} SpaceRead(s: string, pos: nat, gap: string, end: nat)
    requires At(s, pos, gap, end) && AllSpace(gap) && (end < |s| ==> !IsSpace(s[end]))
    ensures pos <= |s| && Space(s, pos) == end
    decreases |gap|
  {
    if gap != "" {
      AtChar(s, pos, gap, end, 0);
      assert gap == [gap[0]] + gap[1..];
      AtSplit(s, pos, [gap[0]], gap[1..], end);
      SpaceRead(s, pos + 1, gap[1..], end);
    }
  }

  lemma SpaceBeforeMark(s: string, pos: nat, gap: string, mark: string, rest: string, end: nat)
    requires At(s, pos, gap + (mark + rest), end) && AllSpace(gap) && |mark| == 1 && !IsSpace(mark[0])
    ensures
      var here := pos + |gap|;
      && pos <= |s| && Space(s, pos) == here < |s| && s[here] == mark[0] && At(s, here + 1, rest, end)
  {
    AtSplit(s, pos, gap, mark + rest, end);
    AtSplit(s, pos + |gap|, mark, rest, end);
    AtChar(s, pos + |gap|, mark, pos + |gap| + 1, 0);
    SpaceRead(s, pos, gap, pos + |gap|);
  }

  lemma SpaceThenMark(s: string, pos: nat, gap: string, mark: string, end: nat)
    requires At(s, pos, gap + mark, end) && AllSpace(gap) && |mark| == 1 && !IsSpace(mark[0])
    ensures pos <= |s| && Space(s, pos) == pos + |gap| == end - 1 < |s| && s[end - 1] == mark[0]
  {
    AtSplit(s, pos, gap, mark, end);
    AtChar(s, pos + |gap|, mark, end, 0);
    SpaceRead(s, pos, gap, pos + |gap|);
  }

  // ---- Strings ----

  lemma {:induction false} HexRead(s: string, pos: nat, digits: string, n: nat, end: nat)
    requires At(s, pos, digits, end) && forall i :: 0 <= i < |digits| ==> HexValue(digits[i]).Some?
    ensures pos <= |s| && Hex(s, pos, |digits|, n) == Ok((HexFrom(n, digits), end))
    decreases |digits|
  {
    if digits != "" {
      AtChar(s, pos, digits, end, 0);
      assert digits == [digits[0]] + digits[1..];
      AtSplit(s, pos, [digits[0]], digits[1..], end);
      HexRead(s, pos + 1, digits[1..], 16 * n + HexValue(digits[0]).value, end);
    }
  }

  lemma CodeRead(s: string, pos: nat, digits: string, end: nat)
    requires At(s, pos, digits, end) && GoodPiece(Code(digits))
    ensures pos <= |s| && Unicode(s, pos) == Ok((HexNumber(digits) as char, end))
  {
    HexRead(s, pos, digits, 0, end);
  }

  lemma PairRead(s: string, pos: nat, high: string, low: string, end: nat)
    requires At(s, pos, high + ("\\u" + low), end) && GoodPiece(Pair(high, low))
    ensures pos <= |s| && Unicode(s, pos) == Ok((Joined(HexNumber(high), HexNumber(low)), end))
  {
    AtSplit(s, pos, high, "\\u" + low, end);
    AtSplit(s, pos + 4, "\\u", low, end);
    HexRead(s, pos, high, 0, pos + 4);
    HexRead(s, pos + 6, low, 0, end);
    assert s[pos + 4..][..2] == s[pos + 4..pos + 6];
    PairIs(s, pos, HexNumber(high), HexNumber(low), end);
  }

  lemma PairIs(s: string, pos: nat, high: nat, low: nat, end: nat)
    requires pos + 6 <= |s| && Hex(s, pos, 4, 0) == Ok((high, pos + 4)) && Hex(s, pos + 6, 4, 0) == Ok((low, end))
    requires Starts(s, pos + 4, "\\u") && HighSurrogate(high) && LowSurrogate(low)
    ensures Unicode(s, pos) == Ok((Joined(high, low), end))
  {
    hide Hex, Starts;
  }

  lemma PieceRead(s: string, pos: nat, p: Piece, end: nat)
    requires At(s, pos, SpellPiece(p), end) && GoodPiece(p)
    ensures pos < |s| && s[pos] != '"' && JsonParser.Character(s, pos) == Ok((JsonGrammar.Character(p), end))
  {
    AtChar(s, pos, SpellPiece(p), end, 0);
    match p
    case Plain(c) =>
    case Short(mark) =>
      AtChar(s, pos, SpellPiece(p), end, 1);
    case Code(digits) =>
      AtChar(s, pos, SpellPiece(p), end, 1);
      AtSplit(s, pos, "\\u", digits, end);
      CodeRead(s, pos + 2, digits, end);
    case Pair(high, low) =>
      AtChar(s, pos, SpellPiece(p), end, 1);
      AtSplit(s, pos, "\\u", high + ("\\u" + low), end);
      PairRead(s, pos + 2, high, low, end);
  }

  lemma {:induction false} PiecesRead(s: string, pos: nat, ps: seq<Piece>, seen: string, end: nat)
    requires At(s, pos, SpellPieces(ps) + "\"", end) && GoodPieces(ps)
    ensures pos <= |s| && StringTail(s, pos, seen) == Ok((seen + Characters(ps), end))
    decreases |ps|
  {
    hide JsonParser.Character, JsonGrammar.Character, GoodPiece, SpellPiece;
    if ps == [] {
      assert SpellPieces(ps) + "\"" == "\"";
      AtChar(s, pos, "\"", end, 0);
      assert seen + "" == seen;
    } else {
      var mid := pos + |SpellPiece(ps[0])|;
      assert SpellPieces(ps) + "\"" == SpellPiece(ps[0]) + (SpellPieces(ps[1..]) + "\"");
      AtSplit(s, pos, SpellPiece(ps[0]), SpellPieces(ps[1..]) + "\"", end);
      PieceRead(s, pos, ps[0], mid);
      PiecesRead(s, mid, ps[1..], seen + [JsonGrammar.Character(ps[0])], end);
      assert seen + [JsonGrammar.Character(ps[0])] + Characters(ps[1..]) == seen + Characters(ps);
    }
  }

  /** A string literal after optional space. */
  lemma QuoteRead(s: string, pos: nat, gap: string, ps: seq<Piece>, end: nat)
    requires At(s, pos, gap + SpellQuote(ps), end) && AllSpace(gap) && GoodPieces(ps)
    ensures pos <= |s| && ParseString(s, pos) == Ok((Characters(ps), end))
  {
    hide *;
    QuoteIs(ps);
    SpaceBeforeMark(s, pos, gap, "\"", SpellPieces(ps) + "\"", end);
    PiecesRead(s, pos + |gap| + 1, ps, "", end);
    assert "" + Characters(ps) == Characters(ps);
    StringAfterSpace(s, pos);
  }

  lemma QuoteIs(ps: seq<Piece>)
    ensures SpellQuote(ps) == "\"" + (SpellPieces(ps) + "\"")
    ensures !IsSpace('"')
  {
  }

  lemma StringAfterSpace(s: string, pos: nat)
    requires pos <= |s| && Space(s, pos) < |s| && s[Space(s, pos)] == '"'
    ensures ParseString(s, pos) == StringTail(s, Space(s, pos) + 1, "")
  {
  }

  // ---- Numbers ----

  lemma {:induction false} DigitsRead(s: string, pos: nat, digits: string, end: nat)
    requires At(s, pos, digits, end) && IntegralTokens.AllDigits(digits)
    requires end < |s| ==> !IntegralTokens.IsDigit(s[end])
    ensures pos <= |s| && DigitsEnd(s, pos) == end
    decreases |digits|
  {
    if digits != "" {
      AtChar(s, pos, digits, end, 0);
      assert digits == [digits[0]] + digits[1..];
      AtSplit(s, pos, [digits[0]], digits[1..], end);
      DigitsRead(s, pos + 1, digits[1..], end);
    }
  }

  /** What ends the digits of a number. */
  predicate NoDigit(s: string, end: nat) {
    end < |s| ==> !IntegralTokens.IsDigit(s[end])
  }

  lemma WholeRead(s: string, pos: nat, whole: string, end: nat)
    requires At(s, pos, whole, end) && NoDigit(s, end)
    requires whole != "" && IntegralTokens.AllDigits(whole) && (whole[0] == '0' ==> |whole| == 1)
    ensures pos < end <= |s| && IntegralTokens.IsDigit(s[pos]) && s[pos] != '-'
    ensures (if s[pos] == '0' then pos + 1 else DigitsEnd(s, pos + 1)) == end
  {
    AtChar(s, pos, whole, end, 0);
    if whole[0] != '0' {
      assert whole == [whole[0]] + whole[1..];
      AtSplit(s, pos, [whole[0]], whole[1..], end);
      DigitsRead(s, pos + 1, whole[1..], end);
    }
  }

  /** A mantissa ends before an exponent or whatever follows the number. */
  predicate AfterMantissa(s: string, end: nat) {
    end < |s| ==> !IntegralTokens.IsDigit(s[end]) && s[end] != '.'
  }

  lemma FractionRead(s: string, pos: nat, fraction: Option<string>, end: nat)
    requires At(s, pos, SpellFraction(fraction), end) && AfterMantissa(s, end)
    requires fraction.Some? ==> fraction.value != "" && IntegralTokens.AllDigits(fraction.value)
    ensures pos <= end <= |s| && NoDigit(s, pos)
    ensures if Has(s, pos, '.') then DigitsEnd(s, pos + 1) == end && end > pos + 1 else pos == end
  {
    if fraction.Some? {
      AtChar(s, pos, SpellFraction(fraction), end, 0);
      AtSplit(s, pos, ".", fraction.value, end);
      DigitsRead(s, pos + 1, fraction.value, end);
    }
  }

  lemma MantissaIs(s: string, pos: nat, first: nat, whole: nat, end: nat)
    requires pos <= first < whole <= end <= |s| && first == (if s[pos] == '-' then pos + 1 else pos)
    requires IntegralTokens.IsDigit(s[first])
    requires (if s[first] == '0' then first + 1 else DigitsEnd(s, first + 1)) == whole
    requires if Has(s, whole, '.') then DigitsEnd(s, whole + 1) == end && end > whole + 1 else whole == end
    ensures MantissaEnd(s, pos) == Ok(end)
  {
    hide DigitsEnd;
  }

  lemma SignRead(s: string, pos: nat, negative: bool, first: nat)
    requires At(s, pos, SpellSign(negative), first) && first < |s| && s[first] != '-'
    ensures pos < |s| && first == (if s[pos] == '-' then pos + 1 else pos)
  {
    if negative {
      AtChar(s, pos, "-", first, 0);
    }
  }

  lemma MantissaRead(s: string, pos: nat, n: Numeral, end: nat)
    requires At(s, pos, SpellMantissa(n), end) && WrittenNumeral(n) && AfterMantissa(s, end)
    ensures pos < |s| && MantissaEnd(s, pos) == Ok(end) && s[pos..end] == SpellMantissa(n)
    ensures s[pos] == '-' || IntegralTokens.IsDigit(s[pos])
  {
    hide DigitsEnd, MantissaEnd, SpellSign, SpellFraction, IntegralTokens.AllDigits;
    var sign, fraction := SpellSign(n.negative), SpellFraction(n.fraction);
    var first := pos + |sign|;
    var whole := first + |n.whole|;
    AtSplit(s, pos, sign, n.whole + fraction, end);
    AtSplit(s, first, n.whole, fraction, end);
    FractionRead(s, whole, n.fraction, end);
    WholeRead(s, first, n.whole, whole);
    SignRead(s, pos, n.negative, first);
    MantissaIs(s, pos, first, whole, end);
  }

  lemma ExponentRead(s: string, pos: nat, e: Option<Exponent>, end: nat)
    requires At(s, pos, SpellExponent(e), end) && (e.Some? ==> GoodExponent(e.value)) && Follows(s, end)
    ensures pos <= |s|
    ensures ExponentAt(s, pos) ==
      Ok((e.Some? && e.value.sign == "-", if e.Some? then e.value.digits else "", end))
    ensures AfterMantissa(s, pos)
  {
    if e.Some? {
      ExponentSplit(s, pos, e.value, end);
      ExponentIs(s, pos, e.value, end);
    }
  }

  /** The parts of an exponent where they stand. */
  ghost predicate ExponentParts(s: string, pos: nat, e: Exponent, end: nat) {
    var begin := pos + 1 + |e.sign|;
    && pos + 1 <= begin < end <= |s| && s[pos] == e.mark && s[begin..end] == e.digits
    && DigitsEnd(s, begin) == end && IntegralTokens.IsDigit(s[begin])
    && (e.sign != "" ==> s[pos + 1] == e.sign[0])
  }

  lemma ExponentSplit(s: string, pos: nat, e: Exponent, end: nat)
    requires At(s, pos, [e.mark] + (e.sign + e.digits), end) && GoodExponent(e) && Follows(s, end)
    ensures ExponentParts(s, pos, e, end)
  {
    hide DigitsEnd;
    var begin := pos + 1 + |e.sign|;
    AtSplit(s, pos, [e.mark], e.sign + e.digits, end);
    AtChar(s, pos, [e.mark], pos + 1, 0);
    AtSplit(s, pos + 1, e.sign, e.digits, end);
    if e.sign != "" {
      AtChar(s, pos + 1, e.sign, begin, 0);
    }
    AtChar(s, begin, e.digits, end, 0);
    DigitsRead(s, begin, e.digits, end);
  }

  lemma ExponentIs(s: string, pos: nat, e: Exponent, end: nat)
    requires ExponentParts(s, pos, e, end) && GoodExponent(e)
    ensures ExponentAt(s, pos) == Ok((e.sign == "-", e.digits, end)) && AfterMantissa(s, pos)
  {
    hide DigitsEnd;
  }

  // ---- The value of a number ----

  lemma {:induction false} DigitsJoin(a: string, b: string)
    ensures IntegralTokens.Digits(a + b) == IntegralTokens.Digits(a) + IntegralTokens.Digits(b)
  {
    if b == "" {
      assert a + b == a;
    } else {
      var front := b[..|b| - 1];
      DigitsJoin(a, front);
      assert (a + b)[..|a + b| - 1] == a + front;
    }
  }

  lemma {:induction false} PointAfter(a: string, b: string)
    requires '.' !in a
    ensures IntegralTokens.AfterPoint(a + ("." + b)) == |b|
  {
    if a == "" {
      assert a + ("." + b) == "." + b;
    } else {
      PointAfter(a[1..], b);
      assert (a + ("." + b))[1..] == a[1..] + ("." + b);
    }
  }

  lemma MantissaDigits(n: Numeral)
    requires WrittenNumeral(n)
    ensures IntegralTokens.Digits(SpellMantissa(n)) == n.whole + FractionDigits(n)
    ensures IntegralTokens.AfterPoint(SpellMantissa(n)) == |FractionDigits(n)|
    ensures ("-" <= SpellMantissa(n)) == n.negative
  {
    hide IntegralTokens.Digits, IntegralTokens.AfterPoint;
    var sign, fraction := SpellSign(n.negative), SpellFraction(n.fraction);
    DigitsJoin(sign, n.whole + fraction);
    DigitsJoin(n.whole, fraction);
    SignDigits(n.negative);
    FractionIs(n);
    AllDigitsKept(n.whole);
    var before := sign + n.whole;
    assert '.' !in before;
    if n.fraction.Some? {
      PointAfter(before, n.fraction.value);
      assert SpellMantissa(n) == before + ("." + n.fraction.value);
    } else {
      NoPoint(before);
      assert SpellMantissa(n) == before;
    }
    if !n.negative {
      assert SpellMantissa(n)[0] == n.whole[0];
    }
  }

  lemma SignDigits(negative: bool)
    ensures IntegralTokens.Digits(SpellSign(negative)) == ""
  {
    if negative {
      assert "-"[..0] == "";
    }
  }

  lemma FractionIs(n: Numeral)
    requires WrittenNumeral(n)
    ensures IntegralTokens.Digits(SpellFraction(n.fraction)) == FractionDigits(n)
  {
    if n.fraction.Some? {
      var digits := n.fraction.value;
      DigitsJoin(".", digits);
      AllDigitsKept(digits);
      assert "."[..0] == "";
      assert IntegralTokens.Digits(".") == "";
      assert "" + digits == digits;
    }
  }

  lemma IntegerOfNumeral(n: Numeral)
    requires WrittenNumeral(n)
    ensures
      var e := n.exponent;
      var digits := if e.Some? then e.value.digits else "";
      && IntegralTokens.AllDigits(digits)
      && (IntegerOf(SpellMantissa(n), e.Some? && e.value.sign == "-", digits) ==
        if !IntegralTokens.Safe(Significand(n), Power(n)) then Err(UnsafeNumber)
        else if !IntegralTokens.IntegerValued(Significand(n), Power(n)) then Err(Fraction)
        else Ok(Integer(NumberOf(n))))
  {
    MantissaDigits(n);
    hide IntegralTokens.Digits, IntegralTokens.AfterPoint, SpellMantissa, FractionDigits;
  }

  lemma NumeralRead(s: string, pos: nat, n: Numeral, end: nat)
    requires At(s, pos, SpellNumeral(n), end) && GoodNumeral(n) && Follows(s, end)
    ensures pos < |s| && (s[pos] == '-' || IntegralTokens.IsDigit(s[pos]))
    ensures ParseNumber(s, pos) == Ok((Integer(NumberOf(n)), end))
  {
    var mid := pos + |SpellMantissa(n)|;
    AtSplit(s, pos, SpellMantissa(n), SpellExponent(n.exponent), end);
    ExponentRead(s, mid, n.exponent, end);
    MantissaRead(s, pos, n, mid);
    IntegerOfNumeral(n);
  }

  // ---- Values ----

  /** A value starts with neither space nor a closing mark. */
  lemma FormStarts(f: Form)
    requires GoodForm(f)
    ensures SpellForm(f) != "" && !IsSpace(SpellForm(f)[0]) && SpellForm(f)[0] !in {',', ']', '}', ':'}
  {
    if f.Number? {
      NumeralStarts(f.numeral);
    }
  }

  lemma NumeralStarts(n: Numeral)
    requires WrittenNumeral(n)
    ensures SpellNumeral(n) != "" && (SpellNumeral(n)[0] == '-' || IntegralTokens.IsDigit(SpellNumeral(n)[0]))
  {
    assert SpellMantissa(n)[0] == if n.negative then '-' else n.whole[0];
  }

  lemma NodeStarts(s: string, pos: nat, n: Node, end: nat, depth: nat, max: nat)
    requires At(s, pos, Spell(n), end) && Good(n) && depth <= max
    ensures StartsAt(s, pos, pos + |n.space|, depth, max) && At(s, pos + |n.space|, SpellForm(n.form), end)
    ensures SpellForm(n.form) != "" && s[pos + |n.space|] == SpellForm(n.form)[0]
  {
    hide SpellForm, GoodForm, Space;
    FormStarts(n.form);
    AtSplit(s, pos, n.space, SpellForm(n.form), end);
    AtChar(s, pos + |n.space|, SpellForm(n.form), end, 0);
    SpaceRead(s, pos, n.space, pos + |n.space|);
  }

  lemma {:induction false} ValueComplete(s: string, pos: nat, n: Node, end: nat, depth: nat, max: nat)
    requires At(s, pos, Spell(n), end) && Good(n) && Follows(s, end) && depth + Nesting(n) <= max
    ensures pos <= |s| && ParseValue(s, pos, depth, max) == Ok((Meaning(n), end))
    decreases n, 2
  {
    hide *;
    var start := pos + |n.space|;
    NodeParts(n);
    NodeStarts(s, pos, n, end, depth, max);
    match n.form
    case List(items) =>
      ListComplete(s, pos, n, start, end, depth, max);
    case Record(fields) =>
      RecordComplete(s, pos, n, start, end, depth, max);
    case Quote(ps) =>
      TextComplete(s, pos, n, start, end, depth, max);
    case Number(numeral) =>
      NumeralRead(s, start, numeral, end);
      ValueOfNumber(s, pos, start, depth, max);
    case NoItems(gap) =>
      EmptyComplete(s, pos, n, start, end, depth, max);
    case NoFields(gap) =>
      EmptyComplete(s, pos, n, start, end, depth, max);
    case NullWord =>
      WordComplete(s, pos, n, start, end, depth, max);
    case TrueWord =>
      WordComplete(s, pos, n, start, end, depth, max);
    case FalseWord =>
      WordComplete(s, pos, n, start, end, depth, max);
  }

  lemma NodeParts(n: Node)
    requires Good(n)
    ensures AllSpace(n.space) && GoodForm(n.form) && Meaning(n) == FormMeaning(n.form)
    ensures n.form.Number? ==> GoodNumeral(n.form.numeral) && SpellForm(n.form) == SpellNumeral(n.form.numeral)
    ensures n.form.Number? ==> FormMeaning(n.form) == Integer(NumberOf(n.form.numeral))
  {
  }

  lemma WordComplete(s: string, pos: nat, n: Node, start: nat, end: nat, depth: nat, max: nat)
    requires StartsAt(s, pos, start, depth, max) && At(s, start, SpellForm(n.form), end) && Good(n)
    requires n.form.NullWord? || n.form.TrueWord? || n.form.FalseWord?
    ensures ParseValue(s, pos, depth, max) == Ok((Meaning(n), end))
  {
    hide ParseValue, Space;
    AtChar(s, start, SpellForm(n.form), end, 0);
    ValueOfWord(s, pos, start, depth, max);
    assert s[start..][..|SpellForm(n.form)|] == s[start..end];
  }

  lemma TextComplete(s: string, pos: nat, n: Node, start: nat, end: nat, depth: nat, max: nat)
    requires StartsAt(s, pos, start, depth, max) && At(s, start, SpellForm(n.form), end) && Good(n)
    requires n.form.Quote?
    ensures ParseValue(s, pos, depth, max) == Ok((Meaning(n), end))
  {
    hide ParseValue, ParseString, Space, SpellPieces, Characters;
    AtChar(s, start, SpellForm(n.form), end, 0);
    assert "" + SpellQuote(n.form.pieces) == SpellForm(n.form);
    QuoteRead(s, start, "", n.form.pieces, end);
    ValueOfString(s, pos, start, depth, max);
  }

  lemma EmptyComplete(s: string, pos: nat, n: Node, start: nat, end: nat, depth: nat, max: nat)
    requires StartsAt(s, pos, start, depth, max) && At(s, start, SpellForm(n.form), end) && Good(n)
    requires n.form.NoItems? || n.form.NoFields?
    ensures ParseValue(s, pos, depth, max) == Ok((Meaning(n), end))
  {
    hide ParseValue, Space;
    AtChar(s, start, SpellForm(n.form), end, 0);
    if n.form.NoItems? {
      AtSplit(s, start, "[", n.form.gap + "]", end);
      SpaceThenMark(s, start + 1, n.form.gap, "]", end);
      ValueOfList(s, pos, start, depth, max);
    } else {
      AtSplit(s, start, "{", n.form.gap + "}", end);
      SpaceThenMark(s, start + 1, n.form.gap, "}", end);
      ValueOfObject(s, pos, start, depth, max);
    }
  }

  // ---- Lists ----

  lemma {:induction false} ListComplete(s: string, pos: nat, n: Node, start: nat, end: nat, depth: nat, max: nat)
    requires StartsAt(s, pos, start, depth, max) && At(s, start, SpellForm(n.form), end) && Good(n)
    requires n.form.List? && depth + Nesting(n) <= max
    ensures ParseValue(s, pos, depth, max) == Ok((Meaning(n), end))
    decreases n, 1
  {
    hide *;
    var items := n.form.items;
    ListParts(n);
    AtSplit(s, start, "[", SpellItems(items), end);
    AtChar(s, start, "[", start + 1, 0);
    ItemsComplete(s, start + 1, items, end, depth, max);
    ItemsOpen(s, start + 1, items, end, depth + 1, max);
    ItemsSkip(s, start + 1, depth, max);
    ValueOfList(s, pos, start, depth, max);
  }

  lemma ListParts(n: Node)
    requires Good(n) && n.form.List?
    ensures GoodItems(n.form.items) && SpellForm(n.form) == "[" + SpellItems(n.form.items)
    ensures Meaning(n) == Array(ItemsMeaning(n.form.items)) && Nesting(n) == 1 + ItemsNesting(n.form.items)
  {
  }

  /** What follows the first item. */
  function ItemsTail(items: Items): string {
    match items
    case LastItem(_, gap) => gap + "]"
    case NextItem(_, gap, rest) => gap + ("," + SpellItems(rest))
  }

  lemma ItemsParts(items: Items)
    requires GoodItems(items)
    ensures SpellItems(items) == Spell(items.item) + ItemsTail(items)
    ensures Good(items.item) && AllSpace(items.gap) && (items.NextItem? ==> GoodItems(items.rest))
    ensures Nesting(items.item) <= ItemsNesting(items)
    ensures items.NextItem? ==> ItemsNesting(items.rest) <= ItemsNesting(items)
    ensures items.LastItem? ==> ItemsMeaning(items) == [Meaning(items.item)]
    ensures items.NextItem? ==> ItemsMeaning(items) == [Meaning(items.item)] + ItemsMeaning(items.rest)
    ensures items.LastItem? ==> ItemsTail(items) == items.gap + "]"
    ensures items.NextItem? ==> ItemsTail(items) == items.gap + ("," + SpellItems(items.rest))
  {
    hide Good, Spell, Meaning;
    if items.LastItem? {
      assert [Meaning(items.item)] + [] == [Meaning(items.item)];
    }
  }

  /** A list that is not empty does not start with its end. */
  lemma ItemsOpen(s: string, pos: nat, items: Items, end: nat, depth: nat, max: nat)
    requires At(s, pos, SpellItems(items), end) && GoodItems(items) && depth <= max
    ensures pos <= |s| && !Has(s, Space(s, pos), ']')
  {
    hide *;
    ItemsParts(items);
    NodeParts(items.item);
    AtSplit(s, pos, Spell(items.item), ItemsTail(items), end);
    NodeStarts(s, pos, items.item, pos + |Spell(items.item)|, depth, max);
    FormStarts(items.item.form);
    StartIs(s, pos, pos + |items.item.space|, ']', depth, max);
  }

  lemma StartIs(s: string, pos: nat, start: nat, mark: char, depth: nat, max: nat)
    requires StartsAt(s, pos, start, depth, max)
    ensures pos <= |s| && (Has(s, Space(s, pos), mark) <==> s[start] == mark)
  {
  }

  lemma MarkFollows(s: string, pos: nat, gap: string, mark: string, rest: string, end: nat)
    requires At(s, pos, gap + (mark + rest), end) && AllSpace(gap) && mark in {",", "]", "}"}
    ensures Follows(s, pos)
  {
    AtChar(s, pos, gap + (mark + rest), end, 0);
    assert (gap + (mark + rest))[0] == if gap == "" then mark[0] else gap[0];
  }

  lemma TailFollows(s: string, pos: nat, items: Items, end: nat)
    requires At(s, pos, ItemsTail(items), end) && GoodItems(items)
    ensures Follows(s, pos)
  {
    hide *;
    ItemsParts(items);
    if items.LastItem? {
      assert "]" + "" == "]";
      MarkFollows(s, pos, items.gap, "]", "", end);
    } else {
      MarkFollows(s, pos, items.gap, ",", SpellItems(items.rest), end);
    }
  }

  lemma {:induction false} ItemsComplete(s: string, pos: nat, items: Items, end: nat, depth: nat, max: nat)
    requires At(s, pos, SpellItems(items), end) && GoodItems(items) && depth + 1 + ItemsNesting(items) <= max
    ensures pos <= |s| && ParseItems(s, pos, depth, max) == Ok((ItemsMeaning(items), end))
    decreases items, 3
  {
    hide *;
    var mid := pos + |Spell(items.item)|;
    ItemsParts(items);
    AtSplit(s, pos, Spell(items.item), ItemsTail(items), end);
    AtEnd(s, pos, Spell(items.item), mid);
    TailFollows(s, mid, items, end);
    ValueComplete(s, pos, items.item, mid, depth + 1, max);
    ItemsUnfold(s, pos, depth, max);
    Marks();
    if items.LastItem? {
      SpaceThenMark(s, mid, items.gap, "]", end);
      HasMark(s, end - 1, ']');
    } else {
      var next := mid + |items.gap|;
      SpaceBeforeMark(s, mid, items.gap, ",", SpellItems(items.rest), end);
      HasMark(s, next, ',');
      ItemsComplete(s, next + 1, items.rest, end, depth, max);
    }
  }

  lemma Marks()
    ensures forall c :: c in {',', ']', '}', ':', '"'} ==> !IsSpace(c)
  {
  }

  lemma HasMark(s: string, pos: nat, mark: char)
    requires pos < |s| && s[pos] == mark
    ensures forall c :: Has(s, pos, c) <==> c == mark
  {
  }

  // ---- Objects ----

  lemma {:induction false} RecordComplete(s: string, pos: nat, n: Node, start: nat, end: nat, depth: nat, max: nat)
    requires StartsAt(s, pos, start, depth, max) && At(s, start, SpellForm(n.form), end) && Good(n)
    requires n.form.Record? && depth + Nesting(n) <= max
    ensures ParseValue(s, pos, depth, max) == Ok((Meaning(n), end))
    decreases n, 1
  {
    hide *;
    var fields := n.form.fields;
    RecordParts(n);
    AtSplit(s, start, "{", SpellFields(fields), end);
    AtChar(s, start, "{", start + 1, 0);
    NothingSeen();
    FieldsComplete(s, start + 1, fields, map[], end, depth, max);
    FieldsOpen(s, start + 1, fields, {}, end);
    FieldsSkip(s, start + 1, depth, max, map[]);
    ValueOfObject(s, pos, start, depth, max);
    assert map[] + FieldsMeaning(fields, {}) == FieldsMeaning(fields, {});
  }

  lemma NothingSeen()
    ensures
      var none: map<string, Value> := map[];
      none.Keys == {}
  {
  }

  lemma RecordParts(n: Node)
    requires Good(n) && n.form.Record?
    ensures GoodFields(n.form.fields, {}) && SpellForm(n.form) == "{" + SpellFields(n.form.fields)
    ensures Meaning(n) == Object(FieldsMeaning(n.form.fields, {})) && Nesting(n) == 1 + FieldsNesting(n.form.fields)
  {
  }

  /** What follows the first value of an object. */
  function FieldsTail(fields: Fields): string {
    match fields
    case LastField(_, _, gap) => gap + "}"
    case NextField(_, _, gap, rest) => gap + ("," + SpellFields(rest))
  }

  lemma FieldsParts(fields: Fields, seen: set<string>)
    requires GoodFields(fields, seen)
    ensures SpellFields(fields) == SpellKey(fields.key) + (Spell(fields.value) + FieldsTail(fields))
    ensures GoodKey(fields.key) && GoodPieces(fields.key.pieces) && Characters(fields.key.pieces) !in seen
    ensures Good(fields.value) && AllSpace(fields.gap)
    ensures Nesting(fields.value) <= FieldsNesting(fields)
    ensures fields.LastField? ==> FieldsTail(fields) == fields.gap + "}"
    ensures fields.NextField? ==> FieldsTail(fields) == fields.gap + ("," + SpellFields(fields.rest))
    ensures fields.NextField? ==> GoodFields(fields.rest, seen + {Characters(fields.key.pieces)})
    ensures fields.NextField? ==> FieldsNesting(fields.rest) <= FieldsNesting(fields)
  {
  }

  lemma FieldsAdd(fields: Fields, seen: map<string, Value>)
    requires GoodFields(fields, seen.Keys)
    ensures
      var key := Characters(fields.key.pieces);
      var now := seen[key := Meaning(fields.value)];
      && now.Keys == seen.Keys + {key}
      && seen + FieldsMeaning(fields, seen.Keys)
        == if fields.LastField? then now else now + FieldsMeaning(fields.rest, now.Keys)
  {
    hide Meaning, Characters, Good;
    var key := Characters(fields.key.pieces);
    var now := seen[key := Meaning(fields.value)];
    assert now.Keys == seen.Keys + {key};
    assert now == seen + map[key := Meaning(fields.value)];
    if fields.NextField? {
      assert seen + (map[key := Meaning(fields.value)] + FieldsMeaning(fields.rest, now.Keys))
        == now + FieldsMeaning(fields.rest, now.Keys);
    }
  }

  lemma FieldsOpen(s: string, pos: nat, fields: Fields, seen: set<string>, end: nat)
    requires At(s, pos, SpellFields(fields), end) && GoodFields(fields, seen)
    ensures pos <= |s| && !Has(s, Space(s, pos), '}')
  {
    hide *;
    FieldsParts(fields, seen);
    var k := fields.key;
    KeyParts(k);
    AtSplit(s, pos, SpellKey(k), Spell(fields.value) + FieldsTail(fields), end);
    QuoteOpens(s, pos, k.before, k.pieces, k.after + ":", pos + |SpellKey(k)|);
  }

  lemma KeyParts(k: Key)
    requires GoodKey(k)
    ensures SpellKey(k) == k.before + (SpellQuote(k.pieces) + (k.after + ":"))
    ensures SpellKey(k) == (k.before + SpellQuote(k.pieces)) + (k.after + ":")
    ensures AllSpace(k.before) && GoodPieces(k.pieces) && AllSpace(k.after)
  {
  }

  lemma QuoteOpens(s: string, pos: nat, gap: string, ps: seq<Piece>, rest: string, end: nat)
    requires At(s, pos, gap + (SpellQuote(ps) + rest), end) && AllSpace(gap)
    ensures pos <= |s| && !Has(s, Space(s, pos), '}')
  {
    hide SpellPieces, Space;
    assert SpellQuote(ps) + rest == "\"" + (SpellPieces(ps) + "\"" + rest);
    SpaceBeforeMark(s, pos, gap, "\"", SpellPieces(ps) + "\"" + rest, end);
  }

  /** A key and its colon. */
  lemma KeyRead(s: string, pos: nat, k: Key, end: nat)
    requires At(s, pos, SpellKey(k), end) && GoodKey(k)
    ensures pos <= |s| && GoodPieces(k.pieces) && ParseString(s, pos).Ok?
    ensures ParseString(s, pos).value.0 == Characters(k.pieces)
    ensures Space(s, ParseString(s, pos).value.1) == end - 1 < |s| && Has(s, end - 1, ':')
  {
    hide *;
    KeyParts(k);
    var text := k.before + SpellQuote(k.pieces);
    var mid := pos + |text|;
    AtSplit(s, pos, text, k.after + ":", end);
    QuoteRead(s, pos, k.before, k.pieces, mid);
    Marks();
    SpaceThenMark(s, mid, k.after, ":", end);
    HasMark(s, end - 1, ':');
  }

  lemma FieldsTailFollows(s: string, pos: nat, fields: Fields, seen: set<string>, end: nat)
    requires At(s, pos, FieldsTail(fields), end) && GoodFields(fields, seen)
    ensures Follows(s, pos)
  {
    hide *;
    FieldsParts(fields, seen);
    if fields.LastField? {
      assert "}" + "" == "}";
      MarkFollows(s, pos, fields.gap, "}", "", end);
    } else {
      MarkFollows(s, pos, fields.gap, ",", SpellFields(fields.rest), end);
    }
  }

  lemma {:induction false} FieldsComplete(
      s: string, pos: nat, fields: Fields, seen: map<string, Value>, end: nat, depth: nat, max: nat)
    requires At(s, pos, SpellFields(fields), end) && GoodFields(fields, seen.Keys)
    requires depth + 1 + FieldsNesting(fields) <= max
    ensures pos <= |s|
    ensures ParseFields(s, pos, depth, max, seen) == Ok((seen + FieldsMeaning(fields, seen.Keys), end))
    decreases fields, 3
  {
    hide *;
    FieldsParts(fields, seen.Keys);
    var colon := pos + |SpellKey(fields.key)|;
    var mid := colon + |Spell(fields.value)|;
    AtSplit(s, pos, SpellKey(fields.key), Spell(fields.value) + FieldsTail(fields), end);
    AtSplit(s, colon, Spell(fields.value), FieldsTail(fields), end);
    AtEnd(s, colon, Spell(fields.value), mid);
    KeyRead(s, pos, fields.key, colon);
    FieldsTailFollows(s, mid, fields, seen.Keys, end);
    ValueComplete(s, colon, fields.value, mid, depth + 1, max);
    MemberUnfold(s, pos, depth, max, seen);
    FieldsUnfold(s, pos, depth, max, seen);
    FieldsAdd(fields, seen);
    Marks();
    if fields.LastField? {
      SpaceThenMark(s, mid, fields.gap, "}", end);
      HasMark(s, end - 1, '}');
    } else {
      var next := mid + |fields.gap|;
      SpaceBeforeMark(s, mid, fields.gap, ",", SpellFields(fields.rest), end);
      HasMark(s, next, ',');
      FieldsComplete(s, next + 1, fields.rest, seen[Characters(fields.key.pieces) := Meaning(fields.value)],
        end, depth, max);
    }
  }

  // ---- Documents ----

  /** A text of the grammar that nests no deeper than allowed is read as what it means. */
  lemma DocumentComplete(s: string, n: Node, tail: string, max: nat)
    requires Writes(s, n, tail) && Nesting(n) <= max
    ensures ParseDocument(s, max) == Ok(Meaning(n))
  {
    hide *;
    WritesParts(s, n, tail);
    var end := |Spell(n)|;
    WholeText(s, Spell(n) + tail);
    AtSplit(s, 0, Spell(n), tail, |s|);
    TailIsSpace(s, end, tail);
    ValueComplete(s, 0, n, end, 0, max);
    SpaceRead(s, end, tail, |s|);
    DocumentIs(s, max);
  }

  lemma WritesParts(s: string, n: Node, tail: string)
    requires Writes(s, n, tail)
    ensures Good(n) && AllSpace(tail) && s == Spell(n) + tail
  {
  }

  lemma WholeText(s: string, t: string)
    requires s == t
    ensures At(s, 0, t, |s|)
  {
  }

  lemma TailIsSpace(s: string, end: nat, tail: string)
    requires At(s, end, tail, |s|) && AllSpace(tail)
    ensures Follows(s, end)
  {
    if tail != "" {
      AtChar(s, end, tail, |s|, 0);
    }
  }

  lemma DocumentIs(s: string, max: nat)
    ensures
      var v := ParseValue(s, 0, 0, max);
      ParseDocument(s, max) ==
        if v.Err? then Err(v.error) else if Space(s, v.value.1) != |s| then Err(Syntax) else Ok(v.value.0)
  {
    hide ParseValue, Space;
  }
}
