// Canonical text reads back as the value it was written from.

module JsonRoundTrip {
  import opened Wrappers
  import Graphs
  import IntegralTokens
  import opened Json
  import opened JsonParser

  /** The text `t` runs from `pos` to `end`. */
  ghost predicate At(s: string, pos: nat, t: string, end: nat) {
    end == pos + |t| <= |s| && s[pos..end] == t
  }

  lemma AtSplit(s: string, pos: nat, a: string, b: string, end: nat)
    requires At(s, pos, a + b, end)
    ensures At(s, pos, a, pos + |a|) && At(s, pos + |a|, b, end)
  {
    assert s[pos..pos + |a|] == (a + b)[..|a|];
    assert s[pos + |a|..end] == (a + b)[|a|..];
  }

  lemma AtChar(s: string, pos: nat, t: string, end: nat, k: nat)
    requires At(s, pos, t, end) && k < |t|
    ensures pos + k < |s| && s[pos + k] == t[k] && end <= |s|
  {
  }

  lemma AtEnd(s: string, pos: nat, t: string, end: nat)
    requires At(s, pos, t, end)
    ensures end == pos + |t| <= |s|
  {
  }

  lemma NoSpace(s: string, pos: nat)
    requires pos < |s| && !IsSpace(s[pos])
    ensures Space(s, pos) == pos
  {
  }

  // ---- Strings ----

  lemma HexBack(s: string, pos: nat, c: char, end: nat)
    requires c as int < 32 && At(s, pos, "00" + [HEX[c as int / 16], HEX[c as int % 16]], end)
    ensures Hex(s, pos, 4, 0) == Ok((c as int, end))
  {
    var t := "00" + [HEX[c as int / 16], HEX[c as int % 16]];
    AtChar(s, pos, t, end, 0);
    AtChar(s, pos, t, end, 1);
    AtChar(s, pos, t, end, 2);
    AtChar(s, pos, t, end, 3);
    HexDigit(c as int / 16);
    HexDigit(c as int % 16);
    assert Hex(s, pos + 4, 0, c as int) == Ok((c as int, pos + 4));
    assert Hex(s, pos + 3, 1, c as int / 16) == Ok((c as int, pos + 4));
    assert Hex(s, pos + 2, 2, 0) == Ok((c as int, pos + 4));
    assert Hex(s, pos + 1, 3, 0) == Ok((c as int, pos + 4));
  }

  lemma HexDigit(n: nat)
    requires n < 16
    ensures HexValue(HEX[n]) == Some(n)
  {
  }

  lemma CharacterBack(s: string, pos: nat, c: char, end: nat)
    requires At(s, pos, Escape(c), end)
    ensures pos < |s| && s[pos] != '"' && Character(s, pos) == Ok((c, end))
  {
    AtChar(s, pos, Escape(c), end, 0);
    if |Escape(c)| > 1 {
      AtChar(s, pos, Escape(c), end, 1);
    }
    if |Escape(c)| > 2 {
      var digits := "00" + [HEX[c as int / 16], HEX[c as int % 16]];
      assert Escape(c) == "\\u" + digits;
      AtSplit(s, pos, "\\u", digits, end);
      HexBack(s, pos + 2, c, end);
    }
  }

  lemma {:induction false} StringBack(s: string, pos: nat, text: string, seen: string, end: nat)
    requires At(s, pos, Escaped(text) + "\"", end)
    ensures pos <= |s| && StringTail(s, pos, seen) == Ok((seen + text, end))
    decreases |text|
  {
    hide *;
    if text == "" {
      StringEnd(s, pos, text, seen, end);
    } else {
      var c, rest := text[0], text[1..];
      EscapedStep(text);
      AtSplit(s, pos, Escape(c), Escaped(rest) + "\"", end);
      CharacterBack(s, pos, c, pos + |Escape(c)|);
      StringBack(s, pos + |Escape(c)|, rest, seen + [c], end);
      StringStep(s, pos, c, seen, pos + |Escape(c)|);
      Snoc(seen, text);
    }
  }

  lemma StringStep(s: string, pos: nat, c: char, seen: string, next: nat)
    requires pos < |s| && s[pos] != '"' && Character(s, pos) == Ok((c, next))
    ensures StringTail(s, pos, seen) == StringTail(s, next, seen + [c])
  {
  }

  lemma Snoc(seen: string, text: string)
    requires text != ""
    ensures seen + [text[0]] + text[1..] == seen + text
  {
  }

  lemma StringEnd(s: string, pos: nat, text: string, seen: string, end: nat)
    requires text == "" && At(s, pos, Escaped(text) + "\"", end)
    ensures pos <= |s| && StringTail(s, pos, seen) == Ok((seen + text, end))
  {
    assert Escaped(text) + "\"" == "\"";
    AtChar(s, pos, "\"", end, 0);
    assert seen + text == seen;
  }

  lemma EscapedStep(text: string)
    requires text != ""
    ensures Escaped(text) + "\"" == Escape(text[0]) + (Escaped(text[1..]) + "\"")
  {
  }

  lemma QuotedBack(s: string, pos: nat, text: string, end: nat)
    requires At(s, pos, Quoted(text), end)
    ensures pos < |s| && s[pos] == '"' && ParseString(s, pos) == Ok((text, end))
  {
    hide *;
    QuotedText(text);
    AtSplit(s, pos, "\"", Escaped(text) + "\"", end);
    AtChar(s, pos, "\"", pos + 1, 0);
    StringFrom(s, pos);
    StringBack(s, pos + 1, text, "", end);
    assert "" + text == text;
  }

  lemma QuotedText(text: string)
    ensures Quoted(text) == "\"" + (Escaped(text) + "\"")
  {
  }

  lemma StringFrom(s: string, pos: nat)
    requires pos < |s| && s[pos] == '"'
    ensures ParseString(s, pos) == StringTail(s, pos + 1, "")
  {
  }

  // ---- Numbers ----

  lemma {:induction false} DecimalBack(n: nat)
    ensures IntegralTokens.AllDigits(Decimal(n)) && Decimal(n) != "" && IntegralTokens.NatOf(Decimal(n)) == n
    ensures n > 0 ==> Decimal(n)[0] != '0'
  {
    if n >= 10 {
      DecimalBack(n / 10);
      var d := Decimal(n);
      assert d[..|d| - 1] == Decimal(n / 10);
    } else {
      IntegralTokens.Single(DigitChar(n));
    }
  }

  lemma {:induction false} AllDigitsKept(s: string)
    requires IntegralTokens.AllDigits(s)
    ensures IntegralTokens.Digits(s) == s && IntegralTokens.AfterPoint(s) == 0
  {
    if s != "" {
      AllDigitsKept(s[..|s| - 1]);
      NoPoint(s);
    }
  }

  lemma {:induction false} NoPoint(s: string)
    requires '.' !in s
    ensures IntegralTokens.AfterPoint(s) == 0
  {
    if s != "" {
      NoPoint(s[1..]);
    }
  }

  lemma {:induction false} SignDropped(s: string)
    requires IntegralTokens.AllDigits(s)
    ensures IntegralTokens.Digits("-" + s) == s && IntegralTokens.AfterPoint("-" + s) == 0
  {
    var t := "-" + s;
    if s == "" {
      assert t[..0] == "";
    } else {
      SignDropped(s[..|s| - 1]);
      assert t[..|t| - 1] == "-" + s[..|s| - 1];
    }
    NoPoint(t);
  }

  lemma IntegerOfSigned(n: int)
    requires 0 - IntegralTokens.SAFE <= n <= IntegralTokens.SAFE
    ensures IntegerOf(Signed(n), false, "") == Ok(Integer(n))
  {
    hide *;
    var m := if n < 0 then -n else n;
    DecimalBack(m);
    SignedText(n, m);
    if n < 0 {
      SignDropped(Decimal(m));
    } else {
      AllDigitsKept(Decimal(m));
    }
    IntegerOfIs(Signed(n), Decimal(m), m, n < 0);
    SignedBack(n, m);
  }

  lemma SignedText(n: int, m: nat)
    requires m == if n < 0 then -n else n
    ensures Signed(n) == if n < 0 then "-" + Decimal(m) else Decimal(m)
    ensures ("-" <= Signed(n)) == (n < 0)
  {
    DecimalBack(m);
    if n >= 0 {
      assert Decimal(m)[0] != '-';
    }
  }

  lemma SignedBack(n: int, m: nat)
    requires m == if n < 0 then -n else n
    ensures IntegralTokens.Signed(n < 0, m) == n
  {
  }

  lemma IntegerOfIs(mantissa: string, digits: string, m: nat, negative: bool)
    requires IntegralTokens.AllDigits(digits) && IntegralTokens.Digits(mantissa) == digits
    requires IntegralTokens.NatOf(digits) == m
    requires IntegralTokens.AfterPoint(mantissa) == 0 && m <= IntegralTokens.SAFE && ("-" <= mantissa) == negative
    ensures IntegralTokens.AllDigits("")
    ensures IntegerOf(mantissa, false, "") == Ok(Integer(IntegralTokens.Signed(negative, m)))
  {
  }

  /** What may follow a value. */
  predicate Delimited(s: string, end: nat) {
    end >= |s| || s[end] in {',', ']', '}'}
  }

  lemma {:induction false} DigitsEndBack(s: string, pos: nat, end: nat)
    requires pos <= end <= |s| && IntegralTokens.AllDigits(s[pos..end]) && Delimited(s, end)
    ensures DigitsEnd(s, pos) == end
    decreases end - pos
  {
    if pos < end {
      assert s[pos] == s[pos..end][0];
      assert s[pos + 1..end] == s[pos..end][1..];
      DigitsEndBack(s, pos + 1, end);
    }
  }

  lemma NumberBack(s: string, pos: nat, n: int, end: nat)
    requires At(s, pos, Signed(n), end) && Delimited(s, end)
    requires 0 - IntegralTokens.SAFE <= n <= IntegralTokens.SAFE
    ensures pos < |s| && (s[pos] == '-' || IntegralTokens.IsDigit(s[pos]))
    ensures ParseNumber(s, pos) == Ok((Integer(n), end))
  {
    var m := if n < 0 then -n else n;
    DecimalBack(m);
    AtChar(s, pos, Signed(n), end, 0);
    var first := if n < 0 then pos + 1 else pos;
    if n < 0 {
      AtSplit(s, pos, "-", Decimal(m), end);
    }
    WholeBack(s, first, m, end);
    MantissaBack(s, pos, n, end);
    assert s[pos..end] == Signed(n);
    IntegerOfSigned(n);
  }

  lemma WholeBack(s: string, first: nat, m: nat, end: nat)
    requires At(s, first, Decimal(m), end) && Delimited(s, end)
    ensures first < end <= |s| && IntegralTokens.IsDigit(s[first])
    ensures (if s[first] == '0' then first + 1 else DigitsEnd(s, first + 1)) == end
  {
    DecimalBack(m);
    AtChar(s, first, Decimal(m), end, 0);
    assert s[first..end] == Decimal(m);
    if s[first] != '0' {
      assert s[first + 1..end] == Decimal(m)[1..];
      DigitsEndBack(s, first + 1, end);
    }
  }

  lemma MantissaBack(s: string, pos: nat, n: int, end: nat)
    requires pos < |s| && Delimited(s, end)
    requires s[pos] == if n < 0 then '-' else Decimal(n)[0]
    requires
      var first := if n < 0 then pos + 1 else pos;
      && first < end <= |s| && IntegralTokens.IsDigit(s[first])
      && (if s[first] == '0' then first + 1 else DigitsEnd(s, first + 1)) == end
    ensures MantissaEnd(s, pos) == Ok(end) && ExponentAt(s, end) == Ok((false, "", end))
  {
  }

  // ---- Values ----

  lemma PrintStarts(v: Value)
    requires !v.Bytes?
    ensures Print(v) != "" && !IsSpace(Print(v)[0])
    ensures (v.Text? <==> Print(v)[0] == '"') && (v.Array? <==> Print(v)[0] == '[')
    ensures (v.Object? <==> Print(v)[0] == '{')
  {
    if v.Integer? {
      DecimalBack(if v.number < 0 then -v.number else v.number);
    }
  }

  lemma {:induction false} ValueBack(s: string, pos: nat, v: Value, end: nat, depth: nat, max: nat)
    requires At(s, pos, Print(v), end) && Delimited(s, end) && Printable(v, max - depth)
    ensures pos < |s| && ParseValue(s, pos, depth, max) == Ok((v, end))
    decreases v, 3
  {
    hide *;
    PrintableParts(v, max - depth);
    PrintIs(v);
    if v.Text? {
      QuotedBack(s, pos, v.text, end);
      ValueIsText(s, pos, v.text, end, depth, max);
    } else if v.Array? {
      ArrayBack(s, pos, v, end, depth, max);
    } else if v.Object? {
      ObjectBack(s, pos, v, end, depth, max);
    } else if v.Integer? {
      NumberBack(s, pos, v.number, end);
      ValueIsNumber(s, pos, v, end, depth, max);
    } else {
      WordBack(s, pos, Print(v), end);
      ValueIsWord(s, pos, v, Print(v), end, depth, max);
    }
  }

  lemma PrintableParts(v: Value, room: int)
    requires Printable(v, room)
    ensures room >= 0 && !v.Bytes? && (v.Integer? ==> 0 - IntegralTokens.SAFE <= v.number <= IntegralTokens.SAFE)
  {
  }

  lemma PrintIs(v: Value)
    ensures v.Text? ==> Print(v) == Quoted(v.text)
    ensures v.Integer? ==> Print(v) == Signed(v.number)
    ensures v.Null? ==> Print(v) == "null"
    ensures v.Boolean? ==> Print(v) == if v.truth then "true" else "false"
    ensures v.Array? ==> Print(v) == "[" + (PrintItems(v.items) + "]")
    ensures v.Object? ==> Print(v) == "{" + (PrintFields(v, Ordered(v.fields.Keys)) + "}")
  {
  }

  lemma ValueIsText(s: string, pos: nat, text: string, end: nat, depth: nat, max: nat)
    requires pos < |s| && s[pos] == '"' && ParseString(s, pos) == Ok((text, end)) && depth <= max
    ensures ParseValue(s, pos, depth, max) == Ok((Text(text), end))
  {
  }

  lemma ValueIsNumber(s: string, pos: nat, v: Value, end: nat, depth: nat, max: nat)
    requires pos < |s| && (s[pos] == '-' || IntegralTokens.IsDigit(s[pos])) && ParseNumber(s, pos) == Ok((v, end))
    requires depth <= max
    ensures ParseValue(s, pos, depth, max) == Ok((v, end))
  {
    NoSpace(s, pos);
    hide ParseItems, ParseFields, ParseString, ParseNumber, ParseWord, Space;
  }

  lemma ValueIsWord(s: string, pos: nat, v: Value, word: string, end: nat, depth: nat, max: nat)
    requires word != "" && pos < |s| && Starts(s, pos, word) && end == pos + |word| && depth <= max && s[pos] == word[0]
    requires
      || (word == "null" && v.Null?)
      || (word == "true" && v == Boolean(true))
      || (word == "false" && v == Boolean(false))
    ensures ParseValue(s, pos, depth, max) == Ok((v, end))
  {
  }

  lemma WordBack(s: string, pos: nat, word: string, end: nat)
    requires At(s, pos, word, end) && word != ""
    ensures pos < |s| && Starts(s, pos, word) && end == pos + |word| && s[pos] == word[0]
  {
  }

  /** The text between an opening and a closing mark, and where it starts. */
  lemma OpenBack(s: string, pos: nat, open: char, body: string, end: nat)
    requires At(s, pos, [open] + body, end) && body != ""
    ensures pos + 1 < |s| && s[pos] == open && At(s, pos + 1, body, end) && s[pos + 1] == body[0]
  {
  }

  lemma {:induction false} ArrayBack(s: string, pos: nat, v: Value, end: nat, depth: nat, max: nat)
    requires v.Array? && At(s, pos, Print(v), end) && Printable(v, max - depth)
    ensures pos < |s| && ParseValue(s, pos, depth, max) == Ok((v, end))
    decreases v, 2
  {
    hide *;
    var body := PrintItems(v.items) + "]";
    PrintIs(v);
    OpenBack(s, pos, '[', body, end);
    PrintableParts(v, max - depth);
    PrintableItems(v, max - depth);
    ArrayStart(v.items);
    AtEnd(s, pos + 1, body, end);
    if v.items != [] {
      ItemsBack(s, pos + 1, v.items, end, depth, max);
    }
    ArrayIs(s, pos, v.items, end, depth, max);
  }

  lemma PrintableItems(v: Value, room: int)
    requires v.Array? && Printable(v, room)
    ensures AllPrintable(v.items, room - 1) && (v.items != [] ==> !v.items[0].Bytes?)
  {
  }

  ghost predicate AllPrintable(items: seq<Value>, room: int) {
    forall i :: 0 <= i < |items| ==> Printable(items[i], room)
  }

  lemma ArrayStart(items: seq<Value>)
    requires items != [] ==> !items[0].Bytes?
    ensures
      var body := PrintItems(items) + "]";
      body != "" && !IsSpace(body[0]) && (body[0] == ']' <==> items == []) && (items == [] ==> |body| == 1)
  {
    if items != [] {
      ItemsStart(items);
    }
  }

  lemma ArrayIs(s: string, pos: nat, items: seq<Value>, end: nat, depth: nat, max: nat)
    requires pos + 1 < |s| && s[pos] == '[' && !IsSpace(s[pos + 1]) && depth <= max
    requires (s[pos + 1] == ']' <==> items == [])
    requires if items == [] then end == pos + 2 else ParseItems(s, pos + 1, depth, max) == Ok((items, end))
    ensures ParseValue(s, pos, depth, max) == Ok((Array(items), end))
  {
  }

  lemma ItemsStart(items: seq<Value>)
    requires items != [] && !items[0].Bytes?
    ensures PrintItems(items) != "" && !IsSpace(PrintItems(items)[0]) && PrintItems(items)[0] != ']'
  {
    PrintStarts(items[0]);
    if items[0].Integer? {
      var n := items[0].number;
      DecimalBack(if n < 0 then -n else n);
    }
  }

  lemma {:induction false} ItemsBack(s: string, pos: nat, items: seq<Value>, end: nat, depth: nat, max: nat)
    requires items != [] && At(s, pos, PrintItems(items) + "]", end) && AllPrintable(items, max - depth - 1)
    ensures pos <= |s| && ParseItems(s, pos, depth, max) == Ok((items, end))
    decreases items, 4
  {
    hide *;
    var mid := pos + |Print(items[0])|;
    ItemParts(s, pos, items, end, depth, max);
    ValueBack(s, pos, items[0], mid, depth + 1, max);
    if |items| > 1 {
      ItemsBack(s, mid + 1, items[1..], end, depth, max);
    }
    ItemsAre(s, pos, items, mid, end, depth, max);
  }

  lemma ItemParts(s: string, pos: nat, items: seq<Value>, end: nat, depth: nat, max: nat)
    requires items != [] && At(s, pos, PrintItems(items) + "]", end) && AllPrintable(items, max - depth - 1)
    ensures
      var mid := pos + |Print(items[0])|;
      && At(s, pos, Print(items[0]), mid) && mid < |s| && Delimited(s, mid) && Printable(items[0], max - (depth + 1))
      && (|items| == 1 ==> s[mid] == ']' && end == mid + 1)
      && (|items| > 1 ==> s[mid] == ',' && At(s, mid + 1, PrintItems(items[1..]) + "]", end))
      && AllPrintable(items[1..], max - depth - 1)
  {
    var mid := pos + |Print(items[0])|;
    hide *;
    PrintableFirst(items, max - depth - 1);
    if |items| == 1 {
      assert [']'] + "" == "]";
      ItemsText(items, [']'] + "");
      ItemPieces(s, pos, Print(items[0]), ']', "", end);
    } else {
      ItemsText(items, "," + (PrintItems(items[1..]) + "]"));
      ItemPieces(s, pos, Print(items[0]), ',', PrintItems(items[1..]) + "]", end);
    }
    DelimitedBy(s, mid);
  }

  lemma PrintableFirst(items: seq<Value>, room: int)
    requires items != [] && AllPrintable(items, room)
    ensures Printable(items[0], room) && AllPrintable(items[1..], room)
  {
  }

  /** A value, a mark, and what follows. */
  lemma ItemPieces(s: string, pos: nat, value: string, mark: char, rest: string, end: nat)
    requires At(s, pos, value + ([mark] + rest), end)
    ensures
      var mid := pos + |value|;
      && At(s, pos, value, mid) && mid < |s| && s[mid] == mark && At(s, mid + 1, rest, end) && end == mid + 1 + |rest|
  {
    hide *;
    var mid := pos + |value|;
    AtSplit(s, pos, value, [mark] + rest, end);
    AtSplit(s, mid, [mark], rest, end);
    AtChar(s, mid, [mark], mid + 1, 0);
    AtEnd(s, mid + 1, rest, end);
  }

  lemma ItemsText(items: seq<Value>, tail: string)
    requires items != [] && tail == if |items| == 1 then "]" else "," + (PrintItems(items[1..]) + "]")
    ensures PrintItems(items) + "]" == Print(items[0]) + tail
  {
    hide *;
    PrintItemsStep(items);
    if |items| > 1 {
      Regroup(Print(items[0]), ",", PrintItems(items[1..]), "]");
    }
  }

  lemma PrintItemsStep(items: seq<Value>)
    requires items != []
    ensures |items| == 1 ==> PrintItems(items) == Print(items[0])
    ensures |items| > 1 ==> PrintItems(items) == Print(items[0]) + ("," + PrintItems(items[1..]))
  {
  }

  lemma Regroup(a: string, b: string, c: string, d: string)
    ensures (a + (b + c)) + d == a + (b + (c + d))
  {
  }

  lemma ItemsAre(s: string, pos: nat, items: seq<Value>, mid: nat, end: nat, depth: nat, max: nat)
    requires items != [] && pos < |s| && ParseValue(s, pos, depth + 1, max) == Ok((items[0], mid)) && mid < |s|
    requires |items| == 1 ==> s[mid] == ']' && end == mid + 1
    requires |items| > 1 ==> s[mid] == ',' && ParseItems(s, mid + 1, depth, max) == Ok((items[1..], end))
    ensures ParseItems(s, pos, depth, max) == Ok((items, end))
  {
    hide *;
    FirstAndRest(items);
    if |items| == 1 {
      ItemsOne(s, pos, items[0], mid, depth, max);
    } else {
      ItemsMore(s, pos, items[0], mid, items[1..], end, depth, max);
    }
  }

  lemma ItemsOne(s: string, pos: nat, v: Value, mid: nat, depth: nat, max: nat)
    requires pos < |s| && ParseValue(s, pos, depth + 1, max) == Ok((v, mid)) && mid < |s| && s[mid] == ']'
    ensures ParseItems(s, pos, depth, max) == Ok(([v], mid + 1))
  {
    hide *;
    MarkAt(s, mid, ']');
    ItemsUnfold(s, pos, depth, max);
  }

  lemma ItemsMore(s: string, pos: nat, v: Value, mid: nat, rest: seq<Value>, end: nat, depth: nat, max: nat)
    requires pos < |s| && ParseValue(s, pos, depth + 1, max) == Ok((v, mid)) && mid < |s| && s[mid] == ','
    requires ParseItems(s, mid + 1, depth, max) == Ok((rest, end))
    ensures ParseItems(s, pos, depth, max) == Ok(([v] + rest, end))
  {
    hide *;
    MarkAt(s, mid, ',');
    ItemsUnfold(s, pos, depth, max);
  }

  lemma FirstAndRest(items: seq<Value>)
    requires items != []
    ensures [items[0]] + items[1..] == items
    ensures |items| == 1 ==> [items[0]] == items
  {
  }

  lemma {:induction false} ObjectBack(s: string, pos: nat, v: Value, end: nat, depth: nat, max: nat)
    requires v.Object? && At(s, pos, Print(v), end) && Printable(v, max - depth)
    ensures pos < |s| && ParseValue(s, pos, depth, max) == Ok((v, end))
    decreases v, 2
  {
    hide *;
    var keys := Ordered(v.fields.Keys);
    var body := PrintFields(v, keys) + "}";
    PrintIs(v);
    PrintableParts(v, max - depth);
    ObjectStart(v, keys);
    OpenBack(s, pos, '{', body, end);
    AtEnd(s, pos + 1, body, end);
    KeysAre(v);
    if keys != [] {
      FieldsBack(s, pos + 1, v, keys, map[], end, depth, max);
    }
    ObjectIs(s, pos, v.fields, keys == [], end, depth, max);
  }

  lemma KeysAre(v: Value)
    requires v.Object?
    ensures
      var keys := Ordered(v.fields.Keys);
      && Graphs.Distinct(keys) && (keys == [] ==> v.fields == map[]) && KeysWithin(keys, v.fields, map[])
      && map[] + Restricted(v.fields, keys) == v.fields
  {
    var keys := Ordered(v.fields.Keys);
    OrderedIsSorted(v.fields.Keys);
    KeysDistinct(keys);
    assert Restricted(v.fields, keys) == v.fields;
    if keys == [] {
      assert forall k :: k in v.fields ==> k in keys;
    }
  }

  ghost predicate KeysWithin(keys: seq<string>, fields: map<string, Value>, seen: map<string, Value>) {
    forall k :: k in keys ==> k in fields && k !in seen
  }

  lemma ObjectStart(v: Value, keys: seq<string>)
    requires v.Object?
    ensures
      var body := PrintFields(v, keys) + "}";
      body != "" && !IsSpace(body[0]) && (body[0] == '}' <==> keys == []) && (keys == [] ==> |body| == 1)
  {
  }

  lemma ObjectIs(s: string, pos: nat, fields: map<string, Value>, empty: bool, end: nat, depth: nat, max: nat)
    requires pos + 1 < |s| && s[pos] == '{' && !IsSpace(s[pos + 1]) && depth <= max && (s[pos + 1] == '}' <==> empty)
    requires
      if empty then fields == map[] && end == pos + 2
      else ParseFields(s, pos + 1, depth, max, map[]) == Ok((fields, end))
    ensures ParseValue(s, pos, depth, max) == Ok((Object(fields), end))
  {
  }

  lemma KeysDistinct(keys: seq<string>)
    requires forall i, j :: 0 <= i < j < |keys| ==> KeyLess(keys[i], keys[j])
    ensures Graphs.Distinct(keys)
  {
    forall i, j | 0 <= i < j < |keys|
      ensures keys[i] != keys[j]
    {
      BeforeTotal(Utf16(keys[i]), Utf16(keys[j]));
    }
  }

  ghost function Restricted(fields: map<string, Value>, keys: seq<string>): map<string, Value> {
    map k | k in fields && k in keys :: fields[k]
  }

  lemma {:induction false} FieldsBack(
      s: string, pos: nat, v: Value, keys: seq<string>, seen: map<string, Value>, end: nat, depth: nat, max: nat)
    requires v.Object? && keys != [] && At(s, pos, PrintFields(v, keys) + "}", end) && Graphs.Distinct(keys)
    requires KeysWithin(keys, v.fields, seen) && Printable(v, max - depth)
    ensures pos <= |s| && ParseFields(s, pos, depth, max, seen) == Ok((seen + Restricted(v.fields, keys), end))
    decreases v, 1, |keys|
  {
    hide *;
    FirstKey(keys, v.fields, seen);
    var k := keys[0];
    var value := v.fields[k];
    var colon := pos + |Quoted(k)|;
    var mid := colon + 1 + |Print(value)|;
    var now := seen[k := value];
    FieldParts(s, pos, v, keys, end, depth, max);
    QuotedBack(s, pos, k, colon);
    ValueBack(s, colon + 1, value, mid, depth + 1, max);
    if |keys| == 1 {
      LastField(s, pos, v, k, seen, now, end, depth, max, colon, mid);
    } else {
      FieldsBack(s, mid + 1, v, keys[1..], now, end, depth, max);
      NextField(s, pos, v, k, seen, now, depth, max, colon, mid);
    }
    RestrictedStep(v.fields, keys, seen);
  }

  lemma FirstKey(keys: seq<string>, fields: map<string, Value>, seen: map<string, Value>)
    requires keys != [] && Graphs.Distinct(keys) && KeysWithin(keys, fields, seen)
    ensures keys[0] in fields && keys[0] !in seen && Graphs.Distinct(keys[1..])
    ensures KeysWithin(keys[1..], fields, seen[keys[0] := fields[keys[0]]])
  {
  }

  lemma RestrictedStep(fields: map<string, Value>, keys: seq<string>, seen: map<string, Value>)
    requires keys != [] && keys[0] in fields
    ensures seen[keys[0] := fields[keys[0]]] + Restricted(fields, keys[1..]) == seen + Restricted(fields, keys)
    ensures |keys| == 1 ==> seen[keys[0] := fields[keys[0]]] == seen + Restricted(fields, keys)
  {
  }

  lemma FieldParts(s: string, pos: nat, v: Value, keys: seq<string>, end: nat, depth: nat, max: nat)
    requires v.Object? && keys != [] && keys[0] in v.fields && At(s, pos, PrintFields(v, keys) + "}", end)
    requires Printable(v, max - depth)
    ensures
      var value := v.fields[keys[0]];
      var colon := pos + |Quoted(keys[0])|;
      var mid := colon + 1 + |Print(value)|;
      && At(s, pos, Quoted(keys[0]), colon) && colon < |s| && s[colon] == ':'
      && At(s, colon + 1, Print(value), mid) && mid < |s| && Delimited(s, mid)
      && Printable(value, max - (depth + 1)) && depth + 1 <= max
      && (|keys| == 1 ==> s[mid] == '}' && end == mid + 1)
      && (|keys| > 1 ==> s[mid] == ',' && At(s, mid + 1, PrintFields(v, keys[1..]) + "}", end))
  {
    hide *;
    var value := v.fields[keys[0]];
    var mid := pos + |Quoted(keys[0])| + 1 + |Print(value)|;
    FieldPrintable(v, keys[0], depth, max);
    if |keys| == 1 {
      assert ['}'] + "" == "}";
      FieldText(v, keys, ['}'] + "");
      FieldPieces(s, pos, Quoted(keys[0]), Print(value), '}', "", end);
    } else {
      FieldText(v, keys, "," + (PrintFields(v, keys[1..]) + "}"));
      FieldPieces(s, pos, Quoted(keys[0]), Print(value), ',', PrintFields(v, keys[1..]) + "}", end);
    }
    DelimitedBy(s, mid);
  }

  /** A key, a colon, a value, and what follows. */
  lemma FieldPieces(s: string, pos: nat, key: string, value: string, mark: char, rest: string, end: nat)
    requires At(s, pos, key + (":" + (value + ([mark] + rest))), end)
    ensures
      var colon := pos + |key|;
      var mid := colon + 1 + |value|;
      && At(s, pos, key, colon) && colon < |s| && s[colon] == ':' && At(s, colon + 1, value, mid)
      && mid < |s| && s[mid] == mark && At(s, mid + 1, rest, end) && end == mid + 1 + |rest|
  {
    hide *;
    ItemPieces(s, pos, key, ':', value + ([mark] + rest), end);
    ItemPieces(s, pos + |key| + 1, value, mark, rest, end);
  }

  lemma DelimitedBy(s: string, mid: nat)
    requires mid < |s| && (s[mid] == ',' || s[mid] == '}' || s[mid] == ']')
    ensures Delimited(s, mid)
  {
  }

  lemma FieldPrintable(v: Value, k: string, depth: nat, max: nat)
    requires v.Object? && k in v.fields && Printable(v, max - depth)
    ensures Printable(v.fields[k], max - (depth + 1)) && depth + 1 <= max
  {
  }

  lemma FieldText(v: Value, keys: seq<string>, tail: string)
    requires v.Object? && keys != [] && keys[0] in v.fields
    requires tail == if |keys| == 1 then "}" else "," + (PrintFields(v, keys[1..]) + "}")
    ensures PrintFields(v, keys) + "}" == Quoted(keys[0]) + (":" + (Print(v.fields[keys[0]]) + tail))
  {
    var a, b := Quoted(keys[0]), Print(v.fields[keys[0]]);
    if |keys| == 1 {
      assert PrintFields(v, keys) == a + ":" + b + "";
      Regroup3(a, ":", b, "", "}");
    } else {
      Regroup3(a, ":", b, "," + PrintFields(v, keys[1..]), "}");
    }
  }

  lemma Regroup3(a: string, b: string, c: string, d: string, e: string)
    ensures (a + b + c + d) + e == a + (b + (c + (d + e)))
    ensures forall x, y :: d == x + y ==> d + e == x + (y + e)
  {
  }

  /** A mark stands where it is read, and is no other. */
  lemma MarkAt(s: string, pos: nat, c: char)
    requires pos < |s| && s[pos] == c && c in {':', ',', '}', ']'}
    ensures Space(s, pos) == pos && forall x :: Has(s, pos, x) <==> x == c
  {
  }

  lemma LastField(s: string, pos: nat, v: Value, k: string, seen: map<string, Value>, now: map<string, Value>, end: nat,
      depth: nat, max: nat, colon: nat, mid: nat)
    requires v.Object? && k in v.fields && k !in seen && now == seen[k := v.fields[k]] && depth + 1 <= max
    requires pos <= colon < |s| && s[colon] == ':' && ParseString(s, pos) == Ok((k, colon))
    requires ParseValue(s, colon + 1, depth + 1, max) == Ok((v.fields[k], mid)) && mid < |s| && s[mid] == '}'
    requires end == mid + 1
    ensures ParseFields(s, pos, depth, max, seen) == Ok((now, end))
  {
    hide *;
    MarkAt(s, colon, ':');
    MarkAt(s, mid, '}');
    MemberUnfold(s, pos, depth, max, seen);
    FieldsUnfold(s, pos, depth, max, seen);
  }

  lemma NextField(s: string, pos: nat, v: Value, k: string, seen: map<string, Value>, now: map<string, Value>,
      depth: nat, max: nat, colon: nat, mid: nat)
    requires v.Object? && k in v.fields && k !in seen && now == seen[k := v.fields[k]] && depth + 1 <= max
    requires pos <= colon < |s| && s[colon] == ':' && ParseString(s, pos) == Ok((k, colon))
    requires ParseValue(s, colon + 1, depth + 1, max) == Ok((v.fields[k], mid)) && mid < |s| && s[mid] == ','
    ensures ParseFields(s, pos, depth, max, seen) == ParseFields(s, mid + 1, depth, max, now)
  {
    hide *;
    MarkAt(s, colon, ':');
    MarkAt(s, mid, ',');
    MemberUnfold(s, pos, depth, max, seen);
    FieldsUnfold(s, pos, depth, max, seen);
  }

  /** Printing then reading gives the value back. */
  lemma RoundTrip(v: Value, max: nat)
    requires Printable(v, max)
    ensures ParseDocument(Print(v), max) == Ok(v)
  {
    hide *;
    var s := Print(v);
    WholeAt(s);
    ValueBack(s, 0, v, |s|, 0, max);
    WholeIs(s, v, max);
  }

  lemma WholeAt(s: string)
    ensures At(s, 0, s, |s|) && Delimited(s, |s|)
  {
  }

  lemma WholeIs(s: string, v: Value, max: nat)
    requires ParseValue(s, 0, 0, max) == Ok((v, |s|))
    ensures ParseDocument(s, max) == Ok(v)
  {
  }
}
