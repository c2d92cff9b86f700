// Reading JSON step by step (crates/htlk-executable/src/json.rs).

module JsonReader {
  import opened Wrappers
  import IntegralTokens
  import opened Json
  import opened JsonParser

  ghost predicate Agrees(r: Result<Value, JsonError>, pos: nat, o: Outcome) {
    if o.Ok? then r == Ok(o.value.0) && pos == o.value.1 else r == Err(o.error)
  }

  ghost predicate TextAgrees(r: Result<string, JsonError>, pos: nat, o: TextOutcome) {
    if o.Ok? then r == Ok(o.value.0) && pos == o.value.1 else r == Err(o.error)
  }

  ghost predicate NumberAgrees(r: Result<nat, JsonError>, pos: nat, o: Result<(nat, nat), JsonError>) {
    if o.Ok? then r == Ok(o.value.0) && pos == o.value.1 else r == Err(o.error)
  }

  lemma AgreesWith(r: Result<Value, JsonError>, pos: nat, o: Outcome)
    requires if r.Ok? then o == Ok((r.value, pos)) else o == Err(r.error)
    ensures Agrees(r, pos, o)
  {
  }

  lemma AgreesRead(r: Result<Value, JsonError>, pos: nat, o: Outcome)
    requires Agrees(r, pos, o)
    ensures if r.Ok? then o == Ok((r.value, pos)) else o == Err(r.error)
  {
  }

  lemma TextRead(r: Result<string, JsonError>, pos: nat, o: TextOutcome)
    requires TextAgrees(r, pos, o)
    ensures if r.Ok? then o == Ok((r.value, pos)) else o == Err(r.error)
  {
  }

  lemma NumberRead(r: Result<nat, JsonError>, pos: nat, o: Result<(nat, nat), JsonError>)
    requires NumberAgrees(r, pos, o)
    ensures if r.Ok? then o == Ok((r.value, pos)) else o == Err(r.error)
  {
  }

  lemma HasAt(s: string, pos: nat)
    ensures forall c :: Has(s, pos, c) <==> pos < |s| && s[pos] == c
  {
  }

  lemma StartsFits(s: string, pos: nat, word: string)
    requires pos <= |s| && Starts(s, pos, word)
    ensures pos + |word| <= |s|
  {
  }

  /** A code unit, and a second one after a leading surrogate. */
  lemma UnicodeUnfold(s: string, pos: nat)
    requires pos <= |s|
    ensures
      var high := Hex(s, pos, 4, 0);
      var o := Unicode(s, pos);
      if high.Err? then o == Err(high.error)
      else if 0xD800 <= high.value.0 <= 0xDBFF then
        if !Starts(s, high.value.1, "\\u") then o == Err(Syntax) else
          high.value.1 + 2 <= |s| &&
          var low := Hex(s, high.value.1 + 2, 4, 0);
          if low.Err? then o == Err(low.error)
          else if !(0xDC00 <= low.value.0 <= 0xDFFF) then o == Err(Syntax)
          else
            var c := Scalar(0x10000 + (high.value.0 - 0xD800) * 0x400 + (low.value.0 - 0xDC00));
            o == if c.None? then Err(Syntax) else Ok((c.value, low.value.1))
      else
        var c := Scalar(high.value.0);
        o == if c.None? then Err(Syntax) else Ok((c.value, high.value.1))
  {
  }

  /** A number is its mantissa, its exponent, and the integer they denote. */
  lemma NumberParts(s: string, pos: nat)
    requires pos < |s|
    ensures
      var mantissa := MantissaEnd(s, pos);
      if mantissa.Err? then ParseNumber(s, pos) == Err(mantissa.error) else
        pos < mantissa.value <= |s| &&
        var exponent := ExponentAt(s, mantissa.value);
        if exponent.Err? then ParseNumber(s, pos) == Err(exponent.error) else
          IntegralTokens.AllDigits(exponent.value.1) &&
          var number := IntegerOf(s[pos..mantissa.value], exponent.value.0, exponent.value.1);
          ParseNumber(s, pos) == if number.Ok? then Ok((number.value, exponent.value.2)) else Err(number.error)
  {
  }

  lemma IntegerUnsafe(mantissa: string, negative: bool, digits: string)
    requires IntegralTokens.AllDigits(digits) && IntegralTokens.AllDigits(IntegralTokens.Digits(mantissa))
    ensures
      !IntegralTokens.Safe(IntegralTokens.NatOf(IntegralTokens.Digits(mantissa)),
        IntegralTokens.Signed(negative, IntegralTokens.NatOf(digits)) - IntegralTokens.AfterPoint(mantissa))
      ==> IntegerOf(mantissa, negative, digits) == Err(UnsafeNumber)
  {
  }

  class Reader {
    const bytes: string
    const maxDepth: nat
    var pos: nat

    constructor (bytes: string, maxDepth: nat)
      ensures this.bytes == bytes && this.maxDepth == maxDepth && pos == 0
    {
      this.bytes, this.maxDepth, pos := bytes, maxDepth, 0;
    }

    method SkipSpace()
      requires pos <= |bytes|
      modifies this
      ensures pos == Space(bytes, old(pos))
    {
      while pos < |bytes| && IsSpace(bytes[pos])
        invariant old(pos) <= pos <= |bytes| && Space(bytes, old(pos)) == Space(bytes, pos)
      {
        pos := pos + 1;
      }
    }

    /** Four hexadecimal digits. */
    method Hex4() returns (r: Result<nat, JsonError>)
      requires pos <= |bytes|
      modifies this
      ensures NumberAgrees(r, pos, Hex(bytes, old(pos), 4, 0))
    {
      var n: nat, k: nat := 0, 0;
      while k < 4
        invariant k <= 4 && pos == old(pos) + k <= |bytes|
        invariant Hex(bytes, old(pos), 4, 0) == Hex(bytes, pos, 4 - k, n)
      {
        if pos >= |bytes| || HexValue(bytes[pos]).None? {
          return Err(Syntax);
        }
        n := 16 * n + HexValue(bytes[pos]).value;
        pos := pos + 1;
        k := k + 1;
      }
      r := Ok(n);
    }

    /** The character of a `\u` escape. */
    method UnicodeEscape() returns (r: Result<char, JsonError>)
      requires pos <= |bytes|
      modifies this
      ensures
        var o := Unicode(bytes, old(pos));
        if o.Ok? then r == Ok(o.value.0) && pos == o.value.1 else r == Err(o.error)
    {
      hide *;
      UnicodeUnfold(bytes, pos);
      ghost var start := Hex(bytes, pos, 4, 0);
      var high := Hex4();
      NumberRead(high, pos, start);
      if high.Err? {
        return Err(high.error);
      }
      var point := high.value;
      if 0xD800 <= high.value <= 0xDBFF {
        if !Starts(bytes, pos, "\\u") {
          return Err(Syntax);
        }
        StartsFits(bytes, pos, "\\u");
        pos := pos + 2;
        ghost var second := Hex(bytes, pos, 4, 0);
        var low := Hex4();
        NumberRead(low, pos, second);
        if low.Err? {
          return Err(low.error);
        }
        if !(0xDC00 <= low.value <= 0xDFFF) {
          return Err(Syntax);
        }
        point := 0x10000 + (high.value - 0xD800) * 0x400 + (low.value - 0xDC00);
      }
      var c := Scalar(point);
      return if c.None? then Err(Syntax) else Ok(c.value);
    }

    /** A string literal. */
    method Str() returns (r: Result<string, JsonError>)
      requires pos <= |bytes|
      modifies this
      ensures TextAgrees(r, pos, ParseString(bytes, old(pos)))
    {
      SkipSpace();
      if pos >= |bytes| || bytes[pos] != '"' {
        return Err(Syntax);
      }
      pos := pos + 1;
      var text := "";
      ghost var start := pos;
      while true
        invariant start <= pos <= |bytes| && StringTail(bytes, start, "") == StringTail(bytes, pos, text)
        decreases |bytes| - pos
      {
        if pos >= |bytes| {
          return Err(Syntax);
        }
        if bytes[pos] == '"' {
          pos := pos + 1;
          return Ok(text);
        }
        var c := CharacterAt();
        if c.Err? {
          return Err(c.error);
        }
        text := text + [c.value];
      }
    }

    method CharacterAt() returns (r: Result<char, JsonError>)
      requires pos < |bytes|
      modifies this
      ensures
        var o := Character(bytes, old(pos));
        if o.Ok? then r == Ok(o.value.0) && pos == o.value.1 else r == Err(o.error)
    {
      if bytes[pos] as int < 32 {
        return Err(Syntax);
      }
      if bytes[pos] != '\\' {
        pos := pos + 1;
        return Ok(bytes[pos - 1]);
      }
      pos := pos + 1;
      if pos >= |bytes| {
        return Err(Syntax);
      }
      if bytes[pos] == 'u' {
        pos := pos + 1;
        r := UnicodeEscape();
        return;
      }
      var c := Unescape(bytes[pos]);
      if c.None? {
        return Err(Syntax);
      }
      pos := pos + 1;
      return Ok(c.value);
    }

    method SkipDigits()
      requires pos <= |bytes|
      modifies this
      ensures pos == DigitsEnd(bytes, old(pos))
    {
      while pos < |bytes| && IntegralTokens.IsDigit(bytes[pos])
        invariant old(pos) <= pos <= |bytes| && DigitsEnd(bytes, old(pos)) == DigitsEnd(bytes, pos)
      {
        pos := pos + 1;
      }
    }

    /** The digits and fraction of a number. */
    method Mantissa() returns (r: Option<JsonError>)
      requires pos < |bytes|
      modifies this
      ensures MantissaEnd(bytes, old(pos)) == if r.None? then Ok(pos) else Err(r.value)
    {
      hide DigitsEnd;
      if bytes[pos] == '-' {
        pos := pos + 1;
      }
      if pos >= |bytes| || !IntegralTokens.IsDigit(bytes[pos]) {
        return Some(Syntax);
      }
      pos := pos + 1;
      if bytes[pos - 1] != '0' {
        SkipDigits();
      }
      HasAt(bytes, pos);
      if pos < |bytes| && bytes[pos] == '.' {
        pos := pos + 1;
        var begin := pos;
        SkipDigits();
        if pos == begin {
          return Some(Syntax);
        }
      }
      return None;
    }

    /** The exponent of a number: its sign and digits. */
    method ExponentPart() returns (r: Result<(bool, string), JsonError>)
      requires pos <= |bytes|
      modifies this
      ensures
        var o := ExponentAt(bytes, old(pos));
        if o.Ok? then r == Ok((o.value.0, o.value.1)) && pos == o.value.2 else r == Err(o.error)
    {
      if pos >= |bytes| || (bytes[pos] != 'e' && bytes[pos] != 'E') {
        return Ok((false, ""));
      }
      pos := pos + 1;
      var negative := pos < |bytes| && bytes[pos] == '-';
      if pos < |bytes| && (bytes[pos] == '+' || bytes[pos] == '-') {
        pos := pos + 1;
      }
      var begin := pos;
      SkipDigits();
      if pos == begin {
        return Err(Syntax);
      }
      return Ok((negative, bytes[begin..pos]));
    }

    /** A number: checked as a decimal token, then taken as an integer. */
    method Number() returns (r: Result<Value, JsonError>)
      requires pos < |bytes| <= IntegralTokens.LONGEST
      modifies this
      ensures Agrees(r, pos, ParseNumber(bytes, old(pos)))
    {
      hide *;
      var start := pos;
      NumberParts(bytes, start);
      var failed := Mantissa();
      if failed.Some? {
        AgreesWith(Err(failed.value), pos, ParseNumber(bytes, start));
        return Err(failed.value);
      }
      var mantissa := bytes[start..pos];
      var exponent := ExponentPart();
      if exponent.Err? {
        AgreesWith(Err(exponent.error), pos, ParseNumber(bytes, start));
        return Err(exponent.error);
      }
      var (negative, digits) := exponent.value;
      var check := IntegralTokens.CheckToken(mantissa, negative, digits);
      IntegerUnsafe(mantissa, negative, digits);
      r := if check.Some? then Err(UnsafeNumber) else IntegerOf(mantissa, negative, digits);
      AgreesWith(r, pos, ParseNumber(bytes, start));
    }

    method Word(word: string, v: Value) returns (r: Result<Value, JsonError>)
      requires pos <= |bytes| && word != ""
      modifies this
      ensures Agrees(r, pos, ParseWord(bytes, old(pos), word, v))
    {
      if !Starts(bytes, pos, word) {
        return Err(Syntax);
      }
      pos := pos + |word|;
      return Ok(v);
    }

    /** One value at a nesting depth. */
    method ValueAt(depth: nat) returns (r: Result<Value, JsonError>)
      requires pos <= |bytes| <= IntegralTokens.LONGEST
      modifies this
      decreases |bytes| - pos, 3
      ensures Agrees(r, pos, ParseValue(bytes, old(pos), depth, maxDepth)) && (r.Ok? ==> old(pos) < pos <= |bytes|)
    {
      hide ParseItems, ParseFields, ParseNumber, ParseWord, ParseString;
      if depth > maxDepth {
        return Err(TooDeep);
      }
      SkipSpace();
      if pos >= |bytes| {
        return Err(Syntax);
      }
      if bytes[pos] == '"' {
        var text := Str();
        return if text.Err? then Err(text.error) else Ok(Text(text.value));
      }
      if bytes[pos] == '[' {
        r := ListAt(depth);
      } else if bytes[pos] == '{' {
        r := ObjectAt(depth);
      } else if bytes[pos] == 't' {
        r := Word("true", Boolean(true));
      } else if bytes[pos] == 'f' {
        r := Word("false", Boolean(false));
      } else if bytes[pos] == 'n' {
        r := Word("null", Null);
      } else if bytes[pos] == '-' || IntegralTokens.IsDigit(bytes[pos]) {
        r := Number();
      } else {
        r := Err(Syntax);
      }
    }

    method ListAt(depth: nat) returns (r: Result<Value, JsonError>)
      requires pos < |bytes| <= IntegralTokens.LONGEST && bytes[pos] == '[' && depth <= maxDepth
      modifies this
      decreases |bytes| - pos, 2
      ensures Agrees(r, pos, ParseValue(bytes, old(pos), depth, maxDepth)) && (r.Ok? ==> old(pos) < pos <= |bytes|)
    {
      hide *;
      ListBegins(bytes, pos, depth, maxDepth);
      ghost var all := ParseValue(bytes, pos, depth, maxDepth);
      pos := pos + 1;
      SkipSpace();
      HasAt(bytes, pos);
      if pos < |bytes| && bytes[pos] == ']' {
        pos := pos + 1;
        AgreesWith(Ok(Array([])), pos, all);
        return Ok(Array([]));
      }
      var items: seq<Value>, start := [], pos;
      ghost var list := ParseItems(bytes, start, depth, maxDepth);
      ContinuesStart(list);
      while true
        invariant start <= pos <= |bytes| && Continues(items, list, ParseItems(bytes, pos, depth, maxDepth))
        decreases |bytes| - pos
      {
        ItemsStep(items, list, bytes, pos, depth, maxDepth);
        ghost var one := ParseValue(bytes, pos, depth + 1, maxDepth);
        var item := ValueAt(depth + 1);
        AgreesRead(item, pos, one);
        if item.Err? {
          AgreesWith(Err(item.error), pos, all);
          return Err(item.error);
        }
        items := items + [item.value];
        SkipSpace();
        HasAt(bytes, pos);
        if pos < |bytes| && bytes[pos] == ']' {
          pos := pos + 1;
          AgreesWith(Ok(Array(items)), pos, all);
          return Ok(Array(items));
        }
        if pos >= |bytes| || bytes[pos] != ',' {
          AgreesWith(Err(Syntax), pos, all);
          return Err(Syntax);
        }
        pos := pos + 1;
      }
    }

    /** One field of an object. */
    method MemberAt(depth: nat, seen: map<string, Value>) returns (r: Result<(string, Value), JsonError>)
      requires pos <= |bytes| <= IntegralTokens.LONGEST
      modifies this
      decreases |bytes| - pos, 4
      ensures
        var o := ParseMember(bytes, old(pos), depth, maxDepth, seen);
        if r.Ok? then o == Ok((r.value.0, r.value.1, pos)) else o == Err(r.error)
      ensures r.Ok? ==> old(pos) < pos <= |bytes|
    {
      hide *;
      MemberUnfold(bytes, pos, depth, maxDepth, seen);
      if depth + 1 > maxDepth {
        return Err(TooDeep);
      }
      ghost var name := ParseString(bytes, pos);
      var key := Str();
      TextRead(key, pos, name);
      if key.Err? {
        return Err(key.error);
      }
      if key.value in seen {
        return Err(DuplicateKey);
      }
      SkipSpace();
      HasAt(bytes, pos);
      if pos >= |bytes| || bytes[pos] != ':' {
        return Err(Syntax);
      }
      pos := pos + 1;
      ghost var one := ParseValue(bytes, pos, depth + 1, maxDepth);
      var value := ValueAt(depth + 1);
      AgreesRead(value, pos, one);
      return if value.Err? then Err(value.error) else Ok((key.value, value.value));
    }

    method ObjectAt(depth: nat) returns (r: Result<Value, JsonError>)
      requires pos < |bytes| <= IntegralTokens.LONGEST && bytes[pos] == '{' && depth <= maxDepth
      modifies this
      decreases |bytes| - pos, 2
      ensures Agrees(r, pos, ParseValue(bytes, old(pos), depth, maxDepth)) && (r.Ok? ==> old(pos) < pos <= |bytes|)
    {
      hide *;
      ObjectBegins(bytes, pos, depth, maxDepth);
      ghost var all := ParseValue(bytes, pos, depth, maxDepth);
      pos := pos + 1;
      SkipSpace();
      HasAt(bytes, pos);
      if pos < |bytes| && bytes[pos] == '}' {
        pos := pos + 1;
        AgreesWith(Ok(Object(map[])), pos, all);
        return Ok(Object(map[]));
      }
      var fields: map<string, Value>, start := map[], pos;
      while true
        invariant start <= pos <= |bytes|
        invariant ParseFields(bytes, start, depth, maxDepth, map[]) == ParseFields(bytes, pos, depth, maxDepth, fields)
        decreases |bytes| - pos
      {
        FieldsUnfold(bytes, pos, depth, maxDepth, fields);
        var member := MemberAt(depth, fields);
        if member.Err? {
          AgreesWith(Err(member.error), pos, all);
          return Err(member.error);
        }
        fields := fields[member.value.0 := member.value.1];
        SkipSpace();
        HasAt(bytes, pos);
        if pos < |bytes| && bytes[pos] == '}' {
          pos := pos + 1;
          AgreesWith(Ok(Object(fields)), pos, all);
          return Ok(Object(fields));
        }
        if pos >= |bytes| || bytes[pos] != ',' {
          AgreesWith(Err(Syntax), pos, all);
          return Err(Syntax);
        }
        pos := pos + 1;
      }
    }
  }

  ghost predicate Continues(
      seen: seq<Value>, all: Result<(seq<Value>, nat), JsonError>, rest: Result<(seq<Value>, nat), JsonError>)
  {
    if rest.Err? then all == rest else all == Ok((seen + rest.value.0, rest.value.1))
  }

  lemma ContinuesStart(all: Result<(seq<Value>, nat), JsonError>)
    ensures Continues([], all, all)
  {
    if all.Ok? {
      assert [] + all.value.0 == all.value.0;
    }
  }

  lemma ItemsStep(
      seen: seq<Value>, all: Result<(seq<Value>, nat), JsonError>, s: string, pos: nat, depth: nat, max: nat)
    requires pos <= |s| && Continues(seen, all, ParseItems(s, pos, depth, max))
    ensures
      var item := ParseValue(s, pos, depth + 1, max);
      if item.Err? then all == Err(item.error) else
        var next, now := Space(s, item.value.1), seen + [item.value.0];
        if Has(s, next, ']') then all == Ok((now, next + 1))
        else if !Has(s, next, ',') then all == Err(Syntax)
        else Continues(now, all, ParseItems(s, next + 1, depth, max))
  {
    hide ParseItems, ParseValue, Space;
    ItemsUnfold(s, pos, depth, max);
    var item := ParseValue(s, pos, depth + 1, max);
    if item.Ok? && Has(s, Space(s, item.value.1), ',') && !Has(s, Space(s, item.value.1), ']') {
      var rest := ParseItems(s, Space(s, item.value.1) + 1, depth, max);
      if rest.Ok? {
        assert seen + ([item.value.0] + rest.value.0) == (seen + [item.value.0]) + rest.value.0;
      }
    }
  }

  lemma ListBegins(s: string, pos: nat, depth: nat, max: nat)
    requires pos < |s| && s[pos] == '[' && depth <= max
    ensures
      var first := Space(s, pos + 1);
      ParseValue(s, pos, depth, max) == if Has(s, first, ']') then Ok((Array([]), first + 1)) else
        var items := ParseItems(s, first, depth, max);
        if items.Err? then Err(items.error) else Ok((Array(items.value.0), items.value.1))
  {
  }

  lemma ObjectBegins(s: string, pos: nat, depth: nat, max: nat)
    requires pos < |s| && s[pos] == '{' && depth <= max
    ensures
      var first := Space(s, pos + 1);
      ParseValue(s, pos, depth, max) == if Has(s, first, '}') then Ok((Object(map[]), first + 1)) else
        var fields := ParseFields(s, first, depth, max, map[]);
        if fields.Err? then Err(fields.error) else Ok((Object(fields.value.0), fields.value.1))
  {
  }
}
