// Reading JSON text (crates/htlk-executable/src/json.rs).

module JsonParser {
  import opened Wrappers
  import IntegralTokens
  import opened Json

  /** `Fraction` stands for the tokens that become binary64 values, which are not modelled. */
  datatype JsonError = Syntax | DuplicateKey | UnsafeNumber | Fraction | TooDeep | TooLong | Unsupported | NonCanonical

  type Outcome = Result<(Value, nat), JsonError>
  type TextOutcome = Result<(string, nat), JsonError>

  predicate IsSpace(c: char) {
    c == ' ' || c == '\t' || c == '\r' || c == '\n'
  }

  function Space(s: string, pos: nat): (end: nat)
    requires pos <= |s|
    ensures pos <= end <= |s|
    decreases |s| - pos
  {
    if pos < |s| && IsSpace(s[pos]) then Space(s, pos + 1) else pos
  }

  predicate Has(s: string, pos: nat, c: char) {
    pos < |s| && s[pos] == c
  }

  predicate Starts(s: string, pos: nat, word: string)
    requires pos <= |s|
  {
    word <= s[pos..]
  }

  // ---- Strings ----

  function HexValue(c: char): Option<nat> {
    if '0' <= c <= '9' then Some(c as int - '0' as int)
    else if 'a' <= c <= 'f' then Some(c as int - 'a' as int + 10)
    else if 'A' <= c <= 'F' then Some(c as int - 'A' as int + 10)
    else None
  }

  /** `count` hexadecimal digits appended to `n`. */
  function Hex(s: string, pos: nat, count: nat, n: nat): (r: Result<(nat, nat), JsonError>)
    requires pos <= |s|
    ensures r.Ok? ==> r.value.1 == pos + count <= |s|
    decreases count
  {
    if count == 0 then Ok((n, pos))
    else if pos >= |s| || HexValue(s[pos]).None? then Err(Syntax)
    else Hex(s, pos + 1, count - 1, 16 * n + HexValue(s[pos]).value)
  }

  function Scalar(n: nat): Option<char> {
    if n < 0xD800 || 0xE000 <= n < 0x11_0000 then Some(n as char) else None
  }

  /** The character after `\u`: one escape, or two for a character outside the basic plane. */
  function Unicode(s: string, pos: nat): (r: Result<(char, nat), JsonError>)
    requires pos <= |s|
    ensures r.Ok? ==> pos < r.value.1 <= |s|
  {
    var high := Hex(s, pos, 4, 0);
    if high.Err? then Err(high.error)
    else if 0xD800 <= high.value.0 <= 0xDBFF then
      if !Starts(s, high.value.1, "\\u") then Err(Syntax) else
        var low := Hex(s, high.value.1 + 2, 4, 0);
        if low.Err? then Err(low.error)
        else if !(0xDC00 <= low.value.0 <= 0xDFFF) then Err(Syntax)
        else
          var c := Scalar(0x10000 + (high.value.0 - 0xD800) * 0x400 + (low.value.0 - 0xDC00));
          if c.None? then Err(Syntax) else Ok((c.value, low.value.1))
    else
      var c := Scalar(high.value.0);
      if c.None? then Err(Syntax) else Ok((c.value, high.value.1))
  }

  function Unescape(c: char): Option<char> {
    if c == '"' || c == '\\' || c == '/' then Some(c)
    else if c == 'b' then Some(8 as char)
    else if c == 'f' then Some(12 as char)
    else if c == 'n' then Some('\n')
    else if c == 'r' then Some('\r')
    else if c == 't' then Some('\t')
    else None
  }

  /** One character of a string literal. */
  function Character(s: string, pos: nat): (r: Result<(char, nat), JsonError>)
    requires pos < |s|
    ensures r.Ok? ==> pos < r.value.1 <= |s|
  {
    if s[pos] as int < 32 then Err(Syntax)
    else if s[pos] != '\\' then Ok((s[pos], pos + 1))
    else if pos + 1 >= |s| then Err(Syntax)
    else if s[pos + 1] == 'u' then Unicode(s, pos + 2)
    else if Unescape(s[pos + 1]).None? then Err(Syntax)
    else Ok((Unescape(s[pos + 1]).value, pos + 2))
  }

  /** The rest of a string literal. */
  function StringTail(s: string, pos: nat, text: string): (r: TextOutcome)
    requires pos <= |s|
    ensures r.Ok? ==> pos < r.value.1 <= |s|
    decreases |s| - pos
  {
    if pos == |s| then Err(Syntax)
    else if s[pos] == '"' then Ok((text, pos + 1))
    else
      var c := Character(s, pos);
      if c.Err? then Err(c.error) else StringTail(s, c.value.1, text + [c.value.0])
  }

  /** A string literal, after optional space. */
  function ParseString(s: string, pos: nat): (r: TextOutcome)
    requires pos <= |s|
    ensures r.Ok? ==> pos < r.value.1 <= |s|
  {
    var start := Space(s, pos);
    if !Has(s, start, '"') then Err(Syntax) else StringTail(s, start + 1, "")
  }

  // ---- Numbers ----

  function DigitsEnd(s: string, pos: nat): (end: nat)
    requires pos <= |s|
    ensures pos <= end <= |s| && IntegralTokens.AllDigits(s[pos..end])
    decreases |s| - pos
  {
    if pos < |s| && IntegralTokens.IsDigit(s[pos]) then
      var end := DigitsEnd(s, pos + 1);
      assert s[pos..end] == [s[pos]] + s[pos + 1..end];
      end
    else pos
  }

  /** Where the digits and the fraction of a number end. */
  function MantissaEnd(s: string, pos: nat): (r: Result<nat, JsonError>)
    requires pos < |s|
    ensures r.Ok? ==> pos < r.value <= |s|
  {
    var first := if s[pos] == '-' then pos + 1 else pos;
    if first >= |s| || !IntegralTokens.IsDigit(s[first]) then Err(Syntax) else
      var whole := if s[first] == '0' then first + 1 else DigitsEnd(s, first + 1);
      if !Has(s, whole, '.') then Ok(whole) else
        var end := DigitsEnd(s, whole + 1);
        if end == whole + 1 then Err(Syntax) else Ok(end)
  }

  /** The exponent after a mantissa: its sign, its digits, and where it ends. */
  function ExponentAt(s: string, pos: nat): (r: Result<(bool, string, nat), JsonError>)
    requires pos <= |s|
    ensures r.Ok? ==> pos <= r.value.2 <= |s| && IntegralTokens.AllDigits(r.value.1)
  {
    if !Has(s, pos, 'e') && !Has(s, pos, 'E') then Ok((false, "", pos)) else
      var begin := if Has(s, pos + 1, '+') || Has(s, pos + 1, '-') then pos + 2 else pos + 1;
      var end := DigitsEnd(s, begin);
      if end == begin then Err(Syntax) else Ok((Has(s, pos + 1, '-'), s[begin..end], end))
  }

  /** The integer a token denotes, if it denotes a safe one. */
  function IntegerOf(mantissa: string, negative: bool, digits: string): Result<Value, JsonError>
    requires IntegralTokens.AllDigits(digits)
  {
    IntegralTokens.DigitsAre(mantissa);
    var m := IntegralTokens.NatOf(IntegralTokens.Digits(mantissa));
    var e := IntegralTokens.Signed(negative, IntegralTokens.NatOf(digits)) - IntegralTokens.AfterPoint(mantissa);
    if !IntegralTokens.Safe(m, e) then Err(UnsafeNumber)
    else if !IntegralTokens.IntegerValued(m, e) then Err(Fraction)
    else Ok(Integer(IntegralTokens.Signed("-" <= mantissa, IntegralTokens.Magnitude(m, e))))
  }

  function ParseNumber(s: string, pos: nat): (r: Outcome)
    requires pos < |s|
    ensures r.Ok? ==> pos < r.value.1 <= |s|
  {
    var mantissa := MantissaEnd(s, pos);
    if mantissa.Err? then Err(mantissa.error) else
      var exponent := ExponentAt(s, mantissa.value);
      if exponent.Err? then Err(exponent.error) else
        var number := IntegerOf(s[pos..mantissa.value], exponent.value.0, exponent.value.1);
        if number.Err? then Err(number.error) else Ok((number.value, exponent.value.2))
  }

  // ---- Values ----

  function ParseWord(s: string, pos: nat, word: string, v: Value): (r: Outcome)
    requires pos <= |s| && word != ""
    ensures r.Ok? ==> pos < r.value.1 <= |s|
  {
    if Starts(s, pos, word) then Ok((v, pos + |word|)) else Err(Syntax)
  }

  function ParseValue(s: string, pos: nat, depth: nat, max: nat): (r: Outcome)
    requires pos <= |s|
    ensures r.Ok? ==> pos < r.value.1 <= |s|
    decreases |s| - pos, 3
  {
    var start := Space(s, pos);
    if depth > max then Err(TooDeep)
    else if start == |s| then Err(Syntax)
    else if s[start] == '"' then
      var text := ParseString(s, start);
      if text.Err? then Err(text.error) else Ok((Text(text.value.0), text.value.1))
    else if s[start] == '[' then
      var first := Space(s, start + 1);
      if Has(s, first, ']') then Ok((Array([]), first + 1)) else
        var items := ParseItems(s, first, depth, max);
        if items.Err? then Err(items.error) else Ok((Array(items.value.0), items.value.1))
    else if s[start] == '{' then
      var first := Space(s, start + 1);
      if Has(s, first, '}') then Ok((Object(map[]), first + 1)) else
        var fields := ParseFields(s, first, depth, max, map[]);
        if fields.Err? then Err(fields.error) else Ok((Object(fields.value.0), fields.value.1))
    else if s[start] == 't' then ParseWord(s, start, "true", Boolean(true))
    else if s[start] == 'f' then ParseWord(s, start, "false", Boolean(false))
    else if s[start] == 'n' then ParseWord(s, start, "null", Null)
    else if s[start] == '-' || IntegralTokens.IsDigit(s[start]) then ParseNumber(s, start)
    else Err(Syntax)
  }

  /** The items of a list that is not empty, and its closing bracket. */
  function ParseItems(s: string, pos: nat, depth: nat, max: nat): (r: Result<(seq<Value>, nat), JsonError>)
    requires pos <= |s|
    ensures r.Ok? ==> pos < r.value.1 <= |s|
    decreases |s| - pos, 4
  {
    var item := ParseValue(s, pos, depth + 1, max);
    if item.Err? then Err(item.error) else
      var next := Space(s, item.value.1);
      if Has(s, next, ']') then Ok(([item.value.0], next + 1))
      else if !Has(s, next, ',') then Err(Syntax)
      else
        var rest := ParseItems(s, next + 1, depth, max);
        if rest.Err? then rest else Ok(([item.value.0] + rest.value.0, rest.value.1))
  }

  /** One field of an object: a key that was not seen before, and its value. */
  function ParseMember(s: string, pos: nat, depth: nat, max: nat, seen: map<string, Value>):
      (r: Result<(string, Value, nat), JsonError>)
    requires pos <= |s|
    ensures r.Ok? ==> pos < r.value.2 <= |s|
    decreases |s| - pos, 4
  {
    if depth + 1 > max then Err(TooDeep) else
      var key := ParseString(s, pos);
      if key.Err? then Err(key.error)
      else if key.value.0 in seen then Err(DuplicateKey)
      else
        var colon := Space(s, key.value.1);
        if !Has(s, colon, ':') then Err(Syntax) else
          var value := ParseValue(s, colon + 1, depth + 1, max);
          if value.Err? then Err(value.error) else Ok((key.value.0, value.value.0, value.value.1))
  }

  /** The fields of an object that is not empty, on top of those seen. */
  function ParseFields(s: string, pos: nat, depth: nat, max: nat, seen: map<string, Value>):
      (r: Result<(map<string, Value>, nat), JsonError>)
    requires pos <= |s|
    ensures r.Ok? ==> pos < r.value.1 <= |s|
    decreases |s| - pos, 5
  {
    var member := ParseMember(s, pos, depth, max, seen);
    if member.Err? then Err(member.error) else
      var now := seen[member.value.0 := member.value.1];
      var next := Space(s, member.value.2);
      if Has(s, next, '}') then Ok((now, next + 1))
      else if !Has(s, next, ',') then Err(Syntax)
      else ParseFields(s, next + 1, depth, max, now)
  }

  /** One item of a list, and what follows it. */
  lemma ItemsUnfold(s: string, pos: nat, depth: nat, max: nat)
    requires pos <= |s|
    ensures
      var all := ParseItems(s, pos, depth, max);
      var item := ParseValue(s, pos, depth + 1, max);
      if item.Err? then all == Err(item.error) else
        var next := Space(s, item.value.1);
        if Has(s, next, ']') then all == Ok(([item.value.0], next + 1))
        else if !Has(s, next, ',') then all == Err(Syntax)
        else
          var rest := ParseItems(s, next + 1, depth, max);
          all == if rest.Err? then rest else Ok(([item.value.0] + rest.value.0, rest.value.1))
  {
  }

  /** One field of an object, and what follows it. */
  lemma FieldsUnfold(s: string, pos: nat, depth: nat, max: nat, seen: map<string, Value>)
    requires pos <= |s|
    ensures
      var all := ParseFields(s, pos, depth, max, seen);
      var member := ParseMember(s, pos, depth, max, seen);
      if member.Err? then all == Err(member.error) else
        var now := seen[member.value.0 := member.value.1];
        var next := Space(s, member.value.2);
        if Has(s, next, '}') then all == Ok((now, next + 1))
        else if !Has(s, next, ',') then all == Err(Syntax)
        else all == ParseFields(s, next + 1, depth, max, now)
  {
  }

  lemma MemberUnfold(s: string, pos: nat, depth: nat, max: nat, seen: map<string, Value>)
    requires pos <= |s|
    ensures
      var member := ParseMember(s, pos, depth, max, seen);
      if depth + 1 > max then member == Err(TooDeep) else
        var key := ParseString(s, pos);
        if key.Err? then member == Err(key.error)
        else if key.value.0 in seen then member == Err(DuplicateKey)
        else
          var colon := Space(s, key.value.1);
          if !Has(s, colon, ':') then member == Err(Syntax) else
            var value := ParseValue(s, colon + 1, depth + 1, max);
            member == if value.Err? then Err(value.error) else Ok((key.value.0, value.value.0, value.value.1))
  {
  }

  /** Where the value at `pos` starts, if it is not nested too deeply. */
  predicate StartsAt(s: string, pos: nat, start: nat, depth: nat, max: nat) {
    pos <= |s| && Space(s, pos) == start < |s| && depth <= max
  }

  lemma ValueStarts(s: string, pos: nat, depth: nat, max: nat)
    requires pos <= |s| && ParseValue(s, pos, depth, max).Ok?
    ensures StartsAt(s, pos, Space(s, pos), depth, max)
  {
  }

  lemma ValueOfString(s: string, pos: nat, start: nat, depth: nat, max: nat)
    requires StartsAt(s, pos, start, depth, max) && s[start] == '"'
    ensures
      var text := ParseString(s, start);
      ParseValue(s, pos, depth, max) == if text.Err? then Err(text.error) else Ok((Text(text.value.0), text.value.1))
  {
    hide ParseString, ParseItems, ParseFields, ParseNumber, ParseWord, Space;
  }

  lemma ValueOfList(s: string, pos: nat, start: nat, depth: nat, max: nat)
    requires StartsAt(s, pos, start, depth, max) && s[start] == '['
    ensures
      var first := Space(s, start + 1);
      ParseValue(s, pos, depth, max) ==
        if Has(s, first, ']') then Ok((Array([]), first + 1)) else
          var items := ParseItems(s, first, depth, max);
          if items.Err? then Err(items.error) else Ok((Array(items.value.0), items.value.1))
  {
    hide ParseString, ParseItems, ParseFields, ParseNumber, ParseWord, Space;
  }

  lemma ValueOfObject(s: string, pos: nat, start: nat, depth: nat, max: nat)
    requires StartsAt(s, pos, start, depth, max) && s[start] == '{'
    ensures
      var first := Space(s, start + 1);
      ParseValue(s, pos, depth, max) ==
        if Has(s, first, '}') then Ok((Object(map[]), first + 1)) else
          var fields := ParseFields(s, first, depth, max, map[]);
          if fields.Err? then Err(fields.error) else Ok((Object(fields.value.0), fields.value.1))
  {
    hide ParseString, ParseItems, ParseFields, ParseNumber, ParseWord, Space;
  }

  lemma ValueOfNumber(s: string, pos: nat, start: nat, depth: nat, max: nat)
    requires StartsAt(s, pos, start, depth, max) && (s[start] == '-' || IntegralTokens.IsDigit(s[start]))
    ensures ParseValue(s, pos, depth, max) == ParseNumber(s, start)
  {
    hide ParseString, ParseItems, ParseFields, ParseNumber, ParseWord, Space;
  }

  lemma ValueOfWord(s: string, pos: nat, start: nat, depth: nat, max: nat)
    requires StartsAt(s, pos, start, depth, max)
    ensures s[start] == 't' ==> ParseValue(s, pos, depth, max) == ParseWord(s, start, "true", Boolean(true))
    ensures s[start] == 'f' ==> ParseValue(s, pos, depth, max) == ParseWord(s, start, "false", Boolean(false))
    ensures s[start] == 'n' ==> ParseValue(s, pos, depth, max) == ParseWord(s, start, "null", Null)
    ensures s[start] !in {'"', '[', '{', 't', 'f', 'n', '-'} && !IntegralTokens.IsDigit(s[start]) ==>
      ParseValue(s, pos, depth, max) == Err(Syntax)
  {
    hide ParseString, ParseItems, ParseFields, ParseNumber, ParseWord, Space;
  }

  // ---- Space in front is skipped ----

  lemma {:induction false} SpaceAgain(s: string, pos: nat)
    requires pos <= |s|
    ensures Space(s, Space(s, pos)) == Space(s, pos)
    decreases |s| - pos
  {
    if pos < |s| && IsSpace(s[pos]) {
      SpaceAgain(s, pos + 1);
    }
  }

  lemma ValueSkips(s: string, pos: nat, depth: nat, max: nat)
    requires pos <= |s|
    ensures ParseValue(s, Space(s, pos), depth, max) == ParseValue(s, pos, depth, max)
  {
    hide ParseString, ParseItems, ParseFields, ParseNumber, ParseWord, Space;
    SpaceAgain(s, pos);
  }

  lemma ItemsSkip(s: string, pos: nat, depth: nat, max: nat)
    requires pos <= |s|
    ensures ParseItems(s, Space(s, pos), depth, max) == ParseItems(s, pos, depth, max)
  {
    hide *;
    ValueSkips(s, pos, depth + 1, max);
    ItemsUnfold(s, pos, depth, max);
    ItemsUnfold(s, Space(s, pos), depth, max);
  }

  lemma StringSkips(s: string, pos: nat)
    requires pos <= |s|
    ensures ParseString(s, Space(s, pos)) == ParseString(s, pos)
  {
    hide StringTail, Space;
    SpaceAgain(s, pos);
  }

  lemma FieldsSkip(s: string, pos: nat, depth: nat, max: nat, seen: map<string, Value>)
    requires pos <= |s|
    ensures ParseFields(s, Space(s, pos), depth, max, seen) == ParseFields(s, pos, depth, max, seen)
  {
    hide *;
    StringSkips(s, pos);
    MemberUnfold(s, pos, depth, max, seen);
    MemberUnfold(s, Space(s, pos), depth, max, seen);
    FieldsUnfold(s, pos, depth, max, seen);
    FieldsUnfold(s, Space(s, pos), depth, max, seen);
  }

  /** A whole document. */
  function ParseDocument(s: string, max: nat): Result<Value, JsonError> {
    var v := ParseValue(s, 0, 0, max);
    if v.Err? then Err(v.error)
    else if Space(s, v.value.1) != |s| then Err(Syntax)
    else Ok(v.value.0)
  }
}
