// The grammar of JSON text and what its texts mean (RFC 8259), independent of any reader.

module JsonGrammar {
  import opened Wrappers
  import IntegralTokens
  import opened Json
  import opened JsonParser

  // ---- Trees that keep every character of the text ----

  /** One character of a string literal: itself, `\n` and the like, `\uXXXX`, or two of those. */
  datatype Piece = Plain(c: char) | Short(mark: char) | Code(digits: string) | Pair(high: string, low: string)

  datatype Exponent = Exponent(mark: char, sign: string, digits: string)

  datatype Numeral = Numeral(negative: bool, whole: string, fraction: Option<string>, exponent: Option<Exponent>)

  /** A value and the space before it. */
  datatype Node = Node(space: string, form: Form)

  /** The `gap` of an empty list or object is the space between its brackets. */
  datatype Form =
    | NullWord
    | TrueWord
    | FalseWord
    | Number(numeral: Numeral)
    | Quote(pieces: seq<Piece>)
    | NoItems(gap: string)
    | List(items: Items)
    | NoFields(gap: string)
    | Record(fields: Fields)

  /** Items with the space after each. */
  datatype Items = LastItem(item: Node, gap: string) | NextItem(item: Node, gap: string, rest: Items)

  /** A key with the space before and after it. */
  datatype Key = Key(before: string, pieces: seq<Piece>, after: string)

  datatype Fields =
    | LastField(key: Key, value: Node, gap: string)
    | NextField(key: Key, value: Node, gap: string, rest: Fields)

  // ---- Spelling ----

  function SpellPiece(p: Piece): string {
    match p
    case Plain(c) => [c]
    case Short(mark) => ['\\', mark]
    case Code(digits) => "\\u" + digits
    case Pair(high, low) => "\\u" + (high + ("\\u" + low))
  }

  function SpellPieces(ps: seq<Piece>): string {
    if ps == [] then "" else SpellPiece(ps[0]) + SpellPieces(ps[1..])
  }

  function SpellQuote(ps: seq<Piece>): string {
    "\"" + (SpellPieces(ps) + "\"")
  }

  function SpellSign(negative: bool): string {
    if negative then "-" else ""
  }

  function SpellFraction(fraction: Option<string>): string {
    if fraction.Some? then "." + fraction.value else ""
  }

  function SpellExponent(exponent: Option<Exponent>): string {
    if exponent.Some? then [exponent.value.mark] + (exponent.value.sign + exponent.value.digits) else ""
  }

  function SpellMantissa(n: Numeral): string {
    SpellSign(n.negative) + (n.whole + SpellFraction(n.fraction))
  }

  function SpellNumeral(n: Numeral): string {
    SpellMantissa(n) + SpellExponent(n.exponent)
  }

  function Spell(n: Node): string {
    n.space + SpellForm(n.form)
  }

  function SpellForm(f: Form): string {
    match f
    case NullWord => "null"
    case TrueWord => "true"
    case FalseWord => "false"
    case Number(n) => SpellNumeral(n)
    case Quote(ps) => SpellQuote(ps)
    case NoItems(gap) => "[" + (gap + "]")
    case List(items) => "[" + SpellItems(items)
    case NoFields(gap) => "{" + (gap + "}")
    case Record(fields) => "{" + SpellFields(fields)
  }

  function SpellItems(items: Items): string {
    match items
    case LastItem(item, gap) => Spell(item) + (gap + "]")
    case NextItem(item, gap, rest) => Spell(item) + (gap + ("," + SpellItems(rest)))
  }

  function SpellKey(k: Key): string {
    k.before + (SpellQuote(k.pieces) + (k.after + ":"))
  }

  function SpellFields(fields: Fields): string {
    match fields
    case LastField(key, value, gap) => SpellKey(key) + (Spell(value) + (gap + "}"))
    case NextField(key, value, gap, rest) => SpellKey(key) + (Spell(value) + (gap + ("," + SpellFields(rest))))
  }

  // ---- Which trees are texts ----

  predicate AllSpace(s: string) {
    forall i :: 0 <= i < |s| ==> IsSpace(s[i])
  }

  predicate HexDigits(s: string) {
    |s| == 4 && forall i :: 0 <= i < |s| ==> HexValue(s[i]).Some?
  }

  function HexFrom(n: nat, s: string): nat
    requires forall i :: 0 <= i < |s| ==> HexValue(s[i]).Some?
    decreases |s|
  {
    if s == "" then n else HexFrom(16 * n + HexValue(s[0]).value, s[1..])
  }

  lemma {:induction false} HexBound(n: nat, digits: string)
    requires forall i :: 0 <= i < |digits| ==> HexValue(digits[i]).Some?
    ensures |digits| == 1 ==> HexFrom(n, digits) <= 16 * n + 15
    ensures |digits| == 2 ==> HexFrom(n, digits) <= 256 * n + 255
    ensures |digits| == 3 ==> HexFrom(n, digits) <= 4096 * n + 4095
    ensures |digits| == 4 ==> HexFrom(n, digits) <= 65536 * n + 65535
    decreases |digits|
  {
    if digits != "" {
      HexBound(16 * n + HexValue(digits[0]).value, digits[1..]);
    }
  }

  /** The number that hexadecimal digits denote. */
  function HexNumber(s: string): (n: nat)
    requires HexDigits(s)
    ensures n <= 0xFFFF
  {
    HexBound(0, s);
    HexFrom(0, s)
  }

  predicate HighSurrogate(n: nat) {
    0xD800 <= n <= 0xDBFF
  }

  predicate LowSurrogate(n: nat) {
    0xDC00 <= n <= 0xDFFF
  }

  predicate GoodPiece(p: Piece) {
    match p
    case Plain(c) => c as int >= 32 && c != '"' && c != '\\'
    case Short(mark) => Unescape(mark).Some?
    case Code(digits) =>
      HexDigits(digits) && !HighSurrogate(HexNumber(digits)) && !LowSurrogate(HexNumber(digits))
    case Pair(high, low) =>
      HexDigits(high) && HexDigits(low) && HighSurrogate(HexNumber(high)) && LowSurrogate(HexNumber(low))
  }

  predicate GoodPieces(ps: seq<Piece>) {
    forall i :: 0 <= i < |ps| ==> GoodPiece(ps[i])
  }

  predicate GoodExponent(e: Exponent) {
    e.mark in {'e', 'E'} && e.sign in {"", "+", "-"} && e.digits != "" && IntegralTokens.AllDigits(e.digits)
  }

  /** No leading zeros, and no point or exponent without digits. */
  predicate WrittenNumeral(n: Numeral) {
    && n.whole != "" && IntegralTokens.AllDigits(n.whole) && (n.whole[0] == '0' ==> |n.whole| == 1)
    && (n.fraction.Some? ==> n.fraction.value != "" && IntegralTokens.AllDigits(n.fraction.value))
    && (n.exponent.Some? ==> GoodExponent(n.exponent.value))
  }

  function FractionDigits(n: Numeral): string {
    if n.fraction.Some? then n.fraction.value else ""
  }

  /** The digits of a number without sign and point. */
  function Significand(n: Numeral): nat
    requires WrittenNumeral(n)
  {
    IntegralTokens.NatOf(n.whole + FractionDigits(n))
  }

  /** The power of ten they are multiplied by. */
  function Power(n: Numeral): int
    requires WrittenNumeral(n)
  {
    (if n.exponent.None? then 0
     else IntegralTokens.Signed(n.exponent.value.sign == "-", IntegralTokens.NatOf(n.exponent.value.digits)))
    - |FractionDigits(n)|
  }

  /** Numbers that are integers, and safe ones. */
  predicate GoodNumeral(n: Numeral) {
    && WrittenNumeral(n)
    && IntegralTokens.IntegerValued(Significand(n), Power(n)) && IntegralTokens.Safe(Significand(n), Power(n))
  }

  predicate Good(n: Node) {
    AllSpace(n.space) && GoodForm(n.form)
  }

  predicate GoodForm(f: Form) {
    match f
    case NullWord => true
    case TrueWord => true
    case FalseWord => true
    case Number(n) => GoodNumeral(n)
    case Quote(ps) => GoodPieces(ps)
    case NoItems(gap) => AllSpace(gap)
    case List(items) => GoodItems(items)
    case NoFields(gap) => AllSpace(gap)
    case Record(fields) => GoodFields(fields, {})
  }

  predicate GoodItems(items: Items) {
    Good(items.item) && AllSpace(items.gap) && (items.NextItem? ==> GoodItems(items.rest))
  }

  predicate GoodKey(k: Key) {
    AllSpace(k.before) && GoodPieces(k.pieces) && AllSpace(k.after)
  }

  /** Keys are compared by what they mean, and none occurs twice. */
  predicate GoodFields(fields: Fields, seen: set<string>) {
    && GoodKey(fields.key) && Characters(fields.key.pieces) !in seen
    && Good(fields.value) && AllSpace(fields.gap)
    && (fields.NextField? ==> GoodFields(fields.rest, seen + {Characters(fields.key.pieces)}))
  }

  // ---- What they mean ----

  function Character(p: Piece): char
    requires GoodPiece(p)
  {
    match p
    case Plain(c) => c
    case Short(mark) => Unescape(mark).value
    case Code(digits) => HexNumber(digits) as char
    case Pair(high, low) => Joined(HexNumber(high), HexNumber(low))
  }

  /** The character outside the basic plane that two code units denote. */
  function Joined(high: nat, low: nat): char
    requires HighSurrogate(high) && LowSurrogate(low)
  {
    (0x10000 + (high - 0xD800) * 0x400 + (low - 0xDC00)) as char
  }

  function Characters(ps: seq<Piece>): string
    requires GoodPieces(ps)
  {
    if ps == [] then "" else [Character(ps[0])] + Characters(ps[1..])
  }

  function NumberOf(n: Numeral): int
    requires GoodNumeral(n)
  {
    IntegralTokens.Signed(n.negative, IntegralTokens.Magnitude(Significand(n), Power(n)))
  }

  function Meaning(n: Node): Value
    requires Good(n)
  {
    FormMeaning(n.form)
  }

  function FormMeaning(f: Form): Value
    requires GoodForm(f)
  {
    match f
    case NullWord => Null
    case TrueWord => Boolean(true)
    case FalseWord => Boolean(false)
    case Number(n) => Integer(NumberOf(n))
    case Quote(ps) => Text(Characters(ps))
    case NoItems(_) => Array([])
    case List(items) => Array(ItemsMeaning(items))
    case NoFields(_) => Object(map[])
    case Record(fields) => Object(FieldsMeaning(fields, {}))
  }

  function ItemsMeaning(items: Items): seq<Value>
    requires GoodItems(items)
  {
    [Meaning(items.item)] + if items.NextItem? then ItemsMeaning(items.rest) else []
  }

  function FieldsMeaning(fields: Fields, seen: set<string>): map<string, Value>
    requires GoodFields(fields, seen)
  {
    var key := Characters(fields.key.pieces);
    map[key := Meaning(fields.value)] +
    if fields.NextField? then FieldsMeaning(fields.rest, seen + {key}) else map[]
  }

  // ---- How deeply they nest ----

  function Deeper(a: nat, b: nat): nat {
    if a < b then b else a
  }

  /** Levels of brackets around the innermost value; empty brackets hold none. */
  function Nesting(n: Node): nat {
    match n.form
    case List(items) => 1 + ItemsNesting(items)
    case Record(fields) => 1 + FieldsNesting(fields)
    case _ => 0
  }

  function ItemsNesting(items: Items): nat {
    Deeper(Nesting(items.item), if items.NextItem? then ItemsNesting(items.rest) else 0)
  }

  function FieldsNesting(fields: Fields): nat {
    Deeper(Nesting(fields.value), if fields.NextField? then FieldsNesting(fields.rest) else 0)
  }

  /** A text of the grammar that means `v` and nests no deeper than allowed. */
  ghost predicate Denotes(s: string, v: Value, max: nat) {
    exists n, tail :: Writes(s, n, tail) && Meaning(n) == v && Nesting(n) <= max
  }

  /** A value and the space after it make up the text. */
  predicate Writes(s: string, n: Node, tail: string) {
    Good(n) && AllSpace(tail) && s == Spell(n) + tail
  }
}
