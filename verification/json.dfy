// Canonical JSON text (crates/htlk-executable/src/json.rs): sections 3.2.2 and 3.2.3 of RFC 8785.

module Json {
  import opened IntegralTokens

  /** Native values that JSON documents hold; characters are Unicode scalar values. */
  datatype Value =
    | Null
    | Boolean(truth: bool)
    | Integer(number: int)
    | Text(text: string)
    | Bytes(bytes: seq<nat>)
    | Array(items: seq<Value>)
    | Object(fields: map<string, Value>)

  // ---- The order of object keys: by UTF-16 code units ----

  /** The code units of one character. */
  function Units(c: char): seq<nat> {
    var n := c as int;
    if n < 0x10000 then [n] else [0xD800 + (n - 0x10000) / 0x400, 0xDC00 + (n - 0x10000) % 0x400]
  }

  function Utf16(s: string): seq<nat> {
    if s == "" then [] else Units(s[0]) + Utf16(s[1..])
  }

  predicate Before(a: seq<nat>, b: seq<nat>) {
    b != [] && (a == [] || a[0] < b[0] || (a[0] == b[0] && Before(a[1..], b[1..])))
  }

  predicate KeyLess(a: string, b: string) {
    Before(Utf16(a), Utf16(b))
  }

  lemma {:induction false} BeforeTotal(a: seq<nat>, b: seq<nat>)
    ensures Before(a, b) || Before(b, a) || a == b
    ensures !(Before(a, b) && Before(b, a))
  {
    if a != [] && b != [] && a[0] == b[0] {
      BeforeTotal(a[1..], b[1..]);
      assert a == [a[0]] + a[1..] && b == [b[0]] + b[1..];
    }
  }

  lemma {:induction false} BeforeTransitive(a: seq<nat>, b: seq<nat>, c: seq<nat>)
    requires Before(a, b) && Before(b, c)
    ensures Before(a, c)
  {
    if a != [] && a[0] == b[0] == c[0] {
      BeforeTransitive(a[1..], b[1..], c[1..]);
    }
  }

  /** Different texts have different code units. */
  lemma {:induction false} Utf16Injective(a: string, b: string)
    requires Utf16(a) == Utf16(b)
    ensures a == b
  {
    if a != "" && b != "" {
      UnitsDecide(a[0], b[0], Utf16(a[1..]), Utf16(b[1..]));
      Utf16Injective(a[1..], b[1..]);
      assert a == [a[0]] + a[1..] && b == [b[0]] + b[1..];
    }
  }

  lemma UnitsDecide(a: char, b: char, restA: seq<nat>, restB: seq<nat>)
    requires Units(a) + restA == Units(b) + restB
    ensures a == b && restA == restB
  {
    var x, y := Units(a) + restA, Units(b) + restB;
    assert x[0] == y[0] && Units(a)[0] == x[0] && Units(b)[0] == y[0];
    assert |Units(a)| == |Units(b)|;
    assert x[..|Units(a)|] == Units(a) && y[..|Units(b)|] == Units(b);
    assert restA == x[|Units(a)|..] && restB == y[|Units(b)|..];
  }

  predicate IsLeast(keys: set<string>, k: string) {
    k in keys && forall j :: j in keys && j != k ==> KeyLess(k, j)
  }

  lemma {:induction false} LeastExists(keys: set<string>) returns (k: string)
    requires keys != {}
    ensures IsLeast(keys, k)
  {
    var x :| x in keys;
    if keys == {x} {
      k := x;
    } else {
      var rest := keys - {x};
      assert keys == rest + {x};
      var y := LeastExists(rest);
      BeforeTotal(Utf16(x), Utf16(y));
      if KeyLess(x, y) {
        k := x;
        forall j | j in keys && j != x
          ensures KeyLess(x, j)
        {
          if j != y {
            BeforeTransitive(Utf16(x), Utf16(y), Utf16(j));
          }
        }
      } else {
        k := y;
        if !KeyLess(y, x) {
          Utf16Injective(x, y);
        }
      }
    }
  }

  lemma LeastUnique(keys: set<string>, a: string, b: string)
    requires IsLeast(keys, a) && IsLeast(keys, b)
    ensures a == b
  {
    BeforeTotal(Utf16(a), Utf16(b));
  }

  /** The keys of an object in the order they are written. */
  ghost function Ordered(keys: set<string>): seq<string> {
    if keys == {} then [] else
      LeastFound(keys);
      var k :| IsLeast(keys, k);
      [k] + Ordered(keys - {k})
  }

  lemma LeastFound(keys: set<string>)
    requires keys != {}
    ensures exists k :: IsLeast(keys, k)
  {
    var k := LeastExists(keys);
  }

  lemma OrderedStep(keys: set<string>, k: string)
    requires IsLeast(keys, k)
    ensures Ordered(keys) == [k] + Ordered(keys - {k})
  {
    LeastFound(keys);
    var least :| IsLeast(keys, least) && Ordered(keys) == [least] + Ordered(keys - {least});
    LeastUnique(keys, k, least);
  }

  /** Exactly the given keys, each once, by increasing UTF-16 code units. */
  lemma {:induction false} OrderedIsSorted(keys: set<string>)
    ensures forall k :: k in Ordered(keys) <==> k in keys
    ensures forall i, j :: 0 <= i < j < |Ordered(keys)| ==> KeyLess(Ordered(keys)[i], Ordered(keys)[j])
  {
    if keys != {} {
      LeastFound(keys);
      var k :| IsLeast(keys, k);
      OrderedStep(keys, k);
      OrderedIsSorted(keys - {k});
    }
  }

  /** Sorts keys by repeatedly taking the least. */
  method SortKeys(keys: set<string>) returns (sorted: seq<string>)
    ensures sorted == Ordered(keys)
  {
    sorted := [];
    var rest := keys;
    while rest != {}
      invariant Ordered(keys) == sorted + Ordered(rest)
      decreases rest
    {
      var k := Least(rest);
      OrderedStep(rest, k);
      sorted := sorted + [k];
      rest := rest - {k};
    }
  }

  method Least(keys: set<string>) returns (k: string)
    requires keys != {}
    ensures IsLeast(keys, k)
  {
    k :| k in keys;
    var rest := keys - {k};
    while rest != {}
      invariant rest <= keys && k in keys && k !in rest
      invariant forall j :: j in keys && j !in rest && j != k ==> KeyLess(k, j)
      decreases rest
    {
      var j :| j in rest;
      if KeyLess(j, k) {
        LessThanAll(keys - rest, j, k);
        k := j;
      } else {
        BeforeTotal(Utf16(k), Utf16(j));
        if !KeyLess(k, j) {
          Utf16Injective(k, j);
        }
      }
      rest := rest - {j};
    }
  }

  lemma LessThanAll(seen: set<string>, j: string, k: string)
    requires KeyLess(j, k) && forall x :: x in seen && x != k ==> KeyLess(k, x)
    ensures forall x :: x in seen ==> KeyLess(j, x)
  {
    forall x | x in seen && x != k
      ensures KeyLess(j, x)
    {
      BeforeTransitive(Utf16(j), Utf16(k), Utf16(x));
    }
  }

  // ---- Printing ----

  const HEX: string := "0123456789abcdef"

  /** A character inside a string literal. */
  function Escape(c: char): string {
    if c == '"' then "\\\""
    else if c == '\\' then "\\\\"
    else if c as int == 8 then "\\b"
    else if c as int == 12 then "\\f"
    else if c == '\n' then "\\n"
    else if c == '\r' then "\\r"
    else if c == '\t' then "\\t"
    else if c as int < 32 then "\\u00" + [HEX[c as int / 16], HEX[c as int % 16]]
    else [c]
  }

  function Escaped(s: string): string {
    if s == "" then "" else Escape(s[0]) + Escaped(s[1..])
  }

  function Quoted(s: string): string {
    "\"" + Escaped(s) + "\""
  }

  function DigitChar(n: nat): char
    requires n < 10
  {
    n as char + '0'
  }

  /** The decimal digits of a number. */
  function Decimal(n: nat): string {
    if n < 10 then [DigitChar(n)] else Decimal(n / 10) + [DigitChar(n % 10)]
  }

  function Signed(n: int): string {
    if n < 0 then "-" + Decimal(-n) else Decimal(n)
  }

  ghost function Print(v: Value): string
    decreases v, 0
  {
    match v
    case Null => "null"
    case Boolean(b) => if b then "true" else "false"
    case Integer(n) => Signed(n)
    case Text(s) => Quoted(s)
    case Bytes(_) => ""
    case Array(items) => "[" + PrintItems(items) + "]"
    case Object(fields) => "{" + PrintFields(v, Ordered(fields.Keys)) + "}"
  }

  ghost function PrintItems(items: seq<Value>): string
    decreases items
  {
    if items == [] then "" else
      Print(items[0]) + if |items| == 1 then "" else "," + PrintItems(items[1..])
  }

  ghost function PrintFields(v: Value, keys: seq<string>): string
    requires v.Object?
    decreases v, 0, |keys|
  {
    if keys == [] then "" else
      Quoted(keys[0]) + ":" + (if keys[0] in v.fields then Print(v.fields[keys[0]]) else "")
        + if |keys| == 1 then "" else "," + PrintFields(v, keys[1..])
  }

  /** What can be written: safe integers, no byte strings, nesting within `room`. */
  ghost predicate Printable(v: Value, room: int)
    decreases v
  {
    && room >= 0 && !v.Bytes? && (v.Integer? ==> 0 - SAFE <= v.number <= SAFE)
    && (v.Array? ==> forall i :: 0 <= i < |v.items| ==> Printable(v.items[i], room - 1))
    && (v.Object? ==> forall k :: k in v.fields ==> Printable(v.fields[k], room - 1))
  }
}
