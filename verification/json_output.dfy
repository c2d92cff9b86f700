// Writing canonical JSON within limits (crates/htlk-executable/src/json.rs).

module JsonOutput {
  import opened Wrappers
  import IntegralTokens
  import opened Json
  import opened JsonParser
  import opened JsonRoundTrip

  /** Size and nesting ceilings.  Sizes are of the UTF-8 encoding. */
  datatype Limits = Limits(maxBytes: nat, maxDepth: nat)

  /** UTF-8 bytes of one character. */
  function CharWidth(c: char): nat {
    var n := c as int;
    if n < 0x80 then 1 else if n < 0x800 then 2 else if n < 0x10000 then 3 else 4
  }

  function Width(s: string): nat {
    if s == "" then 0 else Width(s[..|s| - 1]) + CharWidth(s[|s| - 1])
  }

  lemma {:induction false} WidthAppend(a: string, b: string)
    ensures Width(a + b) == Width(a) + Width(b)
  {
    if b == "" {
      assert a + b == a;
    } else {
      WidthAppend(a, b[..|b| - 1]);
      assert (a + b)[..|a + b| - 1] == a + b[..|b| - 1];
    }
  }

  lemma {:induction false} WidthLength(s: string)
    ensures |s| <= Width(s)
  {
    if s != "" {
      WidthLength(s[..|s| - 1]);
    }
  }

  /** A write succeeds exactly when it is allowed and the whole text fits. */
  ghost predicate Wrote(r: Option<JsonError>, before: string, now: string, text: string, maximum: nat, allowed: bool) {
    (r.None? <==> allowed && Width(before + text) <= maximum) && (r.None? ==> now == before + text)
  }

  lemma NotAllowed(e: JsonError, before: string, now: string, text: string, maximum: nat)
    ensures Wrote(Some(e), before, now, text, maximum, false)
  {
  }

  /** Text that does not fit fails whatever follows it. */
  lemma Stopped(
      start: string, done: string, piece: string, tail: string, r: Option<JsonError>, now: string, maximum: nat,
      could: bool, allowed: bool)
    requires r.Some? && Wrote(r, start + done, now, piece, maximum, could) && (allowed ==> could)
    ensures Wrote(r, start, now, done + (piece + tail), maximum, allowed)
  {
    assert start + (done + (piece + tail)) == (start + done + piece) + tail;
    WidthAppend(start + done + piece, tail);
  }

  lemma Continued(
      start: string, done: string, piece: string, r: Option<JsonError>, now: string, maximum: nat, could: bool)
    requires r.None? && Wrote(r, start + done, now, piece, maximum, could)
    ensures now == start + (done + piece) && could && Width(start + (done + piece)) <= maximum
  {
  }

  lemma Finished(start: string, now: string, text: string, maximum: nat)
    requires now == start + text && Width(start + text) <= maximum
    ensures Wrote(None, start, now, text, maximum, true)
  {
  }

  // ---- What is still to be written ----

  function Separator(i: nat): string {
    if i == 0 then "" else ","
  }

  ghost function RestItems(items: seq<Value>, i: nat): string
    requires i <= |items|
    decreases |items| - i
  {
    if i == |items| then "" else Separator(i) + (Print(items[i]) + RestItems(items, i + 1))
  }

  lemma {:induction false} RestItemsAre(items: seq<Value>, i: nat)
    requires i < |items|
    ensures RestItems(items, i) == Separator(i) + PrintItems(items[i..])
    decreases |items| - i
  {
    PrintItemsStep(items[i..]);
    if i + 1 < |items| {
      RestItemsAre(items, i + 1);
      assert items[i..][1..] == items[i + 1..];
    } else {
      assert Print(items[i]) + "" == Print(items[i]);
    }
  }

  ghost function RestFields(v: Value, keys: seq<string>, i: nat): string
    requires v.Object? && i <= |keys| && forall k :: k in keys ==> k in v.fields
    decreases |keys| - i
  {
    if i == |keys| then "" else
      Separator(i) + (Quoted(keys[i]) + (":" + (Print(v.fields[keys[i]]) + RestFields(v, keys, i + 1))))
  }

  lemma {:induction false} RestFieldsAre(v: Value, keys: seq<string>, i: nat)
    requires v.Object? && i < |keys| && forall k :: k in keys ==> k in v.fields
    ensures RestFields(v, keys, i) == Separator(i) + PrintFields(v, keys[i..])
    decreases |keys| - i
  {
    PrintFieldsStep(v, keys[i..]);
    if i + 1 < |keys| {
      RestFieldsAre(v, keys, i + 1);
      assert keys[i..][1..] == keys[i + 1..];
    } else {
      assert Print(v.fields[keys[i]]) + "" == Print(v.fields[keys[i]]);
    }
  }

  lemma PrintFieldsStep(v: Value, keys: seq<string>)
    requires v.Object? && keys != [] && keys[0] in v.fields
    ensures |keys| == 1 ==> PrintFields(v, keys) == Quoted(keys[0]) + (":" + Print(v.fields[keys[0]]))
    ensures |keys| > 1 ==>
      PrintFields(v, keys) == Quoted(keys[0]) + (":" + (Print(v.fields[keys[0]]) + ("," + PrintFields(v, keys[1..]))))
  {
    hide *;
    FieldsUnfold(v, keys);
    var a, b := Quoted(keys[0]), Print(v.fields[keys[0]]);
    if |keys| == 1 {
      Grouped(a, ":", b, "");
    } else {
      Grouped(a, ":", b, "," + PrintFields(v, keys[1..]));
    }
  }

  lemma FieldsUnfold(v: Value, keys: seq<string>)
    requires v.Object? && keys != [] && keys[0] in v.fields
    ensures PrintFields(v, keys) == Quoted(keys[0]) + ":" + Print(v.fields[keys[0]])
      + if |keys| == 1 then "" else "," + PrintFields(v, keys[1..])
  {
  }

  lemma Grouped(a: string, b: string, c: string, d: string)
    ensures a + b + c + d == a + (b + (c + d))
    ensures d == "" ==> c + d == c
  {
  }

  // ---- The writer ----

  lemma PrintableIs(v: Value, room: int)
    ensures room < 0 || v.Bytes? ==> !Printable(v, room)
    ensures v.Integer? && !(0 - IntegralTokens.SAFE <= v.number <= IntegralTokens.SAFE) ==> !Printable(v, room)
    ensures room >= 0 && (v.Null? || v.Boolean? || v.Text?) ==> Printable(v, room)
    ensures room >= 0 && v.Integer? && 0 - IntegralTokens.SAFE <= v.number <= IntegralTokens.SAFE ==> Printable(v, room)
  {
  }

  lemma PrintableList(v: Value, room: int)
    requires v.Array? && room >= 0
    ensures Printable(v, room) <==> AllPrintable(v.items, room - 1)
  {
  }

  lemma PrintableAt(items: seq<Value>, i: nat, room: int)
    requires i < |items|
    ensures AllPrintable(items, room) ==> Printable(items[i], room)
    ensures AllPrintable(items[..i], room) && Printable(items[i], room) ==> AllPrintable(items[..i + 1], room)
  {
  }

  ghost predicate FieldsPrintable(v: Value, keys: seq<string>, room: int)
    requires v.Object?
  {
    forall k :: k in keys && k in v.fields ==> Printable(v.fields[k], room)
  }

  lemma PrintableObject(v: Value, keys: seq<string>, room: int)
    requires v.Object? && room >= 0 && keys == Ordered(v.fields.Keys)
    ensures Printable(v, room) <==> FieldsPrintable(v, keys, room - 1)
    ensures keys != [] && room == 0 ==> !Printable(v, room)
    ensures forall k :: k in keys ==> k in v.fields
  {
    OrderedIsSorted(v.fields.Keys);
    if keys != [] && room == 0 {
      assert keys[0] in v.fields;
      assert !Printable(v.fields[keys[0]], room - 1);
    }
  }

  lemma PrintableField(v: Value, keys: seq<string>, i: nat, room: int)
    requires v.Object? && i < |keys| && keys[i] in v.fields
    ensures FieldsPrintable(v, keys, room) ==> Printable(v.fields[keys[i]], room)
    ensures FieldsPrintable(v, keys[..i], room) && Printable(v.fields[keys[i]], room) ==>
      FieldsPrintable(v, keys[..i + 1], room)
  {
  }

  /** The text of a list or object is a mark, the rest, and a mark. */
  lemma ListText(v: Value)
    requires v.Array?
    ensures Print(v) == "" + ("[" + (RestItems(v.items, 0) + "]"))
  {
    PrintIs(v);
    if v.items != [] {
      RestItemsAre(v.items, 0);
      assert v.items[0..] == v.items;
      assert "" + PrintItems(v.items) == PrintItems(v.items);
    }
  }

  lemma ObjectText(v: Value, keys: seq<string>)
    requires v.Object? && keys == Ordered(v.fields.Keys) && forall k :: k in keys ==> k in v.fields
    ensures Print(v) == "" + ("{" + (RestFields(v, keys, 0) + "}"))
  {
    PrintIs(v);
    if keys != [] {
      RestFieldsAre(v, keys, 0);
      assert keys[0..] == keys;
      assert "" + PrintFields(v, keys) == PrintFields(v, keys);
    }
  }

  lemma ItemsNext(items: seq<Value>, i: nat, close: string)
    requires i < |items|
    ensures RestItems(items, i) + close == Separator(i) + (Print(items[i]) + (RestItems(items, i + 1) + close))
  {
  }

  lemma FieldsNext(v: Value, keys: seq<string>, i: nat, close: string)
    requires v.Object? && i < |keys| && forall k :: k in keys ==> k in v.fields
    ensures RestFields(v, keys, i) + close
      == Separator(i) + (Quoted(keys[i]) + (":" + (Print(v.fields[keys[i]]) + (RestFields(v, keys, i + 1) + close))))
  {
    FiveParts(Separator(i), Quoted(keys[i]), ":", Print(v.fields[keys[i]]), RestFields(v, keys, i + 1), close);
  }

  lemma FiveParts(a: string, b: string, c: string, d: string, e: string, f: string)
    ensures (a + (b + (c + (d + e)))) + f == a + (b + (c + (d + (e + f))))
  {
  }

  lemma Moved(done: string, piece: string, rest: string)
    ensures done + (piece + rest) == (done + piece) + rest
  {
  }

  class Output {
    const maximum: nat
    const maxDepth: nat
    var bytes: string

    constructor (limits: Limits)
      ensures maximum == limits.maxBytes && maxDepth == limits.maxDepth && bytes == ""
    {
      maximum, maxDepth, bytes := limits.maxBytes, limits.maxDepth, "";
    }

    method Append(text: string) returns (r: Option<JsonError>)
      modifies this
      ensures Wrote(r, old(bytes), bytes, text, maximum, true)
    {
      if Width(bytes + text) > maximum {
        return Some(TooLong);
      }
      bytes := bytes + text;
      return None;
    }

    /** One value: its canonical text, if it can be written within the limits. */
    method WriteValue(v: Value, depth: nat) returns (r: Option<JsonError>)
      modifies this
      decreases v, 3
      ensures Wrote(r, old(bytes), bytes, Print(v), maximum, Printable(v, maxDepth - depth))
    {
      hide *;
      PrintIs(v);
      PrintableIs(v, maxDepth - depth);
      if depth > maxDepth {
        r := Some(TooDeep);
        NotAllowed(TooDeep, bytes, bytes, Print(v), maximum);
        return;
      }
      if v.Null? {
        r := Append("null");
      } else if v.Boolean? {
        r := Append(if v.truth then "true" else "false");
      } else if v.Text? {
        r := Append(Quoted(v.text));
      } else if v.Bytes? {
        r := Some(Unsupported);
        NotAllowed(Unsupported, bytes, bytes, Print(v), maximum);
      } else if v.Integer? {
        if !(0 - IntegralTokens.SAFE <= v.number <= IntegralTokens.SAFE) {
          r := Some(UnsafeNumber);
          NotAllowed(UnsafeNumber, bytes, bytes, Print(v), maximum);
          return;
        }
        r := Append(Signed(v.number));
      } else if v.Array? {
        r := WriteList(v, depth);
      } else {
        r := WriteObject(v, depth);
      }
    }

    /** One more piece of a text that started at `start`. */
    method Piece(text: string, ghost start: string, ghost done: string, ghost tail: string, ghost allowed: bool)
      returns (r: Option<JsonError>)
      requires bytes == start + done
      modifies this
      ensures r.Some? ==> Wrote(r, start, bytes, done + (text + tail), maximum, allowed)
      ensures r.None? ==> bytes == start + (done + text) && Width(start + (done + text)) <= maximum
    {
      hide *;
      r := Append(text);
      if r.Some? {
        Stopped(start, done, text, tail, r, bytes, maximum, true, allowed);
      } else {
        Continued(start, done, text, r, bytes, maximum, true);
      }
    }

    method WriteList(v: Value, depth: nat) returns (r: Option<JsonError>)
      requires v.Array? && depth <= maxDepth
      modifies this
      decreases v, 2
      ensures Wrote(r, old(bytes), bytes, Print(v), maximum, Printable(v, maxDepth - depth))
    {
      hide *;
      ghost var start, allowed, room := bytes, Printable(v, maxDepth - depth), maxDepth - depth - 1;
      ghost var done := "";
      ListText(v);
      PrintableList(v, maxDepth - depth);
      NonePrintable(v.items, room);
      assert start + "" == start;
      r := Piece("[", start, done, RestItems(v.items, 0) + "]", allowed);
      if r.Some? {
        return;
      }
      Moved(done, "[", RestItems(v.items, 0) + "]");
      done := done + "[";
      for i := 0 to |v.items|
        invariant bytes == start + done && Print(v) == done + (RestItems(v.items, i) + "]")
        invariant AllPrintable(v.items[..i], room)
      {
        ghost var tail := RestItems(v.items, i + 1) + "]";
        ItemsNext(v.items, i, "]");
        PrintableAt(v.items, i, room);
        Moved(done, Separator(i), Print(v.items[i]) + tail);
        if i != 0 {
          r := Piece(",", start, done, Print(v.items[i]) + tail, allowed);
          SeparatorIs(i);
          if r.Some? {
            return;
          }
        }
        SeparatorIs(i);
        assert i == 0 ==> done + "" == done;
        done := done + Separator(i);
        r := WriteValue(v.items[i], depth + 1);
        if r.Some? {
          Stopped(start, done, Print(v.items[i]), tail, r, bytes, maximum, Printable(v.items[i], room), allowed);
          return;
        }
        Continued(start, done, Print(v.items[i]), r, bytes, maximum, Printable(v.items[i], room));
        Moved(done, Print(v.items[i]), tail);
        done := done + Print(v.items[i]);
      }
      NoItemsLeft(v.items, done);
      r := Piece("]", start, done, "", allowed);
      if r.None? {
        assert v.items[..|v.items|] == v.items;
        Finished(start, bytes, done + "]", maximum);
      }
    }

    method WriteObject(v: Value, depth: nat) returns (r: Option<JsonError>)
      requires v.Object? && depth <= maxDepth
      modifies this
      decreases v, 2
      ensures Wrote(r, old(bytes), bytes, Print(v), maximum, Printable(v, maxDepth - depth))
    {
      hide *;
      ghost var start, allowed, room := bytes, Printable(v, maxDepth - depth), maxDepth - depth - 1;
      if Width(bytes) + |v.fields| > maximum {
        ManyFields(v, bytes, maximum, allowed);
        return Some(TooLong);
      }
      var keys := SortKeys(v.fields.Keys);
      PrintableObject(v, keys, maxDepth - depth);
      ghost var done := "";
      ObjectText(v, keys);
      NoFieldsPrintable(v, room);
      assert start + "" == start;
      r := Piece("{", start, done, RestFields(v, keys, 0) + "}", allowed);
      if r.Some? {
        return;
      }
      Moved(done, "{", RestFields(v, keys, 0) + "}");
      done := done + "{";
      for i := 0 to |keys|
        invariant bytes == start + done && Print(v) == done + (RestFields(v, keys, i) + "}")
        invariant FieldsPrintable(v, keys[..i], room)
      {
        if depth + 1 > maxDepth {
          NotAllowed(TooDeep, start, bytes, Print(v), maximum);
          return Some(TooDeep);
        }
        ghost var tail := RestFields(v, keys, i + 1) + "}";
        FieldsNext(v, keys, i, "}");
        PrintableField(v, keys, i, room);
        ghost var value := Print(v.fields[keys[i]]);
        ghost var member := Quoted(keys[i]) + (":" + (value + tail));
        Moved(done, Separator(i), member);
        if i != 0 {
          r := Piece(",", start, done, member, allowed);
          SeparatorIs(i);
          if r.Some? {
            return;
          }
        }
        SeparatorIs(i);
        assert i == 0 ==> done + "" == done;
        done := done + Separator(i);
        r := Piece(Quoted(keys[i]), start, done, ":" + (value + tail), allowed);
        if r.Some? {
          return;
        }
        Moved(done, Quoted(keys[i]), ":" + (value + tail));
        done := done + Quoted(keys[i]);
        r := Piece(":", start, done, value + tail, allowed);
        if r.Some? {
          return;
        }
        Moved(done, ":", value + tail);
        done := done + ":";
        r := WriteValue(v.fields[keys[i]], depth + 1);
        if r.Some? {
          Stopped(start, done, value, tail, r, bytes, maximum, Printable(v.fields[keys[i]], room), allowed);
          return;
        }
        Continued(start, done, value, r, bytes, maximum, Printable(v.fields[keys[i]], room));
        Moved(done, value, tail);
        done := done + value;
      }
      NoFieldsLeft(v, keys, done);
      r := Piece("}", start, done, "", allowed);
      if r.None? {
        assert keys[..|keys|] == keys;
        Finished(start, bytes, done + "}", maximum);
      }
    }
  }

  lemma SeparatorIs(i: nat)
    ensures Separator(i) == if i == 0 then "" else ","
  {
  }

  lemma NonePrintable(items: seq<Value>, room: int)
    ensures AllPrintable(items[..0], room)
  {
  }

  lemma NoFieldsPrintable(v: Value, room: int)
    requires v.Object?
    ensures FieldsPrintable(v, [], room)
  {
  }

  lemma NoItemsLeft(items: seq<Value>, done: string)
    ensures done + (RestItems(items, |items|) + "]") == done + "]" == done + ("]" + "")
  {
  }

  lemma NoFieldsLeft(v: Value, keys: seq<string>, done: string)
    requires v.Object? && forall k :: k in keys ==> k in v.fields
    ensures done + (RestFields(v, keys, |keys|) + "}") == done + "}" == done + ("}" + "")
  {
  }

  /** Every member takes at least one byte. */
  lemma ManyFields(v: Value, before: string, maximum: nat, allowed: bool)
    requires v.Object? && Width(before) + |v.fields| > maximum
    ensures Wrote(Some(TooLong), before, before, Print(v), maximum, allowed)
  {
    var keys := Ordered(v.fields.Keys);
    OrderedSize(v.fields.Keys);
    assert |v.fields.Keys| == |v.fields|;
    MembersLong(v, keys);
    assert |Print(v)| >= |PrintFields(v, keys)|;
    WidthLength(Print(v));
    WidthAppend(before, Print(v));
  }

  lemma {:induction false} OrderedSize(keys: set<string>)
    ensures |Ordered(keys)| == |keys|
  {
    if keys != {} {
      LeastFound(keys);
      var k :| IsLeast(keys, k);
      OrderedStep(keys, k);
      OrderedSize(keys - {k});
    }
  }

  lemma {:induction false} MembersLong(v: Value, keys: seq<string>)
    requires v.Object?
    ensures |PrintFields(v, keys)| >= |keys|
    decreases |keys|
  {
    if |keys| > 1 {
      MembersLong(v, keys[1..]);
    }
  }
}
