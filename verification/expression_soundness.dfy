// Everything the expression parser accepts is grammatical and is exactly what was written.

module ExpressionSoundness {
  import opened Wrappers
  import IntegralTokens
  import opened Syntax
  import opened ExpressionParser

  /** The tokens `s` stand at `pos`. */
  ghost predicate At(ts: seq<Token>, pos: nat, s: seq<Token>) {
    pos + |s| <= |ts| && ts[pos..pos + |s|] == s
  }

  /** The text of `c` runs from `pos` to `end`. */
  ghost predicate Reads(ts: seq<Token>, pos: nat, s: seq<Token>, end: nat) {
    end == pos + |s| && At(ts, pos, s)
  }

  /** No operator at `end` binds tightly enough to go on. */
  predicate Stops(ts: seq<Token>, end: nat, min: nat) {
    OpAt(ts, end).None? || Precedence(OpAt(ts, end).value) < min
  }

  lemma ReadsAppend(ts: seq<Token>, pos: nat, a: seq<Token>, mid: nat, b: seq<Token>, end: nat)
    requires Reads(ts, pos, a, mid) && Reads(ts, mid, b, end)
    ensures Reads(ts, pos, a + b, end)
  {
  }

  lemma ReadsOne(ts: seq<Token>, pos: nat, t: Token)
    requires pos < |ts| && ts[pos] == t
    ensures Reads(ts, pos, [t], pos + 1)
  {
  }

  lemma ReadsNone(ts: seq<Token>, pos: nat)
    requires pos <= |ts|
    ensures Reads(ts, pos, [], pos)
  {
  }

  lemma ReadsTwo(ts: seq<Token>, pos: nat, a: Token, b: Token)
    requires pos + 1 < |ts| && ts[pos] == a && ts[pos + 1] == b
    ensures Reads(ts, pos, [a, b], pos + 2)
  {
  }

  /** Punctuation is a symbol. */
  lemma IsMark(ts: seq<Token>, pos: nat, s: string)
    requires Lexed(ts) && Is(ts, pos, s) && !WordText(s)
    ensures ts[pos] == Symbol(s)
  {
  }

  lemma OpAtToken(ts: seq<Token>, pos: nat)
    requires Lexed(ts) && OpAt(ts, pos).Some?
    ensures pos < |ts| && ts[pos] == OpToken(OpAt(ts, pos).value)
  {
  }

  // ---- Names, labels and projections ----

  lemma {:induction false} PathSound(
      ts: seq<Token>, pos: nat, path: seq<string>, strict: bool) returns (more: seq<string>)
    requires Lexed(ts) && pos <= |ts| && ParsePath(ts, pos, path, strict).Ok?
    ensures
      var (all, end) := ParsePath(ts, pos, path, strict).value;
      && all == path + more && Reads(ts, pos, DotTokens(more), end) && !Is(ts, end, ".")
      && forall i :: 0 <= i < |more| ==> WordText(more[i]) && (strict ==> Identifier(more[i]))
    decreases |ts| - pos
  {
    if Is(ts, pos, ".") {
      var w := ts[pos + 1].text;
      var rest := PathSound(ts, pos + 2, path + [w], strict);
      more := [w] + rest;
      IsMark(ts, pos, ".");
      ReadsTwo(ts, pos, Symbol("."), Word(w));
      var end := ParsePath(ts, pos, path, strict).value.1;
      ReadsAppend(ts, pos, [Symbol("."), Word(w)], pos + 2, DotTokens(rest), end);
      assert more[1..] == rest;
      assert path + [w] + rest == path + more;
    } else {
      more := [];
      ReadsNone(ts, pos);
      assert path + [] == path;
    }
  }

  lemma PathTokensSound(ts: seq<Token>, pos: nat, w: string, strict: bool)
    requires Lexed(ts) && pos < |ts| && ts[pos] == Word(w) && ParsePath(ts, pos + 1, [w], strict).Ok?
    ensures
      var (path, end) := ParsePath(ts, pos + 1, [w], strict).value;
      && Reads(ts, pos, PathTokens(path), end) && !Is(ts, end, ".") && path != [] && path[0] == w && GoodStatic(path)
      && (strict ==> forall i :: 1 <= i < |path| ==> Identifier(path[i]))
      && (Is(ts, pos + 1, ".") ==> |path| > 1)
  {
    var more := PathSound(ts, pos + 1, [w], strict);
    var (path, end) := ParsePath(ts, pos + 1, [w], strict).value;
    ReadsOne(ts, pos, Word(w));
    ReadsAppend(ts, pos, [Word(w)], pos + 1, DotTokens(more), end);
    assert path[1..] == more;
    if more == [] {
      assert end == pos + 1;
    }
  }

  lemma LabelSound(ts: seq<Token>, pos: nat, labelled: bool)
    requires Lexed(ts) && pos <= |ts| && ParseLabel(ts, pos, labelled).Ok?
    ensures
      var (tag, end) := ParseLabel(ts, pos, labelled).value;
      Reads(ts, pos, LabelTokens(tag), end) && GoodLabel(tag, labelled)
  {
  }

  lemma StepSound(ts: seq<Token>, pos: nat)
    requires Lexed(ts) && pos <= |ts| && ParseStep(ts, pos).Ok? && ParseStep(ts, pos).value.Some?
    ensures
      var (s, end) := ParseStep(ts, pos).value.value;
      && Reads(ts, pos, StepTokens(s), end)
      && (s.Dot? ==> Is(ts, pos, ".") && Identifier(s.name)) && (s.Index? ==> s.at <= IntegralTokens.MAX64)
  {
  }

  /** An operand that a following dot would have extended does not stand before one. */
  ghost predicate Closed(ts: seq<Token>, pos: nat, c: Cst) {
    c.Name? || c.Static? || WordLiteral(c) ==> !Is(ts, pos, ".")
  }

  lemma {:induction false} SuffixesSound(
      ts: seq<Token>, start: nat, pos: nat, base: Cst, count: nat, depth: nat, max: nat)
    requires Lexed(ts) && pos <= |ts| && Found(ts, start, base, pos, 5)
    requires Closed(ts, pos, base) && Suffixes(ts, pos, base, count, depth, max).Ok?
    ensures
      var (c, end) := Suffixes(ts, pos, base, count, depth, max).value;
      Found(ts, start, c, end, 5)
    decreases |ts| - pos
  {
    if ParseStep(ts, pos).value.Some? {
      var (s, end) := ParseStep(ts, pos).value.value;
      StepSound(ts, pos);
      ReadsAppend(ts, start, Tokens(base), pos, StepTokens(s), end);
      SuffixesSound(ts, start, end, Get(base, s), count + 1, depth, max);
    }
  }

  // ---- Expressions ----

  /** Where an expression may start: after a comparison, not with `not`. */
  ghost predicate Starts(ts: seq<Token>, pos: nat, min: nat) {
    min in {0, 2, 3, 5} && (min == 5 ==> !Is(ts, pos, "not") || Qualified(ts, pos))
  }

  lemma {:induction false} ParseSound(ts: seq<Token>, pos: nat, min: nat, depth: nat, max: nat)
    requires Lexed(ts) && Starts(ts, pos, min) && Parse(ts, pos, min, depth, max).Ok?
    ensures
      var (c, end) := Parse(ts, pos, min, depth, max).value;
      Found(ts, pos, c, end, min) && Stops(ts, end, min)
    decreases |ts| - pos, 3
  {
    if Is(ts, pos, "not") && !Qualified(ts, pos) {
      ParseSound(ts, pos + 1, 3, depth + 1, max);
      var (e, end) := Parse(ts, pos + 1, 3, depth + 1, max).value;
      NotFound(ts, pos, e, end, min);
      ClimbSound(ts, pos, end, Not(e), false, 0, min, depth + 1, max);
    } else {
      PrimarySound(ts, pos, depth + 1, max);
      var (e, end) := Primary(ts, pos, depth + 1, max).value;
      ClimbSound(ts, pos, end, e, false, 0, min, depth + 1, max);
    }
  }

  lemma NotFound(ts: seq<Token>, pos: nat, e: Cst, end: nat, min: nat)
    requires Lexed(ts) && Is(ts, pos, "not") && Found(ts, pos + 1, e, end, 3) && min <= 3
    ensures Found(ts, pos, Not(e), end, min)
  {
  }

  /** A grammatical text at its place. */
  ghost predicate Found(ts: seq<Token>, start: nat, c: Cst, end: nat, min: nat) {
    Reads(ts, start, Tokens(c), end) && Grammatical(c) && Level(c) >= min
  }

  lemma {:induction false} ClimbSound(
      ts: seq<Token>, start: nat, pos: nat, left: Cst, compared: bool, chain: nat, min: nat, depth: nat,
      max: nat)
    requires Lexed(ts) && pos <= |ts| && Found(ts, start, left, pos, min)
    requires (Level(left) == 4 ==> compared) && (Level(left) < 5 ==> Stops(ts, pos, Level(left) + 1))
    requires Climb(ts, pos, left, compared, chain, min, depth, max).Ok?
    ensures
      var (c, end) := Climb(ts, pos, left, compared, chain, min, depth, max).value;
      Found(ts, start, c, end, min) && Stops(ts, end, min)
    decreases |ts| - pos, 4
  {
    hide *;
    if Stops(ts, pos, min) {
      ClimbStops(ts, pos, left, compared, chain, min, depth, max);
    } else {
      ClimbUnfold(ts, pos, left, compared, chain, min, depth, max);
      var op := OpAt(ts, pos).value;
      var p := Precedence(op);
      LeftBinds(ts, pos, left, compared, op);
      ParseSound(ts, pos + 1, p + 1, depth, max);
      var (right, end) := Parse(ts, pos + 1, p + 1, depth, max).value;
      BinaryFound(ts, start, pos, left, op, right, end, min);
      ClimbSound(ts, start, end, Binary(op, left, right), compared || p == 4, chain + 1, min, depth, max);
    }
  }

  lemma ClimbUnfold(ts: seq<Token>, pos: nat, left: Cst, compared: bool, chain: nat, min: nat, depth: nat, max: nat)
    requires Lexed(ts) && pos <= |ts| && !Stops(ts, pos, min)
    requires Climb(ts, pos, left, compared, chain, min, depth, max).Ok?
    ensures
      var op := OpAt(ts, pos).value;
      var p := Precedence(op);
      OpAt(ts, pos).Some? &&
      var right := Parse(ts, pos + 1, p + 1, depth, max);
      && right.Ok? && p >= min && pos < right.value.1 <= |ts| && Level(Binary(op, left, right.value.0)) == p
      && Starts(ts, pos + 1, p + 1) && (p == 4 ==> !compared) && p <= 4
      && Climb(ts, right.value.1, Binary(op, left, right.value.0), compared || p == 4, chain + 1, min, depth, max)
        == Climb(ts, pos, left, compared, chain, min, depth, max)
  {
  }

  lemma ClimbStops(ts: seq<Token>, pos: nat, left: Cst, compared: bool, chain: nat, min: nat, depth: nat, max: nat)
    requires pos <= |ts| && Stops(ts, pos, min)
    ensures Climb(ts, pos, left, compared, chain, min, depth, max) == Ok((left, pos))
  {
  }

  /** What has been read binds as its next operator needs. */
  lemma LeftBinds(ts: seq<Token>, pos: nat, left: Cst, compared: bool, op: Operator)
    requires OpAt(ts, pos) == Some(op) && (Precedence(op) == 4 ==> !compared)
    requires (Level(left) == 4 ==> compared) && (Level(left) < 5 ==> Stops(ts, pos, Level(left) + 1))
    ensures Level(left) >= if Precedence(op) == 4 then 5 else Precedence(op)
  {
  }

  lemma BinaryFound(ts: seq<Token>, start: nat, pos: nat, left: Cst, op: Operator, right: Cst, end: nat, min: nat)
    requires Lexed(ts) && Found(ts, start, left, pos, min) && OpAt(ts, pos) == Some(op) && Precedence(op) >= min
    requires Found(ts, pos + 1, right, end, Precedence(op) + 1)
    requires Level(left) >= if Precedence(op) == 4 then 5 else Precedence(op)
    ensures Found(ts, start, Binary(op, left, right), end, min)
  {
    OpAtToken(ts, pos);
    BinaryReads(ts, start, pos, left, op, right, end);
  }

  lemma BinaryReads(ts: seq<Token>, start: nat, pos: nat, left: Cst, op: Operator, right: Cst, end: nat)
    requires Reads(ts, start, Tokens(left), pos) && pos < |ts| && ts[pos] == OpToken(op)
    requires Reads(ts, pos + 1, Tokens(right), end)
    ensures Reads(ts, start, Tokens(Binary(op, left, right)), end)
  {
    ReadsOne(ts, pos, OpToken(op));
    ReadsAppend(ts, start, Tokens(left), pos, [OpToken(op)], pos + 1);
    ReadsAppend(ts, start, Tokens(left) + [OpToken(op)], pos + 1, Tokens(right), end);
  }

  lemma {:induction false} PrimarySound(ts: seq<Token>, pos: nat, depth: nat, max: nat)
    requires Lexed(ts) && pos < |ts| && Primary(ts, pos, depth, max).Ok?
    requires !Is(ts, pos, "not") || Qualified(ts, pos)
    ensures
      var (c, end) := Primary(ts, pos, depth, max).value;
      Found(ts, pos, c, end, 5)
    decreases |ts| - pos, 2
  {
    HeadSound(ts, pos, depth, max);
    var (c, end) := Head(ts, pos, depth, max).value;
    SuffixesSound(ts, pos, end, c, 0, depth, max);
  }

  lemma {:induction false} HeadSound(ts: seq<Token>, pos: nat, depth: nat, max: nat)
    requires Lexed(ts) && pos < |ts| && Head(ts, pos, depth, max).Ok?
    requires !Is(ts, pos, "not") || Qualified(ts, pos)
    ensures
      var (c, end) := Head(ts, pos, depth, max).value;
      Found(ts, pos, c, end, 5) && Closed(ts, end, c)
    decreases |ts| - pos, 1
  {
    if Is(ts, pos, "(") {
      ParseSound(ts, pos + 1, 0, depth, max);
      ParenFound(ts, pos, depth, max);
    } else if Is(ts, pos, "&") {
      StaticFound(ts, pos, depth, max);
    } else if Is(ts, pos, "@") {
      IsMark(ts, pos, "@");
      ReadsTwo(ts, pos, Symbol("@"), ts[pos + 1]);
    } else if Is(ts, pos, "[") {
      ItemsSound(ts, pos + 1, "]", false, depth, max);
      ListFound(ts, pos, depth, max);
    } else if Is(ts, pos, "{") {
      ItemsSound(ts, pos + 1, "}", true, depth, max);
      RecordFound(ts, pos, depth, max);
    } else if ts[pos].Word? {
      NameHeadSound(ts, pos, depth, max);
    } else {
      ReadsOne(ts, pos, ts[pos]);
    }
  }

  lemma ParenFound(ts: seq<Token>, pos: nat, depth: nat, max: nat)
    requires Lexed(ts) && pos < |ts| && Is(ts, pos, "(") && Head(ts, pos, depth, max).Ok?
    requires
      var e := Parse(ts, pos + 1, 0, depth, max);
      e.Ok? && Found(ts, pos + 1, e.value.0, e.value.1, 0)
    ensures
      var (c, end) := Head(ts, pos, depth, max).value;
      Found(ts, pos, c, end, 5) && c.Paren?
  {
    var (e, mid) := Parse(ts, pos + 1, 0, depth, max).value;
    Bracketed(ts, pos, "(", Tokens(e), mid, ")");
  }

  lemma StaticFound(ts: seq<Token>, pos: nat, depth: nat, max: nat)
    requires Lexed(ts) && pos < |ts| && Is(ts, pos, "&") && Head(ts, pos, depth, max).Ok?
    ensures
      var (c, end) := Head(ts, pos, depth, max).value;
      Found(ts, pos, c, end, 5) && Closed(ts, end, c)
  {
    IsMark(ts, pos, "&");
    PathTokensSound(ts, pos + 1, ts[pos + 1].text, false);
    ReadsOne(ts, pos, Symbol("&"));
    var (path, end) := ParsePath(ts, pos + 2, [ts[pos + 1].text], false).value;
    ReadsAppend(ts, pos, [Symbol("&")], pos + 1, PathTokens(path), end);
  }

  lemma ListFound(ts: seq<Token>, pos: nat, depth: nat, max: nat)
    requires Lexed(ts) && pos < |ts| && Is(ts, pos, "[") && Head(ts, pos, depth, max).Ok?
    requires
      var items := ParseItems(ts, pos + 1, "]", false, depth, max);
      items.Ok? && ItemsFound(ts, pos + 1, items.value.0, "]", false, items.value.1)
    ensures
      var (c, end) := Head(ts, pos, depth, max).value;
      Found(ts, pos, c, end, 5) && c.List?
  {
    var (items, end) := ParseItems(ts, pos + 1, "]", false, depth, max).value;
    Opened(ts, pos, "[", items, "]", end);
  }

  lemma RecordFound(ts: seq<Token>, pos: nat, depth: nat, max: nat)
    requires Lexed(ts) && pos < |ts| && Is(ts, pos, "{") && Head(ts, pos, depth, max).Ok?
    requires
      var items := ParseItems(ts, pos + 1, "}", true, depth, max);
      items.Ok? && ItemsFound(ts, pos + 1, items.value.0, "}", true, items.value.1)
    ensures
      var (c, end) := Head(ts, pos, depth, max).value;
      Found(ts, pos, c, end, 5) && c.Record?
  {
    var (items, end) := ParseItems(ts, pos + 1, "}", true, depth, max).value;
    Opened(ts, pos, "{", items, "}", end);
  }

  lemma Opened(ts: seq<Token>, pos: nat, open: string, items: Items, close: string, end: nat)
    requires Lexed(ts) && Is(ts, pos, open) && !WordText(open)
    requires Reads(ts, pos + 1, ItemTokens(items) + [Symbol(close)], end)
    ensures Reads(ts, pos, [Symbol(open)] + ItemTokens(items) + [Symbol(close)], end)
  {
    IsMark(ts, pos, open);
    ReadsOne(ts, pos, Symbol(open));
    ReadsAppend(ts, pos, [Symbol(open)], pos + 1, ItemTokens(items) + [Symbol(close)], end);
    assert [Symbol(open)] + (ItemTokens(items) + [Symbol(close)]) ==
      [Symbol(open)] + ItemTokens(items) + [Symbol(close)];
  }

  /** Text between an opening and a closing mark. */
  lemma Bracketed(ts: seq<Token>, pos: nat, open: string, inner: seq<Token>, mid: nat, close: string)
    requires Lexed(ts) && Is(ts, pos, open) && !WordText(open) && Reads(ts, pos + 1, inner, mid)
    requires Is(ts, mid, close) && !WordText(close)
    ensures Reads(ts, pos, [Symbol(open)] + inner + [Symbol(close)], mid + 1)
  {
    IsMark(ts, pos, open);
    IsMark(ts, mid, close);
    ReadsOne(ts, pos, Symbol(open));
    ReadsOne(ts, mid, Symbol(close));
    ReadsAppend(ts, pos, [Symbol(open)], pos + 1, inner, mid);
    ReadsAppend(ts, pos, [Symbol(open)] + inner, mid, [Symbol(close)], mid + 1);
  }

  lemma {:induction false} NameHeadSound(ts: seq<Token>, pos: nat, depth: nat, max: nat)
    requires Lexed(ts) && pos < |ts| && ts[pos].Word? && NameHead(ts, pos, ts[pos].text, depth, max).Ok?
    requires !Is(ts, pos, "not") || Qualified(ts, pos)
    ensures
      var (c, end) := NameHead(ts, pos, ts[pos].text, depth, max).value;
      Found(ts, pos, c, end, 5) && Closed(ts, end, c)
    decreases |ts| - pos, 0
  {
    hide *;
    var w := ts[pos].text;
    NameHeadParts(ts, pos, depth, max);
    var (c, end) := NameHead(ts, pos, w, depth, max).value;
    if !c.Constant? {
      PathTokensSound(ts, pos, w, true);
      var (path, mid) := ParsePath(ts, pos + 1, [w], true).value;
      GoodHead(ts, pos, path);
      if c.Call? {
        ItemsSound(ts, mid + 1, ")", false, depth, max);
        CallFound(ts, pos, path, mid, c.args, end);
      } else {
        NameFound(ts, pos, path, end);
      }
    }
  }

  /** The three readings of a word. */
  lemma NameHeadParts(ts: seq<Token>, pos: nat, depth: nat, max: nat)
    requires Lexed(ts) && pos < |ts| && ts[pos].Word? && NameHead(ts, pos, ts[pos].text, depth, max).Ok?
    requires !Is(ts, pos, "not") || Qualified(ts, pos)
    ensures
      var (c, end) := NameHead(ts, pos, ts[pos].text, depth, max).value;
      var path := ParsePath(ts, pos + 1, [ts[pos].text], true);
      && !WordText(")")
      && (c.Constant? ==> Found(ts, pos, c, end, 5) && Closed(ts, end, c))
      && (!c.Constant? ==> path.Ok? && path.value.1 <= |ts| && (c.Call? || c == Name(path.value.0)))
      && (!c.Constant? && ts[pos].text in {"not", "true", "false", "null"} ==> Is(ts, pos + 1, "."))
      && (c.Name? ==> end == path.value.1)
      && (c.Call? ==> c.callee == path.value.0 && Is(ts, path.value.1, "(") && path.value.1 < |ts|)
      && (c.Call? ==> ParseItems(ts, path.value.1 + 1, ")", false, depth, max) == Ok((c.args, end)))
  {
    hide ParsePath, ParseItems;
    var (c, end) := NameHead(ts, pos, ts[pos].text, depth, max).value;
    if c.Constant? {
      ReadsOne(ts, pos, ts[pos]);
    }
  }

  lemma NameFound(ts: seq<Token>, pos: nat, path: seq<string>, end: nat)
    requires Reads(ts, pos, PathTokens(path), end) && GoodPath(path) && !Is(ts, end, ".")
    ensures Found(ts, pos, Name(path), end, 5) && Closed(ts, end, Name(path))
  {
  }

  lemma CallFound(ts: seq<Token>, pos: nat, path: seq<string>, mid: nat, args: Items, end: nat)
    requires Lexed(ts) && Reads(ts, pos, PathTokens(path), mid) && Is(ts, mid, "(") && GoodPath(path)
    requires ItemsFound(ts, mid + 1, args, ")", false, end)
    ensures Found(ts, pos, Call(path, args), end, 5) && Closed(ts, end, Call(path, args))
  {
    CallReads(ts, pos, path, mid, args, end);
  }

  lemma GoodHead(ts: seq<Token>, pos: nat, path: seq<string>)
    requires Lexed(ts) && pos < |ts| && path != [] && ts[pos] == Word(path[0])
    requires forall i :: 1 <= i < |path| ==> Identifier(path[i])
    requires Is(ts, pos + 1, ".") ==> |path| > 1
    requires path[0] in {"not", "true", "false", "null"} ==> Is(ts, pos + 1, ".")
    ensures GoodPath(path)
  {
  }

  lemma CallReads(ts: seq<Token>, pos: nat, path: seq<string>, mid: nat, args: Items, end: nat)
    requires Lexed(ts) && Reads(ts, pos, PathTokens(path), mid) && Is(ts, mid, "(")
    requires Reads(ts, mid + 1, ItemTokens(args) + [Symbol(")")], end)
    ensures Reads(ts, pos, Tokens(Call(path, args)), end)
  {
    IsMark(ts, mid, "(");
    ReadsOne(ts, mid, Symbol("("));
    ReadsAppend(ts, pos, PathTokens(path), mid, [Symbol("(")], mid + 1);
    ReadsAppend(ts, pos, PathTokens(path) + [Symbol("(")], mid + 1, ItemTokens(args) + [Symbol(")")], end);
    assert PathTokens(path) + [Symbol("(")] + (ItemTokens(args) + [Symbol(")")]) == Tokens(Call(path, args));
  }

  /** Grammatical items and the mark that closes them. */
  ghost predicate ItemsFound(ts: seq<Token>, pos: nat, items: Items, close: string, labelled: bool, end: nat) {
    Reads(ts, pos, ItemTokens(items) + [Symbol(close)], end) && GrammaticalItems(items, labelled)
  }

  lemma {:induction false} ItemsSound(ts: seq<Token>, pos: nat, close: string, labelled: bool, depth: nat, max: nat)
    requires Lexed(ts) && pos <= |ts| && !WordText(close) && ParseItems(ts, pos, close, labelled, depth, max).Ok?
    ensures
      var (items, end) := ParseItems(ts, pos, close, labelled, depth, max).value;
      ItemsFound(ts, pos, items, close, labelled, end)
    decreases |ts| - pos, 6
  {
    if Is(ts, pos, close) {
      IsMark(ts, pos, close);
      ReadsOne(ts, pos, Symbol(close));
      assert [] + [Symbol(close)] == [Symbol(close)];
    } else {
      MoreSound(ts, pos, close, labelled, depth, max);
    }
  }

  lemma {:induction false} MoreSound(ts: seq<Token>, pos: nat, close: string, labelled: bool, depth: nat, max: nat)
    requires Lexed(ts) && pos <= |ts| && !WordText(close) && ParseMore(ts, pos, close, labelled, depth, max).Ok?
    ensures
      var (items, end) := ParseMore(ts, pos, close, labelled, depth, max).value;
      ItemsFound(ts, pos, items, close, labelled, end) && items != Empty
    decreases |ts| - pos, 5
  {
    hide *;
    MoreUnfold(ts, pos, close, labelled, depth, max);
    LabelSound(ts, pos, labelled);
    var (tag, first) := ParseLabel(ts, pos, labelled).value;
    ParseSound(ts, first, 0, depth, max);
    var (c, mid) := Parse(ts, first, 0, depth, max).value;
    if Is(ts, mid, close) {
      LastFound(ts, pos, tag, first, c, mid, false, close, labelled);
    } else if Is(ts, mid + 1, close) {
      LastFound(ts, pos, tag, first, c, mid, true, close, labelled);
    } else {
      MoreSound(ts, mid + 1, close, labelled, depth, max);
      var (rest, end) := ParseMore(ts, mid + 1, close, labelled, depth, max).value;
      RestFound(ts, pos, tag, first, c, mid, rest, close, labelled, end);
    }
  }

  lemma MoreUnfold(ts: seq<Token>, pos: nat, close: string, labelled: bool, depth: nat, max: nat)
    requires pos <= |ts| && ParseMore(ts, pos, close, labelled, depth, max).Ok?
    ensures
      var tag := ParseLabel(ts, pos, labelled);
      && tag.Ok? && pos <= tag.value.1 <= |ts|
      && var e := Parse(ts, tag.value.1, 0, depth, max);
      && e.Ok? && tag.value.1 < e.value.1 <= |ts| && Starts(ts, tag.value.1, 0)
      && var (c, mid) := e.value;
      var all := ParseMore(ts, pos, close, labelled, depth, max);
      && (Is(ts, mid, close) ==> all == Ok((Last(tag.value.0, c, false), mid + 1)))
      && (!Is(ts, mid, close) ==> Is(ts, mid, ",") && mid < |ts|)
      && (!Is(ts, mid, close) && Is(ts, mid + 1, close) ==> all == Ok((Last(tag.value.0, c, true), mid + 2)))
      && (!Is(ts, mid, close) && !Is(ts, mid + 1, close) ==>
        var rest := ParseMore(ts, mid + 1, close, labelled, depth, max);
        rest.Ok? && all == Ok((More(tag.value.0, c, rest.value.0), rest.value.1)))
  {
  }

  lemma LastFound(
      ts: seq<Token>, pos: nat, tag: Label, first: nat, c: Cst, mid: nat, trailing: bool, close: string,
      labelled: bool)
    requires Lexed(ts) && !WordText(close) && Reads(ts, pos, LabelTokens(tag), first) && GoodLabel(tag, labelled)
    requires Found(ts, first, c, mid, 0)
    requires if trailing then Is(ts, mid, ",") && Is(ts, mid + 1, close) else Is(ts, mid, close)
    ensures ItemsFound(ts, pos, Last(tag, c, trailing), close, labelled, if trailing then mid + 2 else mid + 1)
  {
    var head := LabelTokens(tag) + Tokens(c);
    ReadsAppend(ts, pos, LabelTokens(tag), first, Tokens(c), mid);
    if trailing {
      CommaReads(ts, pos, head, mid);
      CloseReads(ts, pos, head + [Symbol(",")], mid + 1, close);
    } else {
      CloseReads(ts, pos, head, mid, close);
      assert head + [] == head;
    }
  }

  lemma CloseReads(ts: seq<Token>, pos: nat, head: seq<Token>, mid: nat, close: string)
    requires Lexed(ts) && Reads(ts, pos, head, mid) && Is(ts, mid, close) && !WordText(close)
    ensures Reads(ts, pos, head + [Symbol(close)], mid + 1)
  {
  }

  lemma CommaReads(ts: seq<Token>, pos: nat, head: seq<Token>, mid: nat)
    requires Lexed(ts) && Reads(ts, pos, head, mid) && Is(ts, mid, ",")
    ensures Reads(ts, pos, head + [Symbol(",")], mid + 1)
  {
  }

  lemma RestFound(
      ts: seq<Token>, pos: nat, tag: Label, first: nat, c: Cst, mid: nat, rest: Items, close: string,
      labelled: bool, end: nat)
    requires Lexed(ts) && Reads(ts, pos, LabelTokens(tag), first) && GoodLabel(tag, labelled)
    requires Found(ts, first, c, mid, 0)
    requires Is(ts, mid, ",") && rest != Empty && ItemsFound(ts, mid + 1, rest, close, labelled, end)
    ensures ItemsFound(ts, pos, More(tag, c, rest), close, labelled, end)
  {
    var head := LabelTokens(tag) + Tokens(c);
    ReadsAppend(ts, pos, LabelTokens(tag), first, Tokens(c), mid);
    CommaReads(ts, pos, head, mid);
    ReadsAppend(ts, pos, head + [Symbol(",")], mid + 1, ItemTokens(rest) + [Symbol(close)], end);
    assert head + [Symbol(",")] + (ItemTokens(rest) + [Symbol(close)]) ==
      ItemTokens(More(tag, c, rest)) + [Symbol(close)];
  }

  /** A whole text. */
  lemma WholeSound(ts: seq<Token>, depth: nat, max: nat)
    requires Lexed(ts) && Parse(ts, 0, 0, depth, max).Ok? && Parse(ts, 0, 0, depth, max).value.1 == |ts|
    ensures
      var c := Parse(ts, 0, 0, depth, max).value.0;
      Tokens(c) == ts && Grammatical(c)
  {
    ParseSound(ts, 0, 0, depth, max);
  }
}
