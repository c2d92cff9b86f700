// Every grammatical text is accepted, as the text that was written.

module ExpressionCompleteness {
  import opened Wrappers
  import IntegralTokens
  import opened Syntax
  import opened ExpressionParser
  import opened ExpressionNesting
  import opened ExpressionSoundness

  /** Nothing at `end` extends an operand. */
  predicate Ends(ts: seq<Token>, end: nat) {
    !Is(ts, end, ".") && !Is(ts, end, "[") && !Is(ts, end, "(")
  }

  lemma ReadsSplit(ts: seq<Token>, pos: nat, a: seq<Token>, b: seq<Token>, end: nat)
    requires Reads(ts, pos, a + b, end)
    ensures Reads(ts, pos, a, pos + |a|) && Reads(ts, pos + |a|, b, end)
  {
    assert ts[pos..pos + |a|] == (a + b)[..|a|];
    assert ts[pos + |a|..end] == (a + b)[|a|..];
  }

  lemma ReadsFirst(ts: seq<Token>, pos: nat, s: seq<Token>, end: nat)
    requires Reads(ts, pos, s, end)
    ensures end == pos + |s| <= |ts| && (s != [] ==> ts[pos] == s[0]) && (|s| > 1 ==> ts[pos + 1] == s[1])
  {
  }

  /** A symbol is read as itself. */
  lemma SymbolIs(ts: seq<Token>, pos: nat, s: string)
    requires Lexed(ts) && pos < |ts| && ts[pos] == Symbol(s)
    ensures forall t :: Is(ts, pos, t) <==> t == s
  {
  }

  lemma WordIs(ts: seq<Token>, pos: nat, s: string)
    requires Lexed(ts) && pos < |ts| && ts[pos] == Word(s)
    ensures forall t :: Is(ts, pos, t) <==> t == s
    ensures WordText(s)
  {
  }

  /** Closing marks and commas end every expression. */
  lemma MarkEnds(ts: seq<Token>, pos: nat, s: string)
    requires Lexed(ts) && pos < |ts| && ts[pos] == Symbol(s) && s in {")", "]", "}", ","}
    ensures Ends(ts, pos) && OpAt(ts, pos).None?
  {
  }

  lemma OpAtOp(ts: seq<Token>, pos: nat, op: Operator)
    requires Lexed(ts) && pos < |ts| && ts[pos] == OpToken(op)
    ensures OpAt(ts, pos) == Some(op) && Ends(ts, pos)
  {
  }

  /** No expression starts with a closing mark. */
  predicate Opener(t: Token) {
    t != Symbol(")") && t != Symbol("]") && t != Symbol("}")
  }

  lemma {:induction false} Opens(c: Cst)
    requires Grammatical(c)
    ensures Tokens(c) != [] && Opener(Tokens(c)[0])
  {
    if c.Get? {
      Opens(c.base);
    } else if c.Binary? {
      Opens(c.left);
    }
  }

  /** An operand never starts with a bare `not`. */
  lemma {:induction false} NoNot(ts: seq<Token>, pos: nat, c: Cst, end: nat)
    requires Lexed(ts) && Reads(ts, pos, Tokens(c), end) && Grammatical(c) && Level(c) == 5
    ensures pos < |ts| && (!Is(ts, pos, "not") || Qualified(ts, pos))
  {
    if c.Get? {
      ReadsSplit(ts, pos, Tokens(c.base), StepTokens(c.step), end);
      NoNot(ts, pos, c.base, pos + |Tokens(c.base)|);
    } else {
      ReadsFirst(ts, pos, Tokens(c), end);
      Opens(c);
      if c.Name? || c.Call? {
        var path := if c.Name? then c.path else c.callee;
        PathFirst(path);
        if c.Call? {
          assert Tokens(c)[..|PathTokens(path)|] == PathTokens(path);
        }
      }
    }
  }

  lemma PathFirst(path: seq<string>)
    requires path != []
    ensures PathTokens(path) != [] && PathTokens(path)[0] == Word(path[0])
    ensures |path| > 1 ==> |PathTokens(path)| > 2 && PathTokens(path)[1] == Symbol(".")
  {
  }

  // ---- Names, labels and projections ----

  lemma {:induction false} PathComplete(
      ts: seq<Token>, pos: nat, path: seq<string>, more: seq<string>, strict: bool, end: nat)
    requires Lexed(ts) && Reads(ts, pos, DotTokens(more), end) && !Is(ts, end, ".")
    requires strict ==> forall i :: 0 <= i < |more| ==> Identifier(more[i])
    ensures pos <= |ts| && ParsePath(ts, pos, path, strict) == Ok((path + more, end))
    decreases |more|
  {
    if more == [] {
      assert path + more == path;
    } else {
      ReadsFirst(ts, pos, DotTokens(more), end);
      ReadsSplit(ts, pos, [Symbol("."), Word(more[0])], DotTokens(more[1..]), end);
      PathComplete(ts, pos + 2, path + [more[0]], more[1..], strict, end);
      assert path + [more[0]] + more[1..] == path + more;
    }
  }

  lemma NameComplete(ts: seq<Token>, pos: nat, path: seq<string>, strict: bool, end: nat)
    requires Lexed(ts) && path != [] && Reads(ts, pos, PathTokens(path), end) && !Is(ts, end, ".")
    requires strict ==> forall i :: 1 <= i < |path| ==> Identifier(path[i])
    ensures pos < |ts| && ts[pos] == Word(path[0]) && ParsePath(ts, pos + 1, [path[0]], strict) == Ok((path, end))
    ensures |path| > 1 ==> Is(ts, pos + 1, ".")
  {
    ReadsFirst(ts, pos, PathTokens(path), end);
    ReadsSplit(ts, pos, [Word(path[0])], DotTokens(path[1..]), end);
    PathComplete(ts, pos + 1, [path[0]], path[1..], strict, end);
    assert [path[0]] + path[1..] == path;
    PathFirst(path);
  }

  lemma LabelComplete(ts: seq<Token>, pos: nat, tag: Label, labelled: bool, end: nat)
    requires Lexed(ts) && Reads(ts, pos, LabelTokens(tag), end) && GoodLabel(tag, labelled)
    ensures pos <= |ts| && ParseLabel(ts, pos, labelled) == Ok((tag, end))
  {
  }

  lemma StepComplete(ts: seq<Token>, pos: nat, s: Step, end: nat)
    requires Lexed(ts) && Reads(ts, pos, StepTokens(s), end) && (s.Dot? ==> Identifier(s.name))
    requires (s.Index? ==> s.at <= IntegralTokens.MAX64)
    ensures pos < |ts| && ParseStep(ts, pos) == Ok(Some((s, end))) && (Is(ts, pos, ".") <==> s.Dot?)
    ensures !Is(ts, pos, "(")
  {
    ReadsFirst(ts, pos, StepTokens(s), end);
    SymbolIs(ts, pos, ts[pos].text);
    if !s.Dot? {
      ReadsSplit(ts, pos, StepTokens(s)[..2], StepTokens(s)[2..], end);
      ReadsFirst(ts, pos + 2, StepTokens(s)[2..], end);
    }
  }

  // ---- Operands ----

  /** What may not follow an operand's head. */
  ghost predicate HeadEnds(ts: seq<Token>, end: nat, c: Cst) {
    && (c.Name? || c.Static? || WordLiteral(c) ==> !Is(ts, end, "."))
    && (c.Name? ==> !Is(ts, end, "("))
  }

  lemma {:induction false} Complete(ts: seq<Token>, pos: nat, c: Cst, end: nat, min: nat, depth: nat, max: nat)
    requires Lexed(ts) && Found(ts, pos, c, end, min) && Ends(ts, end) && Stops(ts, end, min) && Fits(c, depth, max)
    ensures Parse(ts, pos, min, depth, max) == Ok((c, end))
    decreases c, 6
  {
    hide *;
    StopsHigher(ts, pos, c, end, min);
    Climbed(ts, pos, c, end, min, depth, max);
    ClimbStops(ts, end, c, Sticky(c), Operators(c), min, depth + 1, max);
  }

  lemma StopsHigher(ts: seq<Token>, pos: nat, c: Cst, end: nat, min: nat)
    requires Found(ts, pos, c, end, min) && Stops(ts, end, min)
    ensures Stops(ts, end, Level(c) + 1)
  {
  }

  lemma LevelBelow(c: Cst)
    ensures c.Not? || c.Binary? <==> Level(c) < 5
  {
  }

  /** Whether a comparison was among them. */
  predicate Sticky(c: Cst) {
    c.Binary? && (Precedence(c.op) == 4 || Sticky(c.left))
  }

  lemma {:induction false} Climbed(ts: seq<Token>, pos: nat, c: Cst, end: nat, min: nat, depth: nat, max: nat)
    requires Lexed(ts) && Found(ts, pos, c, end, min) && Ends(ts, end) && Fits(c, depth, max)
    requires Level(c) < 5 ==> Stops(ts, end, Level(c) + 1)
    ensures end <= |ts|
    ensures Parse(ts, pos, min, depth, max) == Climb(ts, end, c, Sticky(c), Operators(c), min, depth + 1, max)
    decreases c, 5
  {
    hide *;
    LevelBelow(c);
    if c.Binary? {
      ClimbedBinary(ts, pos, c, end, min, depth, max);
    } else if c.Not? {
      var e := c.operand;
      NotParts(ts, pos, c, end, min, depth, max);
      Complete(ts, pos + 1, e, end, 3, depth + 1, max);
      ParseNot(ts, pos, e, end, min, depth, max);
    } else {
      OperandParts(ts, pos, c, end, min, depth, max);
      Reached(ts, pos, c, end, depth + 1, max);
      ParseOperand(ts, pos, c, end, min, depth, max);
    }
  }

  lemma {:induction false} ClimbedBinary(ts: seq<Token>, pos: nat, c: Cst, end: nat, min: nat, depth: nat, max: nat)
    requires c.Binary? && Lexed(ts) && Found(ts, pos, c, end, min) && Ends(ts, end) && Fits(c, depth, max)
    requires Stops(ts, end, Level(c) + 1)
    ensures end <= |ts|
    ensures Parse(ts, pos, min, depth, max) == Climb(ts, end, c, Sticky(c), Operators(c), min, depth + 1, max)
    decreases c, 4
  {
    hide *;
    var mid := pos + |Tokens(c.left)|;
    BinaryParts(ts, pos, c, end, min, depth, max);
    Climbed(ts, pos, c.left, mid, min, depth, max);
    Complete(ts, mid + 1, c.right, end, Precedence(c.op) + 1, depth + 1, max);
    ClimbOne(ts, mid, c, end, min, depth + 1, max);
  }

  lemma BinaryParts(ts: seq<Token>, pos: nat, c: Cst, end: nat, min: nat, depth: nat, max: nat)
    requires c.Binary? && Lexed(ts) && Found(ts, pos, c, end, min) && Ends(ts, end) && Fits(c, depth, max)
    requires Stops(ts, end, Level(c) + 1)
    ensures
      var mid := pos + |Tokens(c.left)|;
      && Found(ts, pos, c.left, mid, min) && Ends(ts, mid) && Fits(c.left, depth, max)
      && (Level(c.left) < 5 ==> Stops(ts, mid, Level(c.left) + 1))
      && mid < |ts| && OpAt(ts, mid) == Some(c.op) && Precedence(c.op) >= min
      && Found(ts, mid + 1, c.right, end, Precedence(c.op) + 1) && Fits(c.right, depth + 1, max)
      && Stops(ts, end, Precedence(c.op) + 1)
      && (Precedence(c.op) == 4 ==> Level(c.left) == 5 && (!Is(ts, mid + 1, "not") || Qualified(ts, mid + 1)))
      && Operators(c.left) + 1 + depth + 1 <= max
  {
    hide *;
    var mid := pos + |Tokens(c.left)|;
    BinaryReadsBack(ts, pos, c, end, min);
    OpAtOp(ts, mid, c.op);
    BinaryFits(c, depth, max);
    BinaryLevels(ts, c, mid);
    if Precedence(c.op) == 4 {
      NoNotThere(ts, mid + 1, c.right, end);
    }
  }

  lemma BinaryReadsBack(ts: seq<Token>, pos: nat, c: Cst, end: nat, min: nat)
    requires c.Binary? && Lexed(ts) && Found(ts, pos, c, end, min)
    ensures
      var mid := pos + |Tokens(c.left)|;
      && Found(ts, pos, c.left, mid, min) && mid < |ts| && ts[mid] == OpToken(c.op)
      && Found(ts, mid + 1, c.right, end, Precedence(c.op) + 1)
      && Grammatical(c) && Precedence(c.op) >= min && Level(c) == Precedence(c.op)
  {
    var op := [OpToken(c.op)];
    var mid := pos + |Tokens(c.left)|;
    assert Tokens(c) == Tokens(c.left) + op + Tokens(c.right);
    assert Reads(ts, pos, Tokens(c), end) && Grammatical(c) && Level(c) >= min;
    hide Tokens, Reads;
    ReadsSplit(ts, pos, Tokens(c.left) + op, Tokens(c.right), end);
    ReadsSplit(ts, pos, Tokens(c.left), op, mid + 1);
    ReadsFirst(ts, mid, op, mid + 1);
  }

  lemma BinaryFits(c: Cst, depth: nat, max: nat)
    requires c.Binary? && Grammatical(c) && Fits(c, depth, max)
    ensures Fits(c.left, depth, max) && Fits(c.right, depth + 1, max) && Operators(c.left) + 1 + depth + 1 <= max
  {
  }

  lemma BinaryLevels(ts: seq<Token>, c: Cst, mid: nat)
    requires c.Binary? && Grammatical(c) && OpAt(ts, mid) == Some(c.op)
    ensures Level(c.left) < 5 ==> Stops(ts, mid, Level(c.left) + 1)
    ensures Precedence(c.op) == 4 ==> Level(c.left) == 5 && Level(c.right) == 5
  {
  }

  lemma NoNotThere(ts: seq<Token>, pos: nat, c: Cst, end: nat)
    requires Lexed(ts) && Found(ts, pos, c, end, 5)
    ensures !Is(ts, pos, "not") || Qualified(ts, pos)
  {
    NoNot(ts, pos, c, end);
  }

  lemma {:induction false} NotSticky(c: Cst)
    requires Level(c) == 5
    ensures !Sticky(c)
  {
  }

  lemma ClimbOne(ts: seq<Token>, mid: nat, c: Cst, end: nat, min: nat, depth: nat, max: nat)
    requires c.Binary? && mid < |ts| && OpAt(ts, mid) == Some(c.op) && Precedence(c.op) >= min
    requires Parse(ts, mid + 1, Precedence(c.op) + 1, depth, max) == Ok((c.right, end))
    requires Precedence(c.op) == 4 ==> Level(c.left) == 5 && (!Is(ts, mid + 1, "not") || Qualified(ts, mid + 1))
    requires Operators(c.left) + 1 + depth <= max
    ensures end <= |ts|
    ensures Climb(ts, mid, c.left, Sticky(c.left), Operators(c.left), min, depth, max)
      == Climb(ts, end, c, Sticky(c), Operators(c), min, depth, max)
  {
    if Precedence(c.op) == 4 {
      NotSticky(c.left);
    }
  }

  lemma NotParts(ts: seq<Token>, pos: nat, c: Cst, end: nat, min: nat, depth: nat, max: nat)
    requires c.Not? && Lexed(ts) && Found(ts, pos, c, end, min) && Ends(ts, end) && Fits(c, depth, max)
    requires Stops(ts, end, Level(c) + 1)
    ensures Found(ts, pos + 1, c.operand, end, 3) && Fits(c.operand, depth + 1, max) && Stops(ts, end, 3)
    ensures pos < |ts| && ts[pos] == Word("not") && !Qualified(ts, pos) && depth + 1 <= max
  {
    ReadsSplit(ts, pos, [Word("not")], Tokens(c.operand), end);
    ReadsFirst(ts, pos, [Word("not")], pos + 1);
    ReadsFirst(ts, pos + 1, Tokens(c.operand), end);
    Opens(c.operand);
    NoDot(c.operand);
  }

  lemma {:induction false} NoDot(c: Cst)
    requires Grammatical(c)
    ensures Tokens(c) != [] && Tokens(c)[0] != Symbol(".")
  {
    Opens(c);
    if c.Get? {
      NoDot(c.base);
    } else if c.Binary? {
      NoDot(c.left);
    }
  }

  lemma ParseNot(ts: seq<Token>, pos: nat, e: Cst, end: nat, min: nat, depth: nat, max: nat)
    requires pos < |ts| && ts[pos] == Word("not") && !Qualified(ts, pos) && depth + 1 <= max
    requires Parse(ts, pos + 1, 3, depth + 1, max) == Ok((e, end))
    ensures end <= |ts|
    ensures Parse(ts, pos, min, depth, max) ==
      Climb(ts, end, Not(e), Sticky(Not(e)), Operators(Not(e)), min, depth + 1, max)
  {
  }

  lemma OperandParts(ts: seq<Token>, pos: nat, c: Cst, end: nat, min: nat, depth: nat, max: nat)
    requires !c.Not? && !c.Binary? && Lexed(ts) && Found(ts, pos, c, end, min) && Fits(c, depth, max)
    ensures Found(ts, pos, c, end, 5) && depth + 1 <= max && pos < |ts|
    ensures !Is(ts, pos, "not") || Qualified(ts, pos)
  {
    Opens(c);
    NoNot(ts, pos, c, end);
  }

  lemma ParseOperand(ts: seq<Token>, pos: nat, c: Cst, end: nat, min: nat, depth: nat, max: nat)
    requires pos < |ts| && (!Is(ts, pos, "not") || Qualified(ts, pos)) && depth + 1 <= max && !c.Binary?
    requires Primary(ts, pos, depth + 1, max) == Ok((c, end))
    ensures end <= |ts|
    ensures Parse(ts, pos, min, depth, max) == Climb(ts, end, c, Sticky(c), Operators(c), min, depth + 1, max)
  {
  }

  lemma {:induction false} Reached(ts: seq<Token>, pos: nat, c: Cst, end: nat, depth: nat, max: nat)
    requires Lexed(ts) && Found(ts, pos, c, end, 5) && Ends(ts, end) && depth >= 1 && Fits(c, depth - 1, max)
    requires pos < |ts|
    requires !c.Not? && !c.Binary?
    ensures Primary(ts, pos, depth, max) == Ok((c, end))
    decreases c, 3
  {
    Projected(ts, pos, c, end, depth, max);
  }

  lemma {:induction false} Projected(ts: seq<Token>, pos: nat, c: Cst, end: nat, depth: nat, max: nat)
    requires Lexed(ts) && Found(ts, pos, c, end, 5) && HeadEnds(ts, end, c) && depth >= 1 && Fits(c, depth - 1, max)
    requires pos < |ts| && !c.Not? && !c.Binary?
    ensures end <= |ts| && Primary(ts, pos, depth, max) == Suffixes(ts, end, c, Projections(c), depth, max)
    decreases c, 2
  {
    hide *;
    if c.Get? {
      var mid := pos + |Tokens(c.base)|;
      GetParts(ts, pos, c, end, depth, max);
      Projected(ts, pos, c.base, mid, depth, max);
      SuffixOne(ts, mid, c, end, depth, max);
    } else {
      Headed(ts, pos, c, end, depth, max);
      PrimaryHead(ts, pos, c, end, depth, max);
    }
  }

  lemma GetParts(ts: seq<Token>, pos: nat, c: Cst, end: nat, depth: nat, max: nat)
    requires c.Get? && Lexed(ts) && Found(ts, pos, c, end, 5) && depth >= 1 && Fits(c, depth - 1, max)
    ensures
      var mid := pos + |Tokens(c.base)|;
      && Found(ts, pos, c.base, mid, 5) && !c.base.Not? && !c.base.Binary?
      && HeadEnds(ts, mid, c.base) && Fits(c.base, depth - 1, max)
      && mid < |ts| && ParseStep(ts, mid) == Ok(Some((c.step, end))) && Projections(c.base) + 1 + depth <= max
  {
    var mid := pos + |Tokens(c.base)|;
    ReadsSplit(ts, pos, Tokens(c.base), StepTokens(c.step), end);
    StepComplete(ts, mid, c.step, end);
  }

  lemma SuffixOne(ts: seq<Token>, mid: nat, c: Cst, end: nat, depth: nat, max: nat)
    requires c.Get? && mid < |ts| && ParseStep(ts, mid) == Ok(Some((c.step, end)))
    requires Projections(c.base) + 1 + depth <= max
    ensures end <= |ts|
    ensures Suffixes(ts, mid, c.base, Projections(c.base), depth, max) ==
      Suffixes(ts, end, c, Projections(c), depth, max)
  {
  }

  lemma PrimaryHead(ts: seq<Token>, pos: nat, c: Cst, end: nat, depth: nat, max: nat)
    requires pos < |ts| && !c.Get? && Head(ts, pos, depth, max) == Ok((c, end))
    ensures end <= |ts| && Primary(ts, pos, depth, max) == Suffixes(ts, end, c, Projections(c), depth, max)
  {
  }

  lemma {:induction false} Headed(ts: seq<Token>, pos: nat, c: Cst, end: nat, depth: nat, max: nat)
    requires !c.Get? && Lexed(ts) && Found(ts, pos, c, end, 5) && HeadEnds(ts, end, c) && depth >= 1
    requires Fits(c, depth - 1, max) && pos < |ts| && !c.Not? && !c.Binary?
    ensures Head(ts, pos, depth, max) == Ok((c, end))
    decreases c, 1
  {
    hide *;
    if c.Paren? {
      ParenParts(ts, pos, c, end, depth, max);
      Complete(ts, pos + 1, c.inner, end - 1, 0, depth, max);
      HeadParen(ts, pos, c, end, depth, max);
    } else if c.List? {
      ListParts(ts, pos, c, end, depth, max);
      ItemsComplete(ts, pos + 1, c.items, "]", false, end, depth, max);
      HeadList(ts, pos, c, end, depth, max);
    } else if c.Record? {
      RecordParts(ts, pos, c, end, depth, max);
      ItemsComplete(ts, pos + 1, c.fields, "}", true, end, depth, max);
      HeadRecord(ts, pos, c, end, depth, max);
    } else if c.Call? {
      var mid := pos + |PathTokens(c.callee)|;
      CallParts(ts, pos, c, end, depth, max);
      ItemsComplete(ts, mid + 1, c.args, ")", false, end, depth, max);
      HeadCall(ts, pos, c, end, depth, max);
    } else {
      HeadSimple(ts, pos, c, end, depth, max);
    }
  }

  lemma ParenParts(ts: seq<Token>, pos: nat, c: Cst, end: nat, depth: nat, max: nat)
    requires c.Paren? && Lexed(ts) && Found(ts, pos, c, end, 5) && depth >= 1 && Fits(c, depth - 1, max)
    ensures pos < end <= |ts| && ts[pos] == Symbol("(") && ts[end - 1] == Symbol(")")
    ensures Found(ts, pos + 1, c.inner, end - 1, 0) && Ends(ts, end - 1) && Stops(ts, end - 1, 0)
    ensures Fits(c.inner, depth, max)
  {
    ReadsSplit(ts, pos, [Symbol("(")] + Tokens(c.inner), [Symbol(")")], end);
    ReadsSplit(ts, pos, [Symbol("(")], Tokens(c.inner), end - 1);
    ReadsFirst(ts, pos, [Symbol("(")], pos + 1);
    ReadsFirst(ts, end - 1, [Symbol(")")], end);
    MarkEnds(ts, end - 1, ")");
  }

  lemma HeadParen(ts: seq<Token>, pos: nat, c: Cst, end: nat, depth: nat, max: nat)
    requires c.Paren? && pos < end <= |ts| && ts[pos] == Symbol("(") && ts[end - 1] == Symbol(")")
    requires Parse(ts, pos + 1, 0, depth, max) == Ok((c.inner, end - 1))
    ensures Head(ts, pos, depth, max) == Ok((c, end))
  {
  }

  lemma OpenedParts(ts: seq<Token>, pos: nat, open: string, items: Items, close: string, labelled: bool, end: nat)
    requires Lexed(ts) && Reads(ts, pos, [Symbol(open)] + ItemTokens(items) + [Symbol(close)], end)
    requires GrammaticalItems(items, labelled)
    ensures pos < |ts| && ts[pos] == Symbol(open) && ItemsFound(ts, pos + 1, items, close, labelled, end)
  {
    assert [Symbol(open)] + ItemTokens(items) + [Symbol(close)] ==
      [Symbol(open)] + (ItemTokens(items) + [Symbol(close)]);
    ReadsSplit(ts, pos, [Symbol(open)], ItemTokens(items) + [Symbol(close)], end);
    ReadsFirst(ts, pos, [Symbol(open)], pos + 1);
  }

  lemma ListParts(ts: seq<Token>, pos: nat, c: Cst, end: nat, depth: nat, max: nat)
    requires c.List? && Lexed(ts) && Found(ts, pos, c, end, 5) && depth >= 1 && Fits(c, depth - 1, max)
    ensures pos < |ts| && ts[pos] == Symbol("[") && ItemsFound(ts, pos + 1, c.items, "]", false, end)
    ensures ItemsFit(c.items, depth, max)
  {
    OpenedParts(ts, pos, "[", c.items, "]", false, end);
  }

  lemma HeadList(ts: seq<Token>, pos: nat, c: Cst, end: nat, depth: nat, max: nat)
    requires c.List? && Lexed(ts) && pos < |ts| && ts[pos] == Symbol("[")
    requires ParseItems(ts, pos + 1, "]", false, depth, max) == Ok((c.items, end))
    ensures Head(ts, pos, depth, max) == Ok((c, end))
  {
  }

  lemma RecordParts(ts: seq<Token>, pos: nat, c: Cst, end: nat, depth: nat, max: nat)
    requires c.Record? && Lexed(ts) && Found(ts, pos, c, end, 5) && depth >= 1 && Fits(c, depth - 1, max)
    ensures pos < |ts| && ts[pos] == Symbol("{") && ItemsFound(ts, pos + 1, c.fields, "}", true, end)
    ensures ItemsFit(c.fields, depth, max)
  {
    OpenedParts(ts, pos, "{", c.fields, "}", true, end);
  }

  lemma HeadRecord(ts: seq<Token>, pos: nat, c: Cst, end: nat, depth: nat, max: nat)
    requires c.Record? && Lexed(ts) && pos < |ts| && ts[pos] == Symbol("{")
    requires ParseItems(ts, pos + 1, "}", true, depth, max) == Ok((c.fields, end))
    ensures Head(ts, pos, depth, max) == Ok((c, end))
  {
  }

  lemma CallParts(ts: seq<Token>, pos: nat, c: Cst, end: nat, depth: nat, max: nat)
    requires c.Call? && Lexed(ts) && Found(ts, pos, c, end, 5) && depth >= 1 && Fits(c, depth - 1, max)
    ensures
      var mid := pos + |PathTokens(c.callee)|;
      && pos < mid < |ts| && ts[mid] == Symbol("(")
      && ItemsFound(ts, mid + 1, c.args, ")", false, end) && ItemsFit(c.args, depth, max)
      && c.callee != [] && ts[pos] == Word(c.callee[0])
      && ParsePath(ts, pos + 1, [c.callee[0]], true) == Ok((c.callee, mid))
      && (c.callee[0] in {"not", "true", "false", "null"} ==> Is(ts, pos + 1, "."))
  {
    var mid := pos + |PathTokens(c.callee)|;
    CallSplit(ts, pos, c, end);
    NameComplete(ts, pos, c.callee, true, mid);
  }

  lemma CallSplit(ts: seq<Token>, pos: nat, c: Cst, end: nat)
    requires c.Call? && Lexed(ts) && Found(ts, pos, c, end, 5)
    ensures
      var mid := pos + |PathTokens(c.callee)|;
      && Reads(ts, pos, PathTokens(c.callee), mid) && mid < |ts| && ts[mid] == Symbol("(")
      && ItemsFound(ts, mid + 1, c.args, ")", false, end) && !Is(ts, mid, ".") && c.callee != []
  {
    hide *;
    CallFacts(ts, pos, c, end);
    var mid := pos + |PathTokens(c.callee)|;
    ReadsSplit(ts, pos, PathTokens(c.callee), [Symbol("(")] + ItemTokens(c.args) + [Symbol(")")], end);
    OpenedParts(ts, mid, "(", c.args, ")", false, end);
    SymbolIs(ts, mid, "(");
  }

  lemma CallFacts(ts: seq<Token>, pos: nat, c: Cst, end: nat)
    requires c.Call? && Found(ts, pos, c, end, 5)
    ensures Reads(ts, pos, PathTokens(c.callee) + ([Symbol("(")] + ItemTokens(c.args) + [Symbol(")")]), end)
    ensures c.callee != [] && GrammaticalItems(c.args, false)
  {
    CallTokens(c);
  }

  lemma CallTokens(c: Cst)
    requires c.Call?
    ensures Tokens(c) == PathTokens(c.callee) + ([Symbol("(")] + ItemTokens(c.args) + [Symbol(")")])
  {
  }

  lemma HeadCall(ts: seq<Token>, pos: nat, c: Cst, end: nat, depth: nat, max: nat)
    requires c.Call? && Lexed(ts) && c.callee != [] && pos < |ts| && ts[pos] == Word(c.callee[0])
    requires
      var mid := pos + |PathTokens(c.callee)|;
      && pos < mid < |ts| && ts[mid] == Symbol("(")
      && ParsePath(ts, pos + 1, [c.callee[0]], true) == Ok((c.callee, mid))
      && ParseItems(ts, mid + 1, ")", false, depth, max) == Ok((c.args, end))
    requires c.callee[0] in {"not", "true", "false", "null"} ==> Is(ts, pos + 1, ".")
    ensures Head(ts, pos, depth, max) == Ok((c, end))
  {
    WordIs(ts, pos, c.callee[0]);
  }

  lemma HeadSimple(ts: seq<Token>, pos: nat, c: Cst, end: nat, depth: nat, max: nat)
    requires c.Constant? || c.Regex? || c.Static? || c.Handle? || c.Name?
    requires Lexed(ts) && Found(ts, pos, c, end, 5) && HeadEnds(ts, end, c) && pos < |ts|
    ensures Head(ts, pos, depth, max) == Ok((c, end))
  {
    if c.Static? {
      HeadStatic(ts, pos, c, end, depth, max);
    } else if c.Name? {
      HeadName(ts, pos, c, end, depth, max);
    } else {
      ReadsFirst(ts, pos, Tokens(c), end);
    }
  }

  lemma HeadStatic(ts: seq<Token>, pos: nat, c: Cst, end: nat, depth: nat, max: nat)
    requires c.Static? && Lexed(ts) && Found(ts, pos, c, end, 5) && HeadEnds(ts, end, c) && pos < |ts|
    ensures Head(ts, pos, depth, max) == Ok((c, end))
  {
    ReadsSplit(ts, pos, [Symbol("&")], PathTokens(c.path), end);
    ReadsFirst(ts, pos, [Symbol("&")], pos + 1);
    NameComplete(ts, pos + 1, c.path, false, end);
  }

  lemma HeadName(ts: seq<Token>, pos: nat, c: Cst, end: nat, depth: nat, max: nat)
    requires c.Name? && Lexed(ts) && Found(ts, pos, c, end, 5) && HeadEnds(ts, end, c) && pos < |ts|
    ensures Head(ts, pos, depth, max) == Ok((c, end))
  {
    NameComplete(ts, pos, c.path, true, end);
    WordIs(ts, pos, c.path[0]);
    assert GoodPath(c.path) && !Is(ts, end, "(");
    hide ParsePath, ParseItems, Parse, Found, HeadEnds, Tokens, GoodPath, Lexed;
  }

  // ---- Items ----

  lemma {:induction false} ItemsComplete(
      ts: seq<Token>, pos: nat, items: Items, close: string, labelled: bool, end: nat, depth: nat, max: nat)
    requires Lexed(ts) && ItemsFound(ts, pos, items, close, labelled, end) && close in {")", "]", "}"}
    requires ItemsFit(items, depth, max)
    ensures pos <= |ts| && ParseItems(ts, pos, close, labelled, depth, max) == Ok((items, end))
    decreases items, 1
  {
    if items == Empty {
      assert [] + [Symbol(close)] == [Symbol(close)];
      ReadsFirst(ts, pos, [Symbol(close)], end);
    } else {
      ItemsOpen(ts, pos, items, close, labelled, end);
      MoreComplete(ts, pos, items, close, labelled, end, depth, max);
    }
  }

  lemma ItemsOpen(ts: seq<Token>, pos: nat, items: Items, close: string, labelled: bool, end: nat)
    requires Lexed(ts) && ItemsFound(ts, pos, items, close, labelled, end) && close in {")", "]", "}"} && items != Empty
    ensures pos < |ts| && !Is(ts, pos, close)
  {
    Opens(items.item);
    var s := ItemTokens(items) + [Symbol(close)];
    ReadsFirst(ts, pos, s, end);
    if items.tag == Unlabelled {
      assert s[0] == Tokens(items.item)[0];
    } else {
      assert s[0] == LabelTokens(items.tag)[0];
    }
  }

  lemma {:induction false} MoreComplete(
      ts: seq<Token>, pos: nat, items: Items, close: string, labelled: bool, end: nat, depth: nat, max: nat)
    requires Lexed(ts) && ItemsFound(ts, pos, items, close, labelled, end) && close in {")", "]", "}"}
    requires ItemsFit(items, depth, max)
    requires items != Empty
    ensures pos <= |ts| && ParseMore(ts, pos, close, labelled, depth, max) == Ok((items, end))
    decreases items, 0
  {
    hide *;
    var first := pos + |LabelTokens(items.tag)|;
    var mid := first + |Tokens(items.item)|;
    ItemParts(ts, pos, items, close, labelled, end, depth, max);
    Complete(ts, first, items.item, mid, 0, depth, max);
    ItemReadHere(ts, pos, items, first, mid, labelled, depth, max);
    if items.Last? {
      LastMarks(ts, mid, items, close, end);
      LastParsed(ts, pos, items, first, mid, close, labelled, end, depth, max);
    } else {
      RestGrammatical(ts, pos, items, close, labelled, end);
      RestParts(ts, mid, items, close, labelled, end, depth, max);
      MoreComplete(ts, mid + 1, items.rest, close, labelled, end, depth, max);
      MoreParsed(ts, pos, items, first, mid, close, labelled, end, depth, max);
    }
  }

  lemma ItemReadHere(ts: seq<Token>, pos: nat, items: Items, first: nat, mid: nat, labelled: bool, depth: nat, max: nat)
    requires items != Empty && pos <= first <= |ts| && ParseLabel(ts, pos, labelled) == Ok((items.tag, first))
    requires Parse(ts, first, 0, depth, max) == Ok((items.item, mid))
    ensures ItemRead(ts, pos, items, first, mid, labelled, depth, max)
  {
  }

  /** What follows an item. */
  function Rest(items: Items, close: string): seq<Token>
    requires items != Empty
  {
    if items.Last? then (if items.trailing then [Symbol(",")] else []) + [Symbol(close)]
    else [Symbol(",")] + (ItemTokens(items.rest) + [Symbol(close)])
  }

  lemma ItemParts(ts: seq<Token>, pos: nat, items: Items, close: string, labelled: bool, end: nat, depth: nat, max: nat)
    requires Lexed(ts) && ItemsFound(ts, pos, items, close, labelled, end) && close in {")", "]", "}"}
    requires ItemsFit(items, depth, max)
    requires items != Empty
    ensures
      var first := pos + |LabelTokens(items.tag)|;
      var mid := first + |Tokens(items.item)|;
      && first <= |ts| && ParseLabel(ts, pos, labelled) == Ok((items.tag, first))
      && Found(ts, first, items.item, mid, 0) && Ends(ts, mid) && Stops(ts, mid, 0) && Fits(items.item, depth, max)
      && Reads(ts, mid, Rest(items, close), end) && mid < |ts|
  {
    hide *;
    var first := pos + |LabelTokens(items.tag)|;
    var mid := first + |Tokens(items.item)|;
    ItemReads(ts, pos, items, close, labelled, end);
    LabelComplete(ts, pos, items.tag, labelled, first);
    RestEnds(ts, mid, items, close, end);
    ItemSmaller(items, depth, max);
  }

  lemma ItemSmaller(items: Items, depth: nat, max: nat)
    requires items != Empty && ItemsFit(items, depth, max)
    ensures Fits(items.item, depth, max)
  {
  }

  lemma ItemReads(ts: seq<Token>, pos: nat, items: Items, close: string, labelled: bool, end: nat)
    requires ItemsFound(ts, pos, items, close, labelled, end) && items != Empty
    ensures
      var first := pos + |LabelTokens(items.tag)|;
      var mid := first + |Tokens(items.item)|;
      && first <= |ts| && Reads(ts, pos, LabelTokens(items.tag), first) && GoodLabel(items.tag, labelled)
      && Found(ts, first, items.item, mid, 0) && Reads(ts, mid, Rest(items, close), end)
  {
    hide *;
    ItemGrammatical(ts, pos, items, close, labelled, end);
    var head := LabelTokens(items.tag);
    var first := pos + |head|;
    ItemTokensAre(items, close);
    ReadsSplit(ts, pos, head, Tokens(items.item) + Rest(items, close), end);
    ReadsSplit(ts, first, Tokens(items.item), Rest(items, close), end);
    ReadsFirst(ts, pos, head, first);
    FoundHere(ts, first, items.item, first + |Tokens(items.item)|);
  }

  lemma ItemGrammatical(ts: seq<Token>, pos: nat, items: Items, close: string, labelled: bool, end: nat)
    requires ItemsFound(ts, pos, items, close, labelled, end) && items != Empty
    ensures Reads(ts, pos, ItemTokens(items) + [Symbol(close)], end)
    ensures GoodLabel(items.tag, labelled) && Grammatical(items.item)
  {
  }

  lemma FoundHere(ts: seq<Token>, pos: nat, c: Cst, end: nat)
    requires Reads(ts, pos, Tokens(c), end) && Grammatical(c)
    ensures Found(ts, pos, c, end, 0)
  {
  }

  lemma ItemTokensAre(items: Items, close: string)
    requires items != Empty
    ensures ItemTokens(items) + [Symbol(close)]
      == LabelTokens(items.tag) + (Tokens(items.item) + Rest(items, close))
  {
  }

  lemma RestEnds(ts: seq<Token>, mid: nat, items: Items, close: string, end: nat)
    requires Lexed(ts) && items != Empty && Reads(ts, mid, Rest(items, close), end) && close in {")", "]", "}"}
    ensures mid < |ts| && Ends(ts, mid) && Stops(ts, mid, 0)
  {
    ReadsFirst(ts, mid, Rest(items, close), end);
    MarkEnds(ts, mid, ts[mid].text);
  }

  /** The label and the expression of an item were read. */
  ghost predicate ItemRead(
      ts: seq<Token>, pos: nat, items: Items, first: nat, mid: nat, labelled: bool, depth: nat, max: nat)
  {
    && items != Empty && pos <= |ts| && first <= |ts| && ParseLabel(ts, pos, labelled) == Ok((items.tag, first))
    && Parse(ts, first, 0, depth, max) == Ok((items.item, mid))
  }

  lemma LastMarks(ts: seq<Token>, mid: nat, items: Items, close: string, end: nat)
    requires items.Last? && close in {")", "]", "}"} && Reads(ts, mid, Rest(items, close), end)
    ensures if items.trailing then !Is(ts, mid, close) && Is(ts, mid, ",") && Is(ts, mid + 1, close) && end == mid + 2
      else Is(ts, mid, close) && end == mid + 1
  {
    ReadsFirst(ts, mid, Rest(items, close), end);
  }

  lemma LastParsed(
      ts: seq<Token>, pos: nat, items: Items, first: nat, mid: nat, close: string, labelled: bool, end: nat,
      depth: nat, max: nat)
    requires items.Last? && ItemRead(ts, pos, items, first, mid, labelled, depth, max)
    requires if items.trailing then !Is(ts, mid, close) && Is(ts, mid, ",") && Is(ts, mid + 1, close) && end == mid + 2
      else Is(ts, mid, close) && end == mid + 1
    ensures ParseMore(ts, pos, close, labelled, depth, max) == Ok((items, end))
  {
  }

  lemma RestParts(ts: seq<Token>, mid: nat, items: Items, close: string, labelled: bool, end: nat, depth: nat, max: nat)
    requires items.More? && Lexed(ts) && Reads(ts, mid, Rest(items, close), end) && close in {")", "]", "}"}
    requires GrammaticalItems(items.rest, labelled) && items.rest != Empty && ItemsFit(items, depth, max)
    ensures mid < |ts| && Is(ts, mid, ",") && !Is(ts, mid, close)
    ensures ItemsFound(ts, mid + 1, items.rest, close, labelled, end)
    ensures ItemsFit(items.rest, depth, max) && !Is(ts, mid + 1, close)
  {
    ReadsSplit(ts, mid, [Symbol(",")], ItemTokens(items.rest) + [Symbol(close)], end);
    ReadsFirst(ts, mid, [Symbol(",")], mid + 1);
    ItemsOpen(ts, mid + 1, items.rest, close, labelled, end);
  }

  lemma RestGrammatical(ts: seq<Token>, pos: nat, items: Items, close: string, labelled: bool, end: nat)
    requires items.More? && ItemsFound(ts, pos, items, close, labelled, end)
    ensures GrammaticalItems(items.rest, labelled) && items.rest != Empty
  {
  }

  lemma MoreParsed(
      ts: seq<Token>, pos: nat, items: Items, first: nat, mid: nat, close: string, labelled: bool, end: nat,
      depth: nat, max: nat)
    requires items.More? && ItemRead(ts, pos, items, first, mid, labelled, depth, max)
    requires mid < |ts| && Is(ts, mid, ",") && !Is(ts, mid, close) && !Is(ts, mid + 1, close)
    requires ParseMore(ts, mid + 1, close, labelled, depth, max) == Ok((items.rest, end))
    ensures ParseMore(ts, pos, close, labelled, depth, max) == Ok((items, end))
  {
  }

  // ---- Main results ----

  /** Exactly the grammatical texts whose nesting is allowed are accepted, each as itself. */
  lemma AcceptsGrammar(ts: seq<Token>, c: Cst, max: nat)
    requires Lexed(ts)
    ensures Parse(ts, 0, 0, 0, max) == Ok((c, |ts|)) <==> Grammatical(c) && Tokens(c) == ts && Need(c) <= max
  {
    if Grammatical(c) && Tokens(c) == ts && Need(c) <= max {
      assert ts[0..|ts|] == ts;
      Complete(ts, 0, c, |ts|, 0, 0, max);
    }
    if Parse(ts, 0, 0, 0, max) == Ok((c, |ts|)) {
      WholeSound(ts, 0, max);
      ParseFits(ts, 0, 0, 0, max);
    }
  }

  /** A grammatical text is read to its end exactly when its nesting is allowed. */
  lemma ReadIffNested(c: Cst, max: nat)
    requires Grammatical(c)
    ensures
      var ts := Tokens(c);
      (exists d :: Parse(ts, 0, 0, 0, max) == Ok((d, |ts|))) <==> Need(c) <= max
  {
    var ts := Tokens(c);
    SpellingsLexed(c);
    if d :| Parse(ts, 0, 0, 0, max) == Ok((d, |ts|)) {
      AcceptsGrammar(ts, d, max);
      Unambiguous(c, d);
    }
    AcceptsGrammar(ts, c, max);
  }

  /** No text needs more nesting than it has tokens. */
  lemma {:induction false} NeedWithinTokens(c: Cst)
    requires Grammatical(c)
    ensures Need(c) <= |Tokens(c)| && Operators(c) < |Tokens(c)| && Projections(c) < |Tokens(c)|
    decreases c, 1
  {
    Opens(c);
    if c.Get? {
      NeedWithinTokens(c.base);
    } else if c.Not? {
      NeedWithinTokens(c.operand);
    } else if c.Binary? {
      NeedWithinTokens(c.left);
      NeedWithinTokens(c.right);
    } else if c.Paren? {
      NeedWithinTokens(c.inner);
    } else if c.List? {
      ItemsNeedWithinTokens(c.items, false);
    } else if c.Record? {
      ItemsNeedWithinTokens(c.fields, true);
    } else if c.Call? {
      ItemsNeedWithinTokens(c.args, false);
    }
  }

  lemma {:induction false} ItemsNeedWithinTokens(items: Items, labelled: bool)
    requires GrammaticalItems(items, labelled)
    ensures NeedItems(items) <= |ItemTokens(items)|
    decreases items, 0
  {
    if items != Empty {
      NeedWithinTokens(items.item);
      if items.More? {
        ItemsNeedWithinTokens(items.rest, labelled);
      }
    }
  }

  lemma LexedAppend(a: seq<Token>, b: seq<Token>)
    requires Lexed(a) && Lexed(b)
    ensures Lexed(a + b)
  {
  }

  lemma LexedBetween(open: string, inner: seq<Token>, close: string)
    requires Lexed(inner) && !WordText(open) && !WordText(close)
    ensures Lexed([Symbol(open)] + inner + [Symbol(close)])
  {
  }

  lemma {:induction false} SpellingsLexed(c: Cst)
    requires Grammatical(c)
    ensures Lexed(Tokens(c))
    decreases c, 1
  {
    if c.Get? {
      SpellingsLexed(c.base);
      LexedAppend(Tokens(c.base), StepTokens(c.step));
    } else if c.Not? {
      SpellingsLexed(c.operand);
      LexedAppend([Word("not")], Tokens(c.operand));
    } else if c.Binary? {
      SpellingsLexed(c.left);
      SpellingsLexed(c.right);
      LexedAppend(Tokens(c.left), [OpToken(c.op)]);
      LexedAppend(Tokens(c.left) + [OpToken(c.op)], Tokens(c.right));
    } else if c.Paren? {
      SpellingsLexed(c.inner);
      LexedBetween("(", Tokens(c.inner), ")");
    } else if c.List? {
      ItemsLexed(c.items, false);
      LexedBetween("[", ItemTokens(c.items), "]");
    } else if c.Record? {
      ItemsLexed(c.fields, true);
      LexedBetween("{", ItemTokens(c.fields), "}");
    } else {
      OperandLexed(c);
    }
  }

  lemma {:induction false} OperandLexed(c: Cst)
    requires Grammatical(c) && !c.Get? && !c.Not? && !c.Binary? && !c.Paren? && !c.List? && !c.Record?
    ensures Lexed(Tokens(c))
    decreases c, 0
  {
    if c.Call? {
      PathLexed(c.callee);
      ItemsLexed(c.args, false);
      LexedBetween("(", ItemTokens(c.args), ")");
      CallTokens(c);
      LexedAppend(PathTokens(c.callee), [Symbol("(")] + ItemTokens(c.args) + [Symbol(")")]);
    } else if c.Name? || c.Static? {
      PathLexed(c.path);
    }
  }

  lemma PathLexed(path: seq<string>)
    requires GoodStatic(path) || GoodPath(path)
    ensures Lexed(PathTokens(path))
  {
    DotsLexed(path[1..]);
  }

  lemma {:induction false} DotsLexed(path: seq<string>)
    requires forall i :: 0 <= i < |path| ==> WordText(path[i])
    ensures Lexed(DotTokens(path))
  {
    if path != [] {
      DotsLexed(path[1..]);
    }
  }

  lemma {:induction false} ItemsLexed(items: Items, labelled: bool)
    requires GrammaticalItems(items, labelled)
    ensures Lexed(ItemTokens(items))
  {
    if items != Empty {
      SpellingsLexed(items.item);
      if items.More? {
        ItemsLexed(items.rest, labelled);
      }
    }
  }

  /** Printing a tree with as few parentheses as possible and parsing it gives the tree back. */
  lemma RoundTrip(e: Expr, max: nat)
    requires Writable(e) && Need(Minimal(e)) <= max
    ensures
      var ts := Tokens(Minimal(e));
      var r := Parse(ts, 0, 0, 0, max);
      r.Ok? && Tree(r.value.0) == e && r.value.1 == |ts|
  {
    MinimalIsGrammatical(e);
    SpellingsLexed(Minimal(e));
    AcceptsGrammar(Tokens(Minimal(e)), Minimal(e), max);
  }

  /** No text has two readings. */
  lemma Unambiguous(a: Cst, b: Cst)
    requires Grammatical(a) && Grammatical(b) && Tokens(a) == Tokens(b)
    ensures a == b
  {
    var ts := Tokens(a);
    SpellingsLexed(a);
    AcceptsGrammar(ts, a, Max(Need(a), Need(b)));
    AcceptsGrammar(ts, b, Max(Need(a), Need(b)));
  }
}
