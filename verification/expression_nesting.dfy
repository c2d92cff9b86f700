// How much nesting an expression needs (crates/htlk-compiler/src/parser.rs:675-880).

module ExpressionNesting {
  import opened Wrappers
  import opened Syntax
  import opened ExpressionParser

  /** Projections at the end of an operand. */
  function Projections(c: Cst): nat {
    if c.Get? then Projections(c.base) + 1 else 0
  }

  /** Operators read after each other before the last operand of `c`. */
  function Operators(c: Cst): nat {
    if c.Binary? then Operators(c.left) + 1 else 0
  }

  function Max(a: nat, b: nat): nat {
    if a < b then b else a
  }

  /** The nesting a text needs: operators and projections in a row count like brackets. */
  function Need(c: Cst): nat {
    match c
    case Paren(inner) => 1 + Need(inner)
    case List(items) => 1 + NeedItems(items)
    case Record(fields) => 1 + NeedItems(fields)
    case Call(_, args) => 1 + NeedItems(args)
    case Get(b, _) => Max(Need(b), Projections(b) + 2)
    case Not(e) => 1 + Need(e)
    case Binary(_, l, r) => Max(Need(l), Max(Operators(l) + 2, 1 + Need(r)))
    case _ => 1
  }

  function NeedItems(items: Items): nat {
    match items
    case Empty => 0
    case Last(_, c, _) => Need(c)
    case More(_, c, rest) => Max(Need(c), NeedItems(rest))
  }

  /** Enough nesting is left for a text. */
  predicate Fits(c: Cst, depth: nat, max: nat) {
    depth + Need(c) <= max
  }

  predicate ItemsFit(items: Items, depth: nat, max: nat) {
    depth + NeedItems(items) <= max
  }

  // ---- Whatever is accepted fits ----

  lemma {:induction false} ParseFits(ts: seq<Token>, pos: nat, min: nat, depth: nat, max: nat)
    requires Parse(ts, pos, min, depth, max).Ok?
    ensures Fits(Parse(ts, pos, min, depth, max).value.0, depth, max)
    decreases |ts| - pos, 3
  {
    hide Head, Suffixes, Primary, Climb, ParseItems, ParseMore;
    assert depth + 1 <= max && pos < |ts|;
    if Is(ts, pos, "not") && !Qualified(ts, pos) {
      var e := Parse(ts, pos + 1, 3, depth + 1, max);
      ParseFits(ts, pos + 1, 3, depth + 1, max);
      ClimbFits(ts, e.value.1, Not(e.value.0), false, 0, min, depth + 1, max);
    } else {
      var e := Primary(ts, pos, depth + 1, max);
      PrimaryFits(ts, pos, depth + 1, max);
      ClimbFits(ts, e.value.1, e.value.0, false, 0, min, depth + 1, max);
    }
  }

  lemma {:induction false} ClimbFits(
      ts: seq<Token>, pos: nat, left: Cst, compared: bool, chain: nat, min: nat, depth: nat, max: nat)
    requires pos <= |ts| && depth >= 1 && Fits(left, depth - 1, max) && chain == Operators(left)
    requires Climb(ts, pos, left, compared, chain, min, depth, max).Ok?
    ensures Fits(Climb(ts, pos, left, compared, chain, min, depth, max).value.0, depth - 1, max)
    decreases |ts| - pos, 4
  {
    hide Parse;
    var op := OpAt(ts, pos);
    if op.Some? && Precedence(op.value) >= min {
      var right := Parse(ts, pos + 1, Precedence(op.value) + 1, depth, max);
      ParseFits(ts, pos + 1, Precedence(op.value) + 1, depth, max);
      ClimbFits(ts, right.value.1, Binary(op.value, left, right.value.0), compared || Precedence(op.value) == 4,
        chain + 1, min, depth, max);
    }
  }

  lemma {:induction false} PrimaryFits(ts: seq<Token>, pos: nat, depth: nat, max: nat)
    requires pos < |ts| && 1 <= depth <= max && Primary(ts, pos, depth, max).Ok?
    ensures Fits(Primary(ts, pos, depth, max).value.0, depth - 1, max)
    ensures !Primary(ts, pos, depth, max).value.0.Binary?
    decreases |ts| - pos, 2
  {
    hide *;
    PrimaryEquation(ts, pos, depth, max);
    var head := Head(ts, pos, depth, max);
    HeadFits(ts, pos, depth, max);
    SuffixesFit(ts, head.value.1, head.value.0, 0, depth, max);
  }

  lemma {:induction false} SuffixesFit(ts: seq<Token>, pos: nat, base: Cst, count: nat, depth: nat, max: nat)
    requires pos <= |ts| && depth >= 1 && Fits(base, depth - 1, max) && count == Projections(base) && !base.Binary?
    requires Suffixes(ts, pos, base, count, depth, max).Ok?
    ensures Fits(Suffixes(ts, pos, base, count, depth, max).value.0, depth - 1, max)
    ensures !Suffixes(ts, pos, base, count, depth, max).value.0.Binary?
    decreases |ts| - pos, 0
  {
    hide Suffixes, ParseStep;
    SuffixesEquation(ts, pos, base, count, depth, max);
    var step := ParseStep(ts, pos);
    if step.value.Some? {
      var (s, end) := step.value.value;
      SuffixesFit(ts, end, Get(base, s), count + 1, depth, max);
    }
  }

  lemma {:induction false} HeadFits(ts: seq<Token>, pos: nat, depth: nat, max: nat)
    requires pos < |ts| && 1 <= depth <= max && Head(ts, pos, depth, max).Ok?
    ensures Fits(Head(ts, pos, depth, max).value.0, depth - 1, max)
    ensures Projections(Head(ts, pos, depth, max).value.0) == 0 && !Head(ts, pos, depth, max).value.0.Binary?
    decreases |ts| - pos, 1
  {
    hide Parse, ParseItems, ParsePath, NameHead;
    if Is(ts, pos, "(") {
      ParseFits(ts, pos + 1, 0, depth, max);
    } else if Is(ts, pos, "&") || Is(ts, pos, "@") {
    } else if Is(ts, pos, "[") {
      ItemsReadFit(ts, pos + 1, "]", false, depth, max);
    } else if Is(ts, pos, "{") {
      ItemsReadFit(ts, pos + 1, "}", true, depth, max);
    } else if ts[pos].Word? {
      NameFits(ts, pos, ts[pos].text, depth, max);
    }
  }

  lemma {:induction false} NameFits(ts: seq<Token>, pos: nat, w: string, depth: nat, max: nat)
    requires pos < |ts| && 1 <= depth <= max && NameHead(ts, pos, w, depth, max).Ok?
    ensures Fits(NameHead(ts, pos, w, depth, max).value.0, depth - 1, max)
    ensures Projections(NameHead(ts, pos, w, depth, max).value.0) == 0
    ensures !NameHead(ts, pos, w, depth, max).value.0.Binary?
    decreases |ts| - pos, 0
  {
    hide ParseItems, ParsePath;
    var path := ParsePath(ts, pos + 1, [w], true);
    if path.Ok? && Is(ts, path.value.1, "(") && ParseItems(ts, path.value.1 + 1, ")", false, depth, max).Ok? {
      ItemsReadFit(ts, path.value.1 + 1, ")", false, depth, max);
    }
  }

  lemma {:induction false} ItemsReadFit(
      ts: seq<Token>, pos: nat, close: string, labelled: bool, depth: nat, max: nat)
    requires pos <= |ts| && depth <= max && ParseItems(ts, pos, close, labelled, depth, max).Ok?
    ensures ItemsFit(ParseItems(ts, pos, close, labelled, depth, max).value.0, depth, max)
    decreases |ts| - pos, 6
  {
    hide ParseMore;
    if !Is(ts, pos, close) {
      MoreFits(ts, pos, close, labelled, depth, max);
    }
  }

  lemma {:induction false} MoreFits(
      ts: seq<Token>, pos: nat, close: string, labelled: bool, depth: nat, max: nat)
    requires pos <= |ts| && ParseMore(ts, pos, close, labelled, depth, max).Ok?
    ensures ItemsFit(ParseMore(ts, pos, close, labelled, depth, max).value.0, depth, max)
    decreases |ts| - pos, 5
  {
    hide Parse, ParseMore, ParseLabel;
    MoreEquation(ts, pos, close, labelled, depth, max);
    var tag := ParseLabel(ts, pos, labelled);
    LabelEnds(ts, pos, labelled);
    var e := Parse(ts, tag.value.1, 0, depth, max);
    ParseFits(ts, tag.value.1, 0, depth, max);
    if !Is(ts, e.value.1, close) && !Is(ts, e.value.1 + 1, close) {
      MoreFits(ts, e.value.1 + 1, close, labelled, depth, max);
    }
  }

  lemma LabelEnds(ts: seq<Token>, pos: nat, labelled: bool)
    requires pos <= |ts| && ParseLabel(ts, pos, labelled).Ok?
    ensures pos <= ParseLabel(ts, pos, labelled).value.1 <= |ts|
  {
  }
}
