// The expression parser as it runs, over a position and a nesting depth (crates/htlk-compiler/src/parser.rs).

module Parsers {
  import opened Wrappers
  import IntegralTokens
  import opened Syntax
  import opened ExpressionParser
  import opened ExpressionNesting
  import opened ExpressionSoundness
  import opened ExpressionCompleteness

  /** A method's result is the tree of what the grammar function reads. */
  ghost predicate Agrees(r: Result<Expr, Error>, pos: nat, o: Outcome) {
    if o.Ok? then r == Ok(Tree(o.value.0)) && pos == o.value.1 else r == Err(o.error)
  }

  ghost predicate ItemsAgree(r: Result<seq<Expr>, Error>, pos: nat, o: Result<(Items, nat), Error>) {
    if o.Ok? then r == Ok(Trees(o.value.0)) && pos == o.value.1 else r == Err(o.error)
  }

  ghost predicate FieldsAgree(r: Result<seq<Entry>, Error>, pos: nat, o: Result<(Items, nat), Error>) {
    if o.Ok? then r == Ok(FieldTrees(o.value.0)) && pos == o.value.1 else r == Err(o.error)
  }

  /** What has been read is the front of the result, and what is left is the rest. */
  ghost predicate Continues(seen: seq<Expr>, all: Result<(Items, nat), Error>, rest: Result<(Items, nat), Error>) {
    if rest.Err? then all == rest
    else all.Ok? && Trees(all.value.0) == seen + Trees(rest.value.0) && all.value.1 == rest.value.1
  }

  ghost predicate FieldsContinue(
      seen: seq<Entry>, all: Result<(Items, nat), Error>, rest: Result<(Items, nat), Error>)
  {
    if rest.Err? then all == rest
    else all.Ok? && FieldTrees(all.value.0) == seen + FieldTrees(rest.value.0) && all.value.1 == rest.value.1
  }

  lemma LabelNone(ts: seq<Token>, pos: nat)
    requires pos <= |ts|
    ensures ParseLabel(ts, pos, false) == Ok((Unlabelled, pos))
  {
  }

  lemma ItemsEnd(seen: seq<Expr>, all: Result<(Items, nat), Error>, rest: Result<(Items, nat), Error>)
    requires Continues(seen, all, rest) && rest.Err?
    ensures all == rest
  {
  }

  lemma FieldsEnd(seen: seq<Entry>, all: Result<(Items, nat), Error>, rest: Result<(Items, nat), Error>)
    requires FieldsContinue(seen, all, rest) && rest.Err?
    ensures all == rest
  {
  }

  /** One more item, and the ways a list goes on. */
  lemma ItemsNext(seen: seq<Expr>, all: Result<(Items, nat), Error>, c: Cst, here: Result<(Items, nat), Error>)
    requires Continues(seen, all, here)
    ensures here.Err? ==> all == here
    ensures forall tag, trailing :: here.Ok? && here.value.0 == Last(tag, c, trailing) ==>
      all.Ok? && Trees(all.value.0) == seen + [Tree(c)] && all.value.1 == here.value.1
    ensures forall tag, rest :: here.Ok? && here.value.0 == More(tag, c, rest) ==>
      Continues(seen + [Tree(c)], all, Ok((rest, here.value.1)))
    ensures here.Err? ==> Continues(seen + [Tree(c)], all, here)
  {
    hide Tree;
    if here.Ok? && here.value.0.More? {
      assert seen + ([Tree(c)] + Trees(here.value.0.rest)) == (seen + [Tree(c)]) + Trees(here.value.0.rest);
    }
  }

  lemma FieldsNext(
      seen: seq<Entry>, all: Result<(Items, nat), Error>, tag: Label, c: Cst, here: Result<(Items, nat), Error>)
    requires FieldsContinue(seen, all, here)
    ensures here.Err? ==> all == here
    ensures forall trailing :: here.Ok? && here.value.0 == Last(tag, c, trailing) ==>
      all.Ok? && FieldTrees(all.value.0) == seen + [Entry(LabelName(tag), Tree(c))] && all.value.1 == here.value.1
    ensures forall rest :: here.Ok? && here.value.0 == More(tag, c, rest) ==>
      FieldsContinue(seen + [Entry(LabelName(tag), Tree(c))], all, Ok((rest, here.value.1)))
    ensures here.Err? ==> FieldsContinue(seen + [Entry(LabelName(tag), Tree(c))], all, here)
  {
    hide Tree, LabelName;
    if here.Ok? && here.value.0.More? {
      var entry := Entry(LabelName(tag), Tree(c));
      assert seen + ([entry] + FieldTrees(here.value.0.rest)) == (seen + [entry]) + FieldTrees(here.value.0.rest);
    }
  }

  lemma FieldsStep(seen: seq<Entry>, all: Result<(Items, nat), Error>, ts: seq<Token>, pos: nat, depth: nat, max: nat)
    requires pos <= |ts| && FieldsContinue(seen, all, ParseMore(ts, pos, "}", true, depth, max))
    ensures
      var tag := ParseLabel(ts, pos, true);
      if tag.Err? then all == Err(tag.error) else
        var e := Parse(ts, tag.value.1, 0, depth, max);
        if e.Err? then all == Err(e.error) else
          var mid, now := e.value.1, seen + [Entry(LabelName(tag.value.0), Tree(e.value.0))];
          && (Is(ts, mid, "}") ==> all.Ok? && FieldTrees(all.value.0) == now && all.value.1 == mid + 1)
          && (!Is(ts, mid, "}") && !Is(ts, mid, ",") ==> all == Err(Unexpected))
          && (!Is(ts, mid, "}") && Is(ts, mid, ",") && Is(ts, mid + 1, "}") ==>
            all.Ok? && FieldTrees(all.value.0) == now && all.value.1 == mid + 2)
          && (!Is(ts, mid, "}") && Is(ts, mid, ",") && !Is(ts, mid + 1, "}") ==>
            mid + 1 <= |ts| && FieldsContinue(now, all, ParseMore(ts, mid + 1, "}", true, depth, max)))
  {
    hide *;
    MoreEquation(ts, pos, "}", true, depth, max);
    var tag := ParseLabel(ts, pos, true);
    if tag.Err? {
      FieldsEnd(seen, all, Err(tag.error));
    } else {
      var e := Parse(ts, tag.value.1, 0, depth, max);
      if e.Err? {
        FieldsEnd(seen, all, Err(e.error));
      } else {
        FieldsNext(seen, all, tag.value.0, e.value.0, ParseMore(ts, pos, "}", true, depth, max));
      }
    }
  }

  lemma FieldsStart(ts: seq<Token>, pos: nat, depth: nat, max: nat)
    requires pos <= |ts|
    ensures
      var all := ParseItems(ts, pos, "}", true, depth, max);
      if Is(ts, pos, "}") then all.Ok? && all.value.1 == pos + 1 && FieldTrees(all.value.0) == [] else
        all == ParseMore(ts, pos, "}", true, depth, max) && FieldsContinue([], all, all)
  {
  }

  lemma ItemsStart(ts: seq<Token>, pos: nat, close: string, depth: nat, max: nat)
    requires pos <= |ts|
    ensures
      var all := ParseItems(ts, pos, close, false, depth, max);
      if Is(ts, pos, close) then all.Ok? && all.value.1 == pos + 1 && Trees(all.value.0) == [] else
        all == ParseMore(ts, pos, close, false, depth, max) && Continues([], all, all)
  {
  }

  lemma ItemsStep(
      seen: seq<Expr>, all: Result<(Items, nat), Error>, ts: seq<Token>, pos: nat, close: string, depth: nat,
      max: nat)
    requires pos <= |ts| && Continues(seen, all, ParseMore(ts, pos, close, false, depth, max))
    ensures
      var e := Parse(ts, pos, 0, depth, max);
      if e.Err? then all == Err(e.error) else
        var mid, now := e.value.1, seen + [Tree(e.value.0)];
        && (Is(ts, mid, close) ==> all.Ok? && Trees(all.value.0) == now && all.value.1 == mid + 1)
        && (!Is(ts, mid, close) && !Is(ts, mid, ",") ==> all == Err(Unexpected))
        && (!Is(ts, mid, close) && Is(ts, mid, ",") && Is(ts, mid + 1, close) ==>
          all.Ok? && Trees(all.value.0) == now && all.value.1 == mid + 2)
        && (!Is(ts, mid, close) && Is(ts, mid, ",") && !Is(ts, mid + 1, close) ==>
          mid + 1 <= |ts| && Continues(now, all, ParseMore(ts, mid + 1, close, false, depth, max)))
  {
    hide *;
    MoreEquation(ts, pos, close, false, depth, max);
    LabelNone(ts, pos);
    var e := Parse(ts, pos, 0, depth, max);
    if e.Err? {
      ItemsEnd(seen, all, Err(e.error));
    } else {
      ItemsNext(seen, all, e.value.0, ParseMore(ts, pos, close, false, depth, max));
    }
  }

  /** The first operand of an expression, possibly negated. */
  function OperandAt(ts: seq<Token>, pos: nat, depth: nat, max: nat): Outcome
    requires pos < |ts|
  {
    if Is(ts, pos, "not") && !Qualified(ts, pos) then
      var e := Parse(ts, pos + 1, 3, depth, max);
      if e.Ok? then Ok((Not(e.value.0), e.value.1)) else e
    else Primary(ts, pos, depth, max)
  }

  /** How an expression starts. */
  lemma ParseStart(ts: seq<Token>, pos: nat, min: nat, depth: nat, max: nat)
    ensures depth + 1 > max ==> Parse(ts, pos, min, depth, max) == Err(Limit)
    ensures depth + 1 <= max && pos >= |ts| ==> Parse(ts, pos, min, depth, max) == Err(Unexpected)
    ensures depth + 1 <= max && pos < |ts| ==>
      var operand := OperandAt(ts, pos, depth + 1, max);
      && (operand.Ok? ==> operand.value.1 <= |ts|)
      && Parse(ts, pos, min, depth, max) == if operand.Err? then operand else
        Climb(ts, operand.value.1, operand.value.0, false, 0, min, depth + 1, max)
  {
  }

  lemma ClimbEnd(ts: seq<Token>, pos: nat, left: Cst, compared: bool, chain: nat, min: nat, depth: nat, max: nat)
    requires pos <= |ts|
    ensures Stops(ts, pos, min) ==> Climb(ts, pos, left, compared, chain, min, depth, max) == Ok((left, pos))
    ensures !Stops(ts, pos, min) && chain + 1 + depth > max ==>
      Climb(ts, pos, left, compared, chain, min, depth, max) == Err(Limit)
    ensures !Stops(ts, pos, min) && chain + 1 + depth <= max && Precedence(OpAt(ts, pos).value) == 4 ==>
      var negated := pos + 1 < |ts| && ts[pos + 1] == Word("not") && !Qualified(ts, pos + 1);
      && (negated ==> Climb(ts, pos, left, compared, chain, min, depth, max) == Err(NotOperand))
      && (!negated && compared ==> Climb(ts, pos, left, compared, chain, min, depth, max) == Err(Chained))
  {
  }

  /** What climbing does with one operator. */
  lemma ClimbNext(ts: seq<Token>, pos: nat, left: Cst, compared: bool, chain: nat, min: nat, depth: nat, max: nat)
    requires pos <= |ts| && !Stops(ts, pos, min) && chain + 1 + depth <= max
    requires
      var p := Precedence(OpAt(ts, pos).value);
      p == 4 ==> !compared && !(pos + 1 < |ts| && ts[pos + 1] == Word("not") && !Qualified(ts, pos + 1))
    ensures
      var op := OpAt(ts, pos).value;
      var right := Parse(ts, pos + 1, Precedence(op) + 1, depth, max);
      Climb(ts, pos, left, compared, chain, min, depth, max) == if right.Err? then right else
        Climb(
          ts, right.value.1, Binary(op, left, right.value.0), compared || Precedence(op) == 4, chain + 1, min,
          depth, max)
  {
  }

  class Parser {
    const tokens: seq<Token>
    const maxDepth: nat
    var pos: nat
    var depth: nat

    constructor (tokens: seq<Token>, maxDepth: nat)
      ensures this.tokens == tokens && this.maxDepth == maxDepth && pos == 0 && depth == 0
    {
      this.tokens, this.maxDepth, pos, depth := tokens, maxDepth, 0, 0;
    }

    method Eat(s: string) returns (eaten: bool)
      modifies this`pos
      ensures eaten == Is(tokens, old(pos), s) && pos == if eaten then old(pos) + 1 else old(pos)
    {
      eaten := Is(tokens, pos, s);
      if eaten {
        pos := pos + 1;
      }
    }

    /** One expression by precedence climbing. */
    method Expr(min: nat) returns (r: Result<Expr, Error>)
      requires pos <= |tokens|
      modifies this
      decreases |tokens| - pos, 4
      ensures Agrees(r, pos, Parse(tokens, old(pos), min, old(depth), maxDepth)) && (r.Ok? ==> depth == old(depth))
      ensures r.Ok? ==> old(pos) < pos <= |tokens|
    {
      hide Parse, Climb, OperandAt, OpAt;
      ParseStart(tokens, pos, min, depth, maxDepth);
      depth := depth + 1;
      if depth > maxDepth {
        return Err(Limit);
      }
      if pos >= |tokens| {
        return Err(Unexpected);
      }
      var operand := Operand();
      if operand.Err? {
        return operand;
      }
      var left := operand.value;
      ghost var read := OperandAt(tokens, old(pos), depth, maxDepth).value.0;
      var compared, chain := false, 0;
      while true
        invariant old(pos) < pos <= |tokens| && depth == old(depth) + 1 && left == Tree(read)
        invariant Parse(tokens, old(pos), min, old(depth), maxDepth)
          == Climb(tokens, pos, read, compared, chain, min, depth, maxDepth)
        decreases |tokens| - pos
      {
        ClimbEnd(tokens, pos, read, compared, chain, min, depth, maxDepth);
        var op := OpAt(tokens, pos);
        if op.None? || Precedence(op.value) < min {
          break;
        }
        chain := chain + 1;
        if chain + depth > maxDepth {
          return Err(Limit);
        }
        var next := pos + 1;
        if Precedence(op.value) == 4 && next < |tokens| && tokens[next] == Word("not") && !Qualified(tokens, next) {
          return Err(NotOperand);
        }
        if Precedence(op.value) == 4 && compared {
          return Err(Chained);
        }
        ClimbNext(tokens, pos, read, compared, chain - 1, min, depth, maxDepth);
        compared := compared || Precedence(op.value) == 4;
        pos := pos + 1;
        ghost var at := pos;
        var right := Expr(Precedence(op.value) + 1);
        if right.Err? {
          return right;
        }
        left := EBinary(op.value, left, right.value);
        read := Binary(op.value, read, Parse(tokens, at, Precedence(op.value) + 1, depth, maxDepth).value.0);
      }
      depth := depth - 1;
      return Ok(left);
    }

    method Operand() returns (r: Result<Expr, Error>)
      requires pos < |tokens|
      modifies this
      decreases |tokens| - pos, 3
      ensures Agrees(r, pos, OperandAt(tokens, old(pos), old(depth), maxDepth)) && (r.Ok? ==> depth == old(depth))
      ensures r.Ok? ==> old(pos) < pos <= |tokens|
    {
      if Is(tokens, pos, "not") && !Qualified(tokens, pos) {
        pos := pos + 1;
        r := Expr(3);
        if r.Ok? {
          r := Ok(ENot(r.value));
        }
      } else {
        r := PrimaryExpr();
      }
    }

    /** An operand and its projections. */
    method PrimaryExpr() returns (r: Result<Expr, Error>)
      requires pos < |tokens|
      modifies this
      decreases |tokens| - pos, 2
      ensures Agrees(r, pos, Primary(tokens, old(pos), old(depth), maxDepth)) && (r.Ok? ==> depth == old(depth))
      ensures r.Ok? ==> old(pos) < pos <= |tokens|
    {
      hide Head, Suffixes, Primary, ParseStep;
      PrimaryEquation(tokens, pos, depth, maxDepth);
      r := HeadExpr();
      if r.Err? {
        return;
      }
      ghost var read := Head(tokens, old(pos), old(depth), maxDepth).value.0;
      var e, suffixes := r.value, 0;
      while true
        invariant old(pos) < pos <= |tokens| && depth == old(depth) && e == Tree(read)
        invariant Primary(tokens, old(pos), old(depth), maxDepth) ==
          Suffixes(tokens, pos, read, suffixes, depth, maxDepth)
        decreases |tokens| - pos
      {
        SuffixesEquation(tokens, pos, read, suffixes, depth, maxDepth);
        var step := ParseStep(tokens, pos);
        if step.Err? {
          return Err(step.error);
        }
        if step.value.None? {
          break;
        }
        suffixes := suffixes + 1;
        if suffixes + depth > maxDepth {
          return Err(Limit);
        }
        e := EGet(e, Project(step.value.value.0));
        read := Get(read, step.value.value.0);
        pos := step.value.value.1;
      }
      return Ok(e);
    }

    method HeadExpr() returns (r: Result<Expr, Error>)
      requires pos < |tokens|
      modifies this
      decreases |tokens| - pos, 1
      ensures Agrees(r, pos, Head(tokens, old(pos), old(depth), maxDepth)) && (r.Ok? ==> depth == old(depth))
      ensures r.Ok? ==> old(pos) < pos <= |tokens|
    {
      hide *;
      if Is(tokens, pos, "(") {
        r := Parenthesised();
      } else if Is(tokens, pos, "&") {
        r := StaticName();
      } else if Is(tokens, pos, "@") {
        r := HandleName();
      } else if Is(tokens, pos, "[") {
        r := ListLiteral();
      } else if Is(tokens, pos, "{") {
        r := RecordLiteral();
      } else {
        r := TokenHead();
      }
    }

    /** An expression in parentheses. */
    method Parenthesised() returns (r: Result<Expr, Error>)
      requires pos < |tokens| && Is(tokens, pos, "(")
      modifies this
      decreases |tokens| - pos, 0
      ensures Agrees(r, pos, Head(tokens, old(pos), old(depth), maxDepth)) && (r.Ok? ==> depth == old(depth))
      ensures r.Ok? ==> old(pos) < pos <= |tokens|
    {
      hide Parse, ParsePath, ParseItems, Trees, FieldTrees, NameHead;
      pos := pos + 1;
      r := Expr(0);
      if r.Ok? {
        var closed := Eat(")");
        if !closed {
          return Err(Unexpected);
        }
      }
    }

    /** A static reference. */
    method StaticName() returns (r: Result<Expr, Error>)
      requires pos < |tokens| && Is(tokens, pos, "&")
      modifies this
      decreases |tokens| - pos, 0
      ensures Agrees(r, pos, Head(tokens, old(pos), old(depth), maxDepth)) && (r.Ok? ==> depth == old(depth))
      ensures r.Ok? ==> old(pos) < pos <= |tokens|
    {
      hide Parse, ParsePath, ParseItems, Trees, FieldTrees, NameHead;
      pos := pos + 1;
      if pos >= |tokens| || !tokens[pos].Word? {
        return Err(Unexpected);
      }
      pos := pos + 1;
      var path := Path(tokens[pos - 1].text, false);
      return if path.Err? then Err(path.error) else Ok(EStatic(path.value));
    }

    /** A handle. */
    method HandleName() returns (r: Result<Expr, Error>)
      requires pos < |tokens| && Is(tokens, pos, "@")
      modifies this
      decreases |tokens| - pos, 0
      ensures Agrees(r, pos, Head(tokens, old(pos), old(depth), maxDepth)) && (r.Ok? ==> depth == old(depth))
      ensures r.Ok? ==> old(pos) < pos <= |tokens|
    {
      hide Parse, ParsePath, ParseItems, Trees, FieldTrees, NameHead;
      pos := pos + 1;
      if pos >= |tokens| || !tokens[pos].Word? || !Identifier(tokens[pos].text) {
        return Err(Unexpected);
      }
      pos := pos + 1;
      return Ok(EHandle(tokens[pos - 1].text));
    }

    /** A list. */
    method ListLiteral() returns (r: Result<Expr, Error>)
      requires pos < |tokens| && Is(tokens, pos, "[")
      modifies this
      decreases |tokens| - pos, 0
      ensures Agrees(r, pos, Head(tokens, old(pos), old(depth), maxDepth)) && (r.Ok? ==> depth == old(depth))
      ensures r.Ok? ==> old(pos) < pos <= |tokens|
    {
      hide Parse, ParsePath, ParseItems, Trees, FieldTrees, NameHead;
      pos := pos + 1;
      var items := ItemList("]");
      return if items.Err? then Err(items.error) else Ok(EList(items.value));
    }

    /** A record. */
    method RecordLiteral() returns (r: Result<Expr, Error>)
      requires pos < |tokens| && Is(tokens, pos, "{")
      modifies this
      decreases |tokens| - pos, 0
      ensures Agrees(r, pos, Head(tokens, old(pos), old(depth), maxDepth)) && (r.Ok? ==> depth == old(depth))
      ensures r.Ok? ==> old(pos) < pos <= |tokens|
    {
      hide Parse, ParsePath, ParseItems, Trees, FieldTrees, NameHead;
      pos := pos + 1;
      var fields := FieldList();
      return if fields.Err? then Err(fields.error) else Ok(ERecord(fields.value));
    }

    /** A literal, a name or a call. */
    method TokenHead() returns (r: Result<Expr, Error>)
      requires pos < |tokens| && !Is(tokens, pos, "(") && !Is(tokens, pos, "&") && !Is(tokens, pos, "@")
      requires !Is(tokens, pos, "[") && !Is(tokens, pos, "{")
      modifies this
      decreases |tokens| - pos, 0
      ensures Agrees(r, pos, Head(tokens, old(pos), old(depth), maxDepth)) && (r.Ok? ==> depth == old(depth))
      ensures r.Ok? ==> old(pos) < pos <= |tokens|
    {
      var token := tokens[pos];
      pos := pos + 1;
      match token
      case Text(s, _) => return Ok(EConstant(String(s)));
      case Pattern(p, f) => return Ok(ERegex(p, f));
      case Number(n) => return if IntegralTokens.MIN64 <= n <= IntegralTokens.MAX64
        then Ok(EConstant(Integer(n))) else Err(OutOfRange);
      case Symbol(_) => return Err(Unexpected);
      case Word(w) =>
        if w == "true" && !Is(tokens, pos, ".") {
          return Ok(EConstant(Boolean(true)));
        }
        if w == "false" && !Is(tokens, pos, ".") {
          return Ok(EConstant(Boolean(false)));
        }
        if w == "null" && !Is(tokens, pos, ".") {
          return Ok(EConstant(Null));
        }
        var path := Path(w, true);
        if path.Err? {
          return Err(path.error);
        }
        var called := Eat("(");
        if !called {
          return Ok(EName(path.value));
        }
        var args := ItemList(")");
        return if args.Err? then Err(args.error) else Ok(ECall(path.value, args.value));
    }

    /** The rest of a dotted name. */
    method Path(first: string, strict: bool) returns (r: Result<seq<string>, Error>)
      requires pos <= |tokens|
      modifies this`pos
      ensures
        var o := ParsePath(tokens, old(pos), [first], strict);
        if o.Ok? then r == Ok(o.value.0) && pos == o.value.1 else r == Err(o.error)
      ensures old(pos) <= pos <= |tokens|
    {
      var path := [first];
      while true
        invariant old(pos) <= pos <= |tokens|
        invariant ParsePath(tokens, old(pos), [first], strict) == ParsePath(tokens, pos, path, strict)
        decreases |tokens| - pos
      {
        if !Is(tokens, pos, ".") {
          break;
        }
        if pos + 1 >= |tokens| || !tokens[pos + 1].Word? || (strict && !Identifier(tokens[pos + 1].text)) {
          return Err(Unexpected);
        }
        path := path + [tokens[pos + 1].text];
        pos := pos + 2;
      }
      return Ok(path);
    }

    /** Expressions up to the closing symbol. */
    method ItemList(close: string) returns (r: Result<seq<Expr>, Error>)
      requires pos <= |tokens|
      modifies this
      decreases |tokens| - pos, 6
      ensures ItemsAgree(r, pos, ParseItems(tokens, old(pos), close, false, old(depth), maxDepth))
      ensures (r.Ok? ==> depth == old(depth))
      ensures r.Ok? ==> old(pos) < pos <= |tokens|
    {
      hide ParseMore, Parse, Trees, Tree, ParseItems;
      ItemsStart(tokens, pos, close, depth, maxDepth);
      var empty := Eat(close);
      if empty {
        return Ok([]);
      }
      var items: seq<Expr> := [];
      while true
        invariant old(pos) <= pos <= |tokens| && depth == old(depth)
        invariant Continues(items, ParseMore(tokens, old(pos), close, false, depth, maxDepth),
          ParseMore(tokens, pos, close, false, depth, maxDepth))
        decreases |tokens| - pos
      {
        ItemsStep(
          items, ParseMore(tokens, old(pos), close, false, depth, maxDepth), tokens, pos, close, depth, maxDepth);
        var item := Expr(0);
        if item.Err? {
          return Err(item.error);
        }
        items := items + [item.value];
        var closed := Eat(close);
        if closed {
          return Ok(items);
        }
        var comma := Eat(",");
        if !comma {
          return Err(Unexpected);
        }
        closed := Eat(close);
        if closed {
          return Ok(items);
        }
      }
    }

    /** Record fields up to the closing brace. */
    method FieldList() returns (r: Result<seq<Entry>, Error>)
      requires pos <= |tokens|
      modifies this
      decreases |tokens| - pos, 6
      ensures FieldsAgree(r, pos, ParseItems(tokens, old(pos), "}", true, old(depth), maxDepth))
      ensures (r.Ok? ==> depth == old(depth))
      ensures r.Ok? ==> old(pos) < pos <= |tokens|
    {
      hide ParseMore, Parse, ParseLabel, FieldTrees, Tree, ParseItems;
      FieldsStart(tokens, pos, depth, maxDepth);
      var empty := Eat("}");
      if empty {
        return Ok([]);
      }
      var fields: seq<Entry> := [];
      while true
        invariant old(pos) <= pos <= |tokens| && depth == old(depth)
        invariant FieldsContinue(fields, ParseMore(tokens, old(pos), "}", true, depth, maxDepth),
          ParseMore(tokens, pos, "}", true, depth, maxDepth))
        decreases |tokens| - pos
      {
        FieldsStep(fields, ParseMore(tokens, old(pos), "}", true, depth, maxDepth), tokens, pos, depth, maxDepth);
        var tag := ParseLabel(tokens, pos, true);
        if tag.Err? {
          return Err(tag.error);
        }
        pos := tag.value.1;
        var item := Expr(0);
        if item.Err? {
          return Err(item.error);
        }
        fields := fields + [Entry(LabelName(tag.value.0), item.value)];
        var closed := Eat("}");
        if closed {
          return Ok(fields);
        }
        var comma := Eat(",");
        if !comma {
          return Err(Unexpected);
        }
        closed := Eat("}");
        if closed {
          return Ok(fields);
        }
      }
    }
  }

  /** A grammatical text with these tokens, nested no deeper than allowed. */
  ghost predicate Reading(tokens: seq<Token>, c: Cst, maxDepth: nat) {
    Grammatical(c) && Tokens(c) == tokens && Need(c) <= maxDepth
  }

  /** Reads one expression from the start of a token list. */
  method ReadExpression(tokens: seq<Token>, maxDepth: nat) returns (r: Result<Expr, Error>, end: nat)
    ensures forall e :: Writable(e) && tokens == Tokens(Minimal(e)) && Need(Minimal(e)) <= maxDepth ==>
      r == Ok(e) && end == |tokens|
    ensures Lexed(tokens) ==> (r.Ok? && end == |tokens| <==> exists c :: Reading(tokens, c, maxDepth))
    ensures Lexed(tokens) && r.Ok? && end == |tokens| ==>
      forall c :: Reading(tokens, c, maxDepth) ==> Tree(c) == r.value
  {
    var parser := new Parser(tokens, maxDepth);
    r := parser.Expr(0);
    end := parser.pos;
    forall e | Writable(e) && tokens == Tokens(Minimal(e)) && Need(Minimal(e)) <= maxDepth
      ensures r == Ok(e) && end == |tokens|
    {
      RoundTrip(e, maxDepth);
    }
    if Lexed(tokens) {
      ReadsGrammar(tokens, maxDepth);
    }
  }

  lemma ReadsGrammar(tokens: seq<Token>, maxDepth: nat)
    requires Lexed(tokens)
    ensures
      var whole := Parse(tokens, 0, 0, 0, maxDepth);
      forall c :: whole == Ok((c, |tokens|)) <==> Reading(tokens, c, maxDepth)
  {
    forall c
      ensures Parse(tokens, 0, 0, 0, maxDepth) == Ok((c, |tokens|)) <==> Reading(tokens, c, maxDepth)
    {
      AcceptsGrammar(tokens, c, maxDepth);
    }
  }
}
