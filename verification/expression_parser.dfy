// What the expression parser accepts: the same language as the grammar, with one tree per text.

module ExpressionParser {
  import opened Wrappers
  import IntegralTokens
  import opened Syntax

  datatype Error = Limit | Unexpected | OutOfRange | Chained | NotOperand

  type Outcome = Result<(Cst, nat), Error>

  predicate Is(ts: seq<Token>, pos: nat, s: string) {
    pos < |ts| && (ts[pos] == Word(s) || ts[pos] == Symbol(s))
  }

  /** Words start with a letter and symbols do not. */
  ghost predicate Lexed(ts: seq<Token>) {
    forall i :: 0 <= i < |ts| ==> (ts[i].Word? ==> WordText(ts[i].text)) && (ts[i].Symbol? ==> !WordText(ts[i].text))
  }

  /** A name starting at `pos` goes on with a dot. */
  predicate Qualified(ts: seq<Token>, pos: nat) {
    pos + 1 < |ts| && ts[pos + 1] == Symbol(".")
  }

  function OpAt(ts: seq<Token>, pos: nat): (op: Option<Operator>)
    ensures op.Some? ==> pos < |ts|
  {
    if Is(ts, pos, "or") then Some(Or)
    else if Is(ts, pos, "and") then Some(And)
    else if Is(ts, pos, "==") then Some(Eq)
    else if Is(ts, pos, "!=") then Some(Ne)
    else if Is(ts, pos, "<") then Some(Lt)
    else if Is(ts, pos, "<=") then Some(Le)
    else if Is(ts, pos, ">") then Some(Gt)
    else if Is(ts, pos, ">=") then Some(Ge)
    else None
  }

  /** One expression binding at least as tightly as `min`. */
  function Parse(ts: seq<Token>, pos: nat, min: nat, depth: nat, max: nat): (r: Outcome)
    ensures r.Ok? ==> pos < r.value.1 <= |ts|
    decreases |ts| - pos, 3
  {
    if depth + 1 > max || pos >= |ts| then Err(if depth + 1 > max then Limit else Unexpected) else
      var head :=
        if Is(ts, pos, "not") && !Qualified(ts, pos) then
          var e := Parse(ts, pos + 1, 3, depth + 1, max);
          if e.Ok? then Ok((Not(e.value.0), e.value.1)) else e
        else Primary(ts, pos, depth + 1, max);
      if head.Err? then head else Climb(ts, head.value.1, head.value.0, false, 0, min, depth + 1, max)
  }

  /** The operators after `left`, as long as they bind tightly enough. */
  function Climb(
      ts: seq<Token>, pos: nat, left: Cst, compared: bool, chain: nat, min: nat, depth: nat, max: nat): (r: Outcome)
    requires pos <= |ts|
    ensures r.Ok? ==> pos <= r.value.1 <= |ts|
    decreases |ts| - pos, 4
  {
    var op := OpAt(ts, pos);
    if op.None? || Precedence(op.value) < min then Ok((left, pos))
    else if chain + 1 + depth > max then Err(Limit)
    else if Precedence(op.value) == 4 && pos + 1 < |ts| && ts[pos + 1] == Word("not") && !Qualified(ts, pos + 1) then
      Err(NotOperand)
    else if Precedence(op.value) == 4 && compared then Err(Chained)
    else
      var right := Parse(ts, pos + 1, Precedence(op.value) + 1, depth, max);
      if right.Err? then right else
        Climb(ts, right.value.1, Binary(op.value, left, right.value.0), compared || Precedence(op.value) == 4,
          chain + 1, min, depth, max)
  }

  /** An operand and its projections. */
  function Primary(ts: seq<Token>, pos: nat, depth: nat, max: nat): (r: Outcome)
    requires pos < |ts|
    ensures r.Ok? ==> pos < r.value.1 <= |ts|
    decreases |ts| - pos, 2
  {
    var head := Head(ts, pos, depth, max);
    if head.Err? then head else Suffixes(ts, head.value.1, head.value.0, 0, depth, max)
  }

  function Head(ts: seq<Token>, pos: nat, depth: nat, max: nat): (r: Outcome)
    requires pos < |ts|
    ensures r.Ok? ==> pos < r.value.1 <= |ts|
    decreases |ts| - pos, 1
  {
    if Is(ts, pos, "(") then
      var e := Parse(ts, pos + 1, 0, depth, max);
      if e.Err? then e else if !Is(ts, e.value.1, ")") then Err(Unexpected)
      else Ok((Paren(e.value.0), e.value.1 + 1))
    else if Is(ts, pos, "&") then
      if pos + 1 < |ts| && ts[pos + 1].Word? then
        var path := ParsePath(ts, pos + 2, [ts[pos + 1].text], false);
        if path.Err? then Err(path.error) else Ok((Static(path.value.0), path.value.1))
      else Err(Unexpected)
    else if Is(ts, pos, "@") then
      if pos + 1 < |ts| && ts[pos + 1].Word? && Identifier(ts[pos + 1].text) then
        Ok((Handle(ts[pos + 1].text), pos + 2))
      else Err(Unexpected)
    else if Is(ts, pos, "[") then
      var items := ParseItems(ts, pos + 1, "]", false, depth, max);
      if items.Err? then Err(items.error) else Ok((List(items.value.0), items.value.1))
    else if Is(ts, pos, "{") then
      var items := ParseItems(ts, pos + 1, "}", true, depth, max);
      if items.Err? then Err(items.error) else Ok((Record(items.value.0), items.value.1))
    else
      match ts[pos]
      case Text(v, triple) => Ok((Constant(String(v), triple), pos + 1))
      case Pattern(p, f) => Ok((Regex(p, f), pos + 1))
      case Number(n) =>
        if IntegralTokens.MIN64 <= n <= IntegralTokens.MAX64 then Ok((Constant(Integer(n), false), pos + 1))
        else Err(OutOfRange)
      case Symbol(_) => Err(Unexpected)
      case Word(w) => NameHead(ts, pos, w, depth, max)
  }

  /** A keyword constant, a name, or a call. */
  function NameHead(ts: seq<Token>, pos: nat, w: string, depth: nat, max: nat): (r: Outcome)
    requires pos < |ts|
    ensures r.Ok? ==> pos < r.value.1 <= |ts|
    decreases |ts| - pos, 0
  {
    if w == "true" && !Is(ts, pos + 1, ".") then Ok((Constant(Boolean(true), false), pos + 1))
    else if w == "false" && !Is(ts, pos + 1, ".") then Ok((Constant(Boolean(false), false), pos + 1))
    else if w == "null" && !Is(ts, pos + 1, ".") then Ok((Constant(Null, false), pos + 1))
    else
      var path := ParsePath(ts, pos + 1, [w], true);
      if path.Err? then Err(path.error)
      else if Is(ts, path.value.1, "(") then
        var args := ParseItems(ts, path.value.1 + 1, ")", false, depth, max);
        if args.Err? then Err(args.error) else Ok((Call(path.value.0, args.value.0), args.value.1))
      else Ok((Name(path.value.0), path.value.1))
  }

  /** The rest of a dotted name. */
  function ParsePath(ts: seq<Token>, pos: nat, path: seq<string>, strict: bool): (r: Result<(seq<string>, nat), Error>)
    requires pos <= |ts|
    ensures r.Ok? ==> pos <= r.value.1 <= |ts|
    decreases |ts| - pos
  {
    if !Is(ts, pos, ".") then Ok((path, pos))
    else if pos + 1 < |ts| && ts[pos + 1].Word? && (strict ==> Identifier(ts[pos + 1].text)) then
      ParsePath(ts, pos + 2, path + [ts[pos + 1].text], strict)
    else Err(Unexpected)
  }

  /** Items up to the closing symbol; a trailing comma is allowed. */
  function ParseItems(
      ts: seq<Token>, pos: nat, close: string, labelled: bool, depth: nat, max: nat): (r: Result<(Items, nat), Error>)
    requires pos <= |ts|
    ensures r.Ok? ==> pos < r.value.1 <= |ts|
    decreases |ts| - pos, 6
  {
    if Is(ts, pos, close) then Ok((Empty, pos + 1)) else ParseMore(ts, pos, close, labelled, depth, max)
  }

  function ParseMore(
      ts: seq<Token>, pos: nat, close: string, labelled: bool, depth: nat, max: nat): (r: Result<(Items, nat), Error>)
    requires pos <= |ts|
    ensures r.Ok? ==> pos < r.value.1 <= |ts|
    decreases |ts| - pos, 5
  {
    var tag := ParseLabel(ts, pos, labelled);
    if tag.Err? then Err(tag.error) else
      var e := Parse(ts, tag.value.1, 0, depth, max);
      if e.Err? then Err(e.error)
      else if Is(ts, e.value.1, close) then Ok((Last(tag.value.0, e.value.0, false), e.value.1 + 1))
      else if !Is(ts, e.value.1, ",") then Err(Unexpected)
      else if Is(ts, e.value.1 + 1, close) then Ok((Last(tag.value.0, e.value.0, true), e.value.1 + 2))
      else
        var rest := ParseMore(ts, e.value.1 + 1, close, labelled, depth, max);
        if rest.Err? then rest else Ok((More(tag.value.0, e.value.0, rest.value.0), rest.value.1))
  }

  /** The key of a record field; other items have none. */
  function ParseLabel(ts: seq<Token>, pos: nat, labelled: bool): (r: Result<(Label, nat), Error>)
    requires pos <= |ts|
    ensures r.Ok? ==> pos <= r.value.1 <= |ts|
  {
    if !labelled then Ok((Unlabelled, pos))
    else if pos >= |ts| || !Is(ts, pos + 1, "=") then Err(Unexpected)
    else if ts[pos].Text? && !ts[pos].triple then Ok((Quoted(ts[pos].value), pos + 2))
    else if ts[pos].Word? && Identifier(ts[pos].text) then Ok((Plain(ts[pos].text), pos + 2))
    else Err(Unexpected)
  }

  /** The projections after an operand. */
  function Suffixes(ts: seq<Token>, pos: nat, base: Cst, count: nat, depth: nat, max: nat): (r: Outcome)
    requires pos <= |ts|
    ensures r.Ok? ==> pos <= r.value.1 <= |ts|
    decreases |ts| - pos, 0
  {
    var step := ParseStep(ts, pos);
    if step.Err? then Err(step.error)
    else if step.value.None? then Ok((base, pos))
    else if count + 1 + depth > max then Err(Limit)
    else
      var (s, end) := step.value.value;
      Suffixes(ts, end, Get(base, s), count + 1, depth, max)
  }

  function ParseStep(ts: seq<Token>, pos: nat): (r: Result<Option<(Step, nat)>, Error>)
    requires pos <= |ts|
    ensures r.Ok? && r.value.Some? ==> pos < r.value.value.1 <= |ts|
  {
    if Is(ts, pos, ".") then
      if pos + 1 < |ts| && ts[pos + 1].Word? && Identifier(ts[pos + 1].text) then
        Ok(Some((Dot(ts[pos + 1].text), pos + 2)))
      else Err(Unexpected)
    else if Is(ts, pos, "[") then
      if pos + 1 >= |ts| then Err(Unexpected)
      else if ts[pos + 1].Text? && !ts[pos + 1].triple then
        if Is(ts, pos + 2, "]") then Ok(Some((Key(ts[pos + 1].value), pos + 3))) else Err(Unexpected)
      else if ts[pos + 1].Number? then
        if !(0 <= ts[pos + 1].number <= IntegralTokens.MAX64) then Err(OutOfRange)
        else if Is(ts, pos + 2, "]") then Ok(Some((Index(ts[pos + 1].number), pos + 3))) else Err(Unexpected)
      else Err(Unexpected)
    else Ok(None)
  }

  // ---- One step of each loop ----

  lemma MoreEquation(ts: seq<Token>, pos: nat, close: string, labelled: bool, depth: nat, max: nat)
    requires pos <= |ts|
    ensures
      var all := ParseMore(ts, pos, close, labelled, depth, max);
      var tag := ParseLabel(ts, pos, labelled);
      if tag.Err? then all == Err(tag.error) else
        var e := Parse(ts, tag.value.1, 0, depth, max);
        if e.Err? then all == Err(e.error)
        else if Is(ts, e.value.1, close) then all == Ok((Last(tag.value.0, e.value.0, false), e.value.1 + 1))
        else if !Is(ts, e.value.1, ",") then all == Err(Unexpected)
        else if Is(ts, e.value.1 + 1, close) then all == Ok((Last(tag.value.0, e.value.0, true), e.value.1 + 2))
        else
          e.value.1 + 1 <= |ts| &&
          var rest := ParseMore(ts, e.value.1 + 1, close, labelled, depth, max);
          all == if rest.Err? then rest else Ok((More(tag.value.0, e.value.0, rest.value.0), rest.value.1))
  {
    hide Parse, ParseLabel;
  }

  lemma SuffixesEquation(ts: seq<Token>, pos: nat, base: Cst, count: nat, depth: nat, max: nat)
    requires pos <= |ts|
    ensures
      var all := Suffixes(ts, pos, base, count, depth, max);
      var step := ParseStep(ts, pos);
      if step.Err? then all == Err(step.error)
      else if step.value.None? then all == Ok((base, pos))
      else if count + 1 + depth > max then all == Err(Limit)
      else
        pos < step.value.value.1 <= |ts|
        && all == Suffixes(ts, step.value.value.1, Get(base, step.value.value.0), count + 1, depth, max)
  {
    hide ParseStep;
  }

  lemma PrimaryEquation(ts: seq<Token>, pos: nat, depth: nat, max: nat)
    requires pos < |ts|
    ensures
      var head := Head(ts, pos, depth, max);
      Primary(ts, pos, depth, max) ==
        if head.Err? then head else Suffixes(ts, head.value.1, head.value.0, 0, depth, max)
  {
    hide Head, Suffixes;
  }
}
