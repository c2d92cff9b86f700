// Expression tokens, trees and the grammar between them (crates/htlk-compiler/src/parser.rs).

module Syntax {
  import IntegralTokens

  /** Lexical tokens; `triple` marks a text written between triple quotes. */
  datatype Token =
    | Word(text: string)
    | Symbol(text: string)
    | Text(value: string, triple: bool)
    | Number(number: int)
    | Pattern(pattern: string, flags: string)

  datatype Operator = Or | And | Eq | Ne | Lt | Le | Gt | Ge

  datatype Literal = Null | Boolean(truth: bool) | Integer(number: int) | String(text: string)

  /** A projection: `.name`, `["name"]` or `[n]`.  The first two mean the same. */
  datatype Step = Dot(name: string) | Key(name: string) | Index(at: nat)

  /** A parsed text, with the parentheses and trailing commas it was written with. */
  datatype Cst =
    | Constant(literal: Literal, triple: bool)
    | Regex(pattern: string, flags: string)
    | Static(path: seq<string>)
    | Handle(name: string)
    | Name(path: seq<string>)
    | Call(callee: seq<string>, args: Items)
    | List(items: Items)
    | Record(fields: Items)
    | Paren(inner: Cst)
    | Get(base: Cst, step: Step)
    | Not(operand: Cst)
    | Binary(op: Operator, left: Cst, right: Cst)

  /** Arguments, list items, or record fields, which are the items with a label. */
  datatype Items = Empty | Last(tag: Label, item: Cst, trailing: bool) | More(tag: Label, item: Cst, rest: Items)

  datatype Label = Unlabelled | Plain(name: string) | Quoted(name: string)

  datatype Projection = Field(name: string) | Position(at: nat)

  /** What the rest of the compiler sees. */
  datatype Expr =
    | EConstant(literal: Literal)
    | ERegex(pattern: string, flags: string)
    | EStatic(path: seq<string>)
    | EHandle(name: string)
    | EName(path: seq<string>)
    | ECall(callee: seq<string>, args: seq<Expr>)
    | EList(items: seq<Expr>)
    | ERecord(fields: seq<Entry>)
    | EGet(base: Expr, step: Projection)
    | ENot(operand: Expr)
    | EBinary(op: Operator, left: Expr, right: Expr)

  datatype Entry = Entry(key: string, value: Expr)

  function Tree(c: Cst): Expr {
    match c
    case Constant(l, _) => EConstant(l)
    case Regex(p, f) => ERegex(p, f)
    case Static(p) => EStatic(p)
    case Handle(n) => EHandle(n)
    case Name(p) => EName(p)
    case Call(p, args) => ECall(p, Trees(args))
    case List(items) => EList(Trees(items))
    case Record(fields) => ERecord(FieldTrees(fields))
    case Paren(inner) => Tree(inner)
    case Get(b, s) => EGet(Tree(b), Project(s))
    case Not(e) => ENot(Tree(e))
    case Binary(op, l, r) => EBinary(op, Tree(l), Tree(r))
  }

  function Trees(items: Items): seq<Expr> {
    match items
    case Empty => []
    case Last(_, c, _) => [Tree(c)]
    case More(_, c, rest) => [Tree(c)] + Trees(rest)
  }

  function FieldTrees(items: Items): seq<Entry> {
    match items
    case Empty => []
    case Last(l, c, _) => [Entry(LabelName(l), Tree(c))]
    case More(l, c, rest) => [Entry(LabelName(l), Tree(c))] + FieldTrees(rest)
  }

  function LabelName(l: Label): string {
    if l == Unlabelled then "" else l.name
  }

  function Project(s: Step): Projection {
    match s
    case Dot(n) => Field(n)
    case Key(n) => Field(n)
    case Index(i) => Position(i)
  }

  // ---- Spelling ----

  predicate Letter(c: char) {
    'a' <= c <= 'z' || 'A' <= c <= 'Z'
  }

  predicate WordText(s: string) {
    s != "" && Letter(s[0])
  }

  /** Lower-case words of letters and digits, joined by single underscores. */
  predicate Identifier(s: string) {
    && s != "" && 'a' <= s[0] <= 'z' && s[|s| - 1] != '_'
    && forall i :: 1 <= i < |s| ==>
      'a' <= s[i] <= 'z' || '0' <= s[i] <= '9' || (s[i] == '_' && s[i - 1] != '_')
  }

  function OpText(op: Operator): string {
    match op
    case Or => "or"
    case And => "and"
    case Eq => "=="
    case Ne => "!="
    case Lt => "<"
    case Le => "<="
    case Gt => ">"
    case Ge => ">="
  }

  function OpToken(op: Operator): Token {
    if op == Or || op == And then Word(OpText(op)) else Symbol(OpText(op))
  }

  function Precedence(op: Operator): nat {
    if op == Or then 1 else if op == And then 2 else 4
  }

  function LiteralToken(l: Literal, triple: bool): Token {
    match l
    case Null => Word("null")
    case Boolean(b) => Word(if b then "true" else "false")
    case Integer(n) => Number(n)
    case String(s) => Text(s, triple)
  }

  function PathTokens(path: seq<string>): seq<Token> {
    if path == [] then [] else [Word(path[0])] + DotTokens(path[1..])
  }

  function DotTokens(path: seq<string>): seq<Token> {
    if path == [] then [] else [Symbol("."), Word(path[0])] + DotTokens(path[1..])
  }

  function StepTokens(s: Step): seq<Token> {
    match s
    case Dot(n) => [Symbol("."), Word(n)]
    case Key(n) => [Symbol("["), Text(n, false), Symbol("]")]
    case Index(i) => [Symbol("["), Number(i), Symbol("]")]
  }

  function Tokens(c: Cst): seq<Token> {
    match c
    case Constant(l, triple) => [LiteralToken(l, triple)]
    case Regex(p, f) => [Pattern(p, f)]
    case Static(p) => [Symbol("&")] + PathTokens(p)
    case Handle(n) => [Symbol("@"), Word(n)]
    case Name(p) => PathTokens(p)
    case Call(p, args) => PathTokens(p) + [Symbol("(")] + ItemTokens(args) + [Symbol(")")]
    case List(items) => [Symbol("[")] + ItemTokens(items) + [Symbol("]")]
    case Record(fields) => [Symbol("{")] + ItemTokens(fields) + [Symbol("}")]
    case Paren(inner) => [Symbol("(")] + Tokens(inner) + [Symbol(")")]
    case Get(b, s) => Tokens(b) + StepTokens(s)
    case Not(e) => [Word("not")] + Tokens(e)
    case Binary(op, l, r) => Tokens(l) + [OpToken(op)] + Tokens(r)
  }

  function ItemTokens(items: Items): seq<Token> {
    match items
    case Empty => []
    case Last(l, c, trailing) => LabelTokens(l) + Tokens(c) + if trailing then [Symbol(",")] else []
    case More(l, c, rest) => LabelTokens(l) + Tokens(c) + [Symbol(",")] + ItemTokens(rest)
  }

  function LabelTokens(l: Label): seq<Token> {
    match l
    case Unlabelled => []
    case Plain(n) => [Word(n), Symbol("=")]
    case Quoted(n) => [Text(n, false), Symbol("=")]
  }

  // ---- The grammar ----

  /** How tightly a text binds: operands 5, comparisons 4, `not` 3, `and` 2, `or` 1. */
  function Level(c: Cst): nat {
    match c
    case Not(_) => 3
    case Binary(op, _, _) => Precedence(op)
    case _ => 5
  }

  predicate GoodPath(path: seq<string>) {
    && path != [] && WordText(path[0])
    && (forall i :: 1 <= i < |path| ==> Identifier(path[i]))
    && (path[0] in {"not", "true", "false", "null"} ==> |path| > 1)
  }

  predicate GoodStatic(path: seq<string>) {
    path != [] && forall i :: 0 <= i < |path| ==> WordText(path[i])
  }

  predicate GoodLiteral(l: Literal) {
    l.Integer? ==> IntegralTokens.MIN64 <= l.number <= IntegralTokens.MAX64
  }

  predicate GoodLabel(l: Label, labelled: bool) {
    if labelled then l.Quoted? || (l.Plain? && Identifier(l.name)) else l == Unlabelled
  }

  predicate GoodStep(b: Cst, s: Step) {
    match s
    case Dot(n) => Identifier(n) && !b.Name? && !b.Static? && !WordLiteral(b)
    case Key(_) => true
    case Index(i) => i <= IntegralTokens.MAX64
  }

  predicate WordLiteral(c: Cst) {
    c.Constant? && (c.literal.Null? || c.literal.Boolean?)
  }

  /** The grammar of expressions: and, or group to the left, comparisons do not group. */
  predicate Grammatical(c: Cst) {
    match c
    case Constant(l, triple) => GoodLiteral(l) && (triple ==> l.String?)
    case Regex(_, _) => true
    case Static(p) => GoodStatic(p)
    case Handle(n) => Identifier(n)
    case Name(p) => GoodPath(p)
    case Call(p, args) => GoodPath(p) && GrammaticalItems(args, false)
    case List(items) => GrammaticalItems(items, false)
    case Record(fields) => GrammaticalItems(fields, true)
    case Paren(inner) => Grammatical(inner)
    case Get(b, s) => Grammatical(b) && Level(b) == 5 && GoodStep(b, s)
    case Not(e) => Grammatical(e) && Level(e) >= 3
    case Binary(op, l, r) =>
      && Grammatical(l) && Grammatical(r) && Level(r) > Precedence(op)
      && Level(l) >= if Precedence(op) == 4 then 5 else Precedence(op)
  }

  predicate GrammaticalItems(items: Items, labelled: bool) {
    match items
    case Empty => true
    case Last(l, c, _) => GoodLabel(l, labelled) && Grammatical(c)
    case More(l, c, rest) =>
      GoodLabel(l, labelled) && Grammatical(c) && rest != Empty && GrammaticalItems(rest, labelled)
  }

  // ---- Printing with as few parentheses as possible ----

  function Wrap(c: Cst, level: nat): Cst {
    if Level(c) >= level then c else Paren(c)
  }

  function Minimal(e: Expr): Cst {
    match e
    case EConstant(l) => Constant(l, false)
    case ERegex(p, f) => Regex(p, f)
    case EStatic(p) => Static(p)
    case EHandle(n) => Handle(n)
    case EName(p) => Name(p)
    case ECall(p, args) => Call(p, MinimalItems(args))
    case EList(items) => List(MinimalItems(items))
    case ERecord(fields) => Record(MinimalFields(fields))
    case EGet(b, s) => Get(Wrap(Minimal(b), 5), if s.Field? then Key(s.name) else Index(s.at))
    case ENot(x) => Not(Wrap(Minimal(x), 3))
    case EBinary(op, l, r) =>
      var p := Precedence(op);
      Binary(op, Wrap(Minimal(l), if p == 4 then 5 else p), Wrap(Minimal(r), p + 1))
  }

  function MinimalItems(es: seq<Expr>): Items {
    if es == [] then Empty
    else if |es| == 1 then Last(Unlabelled, Minimal(es[0]), false)
    else More(Unlabelled, Minimal(es[0]), MinimalItems(es[1..]))
  }

  function MinimalFields(fs: seq<Entry>): Items {
    if fs == [] then Empty
    else if |fs| == 1 then Last(Quoted(fs[0].key), Minimal(fs[0].value), false)
    else More(Quoted(fs[0].key), Minimal(fs[0].value), MinimalFields(fs[1..]))
  }

  /** Trees whose names and numbers can be written at all. */
  predicate Writable(e: Expr) {
    match e
    case EConstant(l) => GoodLiteral(l)
    case ERegex(_, _) => true
    case EStatic(p) => GoodStatic(p)
    case EHandle(n) => Identifier(n)
    case EName(p) => GoodPath(p)
    case ECall(p, args) => GoodPath(p) && AllWritable(args)
    case EList(items) => AllWritable(items)
    case ERecord(fields) => FieldsWritable(fields)
    case EGet(b, s) => Writable(b) && (s.Position? ==> s.at <= IntegralTokens.MAX64)
    case ENot(x) => Writable(x)
    case EBinary(_, l, r) => Writable(l) && Writable(r)
  }

  predicate AllWritable(es: seq<Expr>) {
    es == [] || (Writable(es[0]) && AllWritable(es[1..]))
  }

  predicate FieldsWritable(fs: seq<Entry>) {
    fs == [] || (Writable(fs[0].value) && FieldsWritable(fs[1..]))
  }

  /** Printing puts parentheses where the grammar needs them, and keeps the tree. */
  lemma {:induction false} MinimalIsGrammatical(e: Expr)
    requires Writable(e)
    ensures Grammatical(Minimal(e)) && Tree(Minimal(e)) == e
  {
    if e.ECall? {
      MinimalItemsAreGrammatical(e.args);
    } else if e.EList? {
      MinimalItemsAreGrammatical(e.items);
    } else if e.ERecord? {
      MinimalFieldsAreGrammatical(e.fields);
    } else if e.EGet? {
      MinimalIsGrammatical(e.base);
      WrapFits(Minimal(e.base), 5);
    } else if e.ENot? {
      MinimalIsGrammatical(e.operand);
      WrapFits(Minimal(e.operand), 3);
    } else if e.EBinary? {
      MinimalIsGrammatical(e.left);
      MinimalIsGrammatical(e.right);
      MinimalBinary(e);
    }
  }

  lemma WrapFits(c: Cst, level: nat)
    requires Grammatical(c) && level <= 5
    ensures Grammatical(Wrap(c, level)) && Level(Wrap(c, level)) >= level && Tree(Wrap(c, level)) == Tree(c)
  {
  }

  lemma MinimalBinary(e: Expr)
    requires e.EBinary? && Grammatical(Minimal(e.left)) && Grammatical(Minimal(e.right))
    requires Tree(Minimal(e.left)) == e.left && Tree(Minimal(e.right)) == e.right
    ensures Grammatical(Minimal(e)) && Tree(Minimal(e)) == e
  {
    var p := Precedence(e.op);
    WrapFits(Minimal(e.left), if p == 4 then 5 else p);
    WrapFits(Minimal(e.right), p + 1);
  }

  lemma {:induction false} MinimalItemsAreGrammatical(es: seq<Expr>)
    requires AllWritable(es)
    ensures GrammaticalItems(MinimalItems(es), false) && Trees(MinimalItems(es)) == es
  {
    if es != [] {
      MinimalIsGrammatical(es[0]);
      MinimalItemsAreGrammatical(es[1..]);
    }
  }

  lemma {:induction false} MinimalFieldsAreGrammatical(fs: seq<Entry>)
    requires FieldsWritable(fs)
    ensures GrammaticalItems(MinimalFields(fs), true) && FieldTrees(MinimalFields(fs)) == fs
  {
    if fs != [] {
      MinimalIsGrammatical(fs[0].value);
      MinimalFieldsAreGrammatical(fs[1..]);
    }
  }
}
