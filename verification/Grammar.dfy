/** The grammar of the `Calculator` parser (components/parser.ts lines 64-140) as
    functions over a token sequence and a cursor. Each rule returns the tree it
    builds and the position after the tokens it consumed, or `Failure` for the
    mismatches that make Chevrotain raise a recognition exception. The grammar is
    LL(1): `And` never follows an `andExpression`, `Or` never follows an
    `orExpression` and `Grade` never follows a course or a group, so every `MANY`,
    `OPTION` and `OR` decides on the next token alone and nothing backtracks. */
module Grammar {

  import opened Wrappers
  import opened Ast
  import Lexer

  datatype Parsed = Parsed(expr: Expr, next: nat)

  /** The next token (Chevrotain's `LA(1)`) at `pos` has type `t`. */
  predicate At(toks: seq<Lexer.Token>, pos: nat, t: Lexer.TokenType) {
    pos < |toks| && toks[pos].tokenType == t
  }

  /** `andExpression := orExpression (And orExpression)*` (lines 69-83). */
  function AndRule(toks: seq<Lexer.Token>, pos: nat): (r: Result<Parsed>)
    requires pos <= |toks|
    decreases |toks| - pos, 3
    ensures r.Success? ==> pos < r.value.next <= |toks| && AndLevel(r.value.expr)
  {
    match OrRule(toks, pos)
    case Failure => Failure
    case Success(first) => AndTail(toks, [first.expr], first.next)
  }

  /** The `MANY` loop of `andExpression` (lines 73-80) once `value` holds the
      operands read so far, then line 82. */
  function AndTail(toks: seq<Lexer.Token>, value: seq<Expr>, pos: nat): (r: Result<Parsed>)
    requires pos <= |toks|
    requires |value| >= 1 && forall x <- value :: OrLevel(x)
    decreases |toks| - pos, 0
    ensures r.Success? ==> pos <= r.value.next <= |toks| && AndLevel(r.value.expr)
  {
    if At(toks, pos, Lexer.And) then
      match OrRule(toks, pos + 1)
      case Failure => Failure
      case Success(p) => AndTail(toks, value + [p.expr], p.next)
    else
      Success(Parsed(Combine(Conjunction, value), pos))
  }

  /** `orExpression := atomicBooleanExpression (Or atomicBooleanExpression)*`
      (lines 85-97). */
  function OrRule(toks: seq<Lexer.Token>, pos: nat): (r: Result<Parsed>)
    requires pos <= |toks|
    decreases |toks| - pos, 2
    ensures r.Success? ==> pos < r.value.next <= |toks| && OrLevel(r.value.expr)
  {
    match AtomicRule(toks, pos)
    case Failure => Failure
    case Success(first) => OrTail(toks, [first.expr], first.next)
  }

  /** The `MANY` loop of `orExpression` (lines 90-94), then line 96. */
  function OrTail(toks: seq<Lexer.Token>, value: seq<Expr>, pos: nat): (r: Result<Parsed>)
    requires pos <= |toks|
    requires |value| >= 1 && forall x <- value :: AtomicLevel(x)
    decreases |toks| - pos, 0
    ensures r.Success? ==> pos <= r.value.next <= |toks| && OrLevel(r.value.expr)
  {
    if At(toks, pos, Lexer.Or) then
      match AtomicRule(toks, pos + 1)
      case Failure => Failure
      case Success(p) => OrTail(toks, value + [p.expr], p.next)
    else
      Success(Parsed(Combine(Disjunction, value), pos))
  }

  /** `atomicBooleanExpression := parenthesisExpression | courseExpression |
      RandomRequest` (lines 99-112); no alternative matches: a NoViableAlt failure. */
  function AtomicRule(toks: seq<Lexer.Token>, pos: nat): (r: Result<Parsed>)
    requires pos <= |toks|
    decreases |toks| - pos, 1
    ensures r.Success? ==> pos < r.value.next <= |toks| && AtomicLevel(r.value.expr)
  {
    if At(toks, pos, Lexer.LParen) then ParenRule(toks, pos)
    else if At(toks, pos, Lexer.Course) then CourseRule(toks, pos)
    else if At(toks, pos, Lexer.RandomRequest) then Success(Parsed(Special(toks[pos].image), pos + 1))
    else Failure
  }

  /** `courseExpression := Course Grade?` (lines 114-125). */
  function CourseRule(toks: seq<Lexer.Token>, pos: nat): (r: Result<Parsed>)
    requires pos <= |toks|
    ensures r.Success? ==> pos < r.value.next <= |toks| && r.value.expr.Course?
  {
    if !At(toks, pos, Lexer.Course) then Failure
    else if At(toks, pos + 1, Lexer.Grade) then
      Success(Parsed(Course(toks[pos].image, toks[pos + 1].image), pos + 2))
    else
      Success(Parsed(Course(toks[pos].image, ""), pos + 1))
  }

  /** `parenthesisExpression := "(" andExpression ")" Grade?` (lines 127-140). */
  function ParenRule(toks: seq<Lexer.Token>, pos: nat): (r: Result<Parsed>)
    requires pos <= |toks|
    decreases |toks| - pos, 0
    ensures r.Success? ==> pos < r.value.next <= |toks| && AtomicLevel(r.value.expr) && r.value.expr.Group?
  {
    if !At(toks, pos, Lexer.LParen) then Failure
    else
      match AndRule(toks, pos + 1)
      case Failure => Failure
      case Success(inner) =>
        if !At(toks, inner.next, Lexer.RParen) then Failure
        else if At(toks, inner.next + 1, Lexer.Grade) then
          Success(Parsed(Group(inner.expr, toks[inner.next + 1].image), inner.next + 2))
        else
          Success(Parsed(Group(inner.expr, ""), inner.next + 1))
  }

  /** `expression := andExpression` (lines 64-67), invoked as the top rule: tokens
      left over after it are an error (Chevrotain's "not all input parsed"). */
  function ParseTokens(toks: seq<Lexer.Token>): (r: Result<Expr>)
    ensures r.Success? ==> AndLevel(r.value)
  {
    match AndRule(toks, 0)
    case Failure => Failure
    case Success(p) => if p.next == |toks| then Success(p.expr) else Failure
  }

  /** `parseInput` (lines 151-161): tokenize, parse, and fail on any parse error. */
  function Parse(text: string): (r: Result<Expr>)
    ensures r.Success? ==> NoLoneOperand(r.value) && Layered(r.value)
  {
    var r := ParseTokens(Lexer.Tokenize(text));
    if r.Success? then AndLevelIsWellShaped(r.value); r else r
  }
}
