/** The `Calculator` parser object of components/parser.ts (lines 59-147) and
    `parseInput` (lines 151-161). The parser keeps its token vector and a cursor;
    every rule advances the cursor as it consumes tokens, `andExpression` and
    `orExpression` push operands into a local array inside their `MANY` loops, and
    `courseExpression` and `parenthesisExpression` overwrite a local `grade` inside
    their `OPTION`. Each rule method is proved to agree with the rule function of
    module Grammar that specifies it. A recognition exception, which Chevrotain
    propagates to the top rule, is a `None` result here. */
module Parser {

  import opened Wrappers
  import opened Ast
  import opened Grammar
  import Lexer

  /** The errors recorded in `parser.errors`. */
  datatype ParseError =
    | RecognitionError    // a mismatched token or no viable alternative inside the rules
    | NotAllInputParsed   // tokens left after the top rule

  class Calculator {

    /** The token vector (`parser.input`, line 154). */
    const input: seq<Lexer.Token>
    /** The cursor into `input`. */
    var pos: nat
    /** `parser.errors`. */
    var errors: seq<ParseError>

    /** A parser whose input has just been set: cursor at 0, no errors. */
    constructor (tokens: seq<Lexer.Token>)
      ensures input == tokens && pos == 0 && errors == []
    {
      input := tokens;
      pos := 0;
      errors := [];
    }

    /** The outcome `r` of a rule method, with the cursor where it left it, is what
        the rule function computed. */
    ghost predicate Agrees(r: Option<Expr>, spec: Result<Parsed>)
      reads this
    {
      match spec
      case Failure => r.None?
      case Success(p) => r == Some(p.expr) && pos == p.next
    }

    /** `LA(1)` has type `t`. */
    predicate Next(t: Lexer.TokenType)
      reads this
    {
      pos < |input| && input[pos].tokenType == t
    }

    /** `CONSUME(t)`: take the next token if it has type `t`, fail otherwise. */
    method Consume(t: Lexer.TokenType) returns (tok: Option<Lexer.Token>)
      requires pos <= |input|
      modifies this`pos
      ensures pos <= |input|
      ensures old(Next(t)) ==> tok == Some(input[old(pos)]) && pos == old(pos) + 1
      ensures !old(Next(t)) ==> tok.None? && pos == old(pos)
    {
      if Next(t) {
        tok := Some(input[pos]);
        pos := pos + 1;
      } else {
        tok := None;
      }
    }

    /** `expression` (lines 64-67) run as the top rule: a recognition exception
        is caught and recorded, and so are tokens left over. */
    method Expression() returns (r: Option<Expr>)
      requires pos == 0 && errors == []
      modifies this
      ensures errors == [] <==> ParseTokens(input).Success?
      ensures errors == [] ==> r == Some(ParseTokens(input).value)
    {
      r := AndExpression();
      if r.None? {
        errors := errors + [RecognitionError];
      } else if pos < |input| {
        errors := errors + [NotAllInputParsed];
      }
    }

    /** `andExpression` (lines 69-83). */
    method AndExpression() returns (r: Option<Expr>)
      requires pos <= |input|
      modifies this`pos
      decreases |input| - pos, 3
      ensures pos <= |input|
      ensures Agrees(r, AndRule(input, old(pos)))
    {
      ghost var start := pos;
      var first := OrExpression();
      if first.None? {
        return None;
      }
      var value := [first.value];
      while Next(Lexer.And)
        invariant start < pos <= |input|
        invariant |value| >= 1 && forall x <- value :: OrLevel(x)
        invariant AndTail(input, value, pos) == AndRule(input, start)
        decreases |input| - pos
      {
        var _ := Consume(Lexer.And);
        var operand := OrExpression();
        if operand.None? {
          return None;
        }
        value := value + [operand.value];
      }
      r := Some(Combine(Conjunction, value));
    }

    /** `orExpression` (lines 85-97). */
    method OrExpression() returns (r: Option<Expr>)
      requires pos <= |input|
      modifies this`pos
      decreases |input| - pos, 2
      ensures pos <= |input|
      ensures Agrees(r, OrRule(input, old(pos)))
    {
      ghost var start := pos;
      var first := AtomicBooleanExpression();
      if first.None? {
        return None;
      }
      var value := [first.value];
      while Next(Lexer.Or)
        invariant start < pos <= |input|
        invariant |value| >= 1 && forall x <- value :: AtomicLevel(x)
        invariant OrTail(input, value, pos) == OrRule(input, start)
        decreases |input| - pos
      {
        var _ := Consume(Lexer.Or);
        var val := AtomicBooleanExpression();
        if val.None? {
          return None;
        }
        value := value + [val.value];
      }
      r := Some(Combine(Disjunction, value));
    }

    /** `atomicBooleanExpression` (lines 99-112). */
    method AtomicBooleanExpression() returns (r: Option<Expr>)
      requires pos <= |input|
      modifies this`pos
      decreases |input| - pos, 1
      ensures pos <= |input|
      ensures Agrees(r, AtomicRule(input, old(pos)))
    {
      if Next(Lexer.LParen) {
        r := ParenthesisExpression();
      } else if Next(Lexer.Course) {
        r := CourseExpression();
      } else if Next(Lexer.RandomRequest) {
        var rand := Consume(Lexer.RandomRequest);
        r := Some(Special(rand.value.image));
      } else {
        r := None;
      }
    }

    /** `courseExpression` (lines 114-125). */
    method CourseExpression() returns (r: Option<Expr>)
      requires pos <= |input|
      modifies this`pos
      ensures pos <= |input|
      ensures Agrees(r, CourseRule(input, old(pos)))
    {
      var grade: Option<Lexer.Token> := None;
      var course := Consume(Lexer.Course);
      if course.None? {
        return None;
      }
      if Next(Lexer.Grade) {
        grade := Consume(Lexer.Grade);
      }
      if grade.None? {
        r := Some(Course(course.value.image, ""));
      } else {
        r := Some(Course(course.value.image, grade.value.image));
      }
    }

    /** `parenthesisExpression` (lines 127-140). */
    method ParenthesisExpression() returns (r: Option<Expr>)
      requires pos <= |input|
      modifies this`pos
      decreases |input| - pos, 0
      ensures pos <= |input|
      ensures Agrees(r, ParenRule(input, old(pos)))
    {
      var grade := "";
      var lparen := Consume(Lexer.LParen);
      if lparen.None? {
        return None;
      }
      var expValue := AndExpression();
      if expValue.None? {
        return None;
      }
      var rparen := Consume(Lexer.RParen);
      if rparen.None? {
        return None;
      }
      if Next(Lexer.Grade) {
        var g := Consume(Lexer.Grade);
        grade := g.value.image;
      }
      r := Some(Group(expValue.value, grade));
    }
  }

  /** `parseInput` (lines 151-161): tokenize, give the tokens to a parser whose
      state is fresh, run the top rule, and fail if any error was recorded. */
  method ParseInput(text: string) returns (r: Result<Expr>)
    ensures r == Parse(text)
  {
    var tokens := Lexer.Tokenize(text);
    var parser := new Calculator(tokens);
    var res := parser.Expression();
    if |parser.errors| > 0 {
      return Failure;
    }
    return Success(res.value);
  }
}
