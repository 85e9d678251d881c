/** What a successful parse guarantees about its tree and its input, derived from
    the round trip of module Unparse, and the behaviour of the grammar on small
    token sequences: `or` binding tighter than `and`, a parenthesised group with a
    grade, and the inputs the parser refuses. */
module Properties {

  import opened Wrappers
  import opened Ast
  import opened Grammar
  import opened Unparse
  import Lexer

  // ---------------------------------------------------------------------------
  // Free text in a tree

  /** What the free-text pattern of components/parser.ts line 16 lets through: a
      non-empty text holding no parenthesis and neither " and " nor " or ". */
  ghost predicate CleanText(text: string) {
    && text != []
    && '(' !in text && ')' !in text
    && !Lexer.Occurs(" and ", text) && !Lexer.Occurs(" or ", text)
  }

  /** Every `Special` leaf of `e` holds clean text. */
  ghost predicate SpecialsClean(e: Expr) {
    match e
    case Course(_, _) => true
    case Special(text) => CleanText(text)
    case Group(inner, _) => SpecialsClean(inner)
    case And(xs) => forall x <- xs :: SpecialsClean(x)
    case Or(xs) => forall x <- xs :: SpecialsClean(x)
  }

  /** Every operand of a spelled operand list is spelled somewhere inside it. */
  lemma OperandSpelled(xs: seq<Expr>, k: nat, sep: Lexeme, toks: seq<Lexer.Token>, pos: nat)
    requires k < |xs| && Spells(toks, pos, Joined(xs, sep))
    ensures exists q: nat :: pos <= q && Spells(toks, q, Render(xs[k]))
  {
    JoinedSpellsSplit(xs, sep, toks, pos);
    if k == 0 {
      assert Spells(toks, pos, Render(xs[0]));
    } else {
      TrailingOperandSpelled(xs[1..], k - 1, sep, toks, pos + |Render(xs[0])|);
      assert xs[1..][k - 1] == xs[k];
    }
  }

  lemma {:induction false} TrailingOperandSpelled(rs: seq<Expr>, k: nat, sep: Lexeme, toks: seq<Lexer.Token>, pos: nat)
    requires k < |rs| && Spells(toks, pos, Trailing(rs, sep))
    ensures exists q: nat :: pos <= q && Spells(toks, q, Render(rs[k]))
    decreases k
  {
    TrailingSpellsSplit(rs, sep, toks, pos);
    if k == 0 {
      assert Spells(toks, pos + 1, Render(rs[0]));
    } else {
      TrailingOperandSpelled(rs[1..], k - 1, sep, toks, pos + 1 + |Render(rs[0])|);
      assert rs[1..][k - 1] == rs[k];
    }
  }

  /** A tree spelled by tokens whose free text is clean has only clean `Special`
      leaves. */
  lemma {:induction false} SpelledSpecialsClean(e: Expr, toks: seq<Lexer.Token>, pos: nat)
    requires Spells(toks, pos, Render(e))
    requires forall t <- toks :: t.tokenType == Lexer.RandomRequest ==> CleanText(t.image)
    ensures SpecialsClean(e)
    decreases e
  {
    match e
    case Course(_, _) =>
    case Special(text) =>
      SpellsOne(toks, pos, Lexeme(Lexer.RandomRequest, text));
      assert toks[pos] in toks;
    case Group(inner, grade) =>
      SpellsAppend(toks, pos, [Open] + Render(inner) + [Close], GradeSuffix(grade));
      SpellsAppend(toks, pos, [Open] + Render(inner), [Close]);
      SpellsAppend(toks, pos, [Open], Render(inner));
      SpelledSpecialsClean(inner, toks, pos + 1);
    case And(xs) =>
      forall k | 0 <= k < |xs|
        ensures SpecialsClean(xs[k])
      {
        OperandSpelled(xs, k, AndKeyword, toks, pos);
        var q: nat :| pos <= q && Spells(toks, q, Render(xs[k]));
        SpelledSpecialsClean(xs[k], toks, q);
      }
    case Or(xs) =>
      forall k | 0 <= k < |xs|
        ensures SpecialsClean(xs[k])
      {
        OperandSpelled(xs, k, OrKeyword, toks, pos);
        var q: nat :| pos <= q && Spells(toks, q, Render(xs[k]));
        SpelledSpecialsClean(xs[k], toks, q);
      }
  }

  /** Every `Special` leaf of a parsed tree is non-empty and holds no parenthesis,
      " and " or " or ". */
  lemma ParsedSpecialsAreClean(text: string, e: Expr)
    requires Parse(text) == Success(e)
    ensures SpecialsClean(e)
  {
    var toks := Lexer.Tokenize(text);
    ParseIsRenderInverse(text, e);
    assert Spells(toks, 0, Render(e));
    forall t <- toks | t.tokenType == Lexer.RandomRequest
      ensures CleanText(t.image)
    {
      Lexer.RandomRequestImage(text, t);
    }
    SpelledSpecialsClean(e, toks, 0);
  }

  // ---------------------------------------------------------------------------
  // Parentheses

  /** The number of lexemes of type `t` in `lx`. */
  function Count(lx: seq<Lexeme>, t: Lexer.TokenType): (n: nat)
    ensures n <= |lx|
  {
    if lx == [] then 0
    else (if lx[0].tokenType == t then 1 else 0) + Count(lx[1..], t)
  }

  lemma {:induction false} CountAppend(a: seq<Lexeme>, b: seq<Lexeme>, t: Lexer.TokenType)
    ensures Count(a + b, t) == Count(a, t) + Count(b, t)
    decreases |a|
  {
    if a == [] {
      assert a + b == b;
    } else {
      assert (a + b)[1..] == a[1..] + b;
      CountAppend(a[1..], b, t);
    }
  }

  /** The parentheses of `lx` nest: no prefix closes more than it opens, and the
      whole sequence closes as many as it opens. */
  predicate Nested(lx: seq<Lexeme>) {
    && Count(lx, Lexer.LParen) == Count(lx, Lexer.RParen)
    && forall k :: 0 <= k <= |lx| ==> Count(lx[..k], Lexer.RParen) <= Count(lx[..k], Lexer.LParen)
  }

  /** A sequence with no parenthesis counts none. */
  lemma {:induction false} CountAbsent(lx: seq<Lexeme>, t: Lexer.TokenType)
    requires forall i :: 0 <= i < |lx| ==> lx[i].tokenType != t
    ensures Count(lx, t) == 0
    decreases |lx|
  {
    if lx != [] {
      assert forall i :: 0 <= i < |lx[1..]| ==> lx[1..][i] == lx[i + 1];
      CountAbsent(lx[1..], t);
    }
  }

  /** A sequence with no parenthesis nests. */
  lemma NestedFree(lx: seq<Lexeme>)
    requires forall i :: 0 <= i < |lx| ==> lx[i].tokenType != Lexer.LParen && lx[i].tokenType != Lexer.RParen
    ensures Nested(lx)
  {
    CountAbsent(lx, Lexer.LParen);
    CountAbsent(lx, Lexer.RParen);
    forall k | 0 <= k <= |lx|
      ensures Count(lx[..k], Lexer.RParen) <= Count(lx[..k], Lexer.LParen)
    {
      CountAbsent(lx[..k], Lexer.RParen);
    }
  }

  /** Nesting sequences written one after the other nest. */
  lemma NestedAppend(a: seq<Lexeme>, b: seq<Lexeme>)
    requires Nested(a) && Nested(b)
    ensures Nested(a + b)
  {
    CountAppend(a, b, Lexer.LParen);
    CountAppend(a, b, Lexer.RParen);
    forall k | 0 <= k <= |a + b|
      ensures Count((a + b)[..k], Lexer.RParen) <= Count((a + b)[..k], Lexer.LParen)
    {
      if k <= |a| {
        assert (a + b)[..k] == a[..k];
      } else {
        assert (a + b)[..k] == a + b[..k - |a|];
        assert Count(b[..k - |a|], Lexer.RParen) <= Count(b[..k - |a|], Lexer.LParen);
        CountAppend(a, b[..k - |a|], Lexer.LParen);
        CountAppend(a, b[..k - |a|], Lexer.RParen);
      }
    }
  }

  /** A nesting sequence between `(` and `)` nests. */
  lemma NestedWrap(x: seq<Lexeme>)
    requires Nested(x)
    ensures Nested([Open] + x + [Close])
  {
    var w := [Open] + x + [Close];
    CountAppend([Open] + x, [Close], Lexer.LParen);
    CountAppend([Open] + x, [Close], Lexer.RParen);
    CountAppend([Open], x, Lexer.LParen);
    CountAppend([Open], x, Lexer.RParen);
    forall k | 0 <= k <= |w|
      ensures Count(w[..k], Lexer.RParen) <= Count(w[..k], Lexer.LParen)
    {
      if k == 0 {
        assert w[..k] == [];
      } else if k <= |x| + 1 {
        assert w[..k] == [Open] + x[..k - 1];
        assert Count(x[..k - 1], Lexer.RParen) <= Count(x[..k - 1], Lexer.LParen);
        CountAppend([Open], x[..k - 1], Lexer.LParen);
        CountAppend([Open], x[..k - 1], Lexer.RParen);
      } else {
        assert w[..k] == w;
      }
    }
  }

  /** A grade suffix holds no parenthesis. */
  lemma GradeNested(grade: string)
    ensures Nested(GradeSuffix(grade))
  {
    NestedFree(GradeSuffix(grade));
  }

  /** Every written tree nests its parentheses. */
  lemma {:induction false} RenderNested(e: Expr)
    ensures Nested(Render(e))
    decreases e, 1
  {
    match e
    case Course(code, grade) =>
      NestedFree([Lexeme(Lexer.Course, code)]);
      GradeNested(grade);
      NestedAppend([Lexeme(Lexer.Course, code)], GradeSuffix(grade));
    case Special(text) =>
      NestedFree([Lexeme(Lexer.RandomRequest, text)]);
    case Group(inner, grade) =>
      RenderNested(inner);
      NestedWrap(Render(inner));
      GradeNested(grade);
      NestedAppend([Open] + Render(inner) + [Close], GradeSuffix(grade));
    case And(xs) =>
      JoinedNested(xs, AndKeyword);
    case Or(xs) =>
      JoinedNested(xs, OrKeyword);
  }

  lemma {:induction false} JoinedNested(xs: seq<Expr>, sep: Lexeme)
    requires sep.tokenType != Lexer.LParen && sep.tokenType != Lexer.RParen
    ensures Nested(Joined(xs, sep))
    decreases xs, 0
  {
    if |xs| == 0 {
      NestedFree([]);
    } else {
      RenderNested(xs[0]);
      TrailingNested(xs[1..], sep);
      NestedAppend(Render(xs[0]), Trailing(xs[1..], sep));
    }
  }

  lemma {:induction false} TrailingNested(rs: seq<Expr>, sep: Lexeme)
    requires sep.tokenType != Lexer.LParen && sep.tokenType != Lexer.RParen
    ensures Nested(Trailing(rs, sep))
    decreases rs, 0
  {
    if |rs| == 0 {
      NestedFree([]);
    } else {
      NestedFree([sep]);
      RenderNested(rs[0]);
      TrailingNested(rs[1..], sep);
      NestedAppend([sep], Render(rs[0]));
      NestedAppend([sep] + Render(rs[0]), Trailing(rs[1..], sep));
    }
  }

  /** The tokens of a successful token parse nest their parentheses. */
  lemma ParsedTokensNest(toks: seq<Lexer.Token>, e: Expr)
    requires AllWellFormed(toks) && ParseTokens(toks) == Success(e)
    ensures Nested(Lexemes(toks))
  {
    ParseTokensIsRenderInverse(toks, e);
    RenderNested(e);
  }

  /** A successful `parseInput` had nesting parentheses; so a `)` before its `(`,
      or a `(` never closed, makes it fail. */
  lemma ParsedParensNest(text: string, e: Expr)
    requires Parse(text) == Success(e)
    ensures Nested(Lexemes(Lexer.Tokenize(text)))
  {
    ParseIsRenderInverse(text, e);
    RenderNested(e);
  }

  // ---------------------------------------------------------------------------
  // The grammar on small token sequences (offsets play no part in parsing)

  function Tok(t: Lexer.TokenType, image: string): Lexer.Token {
    Lexer.Token(t, image, 0)
  }

  const CS101 := Tok(Lexer.Course, "CS 101")
  const CS102 := Tok(Lexer.Course, "CS 102")
  const CS103 := Tok(Lexer.Course, "CS 103")
  const AndTok := Tok(Lexer.And, "and")
  const OrTok := Tok(Lexer.Or, "or")
  const LParenTok := Tok(Lexer.LParen, "(")
  const RParenTok := Tok(Lexer.RParen, ")")
  const GradeC := Tok(Lexer.Grade, "with a grade of C")

  /** "CS 101 and CS 102 or CS 103" is `And(CS 101, Or(CS 102, CS 103))`: `or`
      binds tighter than `and`. */
  lemma OrBindsTighter()
    ensures ParseTokens([CS101, AndTok, CS102, OrTok, CS103])
            == Success(And([Course("CS 101", ""), Or([Course("CS 102", ""), Course("CS 103", "")])]))
  {
    var toks := [CS101, AndTok, CS102, OrTok, CS103];
    var e := And([Course("CS 101", ""), Or([Course("CS 102", ""), Course("CS 103", "")])]);
    assert Lexemes(toks) == Render(e);
    ParseTokensIsRenderInverse(toks, e);
  }

  /** "CS 101 or CS 102 and CS 103" is `And(Or(CS 101, CS 102), CS 103)`. */
  lemma AndBindsLooser()
    ensures ParseTokens([CS101, OrTok, CS102, AndTok, CS103])
            == Success(And([Or([Course("CS 101", ""), Course("CS 102", "")]), Course("CS 103", "")]))
  {
    var toks := [CS101, OrTok, CS102, AndTok, CS103];
    var inner := Or([Course("CS 101", ""), Course("CS 102", "")]);
    var operands := [inner, Course("CS 103", "")];
    var e := And(operands);
    var lx := [LexemeOf(CS101), OrKeyword, LexemeOf(CS102), AndKeyword, LexemeOf(CS103)];
    assert operands[1..] == [Course("CS 103", "")];
    assert Trailing(operands[1..], AndKeyword) == lx[3..];
    assert Render(inner) == lx[..3];
    assert Render(e) == lx;
    assert Lexemes(toks) == lx;
    ParseTokensIsRenderInverse(toks, e);
  }

  /** "(CS 101 or CS 102) with a grade of C" is a group carrying the grade. */
  lemma GroupTakesGrade()
    ensures ParseTokens([LParenTok, CS101, OrTok, CS102, RParenTok, GradeC])
            == Success(Group(Or([Course("CS 101", ""), Course("CS 102", "")]), "with a grade of C"))
  {
    var toks := [LParenTok, CS101, OrTok, CS102, RParenTok, GradeC];
    var inner := Or([Course("CS 101", ""), Course("CS 102", "")]);
    var e := Group(inner, "with a grade of C");
    var lx := [Open, LexemeOf(CS101), OrKeyword, LexemeOf(CS102), Close, LexemeOf(GradeC)];
    assert Render(inner) == lx[1..4];
    assert Render(e) == lx;
    assert Lexemes(toks) == lx;
    ParseTokensIsRenderInverse(toks, e);
  }

  /** "(CS 101" fails: the group is never closed. */
  lemma UnclosedGroupFails()
    ensures ParseTokens([LParenTok, CS101]).Failure?
  {
    var toks, c := [LParenTok, CS101], Course("CS 101", "");
    assert CourseRule(toks, 1) == Success(Parsed(c, 2));
    assert AtomicRule(toks, 1) == Success(Parsed(c, 2));
    assert OrTail(toks, [c], 2) == Success(Parsed(c, 2));
    assert AndTail(toks, [c], 2) == Success(Parsed(c, 2));
    assert AndRule(toks, 1) == Success(Parsed(c, 2));
    assert ParenRule(toks, 0).Failure?;
    assert AtomicRule(toks, 0).Failure?;
    assert OrRule(toks, 0).Failure?;
  }

  /** "CS 101)" fails: the `)` is left over after the top rule. */
  lemma LeftoverTokenFails()
    ensures ParseTokens([CS101, RParenTok]).Failure?
  {
    var toks, c := [CS101, RParenTok], Course("CS 101", "");
    assert CourseRule(toks, 0) == Success(Parsed(c, 1));
    assert AtomicRule(toks, 0) == Success(Parsed(c, 1));
    assert OrTail(toks, [c], 1) == Success(Parsed(c, 1));
    assert AndTail(toks, [c], 1) == Success(Parsed(c, 1));
    assert AndRule(toks, 0) == Success(Parsed(c, 1));
  }

  /** "CS 101) or (CS 102" fails: its parentheses are as many but do not nest. */
  lemma StrayCloseFails()
    ensures ParseTokens([CS101, RParenTok, OrTok, LParenTok, CS102]).Failure?
  {
    var toks := [CS101, RParenTok, OrTok, LParenTok, CS102];
    var lx := Lexemes(toks);
    assert lx[..2] == [LexemeOf(CS101), Close];
    assert Count(lx[..2], Lexer.RParen) == 1 && Count(lx[..2], Lexer.LParen) == 0;
    assert !Nested(lx);
    if ParseTokens(toks).Success? {
      ParsedTokensNest(toks, ParseTokens(toks).value);
      assert false;
    }
  }

  /** "CS 101 and" fails: `and` needs a right operand. */
  lemma MissingOperandFails()
    ensures ParseTokens([CS101, AndTok]).Failure?
  {
    var toks, c := [CS101, AndTok], Course("CS 101", "");
    assert CourseRule(toks, 0) == Success(Parsed(c, 1));
    assert AtomicRule(toks, 0) == Success(Parsed(c, 1));
    assert OrTail(toks, [c], 1) == Success(Parsed(c, 1));
    assert OrRule(toks, 0) == Success(Parsed(c, 1));
    assert OrRule(toks, 2).Failure?;
    assert AndTail(toks, [c], 1).Failure?;
  }

  /** A grade with no course before it, and an input with no tokens, fail: no
      alternative of `atomicBooleanExpression` starts there. */
  lemma NoAlternativeFails()
    ensures ParseTokens([GradeC]).Failure?
    ensures ParseTokens([]).Failure?
  {
    assert AtomicRule([GradeC], 0).Failure?;
    assert OrRule([GradeC], 0).Failure?;
    assert AtomicRule([], 0).Failure?;
    assert OrRule([], 0).Failure?;
  }
}
