/** Writing a tree back as the token sequence it was parsed from, and the proof that
    the grammar of components/parser.ts (lines 64-140) and this rendering are
    inverse: a parse that succeeds consumed exactly the rendering of the tree it
    returns, and the rendering of every tree of the grammar's shape parses back to
    that tree. Together they pin down the order of operands (source order, left to
    right), the verbatim course codes, grades and free text, and the precedence of
    `or` over `and`. */
module Unparse {

  import opened Wrappers
  import opened Ast
  import opened Grammar
  import Lexer

  /** A token without its offset: the part the parser reads. */
  datatype Lexeme = Lexeme(tokenType: Lexer.TokenType, image: string)

  function LexemeOf(t: Lexer.Token): Lexeme {
    Lexeme(t.tokenType, t.image)
  }

  function Lexemes(toks: seq<Lexer.Token>): (lx: seq<Lexeme>)
    ensures |lx| == |toks| && forall i :: 0 <= i < |toks| ==> lx[i] == LexemeOf(toks[i])
  {
    seq(|toks|, i requires 0 <= i < |toks| => LexemeOf(toks[i]))
  }

  const AndKeyword := Lexeme(Lexer.And, "and")
  const OrKeyword := Lexeme(Lexer.Or, "or")
  const Open := Lexeme(Lexer.LParen, "(")
  const Close := Lexeme(Lexer.RParen, ")")

  function Separator(op: Connective): Lexeme {
    match op
    case Conjunction => AndKeyword
    case Disjunction => OrKeyword
  }

  /** The Grade token after a course or a group, absent when the grade is `""`. */
  function GradeSuffix(grade: string): seq<Lexeme> {
    if grade == "" then [] else [Lexeme(Lexer.Grade, grade)]
  }

  /** The token sequence a tree is written as. */
  function Render(e: Expr): seq<Lexeme> {
    match e
    case Course(code, grade) => [Lexeme(Lexer.Course, code)] + GradeSuffix(grade)
    case Group(inner, grade) => [Open] + Render(inner) + [Close] + GradeSuffix(grade)
    case And(xs) => Joined(xs, AndKeyword)
    case Or(xs) => Joined(xs, OrKeyword)
    case Special(text) => [Lexeme(Lexer.RandomRequest, text)]
  }

  /** The renderings of `xs`, with `sep` between each two. */
  function Joined(xs: seq<Expr>, sep: Lexeme): seq<Lexeme> {
    if |xs| == 0 then [] else Render(xs[0]) + Trailing(xs[1..], sep)
  }

  /** The renderings of `rs`, each after a `sep`: what the `MANY` loop of a rule
      reads once the first operand is in. */
  function Trailing(rs: seq<Expr>, sep: Lexeme): seq<Lexeme> {
    if |rs| == 0 then [] else [sep] + Render(rs[0]) + Trailing(rs[1..], sep)
  }

  /** The tokens from `pos` on begin with the lexemes `lx`. */
  ghost predicate Spells(toks: seq<Lexer.Token>, pos: nat, lx: seq<Lexeme>) {
    pos + |lx| <= |toks| && forall i {:trigger lx[i]} :: 0 <= i < |lx| ==> LexemeOf(toks[pos + i]) == lx[i]
  }

  /** Position `k` is the end of `toks` or holds a token whose type is not in `stops`. */
  predicate EndsBefore(toks: seq<Lexer.Token>, k: nat, stops: set<Lexer.TokenType>) {
    k == |toks| || (k < |toks| && toks[k].tokenType !in stops)
  }

  predicate AllWellFormed(toks: seq<Lexer.Token>) {
    forall t <- toks :: Lexer.WellFormed(t)
  }

  // ---------------------------------------------------------------------------
  // Small facts about rendering and spelling

  lemma SpellsAppend(toks: seq<Lexer.Token>, pos: nat, a: seq<Lexeme>, b: seq<Lexeme>)
    ensures Spells(toks, pos, a + b) <==> Spells(toks, pos, a) && Spells(toks, pos + |a|, b)
  {
    if Spells(toks, pos, a) && Spells(toks, pos + |a|, b) {
      forall i | 0 <= i < |a + b|
        ensures LexemeOf(toks[pos + i]) == (a + b)[i]
      {
        if i >= |a| {
          assert LexemeOf(toks[pos + |a| + (i - |a|)]) == b[i - |a|];
        }
      }
    }
    if Spells(toks, pos, a + b) {
      forall i | 0 <= i < |b|
        ensures LexemeOf(toks[pos + |a| + i]) == b[i]
      {
        assert (a + b)[|a| + i] == b[i];
      }
      forall i | 0 <= i < |a|
        ensures LexemeOf(toks[pos + i]) == a[i]
      {
        assert (a + b)[i] == a[i];
      }
    }
  }

  lemma SpellsOne(toks: seq<Lexer.Token>, pos: nat, x: Lexeme)
    ensures Spells(toks, pos, [x]) <==> pos < |toks| && LexemeOf(toks[pos]) == x
  {
    if pos < |toks| && LexemeOf(toks[pos]) == x {
      assert LexemeOf(toks[pos + 0]) == [x][0];
    }
    if Spells(toks, pos, [x]) {
      assert LexemeOf(toks[pos + 0]) == [x][0];
    }
  }

  lemma Associative(a: seq<Lexeme>, b: seq<Lexeme>, c: seq<Lexeme>, d: seq<Lexeme>)
    ensures a + (b + c + d) == a + b + c + d
  {
  }

  lemma {:induction false} TrailingSnoc(rs: seq<Expr>, x: Expr, sep: Lexeme)
    ensures Trailing(rs + [x], sep) == Trailing(rs, sep) + [sep] + Render(x)
    decreases rs
  {
    if |rs| == 0 {
      assert rs + [x] == [x];
      assert [x][1..] == [];
    } else {
      assert (rs + [x])[1..] == rs[1..] + [x];
      TrailingSnoc(rs[1..], x, sep);
    }
  }

  /** Adding an operand at the end of a list writes a separator and the operand. */
  lemma JoinedSnoc(init: seq<Expr>, x: Expr, sep: Lexeme)
    requires |init| >= 1
    ensures Joined(init + [x], sep) == Joined(init, sep) + [sep] + Render(x)
  {
    var xs := init + [x];
    assert xs[0] == init[0] && xs[1..] == init[1..] + [x];
    TrailingSnoc(init[1..], x, sep);
    Associative(Render(init[0]), Trailing(init[1..], sep), [sep], Render(x));
  }

  /** A collapsed operand list is written as its operands joined by the keyword. */
  lemma RenderCombine(op: Connective, xs: seq<Expr>)
    requires |xs| >= 1
    ensures Render(Combine(op, xs)) == Joined(xs, Separator(op))
  {
  }

  // ---------------------------------------------------------------------------
  // A successful parse consumed exactly the rendering of its tree

  /** A spelled operand list, a separator and a spelled operand spell the longer list
      `whole`. */
  lemma JoinedSpellsSnoc(toks: seq<Lexer.Token>, start: nat, init: seq<Expr>, x: Expr, sep: Lexeme, whole: seq<Lexeme>)
    requires |init| >= 1 && whole == Joined(init + [x], sep)
    requires Spells(toks, start, Joined(init, sep))
    requires Spells(toks, start + |Joined(init, sep)|, [sep])
    requires Spells(toks, start + |Joined(init, sep)| + 1, Render(x))
    ensures Spells(toks, start, whole)
    ensures |whole| == |Joined(init, sep)| + 1 + |Render(x)|
  {
    JoinedSnoc(init, x, sep);
    SpellsAppend(toks, start, Joined(init, sep), [sep]);
    SpellsAppend(toks, start, Joined(init, sep) + [sep], Render(x));
  }

  /** A keyword token of the right type is spelled by its lexeme. */
  lemma KeywordSpells(toks: seq<Lexer.Token>, pos: nat, op: Connective)
    requires AllWellFormed(toks)
    requires At(toks, pos, if op == Conjunction then Lexer.And else Lexer.Or)
    ensures Spells(toks, pos, [Separator(op)])
  {
    assert Lexer.WellFormed(toks[pos]);
    SpellsOne(toks, pos, Separator(op));
  }

  lemma {:induction false} AndRuleSpells(toks: seq<Lexer.Token>, pos: nat)
    requires pos <= |toks| && AllWellFormed(toks) && AndRule(toks, pos).Success?
    ensures Spells(toks, pos, Render(AndRule(toks, pos).value.expr))
    ensures AndRule(toks, pos).value.next == pos + |Render(AndRule(toks, pos).value.expr)|
    decreases |toks| - pos, 3
  {
    var first := OrRule(toks, pos).value;
    OrRuleSpells(toks, pos);
    AndTailSpells(toks, [first.expr], first.next, pos);
  }

  lemma {:induction false} AndTailSpells(toks: seq<Lexer.Token>, value: seq<Expr>, pos: nat, start: nat)
    requires pos <= |toks| && AllWellFormed(toks)
    requires |value| >= 1 && forall x <- value :: OrLevel(x)
    requires AndTail(toks, value, pos).Success?
    requires Spells(toks, start, Joined(value, AndKeyword)) && pos == start + |Joined(value, AndKeyword)|
    ensures Spells(toks, start, Render(AndTail(toks, value, pos).value.expr))
    ensures AndTail(toks, value, pos).value.next == start + |Render(AndTail(toks, value, pos).value.expr)|
    decreases |toks| - pos, 0
  {
    if At(toks, pos, Lexer.And) {
      var p := OrRule(toks, pos + 1).value;
      OrRuleSpells(toks, pos + 1);
      KeywordSpells(toks, pos, Conjunction);
      var value' := value + [p.expr];
      JoinedSpellsSnoc(toks, start, value, p.expr, AndKeyword, Joined(value', AndKeyword));
      AndTailSpells(toks, value', p.next, start);
    } else {
      RenderCombine(Conjunction, value);
    }
  }

  lemma {:induction false} OrRuleSpells(toks: seq<Lexer.Token>, pos: nat)
    requires pos <= |toks| && AllWellFormed(toks) && OrRule(toks, pos).Success?
    ensures Spells(toks, pos, Render(OrRule(toks, pos).value.expr))
    ensures OrRule(toks, pos).value.next == pos + |Render(OrRule(toks, pos).value.expr)|
    decreases |toks| - pos, 2
  {
    var first := AtomicRule(toks, pos).value;
    AtomicRuleSpells(toks, pos);
    OrTailSpells(toks, [first.expr], first.next, pos);
  }

  lemma {:induction false} OrTailSpells(toks: seq<Lexer.Token>, value: seq<Expr>, pos: nat, start: nat)
    requires pos <= |toks| && AllWellFormed(toks)
    requires |value| >= 1 && forall x <- value :: AtomicLevel(x)
    requires OrTail(toks, value, pos).Success?
    requires Spells(toks, start, Joined(value, OrKeyword)) && pos == start + |Joined(value, OrKeyword)|
    ensures Spells(toks, start, Render(OrTail(toks, value, pos).value.expr))
    ensures OrTail(toks, value, pos).value.next == start + |Render(OrTail(toks, value, pos).value.expr)|
    decreases |toks| - pos, 0
  {
    if At(toks, pos, Lexer.Or) {
      var p := AtomicRule(toks, pos + 1).value;
      AtomicRuleSpells(toks, pos + 1);
      KeywordSpells(toks, pos, Disjunction);
      var value' := value + [p.expr];
      JoinedSpellsSnoc(toks, start, value, p.expr, OrKeyword, Joined(value', OrKeyword));
      OrTailSpells(toks, value', p.next, start);
    } else {
      RenderCombine(Disjunction, value);
    }
  }

  /** The grade a course or a group takes from the token at `k`, if any, is spelled
      by its grade suffix. */
  lemma GradeSpells(toks: seq<Lexer.Token>, k: nat)
    requires k <= |toks| && AllWellFormed(toks)
    ensures At(toks, k, Lexer.Grade) ==> toks[k].image != "" && Spells(toks, k, GradeSuffix(toks[k].image))
  {
    if At(toks, k, Lexer.Grade) {
      assert Lexer.WellFormed(toks[k]);
      SpellsOne(toks, k, Lexeme(Lexer.Grade, toks[k].image));
    }
  }

  /** Spelled brackets around a spelled tree, then a spelled grade suffix, spell the
      group. */
  lemma GroupSpells(toks: seq<Lexer.Token>, pos: nat, inner: Expr, grade: string)
    requires Spells(toks, pos, [Open]) && Spells(toks, pos + 1, Render(inner))
    requires Spells(toks, pos + 1 + |Render(inner)|, [Close])
    requires Spells(toks, pos + 2 + |Render(inner)|, GradeSuffix(grade))
    ensures Spells(toks, pos, Render(Group(inner, grade)))
  {
    SpellsAppend(toks, pos, [Open], Render(inner));
    SpellsAppend(toks, pos, [Open] + Render(inner), [Close]);
    SpellsAppend(toks, pos, [Open] + Render(inner) + [Close], GradeSuffix(grade));
  }

  lemma {:induction false} ParenRuleSpells(toks: seq<Lexer.Token>, pos: nat)
    requires pos <= |toks| && AllWellFormed(toks) && ParenRule(toks, pos).Success?
    ensures Spells(toks, pos, Render(ParenRule(toks, pos).value.expr))
    ensures ParenRule(toks, pos).value.next == pos + |Render(ParenRule(toks, pos).value.expr)|
    decreases |toks| - pos, 0
  {
    var e := ParenRule(toks, pos).value.expr;
    var inner := AndRule(toks, pos + 1).value;
    AndRuleSpells(toks, pos + 1);
    assert Lexer.WellFormed(toks[pos]) && Lexer.WellFormed(toks[inner.next]);
    SpellsOne(toks, pos, Open);
    SpellsOne(toks, inner.next, Close);
    GradeSpells(toks, inner.next + 1);
    GroupSpells(toks, pos, inner.expr, e.grade);
  }

  lemma {:induction false} AtomicRuleSpells(toks: seq<Lexer.Token>, pos: nat)
    requires pos <= |toks| && AllWellFormed(toks) && AtomicRule(toks, pos).Success?
    ensures Spells(toks, pos, Render(AtomicRule(toks, pos).value.expr))
    ensures AtomicRule(toks, pos).value.next == pos + |Render(AtomicRule(toks, pos).value.expr)|
    decreases |toks| - pos, 1
  {
    var e := AtomicRule(toks, pos).value.expr;
    if At(toks, pos, Lexer.LParen) {
      ParenRuleSpells(toks, pos);
    } else if At(toks, pos, Lexer.Course) {
      SpellsOne(toks, pos, Lexeme(Lexer.Course, e.code));
      GradeSpells(toks, pos + 1);
      SpellsAppend(toks, pos, [Lexeme(Lexer.Course, e.code)], GradeSuffix(e.grade));
    } else {
      SpellsOne(toks, pos, Lexeme(Lexer.RandomRequest, e.text));
    }
  }

  // ---------------------------------------------------------------------------
  // The rendering of a tree of the grammar's shape parses back to that tree

  /** A spelled operand list begins with its first operand, and the rest follows. */
  lemma JoinedSpellsSplit(xs: seq<Expr>, sep: Lexeme, toks: seq<Lexer.Token>, pos: nat)
    requires |xs| >= 1 && Spells(toks, pos, Joined(xs, sep))
    ensures Spells(toks, pos, Render(xs[0]))
    ensures Spells(toks, pos + |Render(xs[0])|, Trailing(xs[1..], sep))
    ensures |Joined(xs, sep)| == |Render(xs[0])| + |Trailing(xs[1..], sep)|
  {
    SpellsAppend(toks, pos, Render(xs[0]), Trailing(xs[1..], sep));
  }

  /** A spelled non-empty rest begins with a separator token, then the next operand,
      and the rest of the rest follows. */
  lemma TrailingSpellsSplit(rs: seq<Expr>, sep: Lexeme, toks: seq<Lexer.Token>, pos: nat)
    requires |rs| >= 1 && Spells(toks, pos, Trailing(rs, sep))
    ensures pos < |toks| && LexemeOf(toks[pos]) == sep
    ensures Spells(toks, pos + 1, Render(rs[0]))
    ensures Spells(toks, pos + 1 + |Render(rs[0])|, Trailing(rs[1..], sep))
    ensures |Trailing(rs, sep)| == 1 + |Render(rs[0])| + |Trailing(rs[1..], sep)|
  {
    SpellsAppend(toks, pos, [sep] + Render(rs[0]), Trailing(rs[1..], sep));
    SpellsAppend(toks, pos, [sep], Render(rs[0]));
    SpellsOne(toks, pos, sep);
  }

  /** A spelled non-empty rest that ends before a token in `stops` begins with its
      separator; its first operand is spelled next and also ends before a token in
      `stops`, since the separator or the end follows it. */
  lemma TrailingStep(rs: seq<Expr>, sep: Lexeme, toks: seq<Lexer.Token>, pos: nat, stops: set<Lexer.TokenType>)
    requires |rs| >= 1 && Spells(toks, pos, Trailing(rs, sep)) && sep.tokenType !in stops
    requires EndsBefore(toks, pos + |Trailing(rs, sep)|, stops)
    ensures At(toks, pos, sep.tokenType) && Spells(toks, pos + 1, Render(rs[0]))
    ensures EndsBefore(toks, pos + 1 + |Render(rs[0])|, stops)
    ensures Spells(toks, pos + 1 + |Render(rs[0])|, Trailing(rs[1..], sep))
    ensures pos + 1 + |Render(rs[0])| + |Trailing(rs[1..], sep)| == pos + |Trailing(rs, sep)|
  {
    TrailingSpellsSplit(rs, sep, toks, pos);
    TrailingNext(rs, sep, toks, pos);
  }

  /** After the first operand of a spelled rest comes the next separator, or the
      end of the rest. */
  lemma TrailingNext(rs: seq<Expr>, sep: Lexeme, toks: seq<Lexer.Token>, pos: nat)
    requires |rs| >= 1 && Spells(toks, pos, Trailing(rs, sep))
    ensures var next := pos + 1 + |Render(rs[0])|;
            || next == pos + |Trailing(rs, sep)|
            || (next < |toks| && LexemeOf(toks[next]) == sep)
  {
    var rest := Trailing(rs[1..], sep);
    TrailingSpellsSplit(rs, sep, toks, pos);
    if |rs| > 1 {
      TrailingSpellsSplit(rs[1..], sep, toks, pos + 1 + |Render(rs[0])|);
    } else {
      assert rest == [];
    }
  }

  // Single unfoldings of the rule functions, each in a context of its own

  lemma AndRuleUnfold(toks: seq<Lexer.Token>, pos: nat, x: Expr, next: nat)
    requires pos <= |toks| && OrRule(toks, pos) == Success(Parsed(x, next))
    ensures next <= |toks| && OrLevel(x)
    ensures AndRule(toks, pos) == AndTail(toks, [x], next)
  {
  }

  lemma AndTailUnfold(toks: seq<Lexer.Token>, value: seq<Expr>, pos: nat, x: Expr, next: nat)
    requires |value| >= 1 && forall y <- value :: OrLevel(y)
    requires At(toks, pos, Lexer.And) && OrRule(toks, pos + 1) == Success(Parsed(x, next))
    ensures next <= |toks| && forall y <- value + [x] :: OrLevel(y)
    ensures AndTail(toks, value, pos) == AndTail(toks, value + [x], next)
  {
  }

  lemma AndTailStop(toks: seq<Lexer.Token>, value: seq<Expr>, pos: nat)
    requires pos <= |toks| && |value| >= 1 && forall y <- value :: OrLevel(y)
    requires !At(toks, pos, Lexer.And)
    ensures AndTail(toks, value, pos) == Success(Parsed(Combine(Conjunction, value), pos))
  {
  }

  lemma OrRuleUnfold(toks: seq<Lexer.Token>, pos: nat, x: Expr, next: nat)
    requires pos <= |toks| && AtomicRule(toks, pos) == Success(Parsed(x, next))
    ensures next <= |toks| && AtomicLevel(x)
    ensures OrRule(toks, pos) == OrTail(toks, [x], next)
  {
  }

  lemma OrTailUnfold(toks: seq<Lexer.Token>, value: seq<Expr>, pos: nat, x: Expr, next: nat)
    requires |value| >= 1 && forall y <- value :: AtomicLevel(y)
    requires At(toks, pos, Lexer.Or) && AtomicRule(toks, pos + 1) == Success(Parsed(x, next))
    ensures next <= |toks| && forall y <- value + [x] :: AtomicLevel(y)
    ensures OrTail(toks, value, pos) == OrTail(toks, value + [x], next)
  {
  }

  lemma OrTailStop(toks: seq<Lexer.Token>, value: seq<Expr>, pos: nat)
    requires pos <= |toks| && |value| >= 1 && forall y <- value :: AtomicLevel(y)
    requires !At(toks, pos, Lexer.Or)
    ensures OrTail(toks, value, pos) == Success(Parsed(Combine(Disjunction, value), pos))
  {
  }

  lemma {:induction false} AndRuleReads(e: Expr, toks: seq<Lexer.Token>, pos: nat)
    requires AndLevel(e) && Spells(toks, pos, Render(e))
    requires EndsBefore(toks, pos + |Render(e)|, {Lexer.And, Lexer.Or, Lexer.Grade})
    ensures AndRule(toks, pos) == Success(Parsed(e, pos + |Render(e)|))
    decreases e, 3
  {
    if OrLevel(e) {
      AndRuleReadsOperand(e, toks, pos);
    } else {
      AndRuleReadsNode(e.operands, toks, pos);
    }
  }

  /** A lone operand: the rule below reads it and the loop stops at once. */
  lemma {:induction false} AndRuleReadsOperand(e: Expr, toks: seq<Lexer.Token>, pos: nat)
    requires OrLevel(e) && Spells(toks, pos, Render(e))
    requires EndsBefore(toks, pos + |Render(e)|, {Lexer.And, Lexer.Or, Lexer.Grade})
    ensures AndRule(toks, pos) == Success(Parsed(e, pos + |Render(e)|))
    decreases e, 3, 0
  {
    OrRuleReads(e, toks, pos);
    AndRuleUnfold(toks, pos, e, pos + |Render(e)|);
    AndTailStop(toks, [e], pos + |Render(e)|);
  }

  /** The first operand of a spelled `and` node is read by the rule below, and
      the rest of the node follows it. */
  lemma AndNodeHead(xs: seq<Expr>, toks: seq<Lexer.Token>, pos: nat)
    requires |xs| >= 2 && (forall x <- xs :: OrLevel(x)) && Spells(toks, pos, Render(And(xs)))
    requires EndsBefore(toks, pos + |Render(And(xs))|, {Lexer.And, Lexer.Or, Lexer.Grade})
    ensures OrRule(toks, pos) == Success(Parsed(xs[0], pos + |Render(xs[0])|))
    ensures Spells(toks, pos + |Render(xs[0])|, Trailing(xs[1..], AndKeyword))
    ensures |Render(And(xs))| == |Render(xs[0])| + |Trailing(xs[1..], AndKeyword)|
    decreases xs, 0
  {
    var next := pos + |Render(xs[0])|;
    JoinedSpellsSplit(xs, AndKeyword, toks, pos);
    TrailingSpellsSplit(xs[1..], AndKeyword, toks, next);
    OrRuleReads(xs[0], toks, pos);
  }

  /** An `and` node: the rule below reads the first operand, the loop the rest. */
  lemma {:induction false} AndRuleReadsNode(xs: seq<Expr>, toks: seq<Lexer.Token>, pos: nat)
    requires |xs| >= 2 && (forall x <- xs :: OrLevel(x)) && Spells(toks, pos, Render(And(xs)))
    requires EndsBefore(toks, pos + |Render(And(xs))|, {Lexer.And, Lexer.Or, Lexer.Grade})
    ensures AndRule(toks, pos) == Success(Parsed(And(xs), pos + |Render(And(xs))|))
    decreases xs, 1
  {
    var next := pos + |Render(xs[0])|;
    AndNodeHead(xs, toks, pos);
    AndRuleUnfold(toks, pos, xs[0], next);
    AndNodeRest(xs, toks, next, pos + |Render(And(xs))|);
  }

  /** After the first operand of a spelled `and` node, the loop reads the rest
      and returns the node. */
  lemma AndNodeRest(xs: seq<Expr>, toks: seq<Lexer.Token>, next: nat, end: nat)
    requires |xs| >= 2 && (forall x <- xs :: OrLevel(x))
    requires Spells(toks, next, Trailing(xs[1..], AndKeyword)) && end == next + |Trailing(xs[1..], AndKeyword)|
    requires EndsBefore(toks, end, {Lexer.And, Lexer.Or, Lexer.Grade})
    ensures next <= |toks| && AndTail(toks, [xs[0]], next) == Success(Parsed(And(xs), end))
    decreases xs, 0
  {
    AndTailReads(xs[1..], toks, next, end);
    AndTailLoop(toks, [xs[0]], xs[1..], next, end);
    assert [xs[0]] + xs[1..] == xs;
    AndTailStop(toks, xs, end);
  }

  /** From `pos` to `end`, the tokens are what the `MANY` loop of `andExpression`
      reads as the operands `rs`: each an `And` token, then an operand the rule below
      returns. */
  ghost predicate AndLoopReads(toks: seq<Lexer.Token>, rs: seq<Expr>, pos: nat, end: nat)
    decreases |rs|
  {
    if |rs| == 0 then pos == end <= |toks|
    else
      && At(toks, pos, Lexer.And)
      && OrRule(toks, pos + 1).Success?
      && OrRule(toks, pos + 1).value.expr == rs[0]
      && AndLoopReads(toks, rs[1..], OrRule(toks, pos + 1).value.next, end)
  }

  /** The loop, entered with the operands `value`, adds the operands it reads. */
  lemma {:induction false} AndTailLoop(toks: seq<Lexer.Token>, value: seq<Expr>, rs: seq<Expr>, pos: nat, end: nat)
    requires |value| >= 1 && (forall x <- value :: OrLevel(x))
    requires AndLoopReads(toks, rs, pos, end)
    ensures pos <= end <= |toks| && forall x <- value + rs :: OrLevel(x)
    ensures AndTail(toks, value, pos) == AndTail(toks, value + rs, end)
    decreases |rs|
  {
    if |rs| == 0 {
      assert value + rs == value;
    } else {
      var next := OrRule(toks, pos + 1).value.next;
      AndTailUnfold(toks, value, pos, rs[0], next);
      AndTailLoop(toks, value + [rs[0]], rs[1..], next, end);
      assert value + [rs[0]] + rs[1..] == value + rs;
    }
  }

  /** A spelled rest of `and` operands is what the loop reads. */
  lemma {:induction false} AndTailReads(rs: seq<Expr>, toks: seq<Lexer.Token>, pos: nat, end: nat)
    requires forall x <- rs :: OrLevel(x)
    requires Spells(toks, pos, Trailing(rs, AndKeyword)) && end == pos + |Trailing(rs, AndKeyword)|
    requires EndsBefore(toks, end, {Lexer.Or, Lexer.Grade})
    ensures AndLoopReads(toks, rs, pos, end)
    decreases rs, 0
  {
    if |rs| > 0 {
      var next := pos + 1 + |Render(rs[0])|;
      TrailingStep(rs, AndKeyword, toks, pos, {Lexer.Or, Lexer.Grade});
      OrRuleReads(rs[0], toks, pos + 1);
      AndTailReads(rs[1..], toks, next, end);
    }
  }

  lemma {:induction false} OrRuleReads(e: Expr, toks: seq<Lexer.Token>, pos: nat)
    requires OrLevel(e) && Spells(toks, pos, Render(e))
    requires EndsBefore(toks, pos + |Render(e)|, {Lexer.Or, Lexer.Grade})
    ensures OrRule(toks, pos) == Success(Parsed(e, pos + |Render(e)|))
    decreases e, 2
  {
    if AtomicLevel(e) {
      OrRuleReadsOperand(e, toks, pos);
    } else {
      OrRuleReadsNode(e.operands, toks, pos);
    }
  }

  /** A lone operand: the rule below reads it and the loop stops at once. */
  lemma {:induction false} OrRuleReadsOperand(e: Expr, toks: seq<Lexer.Token>, pos: nat)
    requires AtomicLevel(e) && Spells(toks, pos, Render(e))
    requires EndsBefore(toks, pos + |Render(e)|, {Lexer.Or, Lexer.Grade})
    ensures OrRule(toks, pos) == Success(Parsed(e, pos + |Render(e)|))
    decreases e, 2, 0
  {
    AtomicRuleReads(e, toks, pos);
    OrRuleUnfold(toks, pos, e, pos + |Render(e)|);
    OrTailStop(toks, [e], pos + |Render(e)|);
  }

  /** The first operand of a spelled `or` node is read by the rule below, and
      the rest of the node follows it. */
  lemma OrNodeHead(xs: seq<Expr>, toks: seq<Lexer.Token>, pos: nat)
    requires |xs| >= 2 && (forall x <- xs :: AtomicLevel(x)) && Spells(toks, pos, Render(Or(xs)))
    requires EndsBefore(toks, pos + |Render(Or(xs))|, {Lexer.Or, Lexer.Grade})
    ensures AtomicRule(toks, pos) == Success(Parsed(xs[0], pos + |Render(xs[0])|))
    ensures Spells(toks, pos + |Render(xs[0])|, Trailing(xs[1..], OrKeyword))
    ensures |Render(Or(xs))| == |Render(xs[0])| + |Trailing(xs[1..], OrKeyword)|
    decreases xs, 0
  {
    var next := pos + |Render(xs[0])|;
    JoinedSpellsSplit(xs, OrKeyword, toks, pos);
    TrailingSpellsSplit(xs[1..], OrKeyword, toks, next);
    AtomicRuleReads(xs[0], toks, pos);
  }

  /** An `or` node: the rule below reads the first operand, the loop the rest. */
  lemma {:induction false} OrRuleReadsNode(xs: seq<Expr>, toks: seq<Lexer.Token>, pos: nat)
    requires |xs| >= 2 && (forall x <- xs :: AtomicLevel(x)) && Spells(toks, pos, Render(Or(xs)))
    requires EndsBefore(toks, pos + |Render(Or(xs))|, {Lexer.Or, Lexer.Grade})
    ensures OrRule(toks, pos) == Success(Parsed(Or(xs), pos + |Render(Or(xs))|))
    decreases xs, 1
  {
    var next := pos + |Render(xs[0])|;
    OrNodeHead(xs, toks, pos);
    OrRuleUnfold(toks, pos, xs[0], next);
    OrNodeRest(xs, toks, next, pos + |Render(Or(xs))|);
  }

  /** After the first operand of a spelled `or` node, the loop reads the rest
      and returns the node. */
  lemma OrNodeRest(xs: seq<Expr>, toks: seq<Lexer.Token>, next: nat, end: nat)
    requires |xs| >= 2 && (forall x <- xs :: AtomicLevel(x))
    requires Spells(toks, next, Trailing(xs[1..], OrKeyword)) && end == next + |Trailing(xs[1..], OrKeyword)|
    requires EndsBefore(toks, end, {Lexer.Or, Lexer.Grade})
    ensures next <= |toks| && OrTail(toks, [xs[0]], next) == Success(Parsed(Or(xs), end))
    decreases xs, 0
  {
    OrTailReads(xs[1..], toks, next, end);
    OrTailLoop(toks, [xs[0]], xs[1..], next, end);
    assert [xs[0]] + xs[1..] == xs;
    OrTailStop(toks, xs, end);
  }

  /** From `pos` to `end`, the tokens are what the `MANY` loop of `orExpression`
      reads as the operands `rs`: each an `Or` token, then an operand the rule below
      returns. */
  ghost predicate OrLoopReads(toks: seq<Lexer.Token>, rs: seq<Expr>, pos: nat, end: nat)
    decreases |rs|
  {
    if |rs| == 0 then pos == end <= |toks|
    else
      && At(toks, pos, Lexer.Or)
      && AtomicRule(toks, pos + 1).Success?
      && AtomicRule(toks, pos + 1).value.expr == rs[0]
      && OrLoopReads(toks, rs[1..], AtomicRule(toks, pos + 1).value.next, end)
  }

  /** The loop, entered with the operands `value`, adds the operands it reads. */
  lemma {:induction false} OrTailLoop(toks: seq<Lexer.Token>, value: seq<Expr>, rs: seq<Expr>, pos: nat, end: nat)
    requires |value| >= 1 && (forall x <- value :: AtomicLevel(x))
    requires OrLoopReads(toks, rs, pos, end)
    ensures pos <= end <= |toks| && forall x <- value + rs :: AtomicLevel(x)
    ensures OrTail(toks, value, pos) == OrTail(toks, value + rs, end)
    decreases |rs|
  {
    if |rs| == 0 {
      assert value + rs == value;
    } else {
      var next := AtomicRule(toks, pos + 1).value.next;
      OrTailUnfold(toks, value, pos, rs[0], next);
      OrTailLoop(toks, value + [rs[0]], rs[1..], next, end);
      assert value + [rs[0]] + rs[1..] == value + rs;
    }
  }

  /** A spelled rest of `or` operands is what the loop reads. */
  lemma {:induction false} OrTailReads(rs: seq<Expr>, toks: seq<Lexer.Token>, pos: nat, end: nat)
    requires forall x <- rs :: AtomicLevel(x)
    requires Spells(toks, pos, Trailing(rs, OrKeyword)) && end == pos + |Trailing(rs, OrKeyword)|
    requires EndsBefore(toks, end, {Lexer.Grade})
    ensures OrLoopReads(toks, rs, pos, end)
    decreases rs, 0
  {
    if |rs| > 0 {
      var next := pos + 1 + |Render(rs[0])|;
      TrailingStep(rs, OrKeyword, toks, pos, {Lexer.Grade});
      AtomicRuleReads(rs[0], toks, pos + 1);
      OrTailReads(rs[1..], toks, next, end);
    }
  }

  lemma {:induction false} AtomicRuleReads(e: Expr, toks: seq<Lexer.Token>, pos: nat)
    requires AtomicLevel(e) && Spells(toks, pos, Render(e))
    requires EndsBefore(toks, pos + |Render(e)|, {Lexer.Grade})
    ensures AtomicRule(toks, pos) == Success(Parsed(e, pos + |Render(e)|))
    decreases e, 1
  {
    match e
    case Course(code, grade) =>
      CourseReads(code, grade, toks, pos);
    case Special(text) =>
      SpellsOne(toks, pos, Lexeme(Lexer.RandomRequest, text));
    case Group(inner, grade) =>
      GroupReads(inner, grade, toks, pos);
  }

  lemma CourseReads(code: string, grade: string, toks: seq<Lexer.Token>, pos: nat)
    requires Spells(toks, pos, Render(Course(code, grade)))
    requires EndsBefore(toks, pos + |Render(Course(code, grade))|, {Lexer.Grade})
    ensures At(toks, pos, Lexer.Course)
    ensures CourseRule(toks, pos) == Success(Parsed(Course(code, grade), pos + |Render(Course(code, grade))|))
  {
    var head := [Lexeme(Lexer.Course, code)];
    assert Render(Course(code, grade)) == head + GradeSuffix(grade);
    SpellsAppend(toks, pos, head, GradeSuffix(grade));
    SpellsOne(toks, pos, Lexeme(Lexer.Course, code));
    if grade != "" {
      SpellsOne(toks, pos + 1, Lexeme(Lexer.Grade, grade));
    }
  }

  lemma {:induction false} GroupReads(inner: Expr, grade: string, toks: seq<Lexer.Token>, pos: nat)
    requires AndLevel(inner) && Spells(toks, pos, Render(Group(inner, grade)))
    requires EndsBefore(toks, pos + |Render(Group(inner, grade))|, {Lexer.Grade})
    ensures At(toks, pos, Lexer.LParen)
    ensures ParenRule(toks, pos) == Success(Parsed(Group(inner, grade), pos + |Render(Group(inner, grade))|))
    decreases inner, 4
  {
    var body := Render(inner);
    assert Render(Group(inner, grade)) == [Open] + body + [Close] + GradeSuffix(grade);
    SpellsAppend(toks, pos, [Open] + body + [Close], GradeSuffix(grade));
    SpellsAppend(toks, pos, [Open] + body, [Close]);
    SpellsAppend(toks, pos, [Open], body);
    SpellsOne(toks, pos, Open);
    SpellsOne(toks, pos + 1 + |body|, Close);
    AndRuleReads(inner, toks, pos + 1);
    if grade != "" {
      SpellsOne(toks, pos + 2 + |body|, Lexeme(Lexer.Grade, grade));
    }
  }

  // ---------------------------------------------------------------------------
  // The parser, characterised

  /** On a well-formed token sequence, the parse succeeds with `e` exactly when `e`
      has the grammar's shape and the tokens are `e` written out. */
  lemma ParseTokensIsRenderInverse(toks: seq<Lexer.Token>, e: Expr)
    requires AllWellFormed(toks)
    ensures ParseTokens(toks) == Success(e) <==> AndLevel(e) && Lexemes(toks) == Render(e)
  {
    if ParseTokens(toks) == Success(e) {
      AndRuleSpells(toks, 0);
      assert Lexemes(toks) == Render(e);
    }
    if AndLevel(e) && Lexemes(toks) == Render(e) {
      assert Spells(toks, 0, Render(e));
      AndRuleReads(e, toks, 0);
    }
  }

  /** `parseInput` returns `e` exactly when `e` has the grammar's shape and the
      lexer's tokens of `text` are `e` written out: every course code, grade and
      free text in the tree is the image of a token of `text`, in source order. */
  lemma ParseIsRenderInverse(text: string, e: Expr)
    ensures Parse(text) == Success(e) <==> AndLevel(e) && Lexemes(Lexer.Tokenize(text)) == Render(e)
  {
    Lexer.TokensAreWellFormed(text);
    ParseTokensIsRenderInverse(Lexer.Tokenize(text), e);
  }
}
