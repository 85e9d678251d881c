/** The trees `parseInput` returns (components/parser.ts lines 48-140). */
module Ast {

  /** One node of a prerequisite tree. The JavaScript objects are, in order:
      `{course, grade}`, `{courses, grade}`, `{and: [...]}`, `{or: [...]}` and
      `{course, type: 'special'}`. A grade is `""` when no grade clause follows. */
  datatype Expr =
    | Course(code: string, grade: string)
    | Group(inner: Expr, grade: string)
    | And(operands: seq<Expr>)
    | Or(operands: seq<Expr>)
    | Special(text: string)

  /** Which of `generateAnd` and `generateOr` builds a node. */
  datatype Connective = Conjunction | Disjunction

  predicate IsNode(op: Connective, e: Expr) {
    match op
    case Conjunction => e.And?
    case Disjunction => e.Or?
  }

  /** What `e` contributes to the operand list of an `op` node: its own operands if
      it is such a node, and itself otherwise. */
  function OperandsOf(op: Connective, e: Expr): seq<Expr> {
    if IsNode(op, e) then e.operands else [e]
  }

  /** Every `and` and `or` node, at every depth, has at least two operands. */
  predicate NoLoneOperand(e: Expr) {
    match e
    case Course(_, _) => true
    case Special(_) => true
    case Group(inner, _) => NoLoneOperand(inner)
    case And(xs) => |xs| >= 2 && forall x <- xs :: NoLoneOperand(x)
    case Or(xs) => |xs| >= 2 && forall x <- xs :: NoLoneOperand(x)
  }

  /** `or` binds tighter than `and`, at every depth: no `and` node is an operand of
      an `and` or an `or` node, and no `or` node is an operand of an `or` node (a
      parenthesised group resets the levels). */
  predicate Layered(e: Expr) {
    match e
    case Course(_, _) => true
    case Special(_) => true
    case Group(inner, _) => Layered(inner)
    case And(xs) => forall x <- xs :: !x.And? && Layered(x)
    case Or(xs) => forall x <- xs :: !x.And? && !x.Or? && Layered(x)
  }

  /** `value.length === 1 ? value[0] : generateAnd(value)` (line 82, with
      `generateAnd` at lines 48-51), and the same with `generateOr` for `or`
      (lines 54-57, 96): one operand is returned bare, more are wrapped. */
  function Combine(op: Connective, operands: seq<Expr>): (r: Expr)
    requires |operands| >= 1
    ensures (forall x <- operands :: !IsNode(op, x)) ==> OperandsOf(op, r) == operands
    ensures (forall x <- operands :: NoLoneOperand(x)) ==> NoLoneOperand(r)
  {
    if |operands| == 1 then operands[0]
    else
      match op
      case Conjunction => And(operands)
      case Disjunction => Or(operands)
  }

  // The shapes the grammar rules return, one per rule level.

  /** What `atomicBooleanExpression` returns: a course, a free-text leaf, or a
      group around what `andExpression` returns. */
  predicate AtomicLevel(e: Expr)
    decreases e, 0
  {
    match e
    case Course(_, _) => true
    case Special(_) => true
    case Group(inner, _) => AndLevel(inner)
    case And(_) => false
    case Or(_) => false
  }

  /** What `orExpression` returns: an atomic expression, or an `or` of two or more. */
  predicate OrLevel(e: Expr)
    decreases e, 1
  {
    || AtomicLevel(e)
    || (e.Or? && |e.operands| >= 2 && forall x <- e.operands :: AtomicLevel(x))
  }

  /** What `andExpression` returns: an or-level expression, or an `and` of two or more. */
  predicate AndLevel(e: Expr)
    decreases e, 2
  {
    || OrLevel(e)
    || (e.And? && |e.operands| >= 2 && forall x <- e.operands :: OrLevel(x))
  }

  /** Every tree of the grammar's shape has no lone operand and is layered. */
  lemma {:induction false} AndLevelIsWellShaped(e: Expr)
    requires AndLevel(e)
    ensures NoLoneOperand(e) && Layered(e)
    decreases e, 2
  {
    if !OrLevel(e) {
      forall x <- e.operands
        ensures NoLoneOperand(x) && Layered(x) && !x.And?
      {
        OrLevelIsWellShaped(x);
      }
    } else {
      OrLevelIsWellShaped(e);
    }
  }

  lemma {:induction false} OrLevelIsWellShaped(e: Expr)
    requires OrLevel(e)
    ensures NoLoneOperand(e) && Layered(e) && !e.And?
    decreases e, 1
  {
    if !AtomicLevel(e) {
      forall x <- e.operands
        ensures NoLoneOperand(x) && Layered(x) && !x.And? && !x.Or?
      {
        AtomicLevelIsWellShaped(x);
      }
    } else {
      AtomicLevelIsWellShaped(e);
    }
  }

  lemma {:induction false} AtomicLevelIsWellShaped(e: Expr)
    requires AtomicLevel(e)
    ensures NoLoneOperand(e) && Layered(e) && !e.And? && !e.Or?
    decreases e, 0
  {
    if e.Group? {
      AndLevelIsWellShaped(e.inner);
    }
  }
}
