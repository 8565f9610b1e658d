/** The abstract syntax the expression parser builds (src/expressions/parser.rs):
    expressions annotated with the source span they were parsed from. */
module Syntax {

  /** A half-open range of character offsets into the source text. */
  datatype Span = Span(start: nat, end: nat)

  datatype BinaryOperation =
    | Add | Subtract | Multiply | Divide | Exponent | Modulo
    | LessThan | GreaterThan | LessThanOrEqual | GreaterThanOrEqual | Equal | And | Or

  datatype UnaryOperation = Negate | Not

  /** `Expr`; each child is paired with its span, as `Spanned<Box<Expr>>` is. */
  datatype Expr =
    | Number(value: real)
    | Variable(name: string)
    | Group(inner: Spanned)
    | BinaryExpression(left: Spanned, op: BinaryOperation, right: Spanned)
    | UnaryExpression(unaryOp: UnaryOperation, operand: Spanned)
    | Call(callee: string, args: seq<Spanned>)

  datatype Spanned = Spanned(expr: Expr, span: Span)

  /** One statement `name = expression;`, with the span of the whole statement. */
  datatype Assignment = Assignment(name: string, expression: Spanned, span: Span)

  /** The binding strength of each binary operator: 1 binds tightest (`^`), 5 loosest (`&`, `|`). */
  function Precedence(op: BinaryOperation): (p: nat)
    ensures 1 <= p <= 5
  {
    match op
    case Exponent => 1
    case Multiply | Divide | Modulo => 2
    case Add | Subtract => 3
    case LessThan | GreaterThan | LessThanOrEqual | GreaterThanOrEqual | Equal => 4
    case And | Or => 5
  }

  /** The text of each binary operator. */
  function Symbol(op: BinaryOperation): (t: string)
    ensures 1 <= |t| <= 2
  {
    match op
    case Add => "+"
    case Subtract => "-"
    case Multiply => "*"
    case Divide => "/"
    case Exponent => "^"
    case Modulo => "%"
    case LessThan => "<"
    case GreaterThan => ">"
    case LessThanOrEqual => "<="
    case GreaterThanOrEqual => ">="
    case Equal => "=="
    case And => "&"
    case Or => "|"
  }

  /** The character of each prefix operator. */
  function UnarySymbol(op: UnaryOperation): char
  {
    match op
    case Negate => '-'
    case Not => '!'
  }

  /** The tree shape a precedence-layered, left-folding grammar produces, read at
      level `k` (0: a unary operand, 5: a whole expression). A binary node of
      precedence p may stand at any level k >= p; its left operand is read at
      level p (same-level operators to its left) and its right operand at level
      p - 1 (only tighter operators), which is what makes every level fold left.
      A unary operand is read at level 0: prefix operators bind tighter than `^`. */
  ghost predicate Layered(e: Spanned, k: nat)
    decreases e
  {
    match e.expr
    case Number(_) => true
    case Variable(_) => true
    case Group(x) => Layered(x, 5)
    case UnaryExpression(_, x) => Layered(x, 0)
    case BinaryExpression(l, op, r) =>
      Precedence(op) <= k && Layered(l, Precedence(op)) && Layered(r, Precedence(op) - 1)
    case Call(_, args) => forall i :: 0 <= i < |args| ==> Layered(args[i], 5)
  }

  /** Children's spans nest inside their parent's span, in source order: a binary
      node starts where its left operand starts and ends where its right operand
      ends, an operator lies between the operands, a prefix operator lies before
      its operand, and parentheses lie strictly around a group or the arguments. */
  ghost predicate Tiled(e: Spanned)
    decreases e
  {
    e.span.start < e.span.end &&
    match e.expr
    case Number(_) => true
    case Variable(_) => true
    case Group(x) =>
      e.span.start < x.span.start && x.span.end < e.span.end && Tiled(x)
    case UnaryExpression(_, x) =>
      e.span.start < x.span.start && x.span.end == e.span.end && Tiled(x)
    case BinaryExpression(l, _, r) =>
      l.span.start == e.span.start && l.span.end < r.span.start && r.span.end == e.span.end &&
      Tiled(l) && Tiled(r)
    case Call(_, args) =>
      (forall i :: 0 <= i < |args| ==>
         e.span.start < args[i].span.start && args[i].span.end < e.span.end && Tiled(args[i])) &&
      (forall i :: 0 <= i < |args| - 1 ==> args[i].span.end < args[i + 1].span.start)
  }

  lemma LayeredUp(e: Spanned, j: nat, k: nat)
    requires Layered(e, j) && j <= k
    ensures Layered(e, k)
  {}
}
