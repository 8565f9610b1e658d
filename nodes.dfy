/** The operator table of the older, node-based parser: a total mapping from an
    operator's text to the operator it denotes. */
module Nodes {

  datatype MathematicalOperator = Add | Subtract | Multiply | Divide | Exponent | Modulo | InvalidOperation

  datatype LogicalOperator =
    | LessThan | GreaterThan | LessThanOrEqualTo | GreaterThanOrEqualTo | EqualTo | And | Or | Not

  datatype Operator =
    | MathematicalOperator(math: MathematicalOperator)
    | LogicalOperator(logic: LogicalOperator)

  /** `Operator::match_operator`: the recognised spellings, and a fallback for everything else. */
  function MatchOperator(operator: string): (r: Operator)
    ensures r == MathematicalOperator(InvalidOperation) <==> operator !in Recognised()
  {
    match operator
    case "+" => MathematicalOperator(Add)
    case "-" => MathematicalOperator(Subtract)
    case "*" => MathematicalOperator(Multiply)
    case "/" => MathematicalOperator(Divide)
    case "^" => MathematicalOperator(Exponent)
    case "%" => MathematicalOperator(Modulo)
    case "<" => LogicalOperator(LessThan)
    case ">" => LogicalOperator(GreaterThan)
    case "<=" => LogicalOperator(LessThanOrEqualTo)
    case ">=" => LogicalOperator(GreaterThanOrEqualTo)
    case "==" => LogicalOperator(EqualTo)
    case "&" => LogicalOperator(And)
    case "|" => LogicalOperator(Or)
    case "!" => LogicalOperator(Not)
    case _ => MathematicalOperator(InvalidOperation)
  }

  /** The fourteen spellings the table recognises. */
  function Recognised(): set<string>
  {
    {"+", "-", "*", "/", "^", "%", "<", ">", "<=", ">=", "==", "&", "|", "!"}
  }

  /** The spelling of an operator; the inverse of `MatchOperator`. */
  function Spelling(op: Operator): (s: string)
    requires op != MathematicalOperator(InvalidOperation)
    ensures s in Recognised()
  {
    match op
    case MathematicalOperator(Add) => "+"
    case MathematicalOperator(Subtract) => "-"
    case MathematicalOperator(Multiply) => "*"
    case MathematicalOperator(Divide) => "/"
    case MathematicalOperator(Exponent) => "^"
    case MathematicalOperator(Modulo) => "%"
    case LogicalOperator(LessThan) => "<"
    case LogicalOperator(GreaterThan) => ">"
    case LogicalOperator(LessThanOrEqualTo) => "<="
    case LogicalOperator(GreaterThanOrEqualTo) => ">="
    case LogicalOperator(EqualTo) => "=="
    case LogicalOperator(And) => "&"
    case LogicalOperator(Or) => "|"
    case LogicalOperator(Not) => "!"
  }

  /** Every operator other than the fallback is produced by exactly its own spelling. */
  lemma SpellingRoundTrip(op: Operator)
    requires op != MathematicalOperator(InvalidOperation)
    ensures MatchOperator(Spelling(op)) == op
  {}

  /** Every recognised spelling is the spelling of the operator it yields. */
  lemma MatchRoundTrip(operator: string)
    requires operator in Recognised()
    ensures MatchOperator(operator) != MathematicalOperator(InvalidOperation)
    ensures Spelling(MatchOperator(operator)) == operator
  {}

  /** Distinct recognised spellings yield distinct operators. */
  lemma MatchInjective(a: string, b: string)
    requires a in Recognised() && b in Recognised() && a != b
    ensures MatchOperator(a) != MatchOperator(b)
  {
    MatchRoundTrip(a);
    MatchRoundTrip(b);
  }
}
