/** The diagnostics the engine reports: a kind and a position. Data only. */
module Errors {

  datatype ErrorType = ParseError | EvaluationError

  /** `line_number` and `col_number` are u64 in the program; both fit a nat. */
  datatype Error = Error(lineNumber: nat, colNumber: nat, reason: string, errorType: ErrorType)
}
