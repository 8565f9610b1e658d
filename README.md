# Laser Studio expression engine, in Dafny

Laser Studio draws a laser projection from a small program. Each statement is
`name = expression;` and `#` starts a comment. The program is evaluated once
for every point of a rectangular grid. The variables `x'`, `y'`, `h`, `s` and
`v` it leaves behind say where each point goes and what colour it is.

This project models the engine behind that, in four parts:

- **The expression grammar** (`src/expressions/parser.rs`). Modules `Syntax`,
  `Lexer`, `Grammar` and `Program` hold recursive functions over the source
  text, one per combinator. Alternatives are tried in order, repetitions are
  greedy, and every node carries the character span it was read from, padding
  included. Two invariants hold for every tree the grammar builds:
  - `Layered` states precedence and left folding.
  - `Tiled` states that spans nest in source order.

  Module `ParserProperties` proves the grammar-level facts: trees fold left,
  two-character comparisons win, there is no leading-dot literal, and programs
  without statements are rejected. Module `ParserExamples` follows two
  programs through the grammar, `a = 2 ^ 3 ^ 2;` and `a = 2 + 3 * 4;`, to the
  exact trees they parse to.
- **The evaluator** (`src/expressions/eval.rs`, `src/expressions/errors.rs`).
  These are modules `Float`, `Errors` and `Eval`.
  - `eval` is modelled twice. `EvalAsWritten` follows the code as it stands. `Evaluate` is the evident intent.
  - `run` is an imperative loop, `Eval.Run`, proved equal to the specification `RunSpec`. Both take a `Version` that picks the evaluator, so the run as written and the corrected run are each stated.
  - Numbers are reals. `powf`, division by zero and remainder by zero are uninterpreted operations in `Float.Ops`.
- **The grid driver** (`src/app/render.rs`). Module `Render` holds the class
  `RenderWorkspace`, with its fields and the methods `calculate_points`,
  `on_switch_render` and the recompute guard of `update_render_workspace`.
  - Per-point evaluation is a function parameter, a `PointEvaluator`.
  - The parallel map is an ordered map.
  - Clock readings are integer milliseconds passed in as parameters.
  - The parsing library's error reports are two function parameters: `diagnose` yields the raw reports and `process` converts each one.
- **The operator table** (`src/parser/nodes.rs`). Module `Nodes` holds
  `Operator::match_operator` and its inverse.

Three things in the evaluator and the parser behave differently from what a reader of the program might expect. The model follows the code in each:
- `eval` divides for `%` (eval.rs:15). This is recorded as a finding below.
- `eval` has no arm for comparisons, `&`, `|`, calls or groups, so they reach its `todo!()` arm (eval.rs:22).
- The statement list recovers from a syntax error with `skip_then_retry_until([])` (parser.rs:172). Here a program that does not parse is rejected at the position where the statements stopped matching, and the reports come from the `diagnose` parameter.

## Model

| member | source | states |
|---|---|---|
| Syntax.Precedence | src/expressions/parser.rs:99-145 | every binary operator belongs to one of the five levels `binary_first` (1) to `logical_last` (5) |
| Syntax.Symbol | src/expressions/parser.rs:88-89 | every operator is spelled by one character (`op`) or two (`dc_op`) |
| Lexer.SkipWhitespace | src/expressions/parser.rs:57 | `padded` skips exactly the longest run of whitespace: everything skipped is whitespace and the next character is not |
| Lexer.RawIdent | src/expressions/parser.rs:54-56 | an identifier is read exactly when a letter or `_` comes next; what is read is the source slice from the start, and it is an identifier with at most one trailing `'` |
| Lexer.RawIdentLongest | src/expressions/parser.rs:54-56 | `text::ident` with an optional `'` reads the longest identifier there is: no longer slice from the same start is one |
| Lexer.Ident | src/expressions/parser.rs:54-57 | a padded identifier succeeds exactly when the raw identifier after the leading whitespace does; it yields that identifier and stops after the trailing whitespace, before a non-whitespace character |
| Lexer.Token | src/expressions/parser.rs:88 | `op(c)` succeeds exactly when `c` is the next non-whitespace character, and then stops after `c` and the whitespace after it |
| Lexer.Token2 | src/expressions/parser.rs:89 | `dc_op(c, d)` succeeds exactly when `c` and `d` are the next two characters after whitespace, and then stops after them and the whitespace after them |
| Lexer.NumberLexeme | src/expressions/parser.rs:60-61 | a literal is read exactly when a digit comes next; its integer and fraction parts are digit strings, and it consumes input |
| Lexer.NumberLexemeLongest | src/expressions/parser.rs:60-61 | the literal read is the source slice: an integer part in `text::int` form, read as far as it goes (a leading `0` stands alone), then `.` and every following digit when a digit follows the `.` |
| Grammar.Reads | src/expressions/parser.rs:59-148 | the labels of a tree are what the text says at each node's place: a number's value is the literal there, a variable's or callee's name the identifier there, each operator the symbol between or before its operands, and parentheses and commas where the grammar puts them; a number or variable ends after its lexeme and the whitespace after it, and a group or call after its `)` and the whitespace after that, so no node covers text it did not read |
| Grammar.NumberAtom | src/expressions/parser.rs:60-65 | `num` succeeds exactly when a digit follows the padding; it yields a `Number` node whose value is the literal read there, spanning from the start to just after the literal and the whitespace after it, where reading stops |
| Grammar.VariableAtom | src/expressions/parser.rs:67-69 | `variable_reference` succeeds exactly when a letter or `_` follows the padding; it yields a `Variable` node named by the padded identifier read there, spanning from the start to where that identifier's reading stops, and stops there |
| Grammar.GroupAtom | src/expressions/parser.rs:71-75 | `group` succeeds exactly when `(` follows the padding, an expression follows it, and `)` follows that expression; it yields a `Group` of that very expression, spanning from the start to just after `)` and its whitespace, layered, tiled and read from the text |
| Grammar.CallAtom | src/expressions/parser.rs:77-81 | `call` succeeds exactly when an identifier, then `(`, then the argument list, then `)` follow in turn; it yields a `Call` of that identifier over the arguments `Arguments` reads after `(`, spanning from the start to just after `)` and its whitespace, layered, tiled and read from the text |
| Grammar.Arguments | src/expressions/parser.rs:78 | `separated_by(",")` reads none exactly when no expression starts there, and otherwise starts with that expression; the arguments are comma-separated, in order within what it consumed, each a layered, tiled expression read from the text; it stops only where no `,` expression follows |
| Grammar.MoreArguments | src/expressions/parser.rs:78 | each further `,` expression extends the arguments already read, keeping them comma-separated and in order; a dangling comma is left unread |
| Grammar.ArgumentsAreExpressions | src/expressions/parser.rs:78 | every argument read is exactly the expression `expr` reads at that argument's start, up to that argument's end |
| Grammar.Atom | src/expressions/parser.rs:83-86 | an atom is read exactly when a digit or identifier start follows the padding or a group is there; it spans what it consumed, is layered and tiled, and its labels are read from the text |
| Grammar.PrefixOperator | src/expressions/parser.rs:91-92 | a prefix operator is read exactly when `-` or `!` follows the padding; the operator read is the one that character spells, and reading stops after it and the whitespace after it |
| Grammar.BinaryOperator | src/expressions/parser.rs:100-140 | at level `k`, an operator of precedence `k` is read when its symbol follows the padding, and reading stops after the symbol and its padding; when none is read, no operator of the level is spelled there |
| Grammar.FirstOperator | src/expressions/parser.rs:127-131 | `or` picks the first alternative whose symbol is there: every earlier candidate is absent, and when nothing is picked no candidate is there |
| Grammar.Level | src/expressions/parser.rs:91-145 | the node read at level `k` spans exactly what it consumed, stands at level `k` of the precedence layering, has nested spans and has its labels read from the text |
| Grammar.Unary | src/expressions/parser.rs:91-97 | `unary`: prefix operators then an atom; the node spans what it consumed, stands at level 0, and has its labels read from the text |
| Grammar.BinaryLevel | src/expressions/parser.rs:99-145 | a binary level: an operand of the next tighter level and then its fold; the node spans what it consumed, stands at level `k`, and has its labels read from the text |
| Grammar.FoldTail | src/expressions/parser.rs:99-145 | the `foldl` keeps the left operand's start as the node's start and ends at the last operand; the folded tree stays layered, tiled and read from the text; it stops only where no further operator and operand of the level follow |
| Grammar.Expression | src/expressions/parser.rs:59-148 | an expression spans what it consumed, is layered at the loosest level, has nested spans and has its labels read from the text |
| Grammar.PrefixEnd | src/expressions/parser.rs:91-94 | the prefix operators `repeated()` reads stop where no further `-` or `!` follows; only whitespace, `-` and `!` lie before that place |
| Grammar.UnarySucceeds | src/expressions/parser.rs:91-96 | `unary` succeeds exactly when an atom follows its prefix operators; with no prefix operator it is the atom, and otherwise it succeeds exactly when the `unary` after the operator does, and is that operator applied to it, ending where it ends |
| Grammar.LevelSucceeds | src/expressions/parser.rs:99-145 | every level succeeds exactly where `unary` does: a binary level fails only when its first operand fails |
| Grammar.ExpressionSucceeds | src/expressions/parser.rs:59-148 | an expression is read exactly where an atom follows the prefix operators |
| Grammar.LevelStops | src/expressions/parser.rs:99-145 | each level reads as far as it can: where it stops, none of the binary levels up to it has an operator followed by an operand of the next tighter level |
| Grammar.BinaryLevelStops | src/expressions/parser.rs:99-145 | a binary level succeeds exactly when its first operand does, and where it stops no binary level up to it could fold one more operator and operand |
| Grammar.ExpressionStops | src/expressions/parser.rs:99-147 | where an expression stops, no binary level could fold one more operator and operand |
| Grammar.FoldTailStep | src/expressions/parser.rs:99-104 | after one operator of the level and the operand the next tighter level reads after it, the fold goes on from the node they make with the left part, which is layered, tiled and read from the text |
| Program.Statement | src/expressions/parser.rs:150-162 | `ident = expr ;` succeeds exactly when a padded identifier, `=`, an expression and, after whitespace, `;` follow in turn; the name is that identifier and the expression the one read after `=`; the span runs from the start to just after `;`, where reading stops |
| Program.StatementReads | src/expressions/parser.rs:150-162 | a statement read is well formed and reads exactly its own span: its expression starts after `=` and only whitespace lies between the expression and `;` |
| Program.NextNewline | src/expressions/parser.rs:166 | the position found is the first newline at or after the start, or there is none |
| Program.Comment | src/expressions/parser.rs:165-168 | a comment is read exactly when `#` follows the padding and a newline comes later; it ends after that first newline and the whitespace after it |
| Program.Comments | src/expressions/parser.rs:173 | `comment.repeated()` reads the comments one after another: it stays put when none starts, goes on from the end of the first one otherwise, and stops where no comment starts, with only whitespace and comments read |
| Program.Item | src/expressions/parser.rs:170-174 | one padded statement: it succeeds exactly when the statement after the whitespace and comments does, yields that statement, and stops after the comments and whitespace that follow it, before a further comment or non-whitespace character; only whitespace and comments lie around the statement |
| Program.Items | src/expressions/parser.rs:175 | the statements read lie in source order within what was consumed, each reading its own span, with only whitespace and comments before, between and after them; reading stops only where no further statement follows, and none is read exactly when none starts at once |
| Program.Parse | src/expressions/parser.rs:170-176 | the text is accepted exactly when the statements read from its start reach its end, and then the program is those statements and the rest of the text is only whitespace and comments; otherwise it is rejected where they stopped, before the end, with no statement readable there |
| ParserProperties.LayeredIffFoldsLeft | src/expressions/parser.rs:99-145 | the layering the grammar keeps is exactly the node-by-node left-fold shape: a binary node's right operand is never of the same or a looser level, its left operand never looser, and prefix operands never binary |
| ParserProperties.ExpressionFoldsLeft | src/expressions/parser.rs:99-145 | every parsed expression folds left at each level, respects precedence, has nested spans, and has every label read from the text at its node's place |
| ParserProperties.ComparisonOrder | src/expressions/parser.rs:127-131 | the comparison level tries `<=`, `>=`, `==`, `<` and `>` in that order |
| ParserProperties.ComparisonMaximalMunch | src/expressions/parser.rs:127-131 | `<=` and `>=` are read as one operator; `<` or `>` is read only when no `=` follows |
| ParserProperties.AtomOrder | src/expressions/parser.rs:83-86 | a digit always starts a number, and an identifier followed by a parenthesised list is a call, not a variable |
| ParserProperties.LevelNeedsAtom | src/expressions/parser.rs:83-96 | every level fails when the next character starts no atom and no prefix operator |
| ParserProperties.UnaryNeedsAtom | src/expressions/parser.rs:83-96 | `unary` fails when the next character starts no atom and no prefix operator |
| ParserProperties.NoLeadingDot | src/expressions/parser.rs:60-63 | `.5` is not an expression |
| ParserProperties.EmptyProgramOnlyForEmptyText | src/expressions/parser.rs:150-176 | the empty program is accepted exactly for the empty text |
| ParserProperties.SemicolonClosesStatements | src/expressions/parser.rs:155 | any text holding a statement holds a `;` |
| ParserProperties.WithoutSemicolonRejected | src/expressions/parser.rs:150-176 | a non-empty text without `;` is rejected |
| ParserProperties.DefaultProjectTextRejected | src/project.rs:13-15 | a new project's text, a comment between blank lines, is rejected |
| ParserExamples.ExponentChainParses | src/expressions/parser.rs:99-105 | `a = 2 ^ 3 ^ 2;` is accepted as one assignment to `a` whose expression is `(2 ^ 3) ^ 2`, each node with its exact span |
| ParserExamples.ProductFirstParses | src/expressions/parser.rs:107-124 | `a = 2 + 3 * 4;` is accepted as one assignment to `a` whose expression is `2 + (3 * 4)`, each node with its exact span |
| ParserExamples.SoleSymbol | src/expressions/parser.rs:99-145 | a one-character operator whose character starts no other operator is the only operator spelled where that character stands |
| ParserExamples.LevelPasses | src/expressions/parser.rs:99-145 | a level whose first operand is not followed by an operator of its own level reads just that operand |
| ParserExamples.StatementOf | src/expressions/parser.rs:150-176 | a text holding only `a = `, an expression and `;` is accepted as the one assignment of that expression |
| Float.Quotient | src/expressions/eval.rs:14 | a division by a non-zero divisor gives back the dividend when multiplied by the divisor |
| Float.Remainder | src/expressions/eval.rs:15 | the remainder is smaller than the divisor in magnitude and has the dividend's sign |
| Float.RemainderTruncates | src/expressions/eval.rs:15 | the remainder is what truncating division leaves over, `a - trunc(a / b) * b` |
| Eval.Combine | src/expressions/eval.rs:10-16 | a binary node has a value exactly when both operands do; otherwise the first operand's error or panic passes on unchanged |
| Eval.EvalAsWritten | src/expressions/eval.rs:7-24 | as written, `eval` never returns `Err`; it returns a value exactly when no node hits `todo!()` and every variable read is bound, and panics otherwise |
| Eval.Evaluate | src/expressions/eval.rs:7-24 | corrected `eval` returns a value exactly when no node hits `todo!()` and every variable read is bound; it panics only at `todo!()` |
| Eval.ModuloIsDivisionAsWritten | src/expressions/eval.rs:15 | as written, `a % b` evaluates exactly as `a / b` |
| Eval.ModuloCounterexample | src/expressions/eval.rs:15 | `7 % 2` is 3.5 as written and 1 corrected |
| Eval.MissingVariableCounterexample | src/expressions/eval.rs:17-21 | reading an unbound `b` panics as written; corrected, it gives the "Cannot find variable" message |
| Eval.CorrectedAgreesWithAsWritten | src/expressions/eval.rs:7-24 | on expressions without `%`, the corrected evaluator gives every value the code as written gives |
| Eval.EvaluateErrorNamesVariable | src/expressions/eval.rs:17-21 | a corrected evaluation error names a variable the expression reads and the table does not bind |
| Eval.EvaluateReadsOnlyFreeVariables | src/expressions/eval.rs:7-23 | evaluation depends only on the table entries the expression names, and the table is never written |
| Eval.EvalWith | src/expressions/eval.rs:31 | the evaluator `run` calls; as written it never returns an error |
| Eval.RunSpec | src/expressions/eval.rs:26-39 | after `run`, with either evaluator, the table binds only assigned names, there are at most as many errors as assignments, and each is an evaluation error at line 0, column 0 |
| Eval.Run | src/expressions/eval.rs:26-39 | the loop computes `RunSpec`: assignments in order from an empty table, each value bound and each error collected, until a panic ends the run |
| Eval.RunStaysAborted | src/expressions/eval.rs:30-37 | once an assignment panics, the rest of the program has no effect |
| Eval.RunErrorsInOrder | src/expressions/eval.rs:30-37 | errors come out in program order: a prefix's errors are a prefix of the program's errors |
| Eval.RunAsWrittenReportsNothing | src/expressions/eval.rs:17-21 | as written, a run that finishes has an empty error list: the error arm at eval.rs:35 is never reached |
| Eval.RunAsWrittenAbortsOnUnboundRead | src/expressions/eval.rs:17-21 | as written, an assignment reading a name not yet bound panics and ends the whole run, whatever follows |
| Eval.RunTotal | src/expressions/eval.rs:26-39 | with the corrected evaluator, a program whose expressions avoid `todo!()` never panics |
| Eval.AssignmentEffect | src/expressions/eval.rs:33-36 | a successful assignment binds its name, overwriting any earlier value; a failing one leaves the table unchanged and appends exactly one error; a panic ends the run |
| Eval.RedefinitionOverwrites | src/expressions/eval.rs:34 | `a = 1; a = 2;` ends with `a` bound to 2 and no errors, with either evaluator |
| Eval.MissingVariableReported | src/expressions/eval.rs:17-21 | `a = b;` with no `b` panics as written; with the corrected evaluator it gives exactly one error naming `b`, and `a` stays unbound |
| Nodes.MatchOperator | src/parser/nodes.rs:16-39 | a string falls back to `InvalidOperation` exactly when it is not one of the fourteen spellings |
| Nodes.Spelling | src/parser/nodes.rs:19-34 | every operator except the fallback has a recognised spelling |
| Nodes.SpellingRoundTrip | src/parser/nodes.rs:19-34 | each operator other than the fallback is produced by its own spelling |
| Nodes.MatchRoundTrip | src/parser/nodes.rs:16-39 | each recognised spelling yields a proper operator, whose spelling it is |
| Nodes.MatchInjective | src/parser/nodes.rs:19-34 | distinct recognised spellings yield distinct operators |
| Render.BaseContext | src/app/render.rs:98-113 | the base context counts `w * h` points, its time is the clock in seconds, and its projection time is the seconds elapsed since the projection started, never negative when the clock is not behind the start |
| Render.PointContext | src/app/render.rs:121-130 | point `i`'s context is the base context with only its position, index and fraction changed, and its index is `i` |
| Render.PointResults | src/app/render.rs:118-143 | there are `w * h` results, and result `i` belongs to point `i`: it holds point `i`'s context and the table and errors the program gave there |
| Render.ResultsSnoc | src/app/render.rs:154-155 | one more point appends its error list and its table at the end |
| Render.FailingIndexes | src/app/render.rs:145-152 | an index is listed exactly when that point reported an error |
| Render.FailingIndexesAscending | src/app/render.rs:145-152 | the failing indexes are strictly ascending |
| Render.FailingIndexesLast | src/app/render.rs:148-150 | the last listed index is the largest failing index |
| Render.FailingIndexesSnoc | src/app/render.rs:146-148 | one more point adds its index exactly when it failed |
| Render.GridPosition | src/app/render.rs:127-129 | point `i` lies in column `i % w` and row `i / w`, columns `200 / (w - 1)` apart from -100 and rows `200 / (h - 1)` apart from 100 |
| Render.GridFirstPoint | src/app/render.rs:127-130 | with at least two columns and rows, point 0 is at (-100, 100) with fraction 0 |
| Render.GridLastPoint | src/app/render.rs:127-130 | with at least two columns and rows, the last point is at (100, -100) with fraction 1 |
| Render.GridBounds | src/app/render.rs:127-130 | with at least two columns and rows, every point lies in the square from -100 to 100 and its fraction between 0 and 1 |
| Render.GridInjective | src/app/render.rs:127-129 | with at least two columns and rows, distinct points have distinct positions |
| Render.Rendered | src/app/render.rs:158-167 | a drawn point keeps its grid index; its position, hue, saturation and value are the program's `x'`, `y'`, `h`, `s` and `v` where it set them, and 0, 0, 0, 0 and 1 where it did not; it has value 0, which the plot at render.rs:493 skips, exactly when its program set `v` to 0 |
| Render.UnassignedDefaults | src/app/render.rs:158-167 | for a table `run` left, each of `x'`, `y'`, `h`, `s` the program never assigns is drawn as 0 and an unassigned `v` as 1, so the point is visible |
| Render.ByteGridFits | src/app/render.rs:468 | the project's `u8` grid sizes give fewer than 65536 points |
| Render.RenderWorkspace.constructor | src/app/render.rs:32-49 | the default workspace is empty, unfrozen, error-free, with the tools hidden |
| Render.RenderWorkspace.CalculatePoints | src/app/render.rs:94-171 | each point's errors and table are recorded in index order, the failing indexes are listed, and the points are drawn from the results; on a failure evaluation freezes and the last failing point is shown, otherwise the freeze and tool fields are untouched |
| Render.RenderWorkspace.RecordAll | src/app/render.rs:145-156 | the loop over the results leaves the error lists and tables of all points, in index order, with the failing indexes listed; on a failure evaluation is frozen and the last failing point is shown, otherwise the freeze and tool fields are untouched |
| Render.RenderWorkspace.Record | src/app/render.rs:146-155 | one pass of the loop appends the point's errors and table, and a failing point is listed, freezes evaluation and becomes the one shown |
| Render.RenderWorkspace.OnSwitchRender | src/app/render.rs:62-92 | after a switch the parse outcome decides the state: a success replaces the program, a failure keeps the old one, stores the processed reports and shows the errors; the 20 by 20 grid is re-evaluated; the projection restarts |
| Render.RenderWorkspace.ApplyParse | src/app/render.rs:63-91 | the state after the switch is the one `Switched` describes for the parse outcome, with the processed reports exactly when the parse failed; the projection restarts at the given clock |
| Render.RenderWorkspace.Reset | src/app/render.rs:63-68 | the freeze and both error flags are cleared and the error lists and failing indexes emptied |
| Render.RenderWorkspace.Accept | src/app/render.rs:71-75 | from a reset state, a successful parse replaces the program, leaves no parse errors and evaluates the grid against the program text, as `Switched` describes |
| Render.RenderWorkspace.Reject | src/app/render.rs:76-88 | from a reset state, a failed parse keeps the program, stores the errors, evaluates the grid against empty text and shows the errors tab, as `Switched` describes |
| Render.RenderWorkspace.UpdateRenderWorkspace | src/app/render.rs:466-469 | the points are recomputed for the project's grid exactly when evaluation is not frozen and the program parsed; a failing point then freezes evaluation and is shown in the errors tab, otherwise the tools are untouched; when frozen or unparsed nothing changes; the parse and the projection start never change |

## Left out

- The egui user interface, file dialogs, threads and project serialization are not modelled. Of `update_render_workspace` only its recompute guard is modelled.
- Error recovery is not modelled: `recover_with(skip_then_retry_until([]))` at parser.rs:172 would skip input after a failed statement and try again. The model stops at the first statement that does not match: a text is accepted exactly when the statements match all of it, and it is rejected otherwise. What the library would recover, and which statements it would still return next to its errors, is not captured.
- The parsing library's error values are not modelled: `Simple<char>` error sets and labels. The reports for a rejected text come from the `diagnose` parameter.
- `process_parser_error` is not part of this model. It is the `process` parameter of `OnSwitchRender`.
- Floating point is not modelled: numbers are reals. `powf`, division by zero and remainder by zero are uninterpreted. A literal's value is its exact decimal value, not the nearest f64. NaN and infinities are not modelled.
- Rayon parallelism is not modelled: the per-point map and the drawing map are ordered, sequential maps.
- The clocks are not modelled: `Local::now()` readings are parameters in milliseconds.
- The render code calls `eval::run` with four arguments (render.rs:134-139) and builds an `eval::EvalContext` (render.rs:102). eval.rs defines `run` with one argument and no `EvalContext`, so per-point evaluation is the `PointEvaluator` parameter rather than `Eval.Run`. `Render.UnassignedDefaults` connects the two for a table that `Eval.RunSpec` produced.
- The evaluator's own expression type differs from the parser's, and no conversion between them is in the source. `Eval.Expr` lists the variants `eval` matches, plus `Unhandled` for its `todo!()` arm.
- `eval`'s `&mut` table is never written, so the model passes the table by value.
- `src/parser/nodes.rs` is not compiled into the program (the crate declares no `parser` module). Of it only `match_operator` and its enums are modelled; the `Node` structs carry no logic.
- Render.RenderWorkspace.CalculatePoints: requires `w * h < 65536`, the `u16` product at render.rs:106 and :118 not overflowing. The callers pass 20 by 20, or the project's `u8` sizes, whose product is at most 65025.
- Render.RenderWorkspace.UpdateRenderWorkspace: requires `Valid()` on entry and models only the evaluation step, not the UI it sits in.
- Grammar.Level: its own contract states what a level reads, not when it succeeds or where it stops; Grammar.LevelSucceeds and Grammar.LevelStops state those for every level.
- Grammar.Unary: its own contract does not say when it succeeds; Grammar.UnarySucceeds states that, both directions.
- Grammar.BinaryLevel: its own contract does not say when it succeeds or where it stops; Grammar.BinaryLevelStops states both.
- Grammar.Expression: its own contract does not say when it succeeds or where it stops; Grammar.ExpressionSucceeds and Grammar.ExpressionStops state those.
- Grammar.FoldTail: its own contract does not name the operands it folds; Grammar.FoldTailStep states each step, with the operand the next tighter level reads.
- Eval.RunSpec: states at most one error per assignment. The exact correspondence, one error for each failing assignment, is stated step by step by `Eval.AssignmentEffect`.

## Findings

| source | as written | input that shows it | evidently intended | confidence | as-written member | corrected member |
|---|---|---|---|---|---|---|
| src/expressions/eval.rs:15 | `Modulo(a, b)` evaluates `a / b` | `a = 7 % 2;` gives 3.5 | the floating-point remainder, 1 | high; not executed | Eval.ModuloCounterexample | Eval.Evaluate |
| src/expressions/eval.rs:17-21 | `if let val = variables.get(name)` is irrefutable, so an unbound name reaches `unwrap` and panics; the error message is never produced | `a = b;` with no `b` | the "Cannot find variable" error is returned and collected by `run` | high; not executed | Eval.MissingVariableCounterexample | Eval.Evaluate |
