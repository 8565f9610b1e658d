/** The tree-walking evaluator and the assignment runner of
    src/expressions/eval.rs. The evaluator works on its own expression type,
    whose variants are the ones its `match` names. */
module Eval {
  import opened Float
  import opened Errors

  datatype Expr =
    | Number(value: real)
    | Negate(operand: Expr)
    | Add(left: Expr, right: Expr)
    | Subtract(left: Expr, right: Expr)
    | Multiply(left: Expr, right: Expr)
    | Divide(left: Expr, right: Expr)
    | Modulo(left: Expr, right: Expr)
    | Exponent(left: Expr, right: Expr)
    | Variable(name: string)
      /** Any variant the evaluator's `match` does not list (its `_ => todo!()` arm). */
    | Unhandled

  datatype Assignment = Assignment(name: string, expression: Expr)

  type Table = map<string, real>

  /** Why an evaluation aborts the program instead of returning. */
  datatype Panic =
    | MissingVariable(name: string)  // `Option::unwrap` on a name the table lacks
    | NotImplemented                 // `todo!()`

  /** An evaluation returns a value, returns an error message, or panics. */
  datatype Outcome = Value(value: real) | Failure(reason: string) | Panicked(panic: Panic)

  /** The message the evaluator means to report for an unknown variable. */
  function MissingVariableReason(name: string): string
  {
    "Cannot find variable `" + name + "`. Are you using it too early?"
  }

  /** The variables an expression reads. */
  function FreeVariables(e: Expr): set<string>
  {
    match e
    case Number(_) => {}
    case Unhandled => {}
    case Variable(name) => {name}
    case Negate(a) => FreeVariables(a)
    case Add(a, b) => FreeVariables(a) + FreeVariables(b)
    case Subtract(a, b) => FreeVariables(a) + FreeVariables(b)
    case Multiply(a, b) => FreeVariables(a) + FreeVariables(b)
    case Divide(a, b) => FreeVariables(a) + FreeVariables(b)
    case Modulo(a, b) => FreeVariables(a) + FreeVariables(b)
    case Exponent(a, b) => FreeVariables(a) + FreeVariables(b)
  }

  /** No node of the expression reaches the `todo!()` arm. */
  predicate Handled(e: Expr)
  {
    match e
    case Number(_) => true
    case Unhandled => false
    case Variable(_) => true
    case Negate(a) => Handled(a)
    case Add(a, b) => Handled(a) && Handled(b)
    case Subtract(a, b) => Handled(a) && Handled(b)
    case Multiply(a, b) => Handled(a) && Handled(b)
    case Divide(a, b) => Handled(a) && Handled(b)
    case Modulo(a, b) => Handled(a) && Handled(b)
    case Exponent(a, b) => Handled(a) && Handled(b)
  }

  predicate HasModulo(e: Expr)
  {
    match e
    case Number(_) => false
    case Unhandled => false
    case Variable(_) => false
    case Negate(a) => HasModulo(a)
    case Modulo(_, _) => true
    case Add(a, b) => HasModulo(a) || HasModulo(b)
    case Subtract(a, b) => HasModulo(a) || HasModulo(b)
    case Multiply(a, b) => HasModulo(a) || HasModulo(b)
    case Divide(a, b) => HasModulo(a) || HasModulo(b)
    case Exponent(a, b) => HasModulo(a) || HasModulo(b)
  }

  /** `Ok(f(a?, b?))`: evaluate the left operand, then the right one; the first
      outcome that is not a value is passed on unchanged. */
  function Combine(a: Outcome, b: Outcome, f: (real, real) -> real): (r: Outcome)
    ensures r.Value? <==> a.Value? && b.Value?
    ensures !a.Value? ==> r == a
    ensures a.Value? && !b.Value? ==> r == b
  {
    if !a.Value? then a else if !b.Value? then b else Value(f(a.value, b.value))
  }

  /** `eval` as written: `Modulo` divides, and a variable lookup unwraps the
      table entry, so a missing name panics and the error message is never produced.
      It never returns an error: it yields a value exactly when every node is
      handled and every variable it reads is in the table, and panics otherwise. */
  function EvalAsWritten(ops: Ops, e: Expr, variables: Table): (r: Outcome)
    ensures !r.Failure?
    ensures r.Value? <==> Handled(e) && FreeVariables(e) <= variables.Keys
  {
    match e
    case Number(x) => Value(x)
    case Negate(a) =>
      var o := EvalAsWritten(ops, a, variables);
      if o.Value? then Value(-o.value) else o
    case Add(a, b) => Combine(EvalAsWritten(ops, a, variables), EvalAsWritten(ops, b, variables), (x, y) => x + y)
    case Subtract(a, b) => Combine(EvalAsWritten(ops, a, variables), EvalAsWritten(ops, b, variables), (x, y) => x - y)
    case Multiply(a, b) => Combine(EvalAsWritten(ops, a, variables), EvalAsWritten(ops, b, variables), (x, y) => x * y)
    case Divide(a, b) =>
      Combine(EvalAsWritten(ops, a, variables), EvalAsWritten(ops, b, variables), (x, y) => Quotient(ops, x, y))
    case Modulo(a, b) =>
      Combine(EvalAsWritten(ops, a, variables), EvalAsWritten(ops, b, variables), (x, y) => Quotient(ops, x, y))
    case Exponent(a, b) => Combine(EvalAsWritten(ops, a, variables), EvalAsWritten(ops, b, variables), ops.pow)
    case Variable(name) => if name in variables then Value(variables[name]) else Panicked(MissingVariable(name))
    case Unhandled => Panicked(NotImplemented)
  }

  /** `eval` as evidently intended: `Modulo` is the floating-point remainder and
      an unknown variable yields the error message. It yields a value exactly
      when every node is handled and every variable it reads is in the table, and
      it panics only on an unhandled node. */
  function Evaluate(ops: Ops, e: Expr, variables: Table): (r: Outcome)
    ensures r.Value? <==> Handled(e) && FreeVariables(e) <= variables.Keys
    ensures r.Panicked? ==> !Handled(e) && r.panic == NotImplemented
  {
    match e
    case Number(x) => Value(x)
    case Negate(a) =>
      var o := Evaluate(ops, a, variables);
      if o.Value? then Value(-o.value) else o
    case Add(a, b) => Combine(Evaluate(ops, a, variables), Evaluate(ops, b, variables), (x, y) => x + y)
    case Subtract(a, b) => Combine(Evaluate(ops, a, variables), Evaluate(ops, b, variables), (x, y) => x - y)
    case Multiply(a, b) => Combine(Evaluate(ops, a, variables), Evaluate(ops, b, variables), (x, y) => x * y)
    case Divide(a, b) =>
      Combine(Evaluate(ops, a, variables), Evaluate(ops, b, variables), (x, y) => Quotient(ops, x, y))
    case Modulo(a, b) =>
      Combine(Evaluate(ops, a, variables), Evaluate(ops, b, variables), (x, y) => Remainder(ops, x, y))
    case Exponent(a, b) => Combine(Evaluate(ops, a, variables), Evaluate(ops, b, variables), ops.pow)
    case Variable(name) => if name in variables then Value(variables[name]) else Failure(MissingVariableReason(name))
    case Unhandled => Panicked(NotImplemented)
  }

  // ----- The evaluator as written -----

  /** As written, `Modulo(a, b)` evaluates exactly as `Divide(a, b)`. */
  lemma ModuloIsDivisionAsWritten(ops: Ops, a: Expr, b: Expr, variables: Table)
    ensures EvalAsWritten(ops, Modulo(a, b), variables) == EvalAsWritten(ops, Divide(a, b), variables)
  {}

  /** `a = 7 % 2;`: as written the result is 3.5; the remainder is 1. */
  lemma ModuloCounterexample(ops: Ops)
    ensures EvalAsWritten(ops, Modulo(Number(7.0), Number(2.0)), map[]) == Value(3.5)
    ensures Evaluate(ops, Modulo(Number(7.0), Number(2.0)), map[]) == Value(1.0)
  {
    assert Remainder(ops, 7.0, 2.0) == PositiveRemainder(7.0, 2.0);
    assert (7.0 / 2.0).Floor == 3;
  }

  /** `a = b;` with no `b`: as written the lookup panics; the message is never built. */
  lemma MissingVariableCounterexample(ops: Ops)
    ensures EvalAsWritten(ops, Variable("b"), map[]) == Panicked(MissingVariable("b"))
    ensures Evaluate(ops, Variable("b"), map[]) == Failure(MissingVariableReason("b"))
  {}

  /** Wherever the program as written returns a value on an expression without
      `%`, the corrected evaluator returns the same value. */
  lemma {:induction false} CorrectedAgreesWithAsWritten(ops: Ops, e: Expr, variables: Table)
    requires !HasModulo(e) && EvalAsWritten(ops, e, variables).Value?
    ensures Evaluate(ops, e, variables) == EvalAsWritten(ops, e, variables)
  {
    match e
    case Number(_) =>
    case Unhandled =>
    case Variable(_) =>
    case Negate(a) => CorrectedAgreesWithAsWritten(ops, a, variables);
    case Add(a, b) => CorrectedAgreesWithAsWritten(ops, a, variables); CorrectedAgreesWithAsWritten(ops, b, variables);
    case Subtract(a, b) => CorrectedAgreesWithAsWritten(ops, a, variables); CorrectedAgreesWithAsWritten(ops, b, variables);
    case Multiply(a, b) => CorrectedAgreesWithAsWritten(ops, a, variables); CorrectedAgreesWithAsWritten(ops, b, variables);
    case Divide(a, b) => CorrectedAgreesWithAsWritten(ops, a, variables); CorrectedAgreesWithAsWritten(ops, b, variables);
    case Modulo(a, b) =>
    case Exponent(a, b) => CorrectedAgreesWithAsWritten(ops, a, variables); CorrectedAgreesWithAsWritten(ops, b, variables);
  }

  // ----- The corrected evaluator -----

  /** An error names a variable the expression reads and the table lacks. */
  lemma {:induction false} EvaluateErrorNamesVariable(ops: Ops, e: Expr, variables: Table)
    ensures Evaluate(ops, e, variables).Failure? ==>
      exists name :: name in FreeVariables(e) && name !in variables && Evaluate(ops, e, variables).reason == MissingVariableReason(name)
  {
    match e
    case Number(_) =>
    case Unhandled =>
    case Variable(_) =>
    case Negate(a) => EvaluateErrorNamesVariable(ops, a, variables);
    case Add(a, b) => EvaluateErrorNamesVariable(ops, a, variables); EvaluateErrorNamesVariable(ops, b, variables);
    case Subtract(a, b) => EvaluateErrorNamesVariable(ops, a, variables); EvaluateErrorNamesVariable(ops, b, variables);
    case Multiply(a, b) => EvaluateErrorNamesVariable(ops, a, variables); EvaluateErrorNamesVariable(ops, b, variables);
    case Divide(a, b) => EvaluateErrorNamesVariable(ops, a, variables); EvaluateErrorNamesVariable(ops, b, variables);
    case Modulo(a, b) => EvaluateErrorNamesVariable(ops, a, variables); EvaluateErrorNamesVariable(ops, b, variables);
    case Exponent(a, b) => EvaluateErrorNamesVariable(ops, a, variables); EvaluateErrorNamesVariable(ops, b, variables);
  }

  /** Evaluation reads only the variables the expression names: two tables that
      agree on them give the same outcome. */
  lemma {:induction false} EvaluateReadsOnlyFreeVariables(ops: Ops, e: Expr, t1: Table, t2: Table)
    requires forall name :: name in FreeVariables(e) ==> (name in t1 <==> name in t2) && (name in t1 ==> t1[name] == t2[name])
    ensures Evaluate(ops, e, t1) == Evaluate(ops, e, t2)
  {
    match e
    case Number(_) =>
    case Unhandled =>
    case Variable(_) =>
    case Negate(a) => EvaluateReadsOnlyFreeVariables(ops, a, t1, t2);
    case Add(a, b) => EvaluateReadsOnlyFreeVariables(ops, a, t1, t2); EvaluateReadsOnlyFreeVariables(ops, b, t1, t2);
    case Subtract(a, b) => EvaluateReadsOnlyFreeVariables(ops, a, t1, t2); EvaluateReadsOnlyFreeVariables(ops, b, t1, t2);
    case Multiply(a, b) => EvaluateReadsOnlyFreeVariables(ops, a, t1, t2); EvaluateReadsOnlyFreeVariables(ops, b, t1, t2);
    case Divide(a, b) => EvaluateReadsOnlyFreeVariables(ops, a, t1, t2); EvaluateReadsOnlyFreeVariables(ops, b, t1, t2);
    case Modulo(a, b) => EvaluateReadsOnlyFreeVariables(ops, a, t1, t2); EvaluateReadsOnlyFreeVariables(ops, b, t1, t2);
    case Exponent(a, b) => EvaluateReadsOnlyFreeVariables(ops, a, t1, t2); EvaluateReadsOnlyFreeVariables(ops, b, t1, t2);
  }

  // ----- run -----

  /** Which evaluator `run` calls: `eval` as written, or as evidently intended. */
  datatype Version = AsWritten | Corrected

  function EvalWith(version: Version, ops: Ops, e: Expr, variables: Table): (r: Outcome)
    ensures version == AsWritten ==> !r.Failure?
  {
    match version
    case AsWritten => EvalAsWritten(ops, e, variables)
    case Corrected => Evaluate(ops, e, variables)
  }

  /** What `run` produces: the table and the errors, or the panic that ended it. */
  datatype RunOutcome = Finished(variables: Table, errors: seq<Error>) | Aborted(panic: Panic)

  /** One iteration of `run`'s loop: a value is bound to the assignment's name,
      an error message becomes one evaluation error at line 0, column 0. */
  function Step(version: Version, ops: Ops, o: RunOutcome, a: Assignment): RunOutcome
  {
    match o
    case Aborted(_) => o
    case Finished(variables, errors) =>
      match EvalWith(version, ops, a.expression, variables)
      case Value(v) => Finished(variables[a.name := v], errors)
      case Failure(reason) => Finished(variables, errors + [Error(0, 0, reason, EvaluationError)])
      case Panicked(p) => Aborted(p)
  }

  /** `run`: the assignments evaluated in order from an empty table. A finished
      run's table binds only names the program assigns, and there is at most one
      error per assignment, each an evaluation error at line 0, column 0. */
  function RunSpec(version: Version, ops: Ops, assignments: seq<Assignment>): (r: RunOutcome)
    ensures r.Finished? ==>
      r.variables.Keys <= Names(assignments) && |r.errors| <= |assignments| &&
      forall k :: 0 <= k < |r.errors| ==>
        r.errors[k].lineNumber == 0 && r.errors[k].colNumber == 0 && r.errors[k].errorType == EvaluationError
    decreases |assignments|
  {
    if assignments == [] then Finished(map[], [])
    else
      var prefix := assignments[..|assignments| - 1];
      NamesOfPrefix(assignments);
      Step(version, ops, RunSpec(version, ops, prefix), assignments[|assignments| - 1])
  }

  /** The names of a program include those of its prefix and of its last assignment. */
  lemma NamesOfPrefix(assignments: seq<Assignment>)
    requires assignments != []
    ensures Names(assignments[..|assignments| - 1]) + {assignments[|assignments| - 1].name} <= Names(assignments)
  {
    var prefix := assignments[..|assignments| - 1];
    forall name | name in Names(prefix) ensures name in Names(assignments) {
      var i :| 0 <= i < |prefix| && prefix[i].name == name;
      assert assignments[i].name == name;
    }
    assert assignments[|assignments| - 1].name in Names(assignments);
  }

  /** `run`: evaluates the assignments in order against one table, binding each
      value and collecting one error per failing assignment. */
  method Run(version: Version, ops: Ops, assignments: seq<Assignment>) returns (outcome: RunOutcome)
    ensures outcome == RunSpec(version, ops, assignments)
  {
    var variables: Table := map[];
    var errors: seq<Error> := [];
    for i := 0 to |assignments|
      invariant RunSpec(version, ops, assignments[..i]) == Finished(variables, errors)
    {
      var assignment := assignments[i];
      assert assignments[..i + 1][..i] == assignments[..i];
      match EvalWith(version, ops, assignment.expression, variables)
      case Value(value) =>
        variables := variables[assignment.name := value];
      case Failure(reason) =>
        errors := errors + [Error(0, 0, reason, EvaluationError)];
      case Panicked(p) =>
        RunStaysAborted(version, ops, assignments, i + 1);
        return Aborted(p);
    }
    assert assignments[..|assignments|] == assignments;
    outcome := Finished(variables, errors);
  }

  /** Once a prefix of the program has panicked, the whole program has. */
  lemma {:induction false} RunStaysAborted(version: Version, ops: Ops, assignments: seq<Assignment>, n: nat)
    requires n <= |assignments| && RunSpec(version, ops, assignments[..n]).Aborted?
    ensures RunSpec(version, ops, assignments) == RunSpec(version, ops, assignments[..n])
    decreases |assignments| - n
  {
    if n < |assignments| {
      var next := assignments[..n + 1];
      assert next[..n] == assignments[..n];
      RunStaysAborted(version, ops, assignments, n + 1);
    } else {
      assert assignments[..n] == assignments;
    }
  }

  /** The names a program assigns. */
  function Names(assignments: seq<Assignment>): set<string>
  {
    set i | 0 <= i < |assignments| :: assignments[i].name
  }

  /** Errors come out in program order: the errors of a prefix of the program
      are a prefix of the errors of the whole program. */
  lemma {:induction false} RunErrorsInOrder(version: Version, ops: Ops, assignments: seq<Assignment>, n: nat)
    requires n <= |assignments| && RunSpec(version, ops, assignments).Finished?
    ensures RunSpec(version, ops, assignments[..n]).Finished?
    ensures RunSpec(version, ops, assignments[..n]).errors <= RunSpec(version, ops, assignments).errors
    decreases |assignments| - n
  {
    if n == |assignments| {
      assert assignments[..n] == assignments;
    } else {
      var longer := assignments[..n + 1];
      assert longer[..n] == assignments[..n];
      RunErrorsInOrder(version, ops, assignments, n + 1);
    }
  }

  /** With the corrected evaluator, a run without unhandled nodes never panics. */
  lemma {:induction false} RunTotal(ops: Ops, assignments: seq<Assignment>)
    requires forall i :: 0 <= i < |assignments| ==> Handled(assignments[i].expression)
    ensures RunSpec(Corrected, ops, assignments).Finished?
    decreases |assignments|
  {
    if assignments != [] {
      var prefix := assignments[..|assignments| - 1];
      RunTotal(ops, prefix);
    }
  }

  /** As written, `run` never reports an error: a finished run's list is empty. */
  lemma {:induction false} RunAsWrittenReportsNothing(ops: Ops, assignments: seq<Assignment>)
    ensures RunSpec(AsWritten, ops, assignments).Finished? ==> RunSpec(AsWritten, ops, assignments).errors == []
    decreases |assignments|
  {
    if assignments != [] {
      RunAsWrittenReportsNothing(ops, assignments[..|assignments| - 1]);
    }
  }

  /** As written, an assignment that reads a name nothing has bound yet ends
      the whole program with a panic, whatever follows it. */
  lemma RunAsWrittenAbortsOnUnboundRead(ops: Ops, before: seq<Assignment>, a: Assignment, after: seq<Assignment>)
    requires RunSpec(AsWritten, ops, before).Finished?
    requires !(FreeVariables(a.expression) <= RunSpec(AsWritten, ops, before).variables.Keys)
    ensures RunSpec(AsWritten, ops, before + [a] + after).Aborted?
  {
    var all := before + [a] + after;
    assert all[..|before|] == before;
    assert all[..|before| + 1] == before + [a];
    assert (before + [a])[..|before|] == before;
    RunStaysAborted(AsWritten, ops, all, |before| + 1);
  }

  /** A successful assignment binds its name to its value, overwriting an
      earlier binding; a failing one leaves the table as it was and appends
      exactly one error. */
  lemma AssignmentEffect(version: Version, ops: Ops, assignments: seq<Assignment>, a: Assignment)
    requires RunSpec(version, ops, assignments).Finished?
    ensures var before := RunSpec(version, ops, assignments);
      var after := RunSpec(version, ops, assignments + [a]);
      match EvalWith(version, ops, a.expression, before.variables)
      case Value(v) => after == Finished(before.variables[a.name := v], before.errors)
      case Failure(reason) =>
        after == Finished(before.variables, before.errors + [Error(0, 0, reason, EvaluationError)])
      case Panicked(p) => after == Aborted(p)
  {
    assert (assignments + [a])[..|assignments|] == assignments;
  }

  /** `a = 1; a = 2;` ends with `a` bound to 2. */
  lemma RedefinitionOverwrites(version: Version, ops: Ops)
    ensures RunSpec(version, ops, [Assignment("a", Number(1.0)), Assignment("a", Number(2.0))]) == Finished(map["a" := 2.0], [])
  {
    var program := [Assignment("a", Number(1.0)), Assignment("a", Number(2.0))];
    assert program[..1] == [Assignment("a", Number(1.0))];
    assert program[..1][..0] == [];
  }

  /** `a = b;` with no earlier `b`: as written the program panics; corrected,
      it gives exactly one error naming `b`, and `a` stays unset. */
  lemma MissingVariableReported(ops: Ops)
    ensures RunSpec(AsWritten, ops, [Assignment("a", Variable("b"))]) == Aborted(MissingVariable("b"))
    ensures RunSpec(Corrected, ops, [Assignment("a", Variable("b"))]) ==
      Finished(map[], [Error(0, 0, MissingVariableReason("b"), EvaluationError)])
  {
    var program := [Assignment("a", Variable("b"))];
    assert program[..0] == [];
    assert RunSpec(AsWritten, ops, program[..0]) == Finished(map[], []);
    assert RunSpec(Corrected, ops, program[..0]) == Finished(map[], []);
  }
}
