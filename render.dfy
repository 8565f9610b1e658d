/** The grid driver of the render workspace (src/app/render.rs): it evaluates
    the parsed program once per point of a rectangular grid, keeps each
    point's errors and variables, and derives the points to draw. */
module Render {
  import opened Float
  import opened Errors
  import Syntax
  import Program
  import Eval

  datatype ToolsTab = Hidden | ErrorsTab | Inspector

  /** The per-point evaluation context, with the fields `calculate_points` fills in. */
  datatype EvalContext = EvalContext(
    x: real, y: real, index: real, count: real, fraction: real,
    pi: real, tau: real, time: real, projectionTime: real, projectionStartTime: real)

  /** A point to draw: a position, a colour in HSV, and its grid index. */
  datatype RenderedPoint = RenderedPoint(x: real, y: real, h: real, s: real, v: real, index: nat)

  /** What evaluating the program at one point gave: its variables, its errors,
      the context it ran with, and its index. */
  datatype PointResult = PointResult(variables: Eval.Table, errors: seq<Error>, context: EvalContext, index: nat)

  /** Running the parsed program against the source text and one point's context,
      giving the variable table it filled and the errors it reported. */
  type PointEvaluator = (seq<Syntax.Assignment>, string, EvalContext) -> (Eval.Table, seq<Error>)

  /** A clock reading in milliseconds, as seconds. */
  function Seconds(millis: int): real { millis as real / 1000.0 }

  /** The context every point starts from: `count` is the number of points, and
      the times are taken from the two clock readings. */
  function BaseContext(w: nat, h: nat, nowMillis: int, startMillis: int): (c: EvalContext)
    ensures c.count == (w * h) as real && c.time == Seconds(nowMillis)
    ensures c.projectionTime == Seconds(nowMillis - startMillis)
    ensures startMillis <= nowMillis ==> c.projectionTime >= 0.0
  {
    var time := Seconds(nowMillis);
    var start := Seconds(startMillis);
    EvalContext(0.0, 0.0, 0.0, (w * h) as real, 0.0, PI, TAU, time, time - start, start)
  }

  /** The context of point `i` of a `w` by `h` grid: the base context with
      only its position, index and fraction set for the point. */
  function PointContext(ops: Ops, base: EvalContext, w: nat, h: nat, i: nat): (c: EvalContext)
    ensures c.(x := base.x, y := base.y, index := base.index, fraction := base.fraction) == base
    ensures c.index == i as real
  {
    var f := i as real;
    base.(index := f,
          x := -100.0 + Remainder(ops, f, w as real) * Quotient(ops, 200.0, w as real - 1.0),
          y := 100.0 - Quotient(ops, 200.0, h as real - 1.0) * Quotient(ops, f, w as real).Floor as real,
          fraction := Quotient(ops, f, base.count - 1.0))
  }

  /** The ordered map over indices `0..w*h`: one result per point, result `i`
      holding what the program gave at point `i`'s own context. */
  function PointResults(run: PointEvaluator, ops: Ops, program: seq<Syntax.Assignment>, text: string,
                        w: nat, h: nat, base: EvalContext): (results: seq<PointResult>)
    ensures |results| == w * h
    ensures forall i {:trigger results[i]} :: 0 <= i < |results| ==>
      results[i].index == i && results[i].context == PointContext(ops, base, w, h, i) &&
      run(program, text, results[i].context) == (results[i].variables, results[i].errors)
  {
    seq(w * h, i requires 0 <= i < w * h =>
      var context := PointContext(ops, base, w, h, i);
      var (variables, errors) := run(program, text, context);
      PointResult(variables, errors, context, i))
  }

  function ErrorsOf(results: seq<PointResult>): seq<seq<Error>>
  {
    seq(|results|, i requires 0 <= i < |results| => results[i].errors)
  }

  function TablesOf(results: seq<PointResult>): seq<Eval.Table>
  {
    seq(|results|, i requires 0 <= i < |results| => results[i].variables)
  }

  /** One more result adds its error list and its table at the end. */
  lemma ResultsSnoc(results: seq<PointResult>, k: nat)
    requires k < |results|
    ensures ErrorsOf(results[..k + 1]) == ErrorsOf(results[..k]) + [results[k].errors]
    ensures TablesOf(results[..k + 1]) == TablesOf(results[..k]) + [results[k].variables]
  {
    assert ErrorsOf(results[..k + 1]) == ErrorsOf(results[..k]) + [results[k].errors];
    assert TablesOf(results[..k + 1]) == TablesOf(results[..k]) + [results[k].variables];
  }

  /** The parsing library's reports for a program that stopped matching at
      `stoppedAt`, each converted to an `Error`. */
  function Processed<D>(diagnose: (string, nat) -> seq<D>, process: (D, string) -> Error,
                        content: string, stoppedAt: nat): seq<Error>
  {
    var raw := diagnose(content, stoppedAt);
    seq(|raw|, i requires 0 <= i < |raw| => process(raw[i], content))
  }

  /** The errors `on_switch_render` stores: none after a successful parse, the
      processed reports after a failure. */
  function Reports<D>(diagnose: (string, nat) -> seq<D>, process: (D, string) -> Error,
                      content: string, outcome: Program.ParseOutcome): seq<Error>
  {
    if outcome.Accepted? then [] else Processed(diagnose, process, content, outcome.stoppedAt)
  }

  function Lookup(t: Eval.Table, name: string, default: real): real
  {
    if name in t then t[name] else default
  }

  /** A point's drawing: `x'`, `y'`, `h` and `s` default to 0 and `v` to 1, so
      a point is hidden (value 0) exactly when its program set `v` to 0. */
  function Rendered(r: PointResult): (p: RenderedPoint)
    ensures p.index == r.index
    ensures "x'" in r.variables ==> p.x == r.variables["x'"]
    ensures "y'" in r.variables ==> p.y == r.variables["y'"]
    ensures "h" in r.variables ==> p.h == r.variables["h"]
    ensures "s" in r.variables ==> p.s == r.variables["s"]
    ensures "v" in r.variables ==> p.v == r.variables["v"]
    ensures "x'" !in r.variables ==> p.x == 0.0
    ensures "y'" !in r.variables ==> p.y == 0.0
    ensures "h" !in r.variables ==> p.h == 0.0
    ensures "s" !in r.variables ==> p.s == 0.0
    ensures "v" !in r.variables ==> p.v == 1.0
    ensures p.v == 0.0 <==> "v" in r.variables && r.variables["v"] == 0.0
  {
    RenderedPoint(Lookup(r.variables, "x'", 0.0), Lookup(r.variables, "y'", 0.0),
                  Lookup(r.variables, "h", 0.0), Lookup(r.variables, "s", 0.0),
                  Lookup(r.variables, "v", 1.0), r.index)
  }

  function RenderAll(results: seq<PointResult>): seq<RenderedPoint>
  {
    seq(|results|, i requires 0 <= i < |results| => Rendered(results[i]))
  }

  /** The indices whose error list is not empty, in the order the loop meets
      them: an index is listed exactly when its point reported an error. */
  function FailingIndexes(errors: seq<seq<Error>>): (r: seq<nat>)
    ensures forall i {:trigger i in r} :: i in r <==> 0 <= i < |errors| && errors[i] != []
    decreases |errors|
  {
    if errors == [] then []
    else
      var n := |errors| - 1;
      FailingIndexes(errors[..n]) + (if errors[n] != [] then [n] else [])
  }

  // ----- The failing-index list -----

  /** The list is strictly ascending. */
  lemma {:induction false} FailingIndexesAscending(errors: seq<seq<Error>>)
    ensures forall j, k :: 0 <= j < k < |FailingIndexes(errors)| ==> FailingIndexes(errors)[j] < FailingIndexes(errors)[k]
    decreases |errors|
  {
    if errors != [] {
      var n := |errors| - 1;
      FailingIndexesAscending(errors[..n]);
      var before := FailingIndexes(errors[..n]);
      assert forall k :: 0 <= k < |before| ==> before[k] in before;
    }
  }

  /** The last listed index is the largest index that reported an error. */
  lemma FailingIndexesLast(errors: seq<seq<Error>>)
    requires FailingIndexes(errors) != []
    ensures var last := FailingIndexes(errors)[|FailingIndexes(errors)| - 1];
      last < |errors| && errors[last] != [] && forall j :: last < j < |errors| ==> errors[j] == []
  {
    var f := FailingIndexes(errors);
    var last := f[|f| - 1];
    FailingIndexesAscending(errors);
    forall j | last < j < |errors| ensures errors[j] == [] {
      assert forall k :: 0 <= k < |f| ==> f[k] <= last;
      assert j !in f;
    }
  }

  /** Appending one point's errors appends its index exactly when it failed. */
  lemma FailingIndexesSnoc(errors: seq<seq<Error>>, e: seq<Error>)
    ensures FailingIndexes(errors + [e]) == FailingIndexes(errors) + (if e != [] then [|errors|] else [])
  {
    assert (errors + [e])[..|errors|] == errors;
  }

  // ----- The grid -----

  lemma NaturalRemainder(ops: Ops, a: nat, b: nat)
    requires 0 < b
    ensures Remainder(ops, a as real, b as real) == (a % b) as real
  {
    var q := a / b;
    var r := a % b;
    NaturalFloor(a, b);
    assert (a as real / b as real).Floor == q;
    assert q as real * b as real + r as real == a as real;
  }

  lemma NaturalFloor(a: nat, b: nat)
    requires 0 < b
    ensures (a as real / b as real).Floor == a / b
  {
    var q := a / b;
    var r := a % b;
    assert a == q * b + r && 0 <= r < b;
    var x := a as real / b as real;
    assert x == q as real + r as real / b as real;
    assert 0.0 <= r as real / b as real < 1.0;
  }

  /** Integer division and remainder are determined by the quotient-remainder equation. */
  lemma DivModUnique(n: int, w: int, q: int, r: int)
    requires 0 < w && 0 <= r < w && n == q * w + r
    ensures n / w == q && n % w == r
  {
    var q' := n / w;
    var r' := n % w;
    assert (q - q') * w == r' - r;
    MulSign(q - q', w);
  }

  lemma {:induction false} MulSign(d: int, w: int)
    requires 0 < w
    ensures d >= 1 ==> d * w >= w
    ensures d <= -1 ==> d * w <= -w
    decreases if d < 0 then -d else d
  {
    if d > 1 {
      MulSign(d - 1, w);
      assert d * w == (d - 1) * w + w;
    } else if d < -1 {
      MulSign(d + 1, w);
      assert d * w == (d + 1) * w - w;
    }
  }

  lemma RowBound(i: nat, w: nat, h: nat)
    requires 0 < w && i < w * h
    ensures i / w < h
  {
    var q := i / w;
    assert q * w <= i;
    assert q * w < h * w;
    assert (h - q) * w > 0;
  }

  /** Point `i` lies in column `i % w` and row `i / w`: columns are `200 / (w - 1)`
      apart from -100 rightwards, rows `200 / (h - 1)` apart from 100 downwards. */
  lemma GridPosition(ops: Ops, base: EvalContext, w: nat, h: nat, i: nat)
    requires 0 < w
    ensures PointContext(ops, base, w, h, i).x == -100.0 + (i % w) as real * Quotient(ops, 200.0, w as real - 1.0)
    ensures PointContext(ops, base, w, h, i).y == 100.0 - Quotient(ops, 200.0, h as real - 1.0) * (i / w) as real
    ensures PointContext(ops, base, w, h, i).index == i as real
  {
    NaturalRemainder(ops, i, w);
    QuotientFloor(ops, i, w);
  }

  lemma QuotientFloor(ops: Ops, a: nat, b: nat)
    requires 0 < b
    ensures Quotient(ops, a as real, b as real).Floor == a / b
  {
    NaturalFloor(a, b);
  }

  /** `c` steps of `200 / d` stay within 0 and 200 while `c` is at most `d`. */
  lemma ScaledStep(c: real, d: real)
    requires 0.0 <= c <= d && 0.0 < d
    ensures 0.0 <= c * (200.0 / d) <= 200.0 && c * (200.0 / d) == (200.0 / d) * c
    ensures c == d ==> c * (200.0 / d) == 200.0
  {
    assert c * (200.0 / d) == 200.0 * (c / d);
    assert c / d <= 1.0;
  }

  lemma UnitFraction(a: real, b: real)
    requires 0.0 <= a <= b && 0.0 < b
    ensures 0.0 <= a / b <= 1.0
    ensures a == b ==> a / b == 1.0
  {}

  /** The quotient and remainder of a grid index, as the coordinates use them. */
  lemma ColumnRow(w: nat, h: nat, i: nat)
    requires 2 <= w && i < w * h
    ensures 0 <= i % w <= w - 1 && 0 <= i / w <= h - 1
    ensures (i % w) as real <= w as real - 1.0 && (i / w) as real <= h as real - 1.0
  {
    RowBound(i, w, h);
  }

  lemma GridSize(w: nat, h: nat)
    requires 2 <= w && 2 <= h
    ensures 4 <= w * h
  {
    assert w * h == (w - 2) * h + 2 * h;
  }

  /** With at least two columns and rows, the first point is the top-left corner,
      with fraction 0. */
  lemma GridFirstPoint(ops: Ops, w: nat, h: nat, nowMillis: int, startMillis: int)
    requires 2 <= w && 2 <= h
    ensures var first := PointContext(ops, BaseContext(w, h, nowMillis, startMillis), w, h, 0);
      first.x == -100.0 && first.y == 100.0 && first.fraction == 0.0
  {
    var base := BaseContext(w, h, nowMillis, startMillis);
    GridSize(w, h);
    DivModUnique(0, w, 0, 0);
    GridPosition(ops, base, w, h, 0);
    var m := (w * h - 1) as real;
    assert base.count - 1.0 == m && m != 0.0;
    assert Quotient(ops, 0.0, m) == 0.0;
  }

  /** With at least two columns and rows, the last point is the bottom-right
      corner, with fraction 1. */
  lemma GridLastPoint(ops: Ops, w: nat, h: nat, nowMillis: int, startMillis: int)
    requires 2 <= w && 2 <= h
    ensures var last := PointContext(ops, BaseContext(w, h, nowMillis, startMillis), w, h, w * h - 1);
      last.x == 100.0 && last.y == -100.0 && last.fraction == 1.0
  {
    var base := BaseContext(w, h, nowMillis, startMillis);
    GridSize(w, h);
    var n := w * h - 1;
    assert n == (h - 1) * w + (w - 1);
    DivModUnique(n, w, h - 1, w - 1);
    GridPosition(ops, base, w, h, n);
    var dx := w as real - 1.0;
    var dy := h as real - 1.0;
    assert (w - 1) as real == dx && (h - 1) as real == dy;
    assert Quotient(ops, 200.0, dx) == 200.0 / dx;
    assert Quotient(ops, 200.0, dy) == 200.0 / dy;
    ScaledStep(dx, dx);
    ScaledStep(dy, dy);
    var m := n as real;
    assert base.count - 1.0 == m && m != 0.0;
    assert Quotient(ops, m, m) == 1.0;
  }

  /** With at least two columns and rows, every point lies in the square from
      -100 to 100 on both axes, and its fraction lies between 0 and 1. */
  lemma GridBounds(ops: Ops, w: nat, h: nat, nowMillis: int, startMillis: int, i: nat)
    requires 2 <= w && 2 <= h && i < w * h
    ensures var p := PointContext(ops, BaseContext(w, h, nowMillis, startMillis), w, h, i);
      -100.0 <= p.x <= 100.0 && -100.0 <= p.y <= 100.0 && 0.0 <= p.fraction <= 1.0
  {
    var base := BaseContext(w, h, nowMillis, startMillis);
    ColumnWithin(ops, base, w, h, i);
    RowWithin(ops, base, w, h, i);
    FractionWithin(ops, i, w * h - 1);
    assert base.count - 1.0 == (w * h - 1) as real;
  }

  lemma ColumnWithin(ops: Ops, base: EvalContext, w: nat, h: nat, i: nat)
    requires 2 <= w
    ensures -100.0 <= PointContext(ops, base, w, h, i).x <= 100.0
  {
    GridPosition(ops, base, w, h, i);
    StepWithin(ops, i % w, w);
  }

  lemma RowWithin(ops: Ops, base: EvalContext, w: nat, h: nat, i: nat)
    requires 2 <= w && 2 <= h && i < w * h
    ensures -100.0 <= PointContext(ops, base, w, h, i).y <= 100.0
  {
    GridPosition(ops, base, w, h, i);
    ColumnRow(w, h, i);
    StepWithin(ops, i / w, h);
  }

  /** `c` steps of `200 / (n - 1)`, for `c` at most `n - 1`, stay within 0 and 200. */
  lemma StepWithin(ops: Ops, c: nat, n: nat)
    requires 2 <= n && c <= n - 1
    ensures var step := Quotient(ops, 200.0, n as real - 1.0);
      0.0 <= c as real * step <= 200.0 && 0.0 <= step * c as real <= 200.0
  {
    var d := n as real - 1.0;
    assert Quotient(ops, 200.0, d) == 200.0 / d;
    ScaledStep(c as real, d);
  }

  lemma FractionWithin(ops: Ops, i: nat, last: nat)
    requires i <= last && 0 < last
    ensures 0.0 <= Quotient(ops, i as real, last as real) <= 1.0
  {
    assert Quotient(ops, i as real, last as real) == i as real / last as real;
    UnitFraction(i as real, last as real);
  }

  /** With at least two columns and rows, distinct points have distinct positions. */
  lemma GridInjective(ops: Ops, base: EvalContext, w: nat, h: nat, i: nat, j: nat)
    requires 2 <= w && 2 <= h && i != j
    ensures PointContext(ops, base, w, h, i).x != PointContext(ops, base, w, h, j).x ||
            PointContext(ops, base, w, h, i).y != PointContext(ops, base, w, h, j).y
  {
    GridPosition(ops, base, w, h, i);
    GridPosition(ops, base, w, h, j);
    var cx := Quotient(ops, 200.0, w as real - 1.0);
    var cy := Quotient(ops, 200.0, h as real - 1.0);
    PositiveStep(ops, w);
    PositiveStep(ops, h);
    if i % w != j % w {
      Cancel((i % w) as real, (j % w) as real, cx);
    } else {
      CellDetermines(w, i, j);
      Cancel((i / w) as real, (j / w) as real, cy);
    }
  }

  lemma PositiveStep(ops: Ops, n: nat)
    requires 2 <= n
    ensures Quotient(ops, 200.0, n as real - 1.0) > 0.0
  {
    assert Quotient(ops, 200.0, n as real - 1.0) == 200.0 / (n as real - 1.0);
  }

  /** An index is determined by its column and row. */
  lemma CellDetermines(w: nat, i: nat, j: nat)
    requires 0 < w && i != j && i % w == j % w
    ensures i / w != j / w
  {
    assert i == (i / w) * w + i % w;
    assert j == (j / w) * w + j % w;
  }

  lemma Cancel(a: real, b: real, c: real)
    requires a != b && c != 0.0
    ensures a * c != b * c && c * a != c * b
  {
    assert a * c - b * c == (a - b) * c;
  }

  // ----- Drawing -----

  /** A point whose table is what `run` left gets the default for every drawing
      variable the program never assigns: at the centre, hue and saturation 0,
      and visible. */
  lemma UnassignedDefaults(version: Eval.Version, ops: Ops, program: seq<Eval.Assignment>, r: PointResult)
    requires Eval.RunSpec(version, ops, program).Finished?
    requires r.variables == Eval.RunSpec(version, ops, program).variables
    ensures "x'" !in Eval.Names(program) ==> Rendered(r).x == 0.0
    ensures "y'" !in Eval.Names(program) ==> Rendered(r).y == 0.0
    ensures "h" !in Eval.Names(program) ==> Rendered(r).h == 0.0
    ensures "s" !in Eval.Names(program) ==> Rendered(r).s == 0.0
    ensures "v" !in Eval.Names(program) ==> Rendered(r).v == 1.0
  {}

  /** A grid of `u8` sizes has fewer than 2^16 points. */
  lemma ByteGridFits(w: nat, h: nat)
    requires w < 0x100 && h < 0x100
    ensures w * h < 0x1_0000
  {
    assert w * h <= w * 0xff <= 0xff * 0xff;
  }

  /** `RenderWorkspace`: the parse of the current program and the results of
      its last evaluation over the grid. Clock readings are milliseconds. */
  class RenderWorkspace {
    var parserResult: seq<Syntax.Assignment>
    var parserErrors: seq<Error>
    var evalErrors: seq<seq<Error>>
    var evalVariables: seq<Eval.Table>
    var evalResult: seq<RenderedPoint>
    var projectionStartMillis: int
    var toolsTab: ToolsTab
    var toolsIndexTb: nat
    var evalFrozen: bool
    var encounteredEvalError: bool
    var encounteredParserError: bool
    var evalErrorIndexes: seq<nat>

    /** One error list and one table per point, the failing indexes listed, and
        the flag set exactly when one failed. */
    ghost predicate Valid()
      reads this`evalErrors, this`evalVariables, this`evalErrorIndexes, this`encounteredEvalError
    {
      |evalErrors| == |evalVariables| &&
      evalErrorIndexes == FailingIndexes(evalErrors) &&
      encounteredEvalError == (evalErrorIndexes != [])
    }

    /** `Default::default`, started at the clock reading `nowMillis`. */
    constructor (nowMillis: int)
      ensures Valid()
      ensures parserResult == [] && parserErrors == [] && evalErrors == [] && evalVariables == [] && evalResult == []
      ensures projectionStartMillis == nowMillis && toolsTab == Hidden && toolsIndexTb == 0
      ensures !evalFrozen && !encounteredEvalError && !encounteredParserError && evalErrorIndexes == []
    {
      parserResult := [];
      parserErrors := [];
      evalErrors := [];
      evalVariables := [];
      evalResult := [];
      projectionStartMillis := nowMillis;
      toolsTab := Hidden;
      toolsIndexTb := 0;
      evalFrozen := false;
      encounteredEvalError := false;
      encounteredParserError := false;
      evalErrorIndexes := [];
    }

    /** `calculate_points`: evaluates the program at every point of a `w` by `h`
        grid, records each point's errors and variables in index order, lists the
        failing indexes, and on any failure freezes evaluation and shows the
        errors of the last failing point. Returns the points to draw. */
    method CalculatePoints(run: PointEvaluator, ops: Ops, text: string, w: nat, h: nat, nowMillis: int)
      returns (points: seq<RenderedPoint>)
      requires w * h < 0x1_0000
      modifies this`encounteredEvalError, this`evalErrorIndexes, this`evalErrors, this`evalVariables,
               this`evalFrozen, this`toolsIndexTb, this`toolsTab
      ensures Valid()
      ensures var results := PointResults(run, ops, parserResult, text, w, h,
                                          BaseContext(w, h, nowMillis, projectionStartMillis));
        evalErrors == ErrorsOf(results) && evalVariables == TablesOf(results) && points == RenderAll(results)
      ensures encounteredEvalError ==>
        evalFrozen && toolsTab == ErrorsTab && toolsIndexTb == evalErrorIndexes[|evalErrorIndexes| - 1]
      ensures !encounteredEvalError ==>
        evalFrozen == old(evalFrozen) && toolsTab == old(toolsTab) && toolsIndexTb == old(toolsIndexTb)
      ensures parserResult == old(parserResult) && parserErrors == old(parserErrors) && evalResult == old(evalResult)
      ensures projectionStartMillis == old(projectionStartMillis) && encounteredParserError == old(encounteredParserError)
    {
      encounteredEvalError := false;
      evalErrorIndexes := [];
      var base := BaseContext(w, h, nowMillis, projectionStartMillis);
      evalErrors := [];
      evalVariables := [];
      var results := PointResults(run, ops, parserResult, text, w, h, base);
      RecordAll(results);
      points := RenderAll(results);
    }

    /** The loop over the results: each point's errors and table are recorded in
        index order, the failing indexes listed, and on any failure evaluation
        freezes and the last failing point is shown. */
    method RecordAll(results: seq<PointResult>)
      requires forall i :: 0 <= i < |results| ==> results[i].index == i
      requires evalErrors == [] && evalVariables == [] && evalErrorIndexes == [] && !encounteredEvalError
      modifies this`encounteredEvalError, this`evalErrorIndexes, this`evalErrors, this`evalVariables,
               this`evalFrozen, this`toolsIndexTb, this`toolsTab
      ensures Valid() && evalErrors == ErrorsOf(results) && evalVariables == TablesOf(results)
      ensures encounteredEvalError ==>
        evalFrozen && toolsTab == ErrorsTab && toolsIndexTb == evalErrorIndexes[|evalErrorIndexes| - 1]
      ensures !encounteredEvalError ==>
        evalFrozen == old(evalFrozen) && toolsTab == old(toolsTab) && toolsIndexTb == old(toolsIndexTb)
    {
      for k := 0 to |results|
        invariant evalErrors == ErrorsOf(results[..k]) && evalVariables == TablesOf(results[..k])
        invariant evalErrorIndexes == FailingIndexes(evalErrors)
        invariant encounteredEvalError == (evalErrorIndexes != [])
        invariant encounteredEvalError ==>
          evalFrozen && toolsTab == ErrorsTab && toolsIndexTb == evalErrorIndexes[|evalErrorIndexes| - 1]
        invariant !encounteredEvalError ==>
          evalFrozen == old(evalFrozen) && toolsTab == old(toolsTab) && toolsIndexTb == old(toolsIndexTb)
      {
        ResultsSnoc(results, k);
        FailingIndexesSnoc(evalErrors, results[k].errors);
        Record(results[k]);
      }
      assert results[..|results|] == results;
    }

    /** One iteration of the loop over the results: the point's errors and table
        are appended, and a point with errors is listed, freezes evaluation and
        becomes the point whose errors are shown. */
    method Record(point: PointResult)
      requires point.index == |evalErrors|
      modifies this`encounteredEvalError, this`evalErrorIndexes, this`evalErrors, this`evalVariables,
               this`evalFrozen, this`toolsIndexTb, this`toolsTab
      ensures evalErrors == old(evalErrors) + [point.errors] && evalVariables == old(evalVariables) + [point.variables]
      ensures evalErrorIndexes == old(evalErrorIndexes) + (if point.errors != [] then [point.index] else [])
      ensures encounteredEvalError == (old(encounteredEvalError) || point.errors != [])
      ensures point.errors != [] ==> evalFrozen && toolsTab == ErrorsTab && toolsIndexTb == point.index
      ensures point.errors == [] ==>
        evalFrozen == old(evalFrozen) && toolsTab == old(toolsTab) && toolsIndexTb == old(toolsIndexTb)
      ensures parserResult == old(parserResult) && parserErrors == old(parserErrors) && evalResult == old(evalResult)
      ensures projectionStartMillis == old(projectionStartMillis) && encounteredParserError == old(encounteredParserError)
    {
      if |point.errors| > 0 {
        encounteredEvalError := true;
        evalErrorIndexes := evalErrorIndexes + [point.index];
        evalFrozen := true;
        toolsIndexTb := point.index;
        toolsTab := ErrorsTab;
      }
      evalErrors := evalErrors + [point.errors];
      evalVariables := evalVariables + [point.variables];
    }

    /** `on_switch_render`: clears the flags and error lists, parses the program
        and applies the outcome with `ApplyParse`. */
    method OnSwitchRender<D>(run: PointEvaluator, ops: Ops, content: string,
                             diagnose: (string, nat) -> seq<D>, process: (D, string) -> Error,
                             calcNowMillis: int, switchNowMillis: int)
      modifies this
      ensures Valid()
      ensures Switched(run, ops, Program.Parse(content), content,
                       Reports(diagnose, process, content, Program.Parse(content)), calcNowMillis,
                       old(parserResult), old(projectionStartMillis), old(toolsTab), old(toolsIndexTb))
      ensures evalResult == old(evalResult) && projectionStartMillis == switchNowMillis
    {
      var outcome := Program.Parse(content);
      ApplyParse(run, ops, outcome, content, diagnose, process, calcNowMillis, switchNowMillis);
    }

    /** The state `on_switch_render` leaves for a parse outcome and the errors
        stored for it: a parse failure is flagged, a successful parse replaces
        the previous one, each point's errors and table come from evaluating the
        program (against empty text after a failure) on the 20 by 20 grid,
        evaluation is frozen exactly when a point failed, and the errors are
        shown after either kind of failure. */
    ghost predicate Switched(run: PointEvaluator, ops: Ops, outcome: Program.ParseOutcome, content: string,
                             reports: seq<Error>, calcNowMillis: int, previousResult: seq<Syntax.Assignment>,
                             startMillis: int, previousTab: ToolsTab, previousIndex: nat)
      reads this`parserResult, this`parserErrors, this`evalErrors, this`evalVariables, this`evalFrozen,
            this`encounteredEvalError, this`encounteredParserError, this`evalErrorIndexes, this`toolsTab, this`toolsIndexTb
    {
      var text := if outcome.Accepted? then content else "";
      var results := PointResults(run, ops, parserResult, text, 20, 20, BaseContext(20, 20, calcNowMillis, startMillis));
      Valid() &&
      encounteredParserError == outcome.Rejected? &&
      parserResult == (if outcome.Accepted? then outcome.program else previousResult) &&
      parserErrors == reports &&
      evalErrors == ErrorsOf(results) && evalVariables == TablesOf(results) &&
      evalFrozen == encounteredEvalError &&
      toolsTab == (if encounteredParserError || encounteredEvalError then ErrorsTab else previousTab) &&
      toolsIndexTb == (if encounteredEvalError then evalErrorIndexes[|evalErrorIndexes| - 1] else previousIndex)
    }

    /** The body of `on_switch_render` once the parse outcome is known. */
    method ApplyParse<D>(run: PointEvaluator, ops: Ops, outcome: Program.ParseOutcome, content: string,
                         diagnose: (string, nat) -> seq<D>, process: (D, string) -> Error,
                         calcNowMillis: int, switchNowMillis: int)
      modifies this
      ensures Valid()
      ensures Switched(run, ops, outcome, content, Reports(diagnose, process, content, outcome), calcNowMillis,
                       old(parserResult), old(projectionStartMillis), old(toolsTab), old(toolsIndexTb))
      ensures evalResult == old(evalResult) && projectionStartMillis == switchNowMillis
    {
      var reports := Reports(diagnose, process, content, outcome);
      Reset();
      if outcome.Accepted? {
        Accept(run, ops, outcome.program, content, calcNowMillis);
        assert Switched(run, ops, outcome, content, reports, calcNowMillis,
                        old(parserResult), old(projectionStartMillis), old(toolsTab), old(toolsIndexTb));
      } else {
        Reject(run, ops, outcome, content, reports, calcNowMillis);
      }
      projectionStartMillis := switchNowMillis;
    }

    /** The resets `on_switch_render` starts with: evaluation unfrozen, both
        error flags cleared, and the error lists emptied. */
    method Reset()
      modifies this`evalFrozen, this`encounteredEvalError, this`encounteredParserError,
               this`evalErrorIndexes, this`evalErrors, this`parserErrors
      ensures !evalFrozen && !encounteredEvalError && !encounteredParserError
      ensures evalErrorIndexes == [] && evalErrors == [] && parserErrors == []
    {
      evalFrozen := false;
      encounteredEvalError := false;
      encounteredParserError := false;
      evalErrorIndexes := [];
      evalErrors := [];
      parserErrors := [];
    }

    /** The successful-parse branch: the new parse replaces the old one, the
        stored errors are cleared, and it is evaluated against the program text. */
    method Accept(run: PointEvaluator, ops: Ops, program: seq<Syntax.Assignment>, content: string, calcNowMillis: int)
      requires !evalFrozen && !encounteredParserError
      modifies this
      ensures Switched(run, ops, Program.Accepted(program), content, [], calcNowMillis,
                       old(parserResult), projectionStartMillis, old(toolsTab), old(toolsIndexTb))
      ensures evalResult == old(evalResult) && projectionStartMillis == old(projectionStartMillis)
    {
      parserErrors := [];
      parserResult := program;
      var _ := CalculatePoints(run, ops, content, 20, 20, calcNowMillis);
    }

    /** The failed-parse branch: the previous parse is kept and evaluated against
        empty text, the processed errors are stored, and the errors are shown. */
    method Reject(run: PointEvaluator, ops: Ops, outcome: Program.ParseOutcome, content: string,
                  errors: seq<Error>, calcNowMillis: int)
      requires outcome.Rejected? && !evalFrozen
      modifies this
      ensures Switched(run, ops, outcome, content, errors, calcNowMillis,
                       old(parserResult), projectionStartMillis, old(toolsTab), old(toolsIndexTb))
      ensures evalResult == old(evalResult) && projectionStartMillis == old(projectionStartMillis)
    {
      parserErrors := errors;
      var _ := CalculatePoints(run, ops, "", 20, 20, calcNowMillis);
      encounteredParserError := true;
      toolsTab := ErrorsTab;
    }

    /** The evaluation step of `update_render_workspace`: the points are
        recomputed for the project's grid only while evaluation is not frozen and
        the program parsed; otherwise nothing changes. */
    method UpdateRenderWorkspace(run: PointEvaluator, ops: Ops, content: string, sizeX: nat, sizeY: nat, nowMillis: int)
      requires Valid() && sizeX < 0x100 && sizeY < 0x100
      modifies this`evalResult, this`encounteredEvalError, this`evalErrorIndexes, this`evalErrors,
               this`evalVariables, this`evalFrozen, this`toolsIndexTb, this`toolsTab
      ensures Valid()
      ensures !old(evalFrozen) && !old(encounteredParserError) ==>
        var results := PointResults(run, ops, parserResult, content, sizeX, sizeY,
                                    BaseContext(sizeX, sizeY, nowMillis, projectionStartMillis));
        evalResult == RenderAll(results) && evalErrors == ErrorsOf(results) && evalVariables == TablesOf(results) &&
        evalFrozen == encounteredEvalError &&
        (encounteredEvalError ==> toolsTab == ErrorsTab && toolsIndexTb == evalErrorIndexes[|evalErrorIndexes| - 1]) &&
        (!encounteredEvalError ==> toolsTab == old(toolsTab) && toolsIndexTb == old(toolsIndexTb))
      ensures old(evalFrozen) || old(encounteredParserError) ==> unchanged(this)
      ensures parserResult == old(parserResult) && parserErrors == old(parserErrors)
      ensures projectionStartMillis == old(projectionStartMillis) && encounteredParserError == old(encounteredParserError)
    {
      if !evalFrozen && !encounteredParserError {
        ByteGridFits(sizeX, sizeY);
        evalResult := CalculatePoints(run, ops, content, sizeX, sizeY, nowMillis);
      }
    }
  }
}
