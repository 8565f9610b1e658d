/** `parser()` of src/expressions/parser.rs as recursive functions over the
    source text. Each combinator is read with the semantics of the parsing
    library: alternatives are tried in order and the first success wins,
    repetitions are greedy and give back only the attempt that failed, and a
    node's span covers everything its parser consumed, padding included. */
module Grammar {
  import opened Syntax
  import opened Lexer

  /** The characters of `op`'s symbol come next, after the padding at `pos`. */
  predicate SymbolAt(s: string, pos: nat, op: BinaryOperation)
    requires pos <= |s|
  {
    var p := SkipWhitespace(s, pos);
    var sym := Symbol(op);
    p + |sym| <= |s| && s[p] == sym[0] && (|sym| == 2 ==> s[p + 1] == sym[1])
  }

  /** Where reading goes on after the padded symbol of `op` at `pos`. */
  function AfterSymbol(s: string, pos: nat, op: BinaryOperation): nat
    requires pos <= |s| && SymbolAt(s, pos, op)
  {
    SkipWhitespace(s, SkipWhitespace(s, pos) + |Symbol(op)|)
  }

  /** Expressions separated by single commas, the first starting at `start`. */
  ghost predicate Separated(s: string, args: seq<Spanned>, start: nat)
  {
    (args != [] ==> args[0].span.start == start) &&
    forall i :: 0 <= i < |args| - 1 ==> CommaAfter(s, args, i)
  }

  /** A comma follows argument `i`, and argument `i + 1` starts right after it. */
  ghost predicate CommaAfter(s: string, args: seq<Spanned>, i: nat)
    requires i + 1 < |args|
  {
    args[i].span.end < |s| && s[args[i].span.end] == ',' && args[i + 1].span.start == args[i].span.end + 1
  }

  /** Every label of a tree is what the text holds at that node's place, after
      the node's leading padding: a number's value is that of the literal there,
      a variable's or callee's name is the identifier there, a prefix operator is
      its character, a binary operator's symbol lies between its operands, and a
      group or an argument list sits between `(` and `)`, its arguments
      separated by commas. Every node ends where its text and the padding after
      it end, so no node covers text it did not read. */
  ghost predicate Reads(s: string, e: Spanned)
    decreases e, 1
  {
    e.span.start <= |s| && NodeReads(s, e, SkipWhitespace(s, e.span.start))
  }

  /** The node's own labels, read from `p`, its start after padding. */
  ghost predicate NodeReads(s: string, e: Spanned, p: nat)
    requires p <= |s|
    decreases e, 0
  {
    match e.expr
    case Number(v) =>
      NumberLexeme(s, p).Ok? && v == LiteralValue(NumberLexeme(s, p).value) &&
      e.span.end == SkipWhitespace(s, NumberLexeme(s, p).next)
    case Variable(name) =>
      RawIdent(s, p).Ok? && name == RawIdent(s, p).value && e.span.end == SkipWhitespace(s, RawIdent(s, p).next)
    case Group(x) =>
      p < |s| && s[p] == '(' && x.span.start == p + 1 && x.span.end < |s| && s[x.span.end] == ')' &&
      e.span.end == SkipWhitespace(s, x.span.end + 1) && Reads(s, x)
    case UnaryExpression(op, x) =>
      p < |s| && s[p] == UnarySymbol(op) && x.span.start == SkipWhitespace(s, p + 1) && x.span.end == e.span.end &&
      Reads(s, x)
    case BinaryExpression(l, op, r) =>
      l.span.start == e.span.start && r.span.end == e.span.end &&
      l.span.end <= |s| && SymbolAt(s, l.span.end, op) && r.span.start == AfterSymbol(s, l.span.end, op) &&
      Reads(s, l) && Reads(s, r)
    case Call(name, args) =>
      CallAt(s, name, args, p, e.span.end) && forall i :: 0 <= i < |args| ==> Reads(s, args[i])
  }

  /** The text of a call from `p` to `end`: the callee's identifier, then `(`
      after its padding, the arguments separated by commas, `)` after the last
      one (or right after `(`), and the padding after `)`. */
  ghost predicate CallAt(s: string, name: string, args: seq<Spanned>, p: nat, end: nat)
    requires p <= |s|
  {
    RawIdent(s, p).Ok? && name == RawIdent(s, p).value &&
    var q := SkipWhitespace(s, RawIdent(s, p).next);
    var close := EndOf(args, q + 1);
    q < |s| && s[q] == '(' && Separated(s, args, q + 1) && close < |s| && s[close] == ')' &&
    end == SkipWhitespace(s, close + 1)
  }

  /** `num`: a literal, padded. */
  function NumberAtom(s: string, pos: nat): (r: Parsed<Spanned>)
    requires pos <= |s|
    ensures r.Ok? <==> SkipWhitespace(s, pos) < |s| && IsDigit(s[SkipWhitespace(s, pos)])
    ensures r.Ok? ==> pos < r.next <= |s| && r.value.span == Span(pos, r.next) && r.value.expr.Number?
    ensures r.Ok? ==> r.next == SkipWhitespace(s, NumberLexeme(s, SkipWhitespace(s, pos)).next)
    ensures r.Ok? ==> Reads(s, r.value)
  {
    match NumberLexeme(s, SkipWhitespace(s, pos))
    case Fail => Fail
    case Ok(l, p) => Ok(Spanned(Number(LiteralValue(l)), Span(pos, SkipWhitespace(s, p))), SkipWhitespace(s, p))
  }

  /** `variable_reference`: an identifier. */
  function VariableAtom(s: string, pos: nat): (r: Parsed<Spanned>)
    requires pos <= |s|
    ensures r.Ok? <==> SkipWhitespace(s, pos) < |s| && IsIdentStart(s[SkipWhitespace(s, pos)])
    ensures r.Ok? ==> pos < r.next <= |s| && r.value.span == Span(pos, r.next)
    ensures r.Ok? ==> r.value.expr == Variable(Ident(s, pos).value) && r.next == Ident(s, pos).next
    ensures r.Ok? ==> Reads(s, r.value)
  {
    match Ident(s, pos)
    case Fail => Fail
    case Ok(name, p) => Ok(Spanned(Variable(name), Span(pos, p)), p)
  }

  /** `group`: `( expr )`, padded; the inner expression keeps its own span. */
  function GroupAtom(s: string, pos: nat): (r: Parsed<Spanned>)
    requires pos <= |s|
    ensures r.Ok? <==> var p0 := SkipWhitespace(s, pos);
      p0 < |s| && s[p0] == '(' && Expression(s, p0 + 1).Ok? &&
      Expression(s, p0 + 1).next < |s| && s[Expression(s, p0 + 1).next] == ')'
    ensures r.Ok? ==> r.value.expr == Group(Expression(s, SkipWhitespace(s, pos) + 1).value)
    ensures r.Ok? ==> pos < r.next <= |s| && r.value.span == Span(pos, r.next)
    ensures r.Ok? ==> Layered(r.value, 0) && Tiled(r.value) && Reads(s, r.value)
    decreases |s| - pos, 0
  {
    var p0 := SkipWhitespace(s, pos);
    if p0 < |s| && s[p0] == '(' then
      match Expression(s, p0 + 1)
      case Fail => Fail
      case Ok(e, p1) =>
        if p1 < |s| && s[p1] == ')' then
          var end := SkipWhitespace(s, p1 + 1);
          GroupNode(s, pos, e, end);
          Ok(Spanned(Group(e), Span(pos, end)), end)
        else Fail
    else Fail
  }

  /** An expression read just after a `(` at the padded start `pos`, with `)`
      right after it, makes a group atom up to the padding after `)`. */
  lemma GroupNode(s: string, pos: nat, e: Spanned, end: nat)
    requires pos <= |s| && var p0 := SkipWhitespace(s, pos);
      p0 < |s| && s[p0] == '(' && e.span.start == p0 + 1 && e.span.start < e.span.end < |s| && s[e.span.end] == ')'
    requires Layered(e, 5) && Tiled(e) && Reads(s, e)
    requires end == SkipWhitespace(s, e.span.end + 1)
    ensures var g := Spanned(Group(e), Span(pos, end)); Layered(g, 0) && Tiled(g) && Reads(s, g)
  {}

  /** `call`: an identifier and a parenthesised, comma-separated argument list, padded. */
  function CallAtom(s: string, pos: nat): (r: Parsed<Spanned>)
    requires pos <= |s|
    ensures r.Ok? <==> Ident(s, pos).Ok? && var p1 := Ident(s, pos).next;
      p1 < |s| && s[p1] == '(' && var p2 := EndOf(Arguments(s, p1 + 1), p1 + 1); p2 < |s| && s[p2] == ')'
    ensures r.Ok? ==> r.value.expr == Call(Ident(s, pos).value, Arguments(s, Ident(s, pos).next + 1))
    ensures r.Ok? ==> pos < r.next <= |s| && r.value.span == Span(pos, r.next)
    ensures r.Ok? ==> IsIdentifier(r.value.expr.callee)
    ensures r.Ok? ==> Layered(r.value, 0) && Tiled(r.value) && Reads(s, r.value)
    decreases |s| - pos, 0
  {
    match Ident(s, pos)
    case Fail => Fail
    case Ok(name, p1) =>
      if p1 < |s| && s[p1] == '(' then
        var args := Arguments(s, p1 + 1);
        var p2 := EndOf(args, p1 + 1);
        if p2 < |s| && s[p2] == ')' then
          var end := SkipWhitespace(s, p2 + 1);
          CallNode(s, pos, name, p1, args, end);
          Ok(Spanned(Call(name, args), Span(pos, end)), end)
        else Fail
      else Fail
  }

  /** A call node built from the identifier at `pos` and the arguments read
      between the parentheses after it is a whole atom and reads the text. */
  lemma CallNode(s: string, pos: nat, name: string, p1: nat, args: seq<Spanned>, end: nat)
    requires pos <= |s| && Ident(s, pos) == Ok(name, p1)
    requires p1 < |s| && s[p1] == '(' && p1 + 1 <= EndOf(args, p1 + 1) < |s| && s[EndOf(args, p1 + 1)] == ')'
    requires ArgumentsWithin(s, args, p1 + 1, EndOf(args, p1 + 1))
    requires end == SkipWhitespace(s, EndOf(args, p1 + 1) + 1)
    ensures var e := Spanned(Call(name, args), Span(pos, end)); Layered(e, 0) && Tiled(e) && Reads(s, e)
  {
    CallHead(s, pos, name, p1);
    CallShape(s, pos, name, p1, args, end);
    CallReads(s, pos, name, p1, args, end);
  }

  lemma CallShape(s: string, pos: nat, name: string, p1: nat, args: seq<Spanned>, end: nat)
    requires pos < p1 + 1 <= EndOf(args, p1 + 1) < end
    requires ArgumentsWithin(s, args, p1 + 1, EndOf(args, p1 + 1))
    ensures var e := Spanned(Call(name, args), Span(pos, end)); Layered(e, 0) && Tiled(e)
  {
    forall i | 0 <= i < |args|
      ensures pos < args[i].span.start && args[i].span.end < end && Layered(args[i], 5) && Tiled(args[i])
    {
      assert ArgumentAt(s, args, i, p1 + 1, EndOf(args, p1 + 1));
    }
    forall i | 0 <= i < |args| - 1 ensures args[i].span.end < args[i + 1].span.start {
      assert CommaAfter(s, args, i);
    }
  }

  lemma CallReads(s: string, pos: nat, name: string, p1: nat, args: seq<Spanned>, end: nat)
    requires pos <= |s|
    requires var p := SkipWhitespace(s, pos);
      RawIdent(s, p).Ok? && name == RawIdent(s, p).value && SkipWhitespace(s, RawIdent(s, p).next) == p1
    requires p1 < |s| && s[p1] == '(' && p1 + 1 <= EndOf(args, p1 + 1) < |s| && s[EndOf(args, p1 + 1)] == ')'
    requires ArgumentsWithin(s, args, p1 + 1, EndOf(args, p1 + 1))
    requires end == SkipWhitespace(s, EndOf(args, p1 + 1) + 1)
    ensures Reads(s, Spanned(Call(name, args), Span(pos, end)))
  {
    ArgumentsRead(s, args, p1 + 1, EndOf(args, p1 + 1));
    CallLabels(s, name, args, SkipWhitespace(s, pos), p1, Span(pos, end));
  }

  /** A call's labels, assembled from its parts. */
  lemma CallLabels(s: string, name: string, args: seq<Spanned>, p: nat, q: nat, span: Span)
    requires p <= |s| && RawIdent(s, p).Ok? && name == RawIdent(s, p).value
    requires q == SkipWhitespace(s, RawIdent(s, p).next)
    requires q < |s| && s[q] == '(' && Separated(s, args, q + 1) && EndOf(args, q + 1) < |s| && s[EndOf(args, q + 1)] == ')'
    requires forall i :: 0 <= i < |args| ==> Reads(s, args[i])
    requires span.end == SkipWhitespace(s, EndOf(args, q + 1) + 1)
    ensures NodeReads(s, Spanned(Call(name, args), span), p)
  {
    assert CallAt(s, name, args, p, span.end);
  }

  /** The padded identifier of a call is the raw identifier after the padding,
      and its own padding ends where the `(` is looked for. */
  lemma CallHead(s: string, pos: nat, name: string, p1: nat)
    requires pos <= |s| && Ident(s, pos) == Ok(name, p1)
    ensures var p := SkipWhitespace(s, pos);
      RawIdent(s, p).Ok? && name == RawIdent(s, p).value && SkipWhitespace(s, RawIdent(s, p).next) == p1
  {}

  lemma ArgumentsRead(s: string, args: seq<Spanned>, lo: nat, hi: nat)
    requires ArgumentsWithin(s, args, lo, hi)
    ensures forall i :: 0 <= i < |args| ==> Reads(s, args[i])
  {
    forall i | 0 <= i < |args| ensures Reads(s, args[i]) {
      assert ArgumentAt(s, args, i, lo, hi);
    }
  }

  /** Arguments read from `lo`, comma-separated, each a whole expression lying
      within `lo..hi` and reading the text at its place. */
  ghost predicate ArgumentsWithin(s: string, args: seq<Spanned>, lo: nat, hi: nat)
  {
    Separated(s, args, lo) && forall i :: 0 <= i < |args| ==> ArgumentAt(s, args, i, lo, hi)
  }

  /** The `i`th argument lies within `lo..hi`, is a whole expression and reads
      the text at its place. */
  ghost predicate ArgumentAt(s: string, args: seq<Spanned>, i: nat, lo: nat, hi: nat)
    requires i < |args|
  {
    lo <= args[i].span.start && args[i].span.end <= hi && Layered(args[i], 5) && Tiled(args[i]) &&
    Reads(s, args[i])
  }

  /** Where an argument list read from `pos` stops: after its last argument,
      or where it started if it is empty. */
  function EndOf(args: seq<Spanned>, pos: nat): nat
  {
    if args == [] then pos else args[|args| - 1].span.end
  }

  /** `expr.separated_by(just(","))`: zero or more expressions; a comma not followed
      by an expression is left unread. The list stops at its end only because
      there is no expression, or no comma and expression, to read there. */
  function Arguments(s: string, pos: nat): (args: seq<Spanned>)
    requires pos <= |s|
    ensures pos <= EndOf(args, pos) <= |s| && ArgumentsWithin(s, args, pos, EndOf(args, pos))
    ensures args == [] <==> Expression(s, pos).Fail?
    ensures args != [] ==> args[0] == Expression(s, pos).value
    ensures args != [] ==> var end := EndOf(args, pos);
      !(end < |s| && s[end] == ',' && Expression(s, end + 1).Ok?)
    decreases |s| - pos, 15
  {
    match Expression(s, pos)
    case Fail => []
    case Ok(first, p) =>
      ArgumentsExtend(s, [], pos, pos, first, p);
      MoreArguments(s, [first], pos)
  }

  /** The `, expr` repetitions after the arguments `acc`, which were read from `lo`;
      they stop before a comma no expression follows. */
  function MoreArguments(s: string, acc: seq<Spanned>, lo: nat): (args: seq<Spanned>)
    requires acc != [] && lo <= EndOf(acc, lo) <= |s| && ArgumentsWithin(s, acc, lo, EndOf(acc, lo))
    ensures acc <= args && EndOf(acc, lo) <= EndOf(args, lo) <= |s| && ArgumentsWithin(s, args, lo, EndOf(args, lo))
    ensures var end := EndOf(args, lo); !(end < |s| && s[end] == ',' && Expression(s, end + 1).Ok?)
    decreases |s| - EndOf(acc, lo), 0
  {
    var pos := EndOf(acc, lo);
    if pos < |s| && s[pos] == ',' then
      match Expression(s, pos + 1)
      case Fail => acc
      case Ok(e, p) =>
        ArgumentsExtend(s, acc, lo, pos + 1, e, p);
        var args := MoreArguments(s, acc + [e], lo);
        PrefixOfExtension(acc, e, args);
        args
    else acc
  }

  lemma PrefixOfExtension<T>(acc: seq<T>, e: T, args: seq<T>)
    requires acc + [e] <= args
    ensures acc <= args
  {
    assert args[..|acc|] == (acc + [e])[..|acc|];
  }

  /** An argument read at `start` extends the list: directly after a comma that
      follows the last argument, or at `lo` when the list is empty. */
  lemma ArgumentsExtend(s: string, acc: seq<Spanned>, lo: nat, start: nat, e: Spanned, p: nat)
    requires start >= 1 || acc == []
    requires ArgumentsWithin(s, acc, lo, if acc == [] then lo else start - 1)
    requires acc == [] ==> start == lo
    requires acc != [] ==> acc[|acc| - 1].span.end == start - 1 && start - 1 < |s| && s[start - 1] == ','
    requires lo <= start && e.span == Span(start, p) && start <= p && Layered(e, 5) && Tiled(e) && Reads(s, e)
    ensures ArgumentsWithin(s, acc + [e], lo, p) && EndOf(acc + [e], lo) == p
  {
    SeparatedExtend(s, acc, lo, e);
    forall i | 0 <= i < |acc + [e]| ensures ArgumentAt(s, acc + [e], i, lo, p) {
      if i < |acc| {
        ArgumentAtWiden(s, acc, e, i, lo, start - 1, p);
      } else {
        assert (acc + [e])[i] == e;
      }
    }
  }

  /** An argument of `acc` stays one of `acc + [e]`, within a wider bound. */
  lemma ArgumentAtWiden(s: string, acc: seq<Spanned>, e: Spanned, i: nat, lo: nat, hi: nat, hi': nat)
    requires i < |acc| && hi <= hi'
    requires forall j :: 0 <= j < |acc| ==> ArgumentAt(s, acc, j, lo, hi)
    ensures ArgumentAt(s, acc + [e], i, lo, hi')
  {
    assert ArgumentAt(s, acc, i, lo, hi);
    assert (acc + [e])[i] == acc[i];
  }

  /** Separation survives appending an argument that starts just after a comma
      following the last one. */
  lemma SeparatedExtend(s: string, acc: seq<Spanned>, lo: nat, e: Spanned)
    requires Separated(s, acc, lo)
    requires acc == [] ==> e.span.start == lo
    requires acc != [] ==> var end := acc[|acc| - 1].span.end;
      end < |s| && s[end] == ',' && e.span.start == end + 1
    ensures Separated(s, acc + [e], lo)
  {
    var args := acc + [e];
    assert args[0] == if acc == [] then e else acc[0];
    forall i | 0 <= i < |args| - 1 ensures CommaAfter(s, args, i) {
      if i + 1 < |acc| {
        assert CommaAfter(s, acc, i);
        assert args[i] == acc[i] && args[i + 1] == acc[i + 1];
      } else {
        assert args[i] == acc[|acc| - 1] && args[i + 1] == e;
      }
    }
  }

  /** `atom`: number, call, group and variable reference, tried in that order. It
      succeeds exactly when a digit or an identifier follows the padding, or a
      group can be read there. */
  function Atom(s: string, pos: nat): (r: Parsed<Spanned>)
    requires pos <= |s|
    ensures r.Ok? <==> var p := SkipWhitespace(s, pos);
      (p < |s| && (IsDigit(s[p]) || IsIdentStart(s[p]))) || GroupAtom(s, pos).Ok?
    ensures r.Ok? ==> pos < r.next <= |s| && r.value.span == Span(pos, r.next)
    ensures r.Ok? ==> Layered(r.value, 0) && Tiled(r.value) && Reads(s, r.value)
    decreases |s| - pos, 1
  {
    var number := NumberAtom(s, pos);
    if number.Ok? then number else
    var call := CallAtom(s, pos);
    if call.Ok? then call else
    var group := GroupAtom(s, pos);
    if group.Ok? then group else
    VariableAtom(s, pos)
  }

  /** `op('-').to(Negate).or(op('!').to(Not))`: the operator whose character
      follows the padding, and where reading goes on after it and its padding. */
  function PrefixOperator(s: string, pos: nat): (r: Option<(UnaryOperation, nat)>)
    requires pos <= |s|
    ensures r.None? <==> var p := SkipWhitespace(s, pos); !(p < |s| && s[p] in {'-', '!'})
    ensures r.Some? ==> var p := SkipWhitespace(s, pos);
      p < |s| && s[p] == UnarySymbol(r.value.0) && r.value.1 == SkipWhitespace(s, p + 1) && pos < r.value.1
  {
    match Token(s, pos, '-')
    case Some(p) => Some((Negate, p))
    case None =>
      match Token(s, pos, '!')
      case Some(p) => Some((Not, p))
      case None => None
  }

  /** The operator alternatives of binary level `k`, tried in the source's order;
      at level 4 the two-character comparisons come before `<` and `>`. An
      operator is read exactly when the symbol of one of the level's operators
      follows. */
  function BinaryOperator(s: string, pos: nat, k: nat): (r: Option<(BinaryOperation, nat)>)
    requires pos <= |s| && 1 <= k <= 5
    ensures r.Some? ==> pos < r.value.1 <= |s| && Precedence(r.value.0) == k
    ensures r.Some? ==> SymbolAt(s, pos, r.value.0) && r.value.1 == AfterSymbol(s, pos, r.value.0)
    ensures r.None? ==> forall op :: Precedence(op) == k ==> !SymbolAt(s, pos, op)
  {
    var candidates :=
      if k == 1 then [Exponent]
      else if k == 2 then [Multiply, Divide, Modulo]
      else if k == 3 then [Add, Subtract]
      else if k == 4 then [LessThanOrEqual, GreaterThanOrEqual, Equal, LessThan, GreaterThan]
      else [And, Or];
    assert forall op :: Precedence(op) == k ==> op in candidates;
    FirstOperator(s, pos, candidates)
  }

  /** The first of `candidates` whose symbol comes next, padded: no candidate
      before it is spelled there, and none at all when there is no result. */
  function FirstOperator(s: string, pos: nat, candidates: seq<BinaryOperation>): (r: Option<(BinaryOperation, nat)>)
    requires pos <= |s|
    ensures r.Some? ==> pos < r.value.1 <= |s| && r.value.0 in candidates
    ensures r.Some? ==> SymbolAt(s, pos, r.value.0) && r.value.1 == AfterSymbol(s, pos, r.value.0)
    ensures r.Some? ==> exists i :: (0 <= i < |candidates| && candidates[i] == r.value.0 &&
      forall j :: 0 <= j < i ==> !SymbolAt(s, pos, candidates[j]))
    ensures r.None? ==> forall i :: 0 <= i < |candidates| ==> !SymbolAt(s, pos, candidates[i])
  {
    if candidates == [] then None
    else
      var op := candidates[0];
      var sym := Symbol(op);
      var t := if |sym| == 1 then Token(s, pos, sym[0]) else Token2(s, pos, sym[0], sym[1]);
      match t
      case Some(p) => Some((op, p))
      case None =>
        var rest := FirstOperator(s, pos, candidates[1..]);
        FirstShift(s, pos, candidates, rest);
        rest
  }

  /** A result that is first among `candidates[1..]` is first among `candidates`
      when `candidates[0]` is not spelled next. */
  lemma FirstShift(s: string, pos: nat, candidates: seq<BinaryOperation>, rest: Option<(BinaryOperation, nat)>)
    requires pos <= |s| && candidates != [] && !SymbolAt(s, pos, candidates[0])
    requires rest.Some? ==> exists i :: (0 <= i < |candidates[1..]| && candidates[1..][i] == rest.value.0 &&
      forall j :: 0 <= j < i ==> !SymbolAt(s, pos, candidates[1..][j]))
    requires rest.None? ==> forall i :: 0 <= i < |candidates[1..]| ==> !SymbolAt(s, pos, candidates[1..][i])
    ensures rest.Some? ==> exists i :: (0 <= i < |candidates| && candidates[i] == rest.value.0 &&
      forall j :: 0 <= j < i ==> !SymbolAt(s, pos, candidates[j]))
    ensures rest.None? ==> forall i :: 0 <= i < |candidates| ==> !SymbolAt(s, pos, candidates[i])
  {
    if rest.Some? {
      var i :| 0 <= i < |candidates[1..]| && candidates[1..][i] == rest.value.0 &&
        forall j :: 0 <= j < i ==> !SymbolAt(s, pos, candidates[1..][j]);
      assert candidates[i + 1] == rest.value.0;
      forall j | 0 <= j < i + 1 ensures !SymbolAt(s, pos, candidates[j]) {
        if j > 0 { assert candidates[j] == candidates[1..][j - 1]; }
      }
    } else {
      forall i | 0 <= i < |candidates| ensures !SymbolAt(s, pos, candidates[i]) {
        if i > 0 { assert candidates[i] == candidates[1..][i - 1]; }
      }
    }
  }

  /** Level `k` of the expression grammar: `unary` at level 0 and, at levels 1
      to 5, `binary_first`, `binary_second`, `binary_third`, `logical_first` and
      `logical_last`. */
  function Level(s: string, pos: nat, k: nat): (r: Parsed<Spanned>)
    requires pos <= |s| && k <= 5
    ensures r.Ok? ==> pos < r.next <= |s| && r.value.span == Span(pos, r.next)
    ensures r.Ok? ==> Layered(r.value, k) && Tiled(r.value) && Reads(s, r.value)
    decreases |s| - pos, 2 * k + 3
  {
    if k == 0 then Unary(s, pos) else BinaryLevel(s, pos, k)
  }

  /** `unary`: prefix operators folded to the right over an atom. */
  function Unary(s: string, pos: nat): (r: Parsed<Spanned>)
    requires pos <= |s|
    ensures r.Ok? ==> pos < r.next <= |s| && r.value.span == Span(pos, r.next)
    ensures r.Ok? ==> Layered(r.value, 0) && Tiled(r.value) && Reads(s, r.value)
    decreases |s| - pos, 2
  {
    match PrefixOperator(s, pos)
    case Some((op, p)) =>
      (match Level(s, p, 0)
       case Fail => Fail
       case Ok(operand, q) => Ok(Spanned(UnaryExpression(op, operand), Span(pos, q)), q))
    case None => Atom(s, pos)
  }

  /** Binary level `k`: an operand of the next tighter level, then any number of
      (operator, operand) pairs folded to the left. */
  function BinaryLevel(s: string, pos: nat, k: nat): (r: Parsed<Spanned>)
    requires pos <= |s| && 1 <= k <= 5
    ensures r.Ok? ==> pos < r.next <= |s| && r.value.span == Span(pos, r.next)
    ensures r.Ok? ==> Layered(r.value, k) && Tiled(r.value) && Reads(s, r.value)
    decreases |s| - pos, 2 * k + 2
  {
    match Level(s, pos, k - 1)
    case Fail => Fail
    case Ok(left, p) =>
      LayeredUp(left, k - 1, k);
      var (e, q) := FoldTail(s, p, k, left);
      Ok(e, q)
  }

  /** The repeated (operator, operand) pairs of level `k`, folded left onto `acc`:
      each pair makes a node spanning from the start of `acc` to the end of the
      pair. A pair whose operand does not parse is left unread, and the folding
      stops only there or where no operator of the level follows. */
  function FoldTail(s: string, pos: nat, k: nat, acc: Spanned): (r: (Spanned, nat))
    requires pos <= |s| && 1 <= k <= 5
    requires acc.span.end == pos && Layered(acc, k) && Tiled(acc) && Reads(s, acc)
    ensures pos <= r.1 <= |s| && r.0.span == Span(acc.span.start, r.1)
    ensures Layered(r.0, k) && Tiled(r.0) && Reads(s, r.0)
    ensures BinaryOperator(s, r.1, k).Some? ==> Level(s, BinaryOperator(s, r.1, k).value.1, k - 1).Fail?
    decreases |s| - pos, 0
  {
    match BinaryOperator(s, pos, k)
    case None => (acc, pos)
    case Some((op, p)) =>
      match Level(s, p, k - 1)
      case Fail => (acc, pos)
      case Ok(right, q) =>
        var e := Spanned(BinaryExpression(acc, op, right), Span(acc.span.start, q));
        FoldNode(s, pos, k, acc, op, right);
        FoldTail(s, q, k, e)
  }

  /** An operator of level `k` read after `acc`, and a right operand read after
      it, make a binary node at level `k` that reads the text from `acc`'s start
      to the operand's end. */
  lemma FoldNode(s: string, pos: nat, k: nat, acc: Spanned, op: BinaryOperation, right: Spanned)
    requires pos <= |s| && 1 <= k <= 5 && Precedence(op) == k
    requires acc.span.end == pos && Layered(acc, k) && Tiled(acc) && Reads(s, acc)
    requires SymbolAt(s, pos, op) && right.span.start == AfterSymbol(s, pos, op) && pos < right.span.start
    requires Layered(right, k - 1) && Tiled(right) && Reads(s, right)
    ensures var e := Spanned(BinaryExpression(acc, op, right), Span(acc.span.start, right.span.end));
      Layered(e, k) && Tiled(e) && Reads(s, e)
  {}

  /** `expr`, the whole `recursive` definition: the loosest level. */
  function Expression(s: string, pos: nat): (r: Parsed<Spanned>)
    requires pos <= |s|
    ensures r.Ok? ==> pos < r.next <= |s| && r.value.span == Span(pos, r.next)
    ensures r.Ok? ==> Layered(r.value, 5) && Tiled(r.value) && Reads(s, r.value)
    decreases |s| - pos, 14
  {
    Level(s, pos, 5)
  }

  /** `e` is exactly what `Expression` reads at `e`'s start. */
  ghost predicate ExpressionAt(s: string, e: Spanned)
  {
    e.span.start <= |s| && Expression(s, e.span.start) == Ok(e, e.span.end)
  }

  /** Every argument of a list is the expression `Expression` reads at that
      argument's start, up to that argument's end. */
  lemma ArgumentsAreExpressions(s: string, pos: nat)
    requires pos <= |s|
    ensures var args := Arguments(s, pos); forall i :: 0 <= i < |args| ==> ExpressionAt(s, args[i])
  {
    match Expression(s, pos)
    case Fail =>
    case Ok(first, p) =>
      ArgumentsExtend(s, [], pos, pos, first, p);
      assert ExpressionAt(s, [first][0]);
      MoreArgumentsAreExpressions(s, [first], pos);
      assert Arguments(s, pos) == MoreArguments(s, [first], pos);
  }

  lemma {:induction false} MoreArgumentsAreExpressions(s: string, acc: seq<Spanned>, lo: nat)
    requires acc != [] && lo <= EndOf(acc, lo) <= |s| && ArgumentsWithin(s, acc, lo, EndOf(acc, lo))
    requires forall i :: 0 <= i < |acc| ==> ExpressionAt(s, acc[i])
    ensures var args := MoreArguments(s, acc, lo); forall i :: 0 <= i < |args| ==> ExpressionAt(s, args[i])
    decreases |s| - EndOf(acc, lo)
  {
    var pos := EndOf(acc, lo);
    var next := if pos < |s| && s[pos] == ',' then Expression(s, pos + 1) else Fail;
    if next.Ok? {
      ArgumentsExtend(s, acc, lo, pos + 1, next.value, next.next);
      ExpressionsSnoc(s, acc, next.value);
      MoreArgumentsAreExpressions(s, acc + [next.value], lo);
      assert MoreArguments(s, acc, lo) == MoreArguments(s, acc + [next.value], lo);
    } else {
      assert MoreArguments(s, acc, lo) == acc;
    }
  }

  lemma ExpressionsSnoc(s: string, acc: seq<Spanned>, e: Spanned)
    requires forall i :: 0 <= i < |acc| ==> ExpressionAt(s, acc[i])
    requires ExpressionAt(s, e)
    ensures forall i :: 0 <= i < |acc + [e]| ==> ExpressionAt(s, (acc + [e])[i])
  {
    forall i | 0 <= i < |acc + [e]| ensures ExpressionAt(s, (acc + [e])[i]) {
      if i < |acc| { assert (acc + [e])[i] == acc[i]; }
    }
  }

  /** The position after the prefix operators read from `pos`, each with its padding. */
  function PrefixEnd(s: string, pos: nat): (r: nat)
    requires pos <= |s|
    ensures pos <= r <= |s| && PrefixOperator(s, r).None?
    ensures forall i :: pos <= i < r ==> IsWhitespace(s[i]) || s[i] in {'-', '!'}
    decreases |s| - pos
  {
    match PrefixOperator(s, pos)
    case Some((_, q)) => PrefixEnd(s, q)
    case None => pos
  }

  /** `unary` succeeds exactly when an atom follows its prefix operators. With
      no prefix operator it is the atom; otherwise it is the operator applied
      to the `unary` read after it. */
  lemma {:induction false} UnarySucceeds(s: string, pos: nat)
    requires pos <= |s|
    ensures Unary(s, pos).Ok? <==> Atom(s, PrefixEnd(s, pos)).Ok?
    ensures PrefixOperator(s, pos).None? ==> Unary(s, pos) == Atom(s, pos)
    ensures PrefixOperator(s, pos).Some? ==> var (op, q) := PrefixOperator(s, pos).value;
      (Unary(s, pos).Ok? <==> Unary(s, q).Ok?) &&
      (Unary(s, q).Ok? ==>
        Unary(s, pos) == Ok(Spanned(UnaryExpression(op, Unary(s, q).value), Span(pos, Unary(s, q).next)), Unary(s, q).next))
    decreases |s| - pos
  {
    match PrefixOperator(s, pos)
    case Some((_, q)) => UnarySucceeds(s, q);
    case None =>
  }

  /** Every level succeeds exactly where `unary` does: a binary level fails only
      when its first operand does. */
  lemma {:induction false} LevelSucceeds(s: string, pos: nat, k: nat)
    requires pos <= |s| && k <= 5
    ensures Level(s, pos, k).Ok? <==> Unary(s, pos).Ok?
    decreases k
  {
    if k > 0 {
      LevelSucceeds(s, pos, k - 1);
    }
  }

  /** An expression can be read exactly where an atom follows the prefix operators. */
  lemma ExpressionSucceeds(s: string, pos: nat)
    requires pos <= |s|
    ensures Expression(s, pos).Ok? <==> Atom(s, PrefixEnd(s, pos)).Ok?
  {
    LevelSucceeds(s, pos, 5);
    UnarySucceeds(s, pos);
  }

  /** Binary level `k` cannot be extended at `q`: no operator of the level
      follows, or no operand of the next tighter level follows the operator. */
  ghost predicate StopsAt(s: string, q: nat, k: nat)
    requires q <= |s| && 1 <= k <= 5
  {
    BinaryOperator(s, q, k).Some? ==> Level(s, BinaryOperator(s, q, k).value.1, k - 1).Fail?
  }

  /** No binary level from 1 up to `k` can be extended at `q`. */
  ghost predicate StopsBelow(s: string, q: nat, k: nat)
    requires q <= |s| && k <= 5
  {
    k == 0 || (StopsAt(s, q, k) && StopsBelow(s, q, k - 1))
  }

  lemma {:induction false} StopsBelowAll(s: string, q: nat, k: nat)
    requires q <= |s| && k <= 5 && StopsBelow(s, q, k)
    ensures forall j :: 1 <= j <= k ==> StopsAt(s, q, j)
  {
    if k > 0 {
      StopsBelowAll(s, q, k - 1);
    }
  }

  /** A level reads as far as it can: where it stops, none of its binary levels
      could read one more operator and operand. */
  lemma {:induction false} LevelStops(s: string, pos: nat, k: nat)
    requires pos <= |s| && k <= 5
    ensures Level(s, pos, k).Ok? ==> StopsBelow(s, Level(s, pos, k).next, k)
    decreases |s| - pos, k, 4
  {
    if k == 0 {
      assert Level(s, pos, k).Ok? ==> StopsBelow(s, Level(s, pos, k).next, 0);
    } else if Level(s, pos, k - 1).Ok? {
      BinaryStops(s, pos, k);
    } else {
      assert Level(s, pos, k) == BinaryLevel(s, pos, k);
    }
  }

  /** Binary level `k` over the first operand read by the level below it. */
  lemma {:induction false} BinaryStops(s: string, pos: nat, k: nat)
    requires pos <= |s| && 1 <= k <= 5 && Level(s, pos, k - 1).Ok?
    ensures Level(s, pos, k).Ok? && StopsBelow(s, Level(s, pos, k).next, k)
    decreases |s| - pos, k, 3
  {
    LevelStops(s, pos, k - 1);
    BinaryUnfold(s, pos, k, Level(s, pos, k - 1).value, Level(s, pos, k - 1).next);
    FoldTailStops(s, Level(s, pos, k - 1).next, k, Level(s, pos, k - 1).value);
  }

  /** Binary level `k` is its first operand folded with the rest of the level. */
  lemma BinaryUnfold(s: string, pos: nat, k: nat, left: Spanned, p: nat)
    requires pos <= |s| && 1 <= k <= 5
    requires Level(s, pos, k - 1) == Ok(left, p)
    ensures p <= |s| && left.span.end == p && Layered(left, k) && Tiled(left) && Reads(s, left)
    ensures Level(s, pos, k) == Ok(FoldTail(s, p, k, left).0, FoldTail(s, p, k, left).1)
  {
    LayeredUp(left, k - 1, k);
  }

  lemma {:induction false} FoldTailStops(s: string, pos: nat, k: nat, acc: Spanned)
    requires pos <= |s| && 1 <= k <= 5
    requires acc.span.end == pos && Layered(acc, k) && Tiled(acc) && Reads(s, acc)
    requires StopsBelow(s, pos, k - 1)
    ensures StopsBelow(s, FoldTail(s, pos, k, acc).1, k)
    decreases |s| - pos, k, 2
  {
    var b := BinaryOperator(s, pos, k);
    if b.Some? && Level(s, b.value.1, k - 1).Ok? {
      FoldStepStops(s, pos, k, acc, b.value.0, b.value.1);
    } else {
      assert FoldTail(s, pos, k, acc) == (acc, pos);
    }
  }

  /** One more operator and operand folded onto `acc`, then the rest of the fold. */
  lemma {:induction false} FoldStepStops(s: string, pos: nat, k: nat, acc: Spanned, op: BinaryOperation, p: nat)
    requires pos <= |s| && 1 <= k <= 5
    requires acc.span.end == pos && Layered(acc, k) && Tiled(acc) && Reads(s, acc)
    requires BinaryOperator(s, pos, k) == Some((op, p)) && Level(s, p, k - 1).Ok?
    ensures StopsBelow(s, FoldTail(s, pos, k, acc).1, k)
    decreases |s| - pos, k, 1
  {
    var right := Level(s, p, k - 1);
    assert StopsBelow(s, right.next, k - 1) by { LevelStops(s, p, k - 1); }
    FoldRightStops(s, pos, k, acc, op, p, right.value, right.next);
  }

  lemma {:induction false} FoldRightStops(s: string, pos: nat, k: nat, acc: Spanned, op: BinaryOperation, p: nat, right: Spanned, q: nat)
    requires pos <= |s| && 1 <= k <= 5
    requires acc.span.end == pos && Layered(acc, k) && Tiled(acc) && Reads(s, acc)
    requires BinaryOperator(s, pos, k) == Some((op, p)) && Level(s, p, k - 1) == Ok(right, q)
    requires StopsBelow(s, q, k - 1)
    ensures StopsBelow(s, FoldTail(s, pos, k, acc).1, k)
    decreases |s| - pos, k, 0
  {
    FoldTailStep(s, pos, k, acc, op, p, right, q);
    FoldTailStops(s, q, k, Spanned(BinaryExpression(acc, op, right), Span(acc.span.start, q)));
  }

  /** `FoldTail` after reading one operator and operand is `FoldTail` on the node they make. */
  lemma FoldTailStep(s: string, pos: nat, k: nat, acc: Spanned, op: BinaryOperation, p: nat, right: Spanned, q: nat)
    requires pos <= |s| && 1 <= k <= 5
    requires acc.span.end == pos && Layered(acc, k) && Tiled(acc) && Reads(s, acc)
    requires BinaryOperator(s, pos, k) == Some((op, p)) && Level(s, p, k - 1) == Ok(right, q)
    ensures var e := Spanned(BinaryExpression(acc, op, right), Span(acc.span.start, q));
      q <= |s| && Layered(e, k) && Tiled(e) && Reads(s, e) && FoldTail(s, pos, k, acc) == FoldTail(s, q, k, e)
  {
    FoldNode(s, pos, k, acc, op, right);
    FoldTailUnfold(s, pos, k, acc, op, p, right, q, Spanned(BinaryExpression(acc, op, right), Span(acc.span.start, q)));
  }

  lemma FoldTailUnfold(s: string, pos: nat, k: nat, acc: Spanned, op: BinaryOperation, p: nat, right: Spanned, q: nat, e: Spanned)
    requires pos <= |s| && 1 <= k <= 5
    requires acc.span.end == pos && Layered(acc, k) && Tiled(acc) && Reads(s, acc)
    requires BinaryOperator(s, pos, k) == Some((op, p)) && Level(s, p, k - 1) == Ok(right, q)
    requires e == Spanned(BinaryExpression(acc, op, right), Span(acc.span.start, q))
    requires q <= |s| && e.span.end == q && Layered(e, k) && Tiled(e) && Reads(s, e)
    ensures FoldTail(s, pos, k, acc) == FoldTail(s, q, k, e)
  {}

  /** `BinaryLevel` succeeds exactly when its first operand does, and stops only
      where its own level can read no further. */
  lemma BinaryLevelStops(s: string, pos: nat, k: nat)
    requires pos <= |s| && 1 <= k <= 5
    ensures BinaryLevel(s, pos, k).Ok? <==> Level(s, pos, k - 1).Ok?
    ensures BinaryLevel(s, pos, k).Ok? ==> forall j :: 1 <= j <= k ==> StopsAt(s, BinaryLevel(s, pos, k).next, j)
  {
    LevelStops(s, pos, k);
    assert Level(s, pos, k) == BinaryLevel(s, pos, k);
    if BinaryLevel(s, pos, k).Ok? {
      StopsBelowAll(s, BinaryLevel(s, pos, k).next, k);
    }
  }

  /** A whole expression reads as far as it can: where it stops, no binary
      level could read one more operator and operand. */
  lemma ExpressionStops(s: string, pos: nat)
    requires pos <= |s|
    ensures Expression(s, pos).Ok? ==> forall j :: 1 <= j <= 5 ==> StopsAt(s, Expression(s, pos).next, j)
  {
    LevelStops(s, pos, 5);
    assert Expression(s, pos) == Level(s, pos, 5);
    if Expression(s, pos).Ok? {
      StopsBelowAll(s, Expression(s, pos).next, 5);
    }
  }
}
