/** Properties of the expression grammar of src/expressions/parser.rs that
    relate several of its functions: the shape of every tree it builds, the
    choice between one- and two-character comparisons, the literal form, and
    programs that contain no statement. */
module ParserProperties {
  import opened Syntax
  import opened Lexer
  import opened Grammar
  import opened Program

  /** The tree shape of left-associative precedence climbing, stated node by
      node: a binary node's left operand is never a looser binary node and its
      right operand never a binary node of the same or a looser level (so a
      chain of one level folds to the left), and a prefix operator's operand is
      never a binary node (prefix operators bind tightest). */
  ghost predicate FoldsLeft(e: Spanned)
    decreases e
  {
    match e.expr
    case Number(_) => true
    case Variable(_) => true
    case Group(x) => FoldsLeft(x)
    case UnaryExpression(_, x) => !x.expr.BinaryExpression? && FoldsLeft(x)
    case BinaryExpression(l, op, r) =>
      (l.expr.BinaryExpression? ==> Precedence(l.expr.op) <= Precedence(op)) &&
      (r.expr.BinaryExpression? ==> Precedence(r.expr.op) < Precedence(op)) &&
      FoldsLeft(l) && FoldsLeft(r)
    case Call(_, args) => forall i :: 0 <= i < |args| ==> FoldsLeft(args[i])
  }

  /** The level a tree can stand at: that of its operator if it is a binary node. */
  function TopLevel(e: Spanned): nat
  {
    if e.expr.BinaryExpression? then Precedence(e.expr.op) else 0
  }

  /** The grammar's layering and the node-by-node shape describe the same trees. */
  lemma {:induction false} LayeredIffFoldsLeft(e: Spanned, k: nat)
    ensures Layered(e, k) <==> FoldsLeft(e) && TopLevel(e) <= k
    decreases e
  {
    match e.expr
    case Number(_) =>
    case Variable(_) =>
    case Group(x) =>
      LayeredIffFoldsLeft(x, 5);
    case UnaryExpression(_, x) =>
      LayeredIffFoldsLeft(x, 0);
    case BinaryExpression(l, op, r) =>
      LayeredIffFoldsLeft(l, Precedence(op));
      LayeredIffFoldsLeft(r, Precedence(op) - 1);
    case Call(_, args) =>
      forall i | 0 <= i < |args| ensures Layered(args[i], 5) <==> FoldsLeft(args[i]) {
        LayeredIffFoldsLeft(args[i], 5);
      }
  }

  /** Every expression the grammar reads folds to the left at every binary
      level, respects the precedence order, and has its prefix operators
      innermost; its spans nest in source order, and every label in it is what
      the text says at that node's place. */
  lemma ExpressionFoldsLeft(s: string, pos: nat)
    requires pos <= |s|
    ensures Expression(s, pos).Ok? ==>
      FoldsLeft(Expression(s, pos).value) && Tiled(Expression(s, pos).value) && Reads(s, Expression(s, pos).value)
  {
    if Expression(s, pos).Ok? {
      LayeredIffFoldsLeft(Expression(s, pos).value, 5);
    }
  }

  /** The comparison level tries `<=`, `>=`, `==`, `<` and `>` in that order. */
  lemma ComparisonOrder(s: string, pos: nat)
    requires pos <= |s|
    ensures BinaryOperator(s, pos, 4) ==
      if Token2(s, pos, '<', '=').Some? then Some((LessThanOrEqual, Token2(s, pos, '<', '=').value))
      else if Token2(s, pos, '>', '=').Some? then Some((GreaterThanOrEqual, Token2(s, pos, '>', '=').value))
      else if Token2(s, pos, '=', '=').Some? then Some((Equal, Token2(s, pos, '=', '=').value))
      else if Token(s, pos, '<').Some? then Some((LessThan, Token(s, pos, '<').value))
      else if Token(s, pos, '>').Some? then Some((GreaterThan, Token(s, pos, '>').value))
      else None
  {
    var c0 := [LessThanOrEqual, GreaterThanOrEqual, Equal, LessThan, GreaterThan];
    var c1 := [GreaterThanOrEqual, Equal, LessThan, GreaterThan];
    assert c0[1..] == c1 && c1[1..] == [Equal, LessThan, GreaterThan];
    assert Symbol(LessThanOrEqual) == "<=" && Symbol(GreaterThanOrEqual) == ">=";
    ComparisonOrderTail(s, pos);
    var f1 := if Token2(s, pos, '>', '=').Some? then Some((GreaterThanOrEqual, Token2(s, pos, '>', '=').value))
              else FirstOperator(s, pos, [Equal, LessThan, GreaterThan]);
    assert FirstOperator(s, pos, c1) == f1;
    assert FirstOperator(s, pos, c0) == if Token2(s, pos, '<', '=').Some? then Some((LessThanOrEqual, Token2(s, pos, '<', '=').value)) else f1;
    assert BinaryOperator(s, pos, 4) == FirstOperator(s, pos, c0);
  }

  /** The last three comparison alternatives: `==`, then `<`, then `>`. */
  lemma ComparisonOrderTail(s: string, pos: nat)
    requires pos <= |s|
    ensures FirstOperator(s, pos, [Equal, LessThan, GreaterThan]) ==
      if Token2(s, pos, '=', '=').Some? then Some((Equal, Token2(s, pos, '=', '=').value))
      else if Token(s, pos, '<').Some? then Some((LessThan, Token(s, pos, '<').value))
      else if Token(s, pos, '>').Some? then Some((GreaterThan, Token(s, pos, '>').value))
      else None
  {
    var c2 := [Equal, LessThan, GreaterThan];
    var c3 := [LessThan, GreaterThan];
    var c4 := [GreaterThan];
    assert c2[1..] == c3 && c3[1..] == c4 && c4[1..] == [];
    assert Symbol(Equal) == "==" && Symbol(LessThan) == "<" && Symbol(GreaterThan) == ">";
    var f4 := if Token(s, pos, '>').Some? then Some((GreaterThan, Token(s, pos, '>').value)) else None;
    assert FirstOperator(s, pos, c4) == f4;
    var f3 := if Token(s, pos, '<').Some? then Some((LessThan, Token(s, pos, '<').value)) else f4;
    assert FirstOperator(s, pos, c3) == f3;
  }

  /** `<=` is read as one operator, never as `<` followed by `=`; and `<` is
      read only when no `=` follows it. Likewise for `>=` and `>`. */
  lemma ComparisonMaximalMunch(s: string, pos: nat)
    requires pos <= |s|
    ensures var p := SkipWhitespace(s, pos);
      (p + 1 < |s| && s[p] == '<' && s[p + 1] == '=' ==>
         BinaryOperator(s, pos, 4) == Some((LessThanOrEqual, SkipWhitespace(s, p + 2)))) &&
      (p + 1 < |s| && s[p] == '>' && s[p + 1] == '=' ==>
         BinaryOperator(s, pos, 4) == Some((GreaterThanOrEqual, SkipWhitespace(s, p + 2)))) &&
      (BinaryOperator(s, pos, 4).Some? && BinaryOperator(s, pos, 4).value.0 in {LessThan, GreaterThan} ==>
         !(p + 1 < |s| && s[p + 1] == '='))
  {
    ComparisonOrder(s, pos);
  }

  /** Atoms are tried in the order number, call, group, variable: an identifier
      followed by a parenthesised argument list is read as a call, never as a
      variable reference, and a digit always starts a number. */
  lemma AtomOrder(s: string, pos: nat)
    requires pos <= |s|
    ensures NumberAtom(s, pos).Ok? ==> Atom(s, pos) == NumberAtom(s, pos)
    ensures CallAtom(s, pos).Ok? ==> Atom(s, pos) == CallAtom(s, pos) && Atom(s, pos).value.expr.Call?
  {
    if CallAtom(s, pos).Ok? {
      var p := SkipWhitespace(s, pos);
      assert RawIdent(s, p).Ok?;
      assert !IsDigit(s[p]);
    }
  }

  /** Level `k` fails wherever the next character starts no atom and no prefix operator. */
  lemma {:induction false} LevelNeedsAtom(s: string, pos: nat, k: nat)
    requires pos <= |s| && k <= 5
    requires var p := SkipWhitespace(s, pos);
      p < |s| && !IsDigit(s[p]) && !IsIdentStart(s[p]) && s[p] !in {'(', '-', '!'}
    ensures Level(s, pos, k).Fail?
    decreases k
  {
    if k > 0 {
      LevelNeedsAtom(s, pos, k - 1);
    } else {
      UnaryNeedsAtom(s, pos);
    }
  }

  lemma UnaryNeedsAtom(s: string, pos: nat)
    requires pos <= |s|
    requires var p := SkipWhitespace(s, pos);
      p < |s| && !IsDigit(s[p]) && !IsIdentStart(s[p]) && s[p] !in {'(', '-', '!'}
    ensures Level(s, pos, 0).Fail?
  {
    assert PrefixOperator(s, pos).None?;
    assert GroupAtom(s, pos).Fail?;
  }

  /** A number literal starts with a digit: `.5` is not an expression. */
  lemma NoLeadingDot(s: string, pos: nat)
    requires pos <= |s| && SkipWhitespace(s, pos) < |s| && s[SkipWhitespace(s, pos)] == '.'
    ensures Expression(s, pos).Fail?
  {
    LevelNeedsAtom(s, pos, 5);
  }

  /** The grammar accepts a program with no statement only when the text is
      empty: text made only of whitespace and comments is rejected. */
  lemma EmptyProgramOnlyForEmptyText(s: string)
    ensures Parse(s) == Accepted([]) <==> s == []
  {
    var (program, p) := Items(s, 0);
    if s == [] {
      assert Statement(s, 0).Fail?;
    } else if program == [] {
      assert Item(s, 0).Fail?;
    }
  }

  /** Every statement ends with `;`, so a non-empty text without one is rejected. */
  lemma WithoutSemicolonRejected(s: string)
    requires s != [] && ';' !in s
    ensures Parse(s).Rejected?
  {
    var (program, p) := Items(s, 0);
    SemicolonClosesStatements(s, program, 0, p);
    assert program == [];
    EmptyProgramOnlyForEmptyText(s);
  }

  /** A non-empty list of statements holds a `;`. */
  lemma SemicolonClosesStatements(s: string, program: seq<Assignment>, lo: nat, hi: nat)
    requires StatementsWithin(s, program, lo, hi)
    ensures program != [] ==> ';' in s
  {
    if program != [] {
      assert StatementIn(s, program[0], lo, hi);
      assert s[program[0].span.end - 1] == ';';
    }
  }

  /** The indentation around the comment of a new project's text. */
  const DefaultIndent: string := "                "

  /** The text a new project starts with: a comment between blank lines. */
  const DefaultProjectText: string := " \n" + DefaultIndent + "# This is some test content.\n" + DefaultIndent

  /** A new project's text is rejected: it holds no statement. */
  lemma DefaultProjectTextRejected()
    ensures Parse(DefaultProjectText).Rejected?
  {
    assert ';' !in DefaultIndent && ';' !in "# This is some test content.\n";
    WithoutSemicolonRejected(DefaultProjectText);
  }
}
