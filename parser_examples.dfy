/** Two programs of src/expressions/parser.rs worked through the grammar: a
    chain of `^` folds to the left, and `*` binds tighter than `+`. Each step
    lemma reads one token of a text given only by its characters. */
module ParserExamples {
  import opened Syntax
  import opened Lexer
  import opened Grammar
  import opened Program

  /** A number literal node covering `lo..hi`. */
  function Num(v: real, lo: nat, hi: nat): (e: Spanned)
    ensures e.expr.Number? && e.expr.value == v && e.span == Span(lo, hi)
  {
    Spanned(Number(v), Span(lo, hi))
  }

  /** A binary node over `l` and `r`, covering both. */
  function Bin(l: Spanned, op: BinaryOperation, r: Spanned): (e: Spanned)
    ensures e.expr.BinaryExpression? && e.expr.left == l && e.expr.op == op && e.expr.right == r
    ensures e.span == Span(l.span.start, r.span.end)
  {
    Spanned(BinaryExpression(l, op, r), Span(l.span.start, r.span.end))
  }

  lemma SkipNone(s: string, p: nat)
    requires p <= |s| && (p == |s| || !IsWhitespace(s[p]))
    ensures SkipWhitespace(s, p) == p
  {}

  lemma SkipOne(s: string, p: nat)
    requires p < |s| && IsWhitespace(s[p]) && (p + 1 == |s| || !IsWhitespace(s[p + 1]))
    ensures SkipWhitespace(s, p) == p + 1
  {
    SkipNone(s, p + 1);
  }

  /** A one-character identifier after the padding at `pos`. */
  lemma LetterIdent(s: string, pos: nat, p: nat, q: nat)
    requires pos <= p < |s| && SkipWhitespace(s, pos) == p && IsIdentStart(s[p])
    requires p + 1 == |s| || (!IsIdentContinue(s[p + 1]) && s[p + 1] != '\'')
    requires SkipWhitespace(s, p + 1) == q
    ensures Ident(s, pos) == Ok([s[p]], q)
  {
    assert IdentRun(s, p + 1) == p + 1;
    assert s[p..p + 1] == [s[p]];
  }

  /** A one-digit number after the padding at `pos` is level 0, up to the padding after it. */
  lemma DigitLevel(s: string, pos: nat, p: nat, q: nat)
    requires pos <= p < |s| && SkipWhitespace(s, pos) == p && IsDigit(s[p])
    requires p + 1 == |s| || (!IsDigit(s[p + 1]) && s[p + 1] != '.')
    requires SkipWhitespace(s, p + 1) == q
    ensures Level(s, pos, 0) == Ok(Num(DigitValue(s[p]) as real, pos, q), q)
  {
    assert DigitRun(s, p + 1) == p + 1;
    assert s[p..p + 1] == [s[p]];
    assert NumberLexeme(s, p) == Ok(Literal([s[p]], ""), p + 1);
    assert DigitsValue([s[p]]) == DigitValue(s[p]) by {
      assert [s[p]][..0] == [];
    }
    assert NumberAtom(s, pos) == Ok(Num(DigitValue(s[p]) as real, pos, q), q);
    assert Unary(s, pos) == Atom(s, pos);
  }

  /** The only operator of level `k` spelled at `pos` is read. */
  lemma OperatorAt(s: string, pos: nat, k: nat, op: BinaryOperation)
    requires pos <= |s| && 1 <= k <= 5 && Precedence(op) == k && SymbolAt(s, pos, op)
    requires forall o :: Precedence(o) == k && o != op ==> !SymbolAt(s, pos, o)
    ensures BinaryOperator(s, pos, k) == Some((op, AfterSymbol(s, pos, op)))
  {}

  lemma NoOperator(s: string, pos: nat, k: nat)
    requires pos <= |s| && 1 <= k <= 5
    requires NoSymbolAtLevel(s, pos, k)
    ensures BinaryOperator(s, pos, k) == None
  {}

  /** With no operator of level `k` next, the fold ends with what it has. */
  lemma FoldTailDone(s: string, pos: nat, k: nat, acc: Spanned)
    requires pos <= |s| && 1 <= k <= 5
    requires acc.span.end == pos && Layered(acc, k) && Tiled(acc) && Reads(s, acc)
    requires BinaryOperator(s, pos, k) == None
    ensures FoldTail(s, pos, k, acc) == (acc, pos)
  {}

  /** A level whose first operand is not followed by an operator of its own
      level reads just that operand. */
  lemma LevelPasses(s: string, pos: nat, k: nat, e: Spanned, q: nat)
    requires pos <= |s| && 1 <= k <= 5 && Level(s, pos, k - 1) == Ok(e, q)
    requires q <= |s| && NoSymbolAtLevel(s, q, k)
    ensures Level(s, pos, k) == Ok(e, q)
  {
    BinaryUnfold(s, pos, k, e, q);
    NoOperator(s, q, k);
    FoldTailDone(s, q, k, e);
  }

  /** Level `k` reading one operand, one operator of its level and a second operand. */
  lemma OneFold(s: string, pos: nat, k: nat, a: Spanned, op: BinaryOperation, p: nat, b: Spanned, q: nat)
    requires pos <= |s| && 1 <= k <= 5 && Level(s, pos, k - 1) == Ok(a, a.span.end)
    requires BinaryOperator(s, a.span.end, k) == Some((op, p)) && Level(s, p, k - 1) == Ok(b, q)
    requires BinaryOperator(s, q, k) == None
    ensures Level(s, pos, k) == Ok(Bin(a, op, b), q)
  {
    BinaryUnfold(s, pos, k, a, a.span.end);
    FoldTailStep(s, a.span.end, k, a, op, p, b, q);
    FoldTailDone(s, q, k, Bin(a, op, b));
  }

  /** Level `k` reading three operands joined by two operators of its level. */
  lemma TwoFold(s: string, pos: nat, k: nat, a: Spanned, op: BinaryOperation, p: nat, b: Spanned,
                op': BinaryOperation, p': nat, c: Spanned, q: nat)
    requires pos <= |s| && 1 <= k <= 5 && Level(s, pos, k - 1) == Ok(a, a.span.end)
    requires BinaryOperator(s, a.span.end, k) == Some((op, p)) && Level(s, p, k - 1) == Ok(b, b.span.end)
    requires BinaryOperator(s, b.span.end, k) == Some((op', p')) && Level(s, p', k - 1) == Ok(c, q)
    requires BinaryOperator(s, q, k) == None
    ensures Level(s, pos, k) == Ok(Bin(Bin(a, op, b), op', c), q)
  {
    BinaryUnfold(s, pos, k, a, a.span.end);
    FoldTailStep(s, a.span.end, k, a, op, p, b, b.span.end);
    FoldTailStep(s, b.span.end, k, Bin(a, op, b), op', p', c, q);
    FoldTailDone(s, q, k, Bin(Bin(a, op, b), op', c));
  }

  /** No binary operator is spelled after the padding at `q`. */
  ghost predicate NoSymbol(s: string, q: nat)
    requires q <= |s|
  {
    forall o :: !SymbolAt(s, q, o)
  }

  /** No binary operator of level `k` is spelled after the padding at `q`. */
  ghost predicate NoSymbolAtLevel(s: string, q: nat, k: nat)
    requires q <= |s|
  {
    forall o :: Precedence(o) == k ==> !SymbolAt(s, q, o)
  }

  /** A one-character operator whose character starts no other operator is
      the only operator spelled where that character stands. */
  lemma SoleSymbol(s: string, q: nat, op: BinaryOperation)
    requires q < |s| && SkipWhitespace(s, q) == q && |Symbol(op)| == 1 && s[q] == Symbol(op)[0]
    requires forall o :: o != op ==> Symbol(o)[0] != Symbol(op)[0]
    ensures SymbolAt(s, q, op)
    ensures forall o :: o != op ==> !SymbolAt(s, q, o)
  {}

  /** No operator is spelled at a `;`. */
  lemma NothingAt(s: string, q: nat)
    requires q < |s| && s[q] == ';' && SkipWhitespace(s, q) == q
    ensures NoSymbol(s, q)
  {}

  /** What level `k` reads, with no operator after it, is the whole expression. */
  lemma ExpressionFromLevel(s: string, pos: nat, k: nat, e: Spanned, q: nat)
    requires pos <= |s| && 1 <= k <= 5 && Level(s, pos, k) == Ok(e, q)
    requires q <= |s| && NoSymbol(s, q)
    ensures Expression(s, pos) == Ok(e, q)
  {
    if k < 2 { LevelPasses(s, pos, 2, e, q); }
    if k < 3 { LevelPasses(s, pos, 3, e, q); }
    if k < 4 { LevelPasses(s, pos, 4, e, q); }
    if k < 5 { LevelPasses(s, pos, 5, e, q); }
  }

  /** `a = <expression>;` with the expression read from 3 to 13 and `;` at 13. */
  lemma StatementOf(s: string, e: Spanned)
    requires |s| == 14 && s[0] == 'a' && s[1] == ' ' && s[2] == '=' && s[3] == ' ' && s[13] == ';'
    requires Expression(s, 3) == Ok(e, 13)
    ensures Parse(s) == Accepted([Assignment("a", e, Span(0, 14))])
  {
    SkipNone(s, 0);
    SkipOne(s, 1);
    LetterIdent(s, 0, 0, 2);
    assert [s[0]] == "a";
    SkipNone(s, 13);
    var a := Assignment("a", e, Span(0, 14));
    assert Statement(s, 0) == Ok(a, 14);
    assert Comment(s, 0).None?;
    assert Comments(s, 0) == 0;
    SkipNone(s, 14);
    assert Comment(s, 14).None?;
    assert Item(s, 0) == Ok(a, 14);
    assert Ident(s, 14).Fail?;
    assert Item(s, 14).Fail?;
    assert Items(s, 14) == ([], 14);
    assert [a] + [] == [a];
    assert Items(s, 0) == ([a], 14);
  }

  /** `a = 2 ^ 3 ^ 2;` is one statement whose expression is `(2 ^ 3) ^ 2`. */
  lemma ExponentChainParses(s: string)
    requires s == "a = 2 ^ 3 ^ 2;"
    ensures Parse(s) == Accepted([Assignment("a", Bin(Bin(Num(2.0, 3, 6), Exponent, Num(3.0, 8, 10)), Exponent, Num(2.0, 12, 13)), Span(0, 14))])
  {
    assert ExponentChainText(s);
    ExponentChainExpression(s);
    StatementOf(s, Bin(Bin(Num(2.0, 3, 6), Exponent, Num(3.0, 8, 10)), Exponent, Num(2.0, 12, 13)));
  }

  /** The characters of `a = 2 ^ 3 ^ 2;`, one by one. */
  ghost predicate ExponentChainText(s: string)
  {
    |s| == 14 && s[0] == 'a' && s[1] == ' ' && s[2] == '=' && s[3] == ' ' && s[4] == '2' && s[5] == ' ' &&
    s[6] == '^' && s[7] == ' ' && s[8] == '3' && s[9] == ' ' && s[10] == '^' && s[11] == ' ' && s[12] == '2' && s[13] == ';'
  }

  lemma ExponentChainExpression(s: string)
    requires ExponentChainText(s)
    ensures Expression(s, 3) == Ok(Bin(Bin(Num(2.0, 3, 6), Exponent, Num(3.0, 8, 10)), Exponent, Num(2.0, 12, 13)), 13)
  {
    var two, three, last := Num(2.0, 3, 6), Num(3.0, 8, 10), Num(2.0, 12, 13);
    ExponentChainOperands(s);
    ExponentChainLevel(s, two, three, last);
    SkipNone(s, 13);
    NothingAt(s, 13);
    ExpressionFromLevel(s, 3, 1, Bin(Bin(two, Exponent, three), Exponent, last), 13);
  }

  /** Level 1 folds both `^` to the left. */
  lemma ExponentChainLevel(s: string, a: Spanned, b: Spanned, c: Spanned)
    requires |s| == 14 && s[6] == '^' && s[7] == ' ' && s[8] == '3' && s[10] == '^' && s[11] == ' ' && s[12] == '2' && s[13] == ';'
    requires Level(s, 3, 0) == Ok(a, 6) && a.span.end == 6
    requires Level(s, 8, 0) == Ok(b, 10) && b.span.end == 10 && Level(s, 12, 0) == Ok(c, 13)
    ensures Level(s, 3, 1) == Ok(Bin(Bin(a, Exponent, b), Exponent, c), 13)
  {
    SkipNone(s, 6); SkipNone(s, 10); SkipNone(s, 13);
    SkipOne(s, 7); SkipOne(s, 11);
    SoleSymbol(s, 6, Exponent);
    SoleSymbol(s, 10, Exponent);
    OperatorAt(s, 6, 1, Exponent);
    OperatorAt(s, 10, 1, Exponent);
    NothingAt(s, 13);
    NoOperator(s, 13, 1);
    TwoFold(s, 3, 1, a, Exponent, 8, b, Exponent, 12, c, 13);
  }

  lemma ExponentChainOperands(s: string)
    requires ExponentChainText(s)
    ensures Level(s, 3, 0) == Ok(Num(2.0, 3, 6), 6)
    ensures Level(s, 8, 0) == Ok(Num(3.0, 8, 10), 10)
    ensures Level(s, 12, 0) == Ok(Num(2.0, 12, 13), 13)
  {
    SkipOne(s, 3); SkipOne(s, 5); SkipOne(s, 9); SkipNone(s, 8); SkipNone(s, 12); SkipNone(s, 13);
    DigitLevel(s, 3, 4, 6);
    DigitLevel(s, 8, 8, 10);
    DigitLevel(s, 12, 12, 13);
  }

  /** `a = 2 + 3 * 4;` is one statement whose expression is `2 + (3 * 4)`. */
  lemma ProductFirstParses(s: string)
    requires s == "a = 2 + 3 * 4;"
    ensures Parse(s) == Accepted([Assignment("a", Bin(Num(2.0, 3, 6), Add, Bin(Num(3.0, 8, 10), Multiply, Num(4.0, 12, 13))), Span(0, 14))])
  {
    assert ProductFirstText(s);
    ProductFirstExpression(s);
    StatementOf(s, Bin(Num(2.0, 3, 6), Add, Bin(Num(3.0, 8, 10), Multiply, Num(4.0, 12, 13))));
  }

  /** The characters of `a = 2 + 3 * 4;`, one by one. */
  ghost predicate ProductFirstText(s: string)
  {
    |s| == 14 && s[0] == 'a' && s[1] == ' ' && s[2] == '=' && s[3] == ' ' && s[4] == '2' && s[5] == ' ' &&
    s[6] == '+' && s[7] == ' ' && s[8] == '3' && s[9] == ' ' && s[10] == '*' && s[11] == ' ' && s[12] == '4' && s[13] == ';'
  }

  lemma ProductFirstExpression(s: string)
    requires ProductFirstText(s)
    ensures Expression(s, 3) == Ok(Bin(Num(2.0, 3, 6), Add, Bin(Num(3.0, 8, 10), Multiply, Num(4.0, 12, 13))), 13)
  {
    var two, three, four := Num(2.0, 3, 6), Num(3.0, 8, 10), Num(4.0, 12, 13);
    ProductFirstOperands(s);
    ProductFirstLeft(s, two);
    ProductFirstFactors(s, three, four);
    ProductFirstProduct(s, three, four);
    ProductFirstSum(s, two, Bin(three, Multiply, four));
    SkipNone(s, 13);
    NothingAt(s, 13);
    ExpressionFromLevel(s, 3, 3, Bin(two, Add, Bin(three, Multiply, four)), 13);
  }

  /** Level 3 reads the left operand, then `+` and what the product level reads after it. */
  lemma ProductFirstSum(s: string, a: Spanned, b: Spanned)
    requires |s| == 14 && s[6] == '+' && s[7] == ' ' && s[8] == '3' && s[13] == ';'
    requires Level(s, 3, 2) == Ok(a, 6) && a.span.end == 6 && Level(s, 8, 2) == Ok(b, 13)
    ensures Level(s, 3, 3) == Ok(Bin(a, Add, b), 13)
  {
    SkipNone(s, 6); SkipNone(s, 13);
    SkipOne(s, 7);
    SoleSymbol(s, 6, Add);
    OperatorAt(s, 6, 3, Add);
    NothingAt(s, 13);
    NoOperator(s, 13, 3);
    OneFold(s, 3, 3, a, Add, 8, b, 13);
  }

  /** Levels 1 and 2 from the left operand stop before `+`. */
  lemma ProductFirstLeft(s: string, a: Spanned)
    requires |s| == 14 && s[6] == '+'
    requires Level(s, 3, 0) == Ok(a, 6)
    ensures Level(s, 3, 2) == Ok(a, 6)
  {
    SkipNone(s, 6);
    SoleSymbol(s, 6, Add);
    LevelPasses(s, 3, 1, a, 6);
    LevelPasses(s, 3, 2, a, 6);
  }

  /** Level 2 reads the two factors joined by `*`. */
  lemma ProductFirstProduct(s: string, a: Spanned, b: Spanned)
    requires |s| == 14 && s[10] == '*' && s[11] == ' ' && s[12] == '4' && s[13] == ';'
    requires Level(s, 8, 1) == Ok(a, 10) && a.span.end == 10 && Level(s, 12, 1) == Ok(b, 13)
    ensures Level(s, 8, 2) == Ok(Bin(a, Multiply, b), 13)
  {
    SkipNone(s, 10); SkipNone(s, 13);
    SkipOne(s, 11);
    SoleSymbol(s, 10, Multiply);
    OperatorAt(s, 10, 2, Multiply);
    NothingAt(s, 13);
    NoOperator(s, 13, 2);
    OneFold(s, 8, 2, a, Multiply, 12, b, 13);
  }

  /** Level 1 stops before `*` after the first factor and before `;` after the second. */
  lemma ProductFirstFactors(s: string, a: Spanned, b: Spanned)
    requires |s| == 14 && s[10] == '*' && s[13] == ';'
    requires Level(s, 8, 0) == Ok(a, 10) && Level(s, 12, 0) == Ok(b, 13)
    ensures Level(s, 8, 1) == Ok(a, 10) && Level(s, 12, 1) == Ok(b, 13)
  {
    SkipNone(s, 10); SkipNone(s, 13);
    NothingAt(s, 13);
    SoleSymbol(s, 10, Multiply);
    LevelPasses(s, 8, 1, a, 10);
    LevelPasses(s, 12, 1, b, 13);
  }

  lemma ProductFirstOperands(s: string)
    requires ProductFirstText(s)
    ensures Level(s, 3, 0) == Ok(Num(2.0, 3, 6), 6)
    ensures Level(s, 8, 0) == Ok(Num(3.0, 8, 10), 10)
    ensures Level(s, 12, 0) == Ok(Num(4.0, 12, 13), 13)
  {
    SkipOne(s, 3); SkipOne(s, 5); SkipOne(s, 9); SkipNone(s, 8); SkipNone(s, 12); SkipNone(s, 13);
    DigitLevel(s, 3, 4, 6);
    DigitLevel(s, 8, 8, 10);
    DigitLevel(s, 12, 12, 13);
  }
}
