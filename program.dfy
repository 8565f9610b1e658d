/** The statement level of `parser()` (src/expressions/parser.rs): assignments
    `ident = expr;`, `#` comments, and a program that must consume all input. */
module Program {
  import opened Syntax
  import opened Lexer
  import opened Grammar

  /** `variable`: `ident = expr ;`, padded; the statement's span runs from where
      it started reading to just after its `;`. */
  function Statement(s: string, pos: nat): (r: Parsed<Assignment>)
    requires pos <= |s|
    ensures r.Ok? <==> Ident(s, pos).Ok? && var p := Ident(s, pos).next;
      p < |s| && s[p] == '=' && Expression(s, p + 1).Ok? &&
      var semi := SkipWhitespace(s, Expression(s, p + 1).next); semi < |s| && s[semi] == ';'
    ensures r.Ok? ==> r.value.name == Ident(s, pos).value && r.value.expression == Expression(s, Ident(s, pos).next + 1).value
    ensures r.Ok? ==> r.value.span == Span(pos, r.next) && r.next == SkipWhitespace(s, r.value.expression.span.end) + 1
  {
    match Ident(s, pos)
    case Fail => Fail
    case Ok(name, p) =>
      if p < |s| && s[p] == '=' then
        match Expression(s, p + 1)
        case Fail => Fail
        case Ok(e, q) =>
          var semi := SkipWhitespace(s, q);
          if semi < |s| && s[semi] == ';' then Ok(Assignment(name, e, Span(pos, semi + 1)), semi + 1)
          else Fail
      else Fail
  }

  /** A statement that is read is well formed and reads exactly its own span. */
  lemma StatementReads(s: string, pos: nat)
    requires pos <= |s| && Statement(s, pos).Ok?
    ensures StatementIn(s, Statement(s, pos).value, pos, Statement(s, pos).next)
  {
    var p := Ident(s, pos).next;
    var e := Expression(s, p + 1);
    assert e.Ok? && e.value.span == Span(p + 1, e.next);
  }

  /** The position of the first newline at or after `pos`, if any. */
  function NextNewline(s: string, pos: nat): (r: Option<nat>)
    requires pos <= |s|
    ensures r.Some? ==> pos <= r.value < |s| && s[r.value] == '\n'
    ensures r.Some? ==> forall i :: pos <= i < r.value ==> s[i] != '\n'
    ensures r.None? ==> forall i :: pos <= i < |s| ==> s[i] != '\n'
    decreases |s| - pos
  {
    if pos == |s| then None
    else if s[pos] == '\n' then Some(pos)
    else NextNewline(s, pos + 1)
  }

  /** `comment`: `#`, everything up to and including the next newline, padded.
      A comment with no newline after it does not parse. */
  function Comment(s: string, pos: nat): (r: Option<nat>)
    requires pos <= |s|
    ensures r.Some? <==> var p := SkipWhitespace(s, pos); p < |s| && s[p] == '#' && NextNewline(s, p + 1).Some?
    ensures r.Some? ==> pos < r.value <= |s|
    ensures r.Some? ==> r.value == SkipWhitespace(s, NextNewline(s, SkipWhitespace(s, pos) + 1).value + 1)
  {
    var p := SkipWhitespace(s, pos);
    if p < |s| && s[p] == '#' then
      match NextNewline(s, p + 1)
      case Some(nl) => Some(SkipWhitespace(s, nl + 1))
      case None => None
    else None
  }

  /** `comment.repeated()`: comments are read one after another until none
      starts; only padding lies between `pos` and where reading stops. */
  function Comments(s: string, pos: nat): (r: nat)
    requires pos <= |s|
    ensures pos <= r <= |s| && Comment(s, r).None? && Filler(s, pos, r)
    ensures Comment(s, pos).None? ==> r == pos
    ensures Comment(s, pos).Some? ==> r == Comments(s, Comment(s, pos).value)
    decreases |s| - pos
  {
    match Comment(s, pos)
    case Some(p) =>
      CommentFiller(s, pos);
      FillerConcat(s, pos, p, Comments(s, p));
      Comments(s, p)
    case None => pos
  }

  /** `s[lo..hi]` is padding only: whitespace, and `#` comments each running up
      to and including its newline. */
  ghost predicate Filler(s: string, lo: nat, hi: nat)
    decreases hi - lo
  {
    lo <= hi <= |s| &&
    (lo == hi ||
     (IsWhitespace(s[lo]) && Filler(s, lo + 1, hi)) ||
     (s[lo] == '#' && NextNewline(s, lo + 1).Some? && NextNewline(s, lo + 1).value < hi &&
      Filler(s, NextNewline(s, lo + 1).value + 1, hi)))
  }

  lemma {:induction false} SkipFiller(s: string, pos: nat)
    requires pos <= |s|
    ensures Filler(s, pos, SkipWhitespace(s, pos))
    decreases |s| - pos
  {
    if pos < |s| && IsWhitespace(s[pos]) {
      SkipFiller(s, pos + 1);
    }
  }

  lemma {:induction false} FillerConcat(s: string, a: nat, b: nat, c: nat)
    requires Filler(s, a, b) && Filler(s, b, c)
    ensures Filler(s, a, c)
    decreases b - a
  {
    if a < b {
      if IsWhitespace(s[a]) && Filler(s, a + 1, b) {
        FillerConcat(s, a + 1, b, c);
      } else {
        FillerConcat(s, NextNewline(s, a + 1).value + 1, b, c);
      }
    }
  }

  lemma CommentFiller(s: string, pos: nat)
    requires pos <= |s| && Comment(s, pos).Some?
    ensures Filler(s, pos, Comment(s, pos).value)
  {
    var p := SkipWhitespace(s, pos);
    var nl := NextNewline(s, p + 1).value;
    SkipFiller(s, pos);
    SkipFiller(s, nl + 1);
    assert Filler(s, p, SkipWhitespace(s, nl + 1));
    FillerConcat(s, pos, p, SkipWhitespace(s, nl + 1));
  }

  /** One repetition of the program: a statement surrounded by comments and
      whitespace. It is the statement after the leading comments, and it leaves
      no comment and no whitespace unread after it. */
  function Item(s: string, pos: nat): (r: Parsed<Assignment>)
    requires pos <= |s|
    ensures r.Ok? <==> Statement(s, Comments(s, SkipWhitespace(s, pos))).Ok?
    ensures r.Ok? ==> r.value == Statement(s, Comments(s, SkipWhitespace(s, pos))).value
    ensures r.Ok? ==> r.next == SkipWhitespace(s, Comments(s, Statement(s, Comments(s, SkipWhitespace(s, pos))).next))
    ensures r.Ok? ==> pos < r.next <= |s| && StatementIn(s, r.value, pos, r.next)
    ensures r.Ok? ==> StatementIn(s, r.value, r.value.span.start, r.value.span.end)
    ensures r.Ok? ==> Filler(s, pos, r.value.span.start) && Filler(s, r.value.span.end, r.next)
    ensures r.Ok? ==> Comment(s, r.next).None? && (r.next == |s| || !IsWhitespace(s[r.next]))
  {
    var p := Comments(s, SkipWhitespace(s, pos));
    match Statement(s, p)
    case Fail => Fail
    case Ok(a, q) =>
      var next := SkipWhitespace(s, Comments(s, q));
      StatementReads(s, p);
      StatementWiden(s, a, p, q, pos, next);
      ItemFiller(s, pos, q);
      Ok(a, next)
  }

  /** The padding an item reads around its statement. */
  lemma ItemFiller(s: string, pos: nat, q: nat)
    requires pos <= |s| && q <= |s|
    ensures Filler(s, pos, Comments(s, SkipWhitespace(s, pos)))
    ensures Filler(s, q, SkipWhitespace(s, Comments(s, q)))
  {
    SkipFiller(s, pos);
    FillerConcat(s, pos, SkipWhitespace(s, pos), Comments(s, SkipWhitespace(s, pos)));
    SkipFiller(s, Comments(s, q));
    FillerConcat(s, q, Comments(s, q), SkipWhitespace(s, Comments(s, q)));
  }

  /** A well-formed statement lying within `lo..hi` and reading the text there:
      its name is the identifier after its leading padding, `=` follows with its
      padding, the expression starts right after `=` and reads the text, and only
      padding separates the expression from the final `;`. */
  ghost predicate StatementIn(s: string, a: Assignment, lo: nat, hi: nat)
  {
    lo <= a.span.start < a.span.end <= hi <= |s| && s[a.span.end - 1] == ';' && IsIdentifier(a.name) &&
    a.span.start < a.expression.span.start && a.expression.span.end < a.span.end &&
    Layered(a.expression, 5) && Tiled(a.expression) &&
    var p := SkipWhitespace(s, a.span.start);
    RawIdent(s, p).Ok? && a.name == RawIdent(s, p).value &&
    var q := SkipWhitespace(s, RawIdent(s, p).next);
    q < |s| && s[q] == '=' && a.expression.span.start == q + 1 && Reads(s, a.expression) &&
    SkipWhitespace(s, a.expression.span.end) == a.span.end - 1
  }

  lemma StatementWiden(s: string, a: Assignment, lo: nat, hi: nat, lo': nat, hi': nat)
    requires StatementIn(s, a, lo, hi) && lo' <= lo && hi <= hi' <= |s|
    ensures StatementIn(s, a, lo', hi')
  {}

  /** Statements that lie in source order within `lo..hi`, each well formed. */
  ghost predicate StatementsWithin(s: string, program: seq<Assignment>, lo: nat, hi: nat)
  {
    hi <= |s| &&
    (forall i :: 0 <= i < |program| ==> StatementIn(s, program[i], lo, hi)) &&
    (forall i, j :: 0 <= i < j < |program| ==> program[i].span.end <= program[j].span.start)
  }

  lemma StatementsCons(s: string, a: Assignment, rest: seq<Assignment>, lo: nat, mid: nat, hi: nat)
    requires StatementIn(s, a, lo, mid) && StatementsWithin(s, rest, mid, hi) && mid <= hi
    ensures StatementsWithin(s, [a] + rest, lo, hi)
  {
    StatementsConsIn(s, a, rest, lo, mid, hi);
    StatementsConsOrdered(s, a, rest, mid, hi);
  }

  lemma StatementsConsIn(s: string, a: Assignment, rest: seq<Assignment>, lo: nat, mid: nat, hi: nat)
    requires StatementIn(s, a, lo, mid) && mid <= hi <= |s|
    requires forall i :: 0 <= i < |rest| ==> StatementIn(s, rest[i], mid, hi)
    ensures forall i :: 0 <= i < |[a] + rest| ==> StatementIn(s, ([a] + rest)[i], lo, hi)
  {
    var all := [a] + rest;
    forall i | 0 <= i < |all| ensures StatementIn(s, all[i], lo, hi) {
      if i > 0 {
        assert all[i] == rest[i - 1];
        StatementWiden(s, rest[i - 1], mid, hi, lo, hi);
      } else {
        StatementWiden(s, a, lo, mid, lo, hi);
      }
    }
  }

  lemma StatementsConsOrdered(s: string, a: Assignment, rest: seq<Assignment>, mid: nat, hi: nat)
    requires a.span.end <= mid
    requires forall i :: 0 <= i < |rest| ==> mid <= rest[i].span.start
    requires forall i, j :: 0 <= i < j < |rest| ==> rest[i].span.end <= rest[j].span.start
    ensures forall i, j :: 0 <= i < j < |[a] + rest| ==> ([a] + rest)[i].span.end <= ([a] + rest)[j].span.start
  {
    var all := [a] + rest;
    forall i, j | 0 <= i < j < |all| ensures all[i].span.end <= all[j].span.start {
      assert all[j] == rest[j - 1];
      if i > 0 { assert all[i] == rest[i - 1]; }
    }
  }

  /** `s[lo..hi]` is exactly `program`'s statements, in order, each reading
      its own span, with nothing but padding before, between and after them. */
  ghost predicate Laid(s: string, program: seq<Assignment>, lo: nat, hi: nat)
    decreases |program|
  {
    if program == [] then Filler(s, lo, hi)
    else
      Filler(s, lo, program[0].span.start) &&
      StatementIn(s, program[0], program[0].span.start, program[0].span.end) &&
      Laid(s, program[1..], program[0].span.end, hi)
  }

  lemma LaidAfterFiller(s: string, program: seq<Assignment>, lo: nat, mid: nat, hi: nat)
    requires Filler(s, lo, mid) && Laid(s, program, mid, hi)
    ensures Laid(s, program, lo, hi)
  {
    if program == [] {
      FillerConcat(s, lo, mid, hi);
    } else {
      FillerConcat(s, lo, mid, program[0].span.start);
    }
  }

  /** The repeated items from `pos`: the statements read and where reading
      stopped, which is where no further item can be read. */
  function Items(s: string, pos: nat): (r: (seq<Assignment>, nat))
    requires pos <= |s|
    ensures pos <= r.1 <= |s| && StatementsWithin(s, r.0, pos, r.1) && Laid(s, r.0, pos, r.1)
    ensures Item(s, r.1).Fail?
    ensures r.0 == [] <==> Item(s, pos).Fail?
    decreases |s| - pos
  {
    match Item(s, pos)
    case Fail => ([], pos)
    case Ok(a, p) =>
      var (rest, q) := Items(s, p);
      StatementsCons(s, a, rest, pos, p, q);
      LaidAfterFiller(s, rest, a.span.end, p, q);
      assert ([a] + rest)[0] == a && ([a] + rest)[1..] == rest;
      ([a] + rest, q)
  }

  datatype ParseOutcome = Accepted(program: seq<Assignment>) | Rejected(stoppedAt: nat)

  /** `parser().parse(source)`: the statements, if they consume the whole input;
      otherwise the position where the statements stopped matching. */
  function Parse(s: string): (r: ParseOutcome)
    ensures r.Accepted? <==> Items(s, 0).1 == |s|
    ensures r.Accepted? ==> r.program == Items(s, 0).0 && StatementsWithin(s, r.program, 0, |s|)
    ensures r.Accepted? ==> Laid(s, r.program, 0, |s|)
    ensures r.Rejected? ==> r.stoppedAt == Items(s, 0).1 < |s| && Item(s, r.stoppedAt).Fail?
  {
    var (program, p) := Items(s, 0);
    if p == |s| then Accepted(program) else Rejected(p)
  }
}
