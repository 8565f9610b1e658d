/** The character-level pieces of the grammar (src/expressions/parser.rs):
    whitespace padding, identifiers, number literals and single tokens. Each
    function reads the source from a position and reports where it stopped. */
module Lexer {

  /** `char::is_whitespace`: the Unicode White_Space property. */
  predicate IsWhitespace(c: char)
  {
    ('\t' <= c <= '\r') || c == ' ' || c == '\U{0085}' || c == '\U{00A0}' || c == '\U{1680}' ||
    ('\U{2000}' <= c <= '\U{200A}') || c == '\U{2028}' || c == '\U{2029}' || c == '\U{202F}' ||
    c == '\U{205F}' || c == '\U{3000}'
  }

  predicate IsDigit(c: char) { '0' <= c <= '9' }

  /** The first character of `text::ident`: an ASCII letter or `_`. */
  predicate IsIdentStart(c: char) { ('a' <= c <= 'z') || ('A' <= c <= 'Z') || c == '_' }

  /** The following characters of `text::ident`: ASCII letters, digits or `_`. */
  predicate IsIdentContinue(c: char) { IsIdentStart(c) || IsDigit(c) }

  /** An identifier as the grammar reads it: `text::ident` and at most one `'`. */
  predicate IsIdentifier(t: string)
  {
    var body := if |t| > 0 && t[|t| - 1] == '\'' then |t| - 1 else |t|;
    body >= 1 && IsIdentStart(t[0]) && forall i :: 1 <= i < body ==> IsIdentContinue(t[i])
  }

  predicate AllDigits(t: string) { forall i :: 0 <= i < |t| ==> IsDigit(t[i]) }

  /** `text::int(10)`: a single `0`, or a non-zero digit followed by digits. */
  predicate IsIntegerText(t: string)
  {
    t == "0" || (|t| >= 1 && '1' <= t[0] <= '9' && AllDigits(t))
  }

  /** `whitespace()` as used by `padded`: the position after the longest run of whitespace. */
  function SkipWhitespace(s: string, pos: nat): (r: nat)
    requires pos <= |s|
    ensures pos <= r <= |s|
    ensures forall i :: pos <= i < r ==> IsWhitespace(s[i])
    ensures r == |s| || !IsWhitespace(s[r])
    decreases |s| - pos
  {
    if pos < |s| && IsWhitespace(s[pos]) then SkipWhitespace(s, pos + 1) else pos
  }

  /** The position after the longest run of characters satisfying `IsIdentContinue`. */
  function IdentRun(s: string, pos: nat): (r: nat)
    requires pos <= |s|
    ensures pos <= r <= |s|
    ensures forall i :: pos <= i < r ==> IsIdentContinue(s[i])
    ensures r == |s| || !IsIdentContinue(s[r])
    decreases |s| - pos
  {
    if pos < |s| && IsIdentContinue(s[pos]) then IdentRun(s, pos + 1) else pos
  }

  /** `text::digits(10)` without its at-least-one check: the end of the longest digit run. */
  function DigitRun(s: string, pos: nat): (r: nat)
    requires pos <= |s|
    ensures pos <= r <= |s|
    ensures forall i :: pos <= i < r ==> IsDigit(s[i])
    ensures r == |s| || !IsDigit(s[r])
    decreases |s| - pos
  {
    if pos < |s| && IsDigit(s[pos]) then DigitRun(s, pos + 1) else pos
  }

  /** The result of a lexical or grammar function: failure, or a value and the
      position where the next function starts reading. */
  datatype Parsed<T> = Fail | Ok(value: T, next: nat)

  /** `text::ident().chain(just('\'').or_not())`, with no padding: the longest
      identifier starting at `pos`. */
  function RawIdent(s: string, pos: nat): (r: Parsed<string>)
    requires pos <= |s|
    ensures r.Ok? ==> pos < r.next <= |s| && r.value == s[pos..r.next] && IsIdentifier(r.value)
    ensures r.Ok? <==> pos < |s| && IsIdentStart(s[pos])
  {
    if pos < |s| && IsIdentStart(s[pos]) then
      var e := IdentRun(s, pos + 1);
      var e' := if e < |s| && s[e] == '\'' then e + 1 else e;
      var t := s[pos..e'];
      assert forall i :: 1 <= i < e - pos ==> t[i] == s[pos + i];
      Ok(t, e')
    else Fail
  }

  /** The identifier `RawIdent` reads is the longest one starting at `pos`. */
  lemma RawIdentLongest(s: string, pos: nat)
    requires pos <= |s|
    ensures RawIdent(s, pos).Ok? ==> forall n :: RawIdent(s, pos).next < n <= |s| ==> !IsIdentifier(s[pos..n])
  {
    if pos < |s| && IsIdentStart(s[pos]) {
      var e := IdentRun(s, pos + 1);
      IdentifierLongest(s, pos, e, if e < |s| && s[e] == '\'' then e + 1 else e);
    }
  }

  /** No identifier read from `pos` runs past a character that cannot continue
      one, except by a single `'` right after the last identifier character. */
  lemma IdentifierLongest(s: string, pos: nat, e: nat, e': nat)
    requires pos < e <= |s| && (e == |s| || !IsIdentContinue(s[e]))
    requires e' == if e < |s| && s[e] == '\'' then e + 1 else e
    ensures forall n :: e' < n <= |s| ==> !IsIdentifier(s[pos..n])
  {
    forall n | e' < n <= |s| ensures !IsIdentifier(s[pos..n]) {
      var t := s[pos..n];
      assert t[e - pos] == s[e];
      if t[|t| - 1] == '\'' {
        assert s[n - 1] == '\'';
      }
    }
  }

  /** `ident` of the grammar: an identifier padded by whitespace on both sides. */
  function Ident(s: string, pos: nat): (r: Parsed<string>)
    requires pos <= |s|
    ensures r.Ok? <==> RawIdent(s, SkipWhitespace(s, pos)).Ok?
    ensures r.Ok? ==> pos < r.next <= |s| && IsIdentifier(r.value)
    ensures r.Ok? ==> var raw := RawIdent(s, SkipWhitespace(s, pos));
      r.value == raw.value && r.next == SkipWhitespace(s, raw.next)
    ensures r.Ok? ==> r.next == |s| || !IsWhitespace(s[r.next])
  {
    match RawIdent(s, SkipWhitespace(s, pos))
    case Fail => Fail
    case Ok(name, p) => Ok(name, SkipWhitespace(s, p))
  }

  /** `just(c).padded()`: the position after `c` and its padding, if `c` comes next. */
  function Token(s: string, pos: nat, c: char): (r: Option<nat>)
    requires pos <= |s|
    ensures r.Some? <==> SkipWhitespace(s, pos) < |s| && s[SkipWhitespace(s, pos)] == c
    ensures r.Some? ==> pos < r.value <= |s| && r.value == SkipWhitespace(s, SkipWhitespace(s, pos) + 1)
  {
    var p := SkipWhitespace(s, pos);
    if p < |s| && s[p] == c then Some(SkipWhitespace(s, p + 1)) else None
  }

  /** `just(c).then(just(d)).padded()`: two adjacent characters, padded. */
  function Token2(s: string, pos: nat, c: char, d: char): (r: Option<nat>)
    requires pos <= |s|
    ensures r.Some? <==> var p := SkipWhitespace(s, pos); p + 1 < |s| && s[p] == c && s[p + 1] == d
    ensures r.Some? ==> pos < r.value <= |s| && r.value == SkipWhitespace(s, SkipWhitespace(s, pos) + 2)
  {
    var p := SkipWhitespace(s, pos);
    if p + 1 < |s| && s[p] == c && s[p + 1] == d then Some(SkipWhitespace(s, p + 2)) else None
  }

  datatype Option<T> = None | Some(value: T)

  /** The digits of a number literal: its integer part and its (possibly empty) fraction. */
  datatype Literal = Literal(integer: string, fraction: string)

  /** `text::int(10).chain(just('.').chain(text::digits(10)).or_not().flatten())`:
      an integer part, then `.` and at least one digit if they follow. Each part
      is read as far as it goes, except that an integer part `0` stops at once. */
  function NumberLexeme(s: string, pos: nat): (r: Parsed<Literal>)
    requires pos <= |s|
    ensures r.Ok? <==> pos < |s| && IsDigit(s[pos])
    ensures r.Ok? ==> pos < r.next <= |s| && AllDigits(r.value.integer) && AllDigits(r.value.fraction)
  {
    if pos < |s| && IsDigit(s[pos]) then
      var e := if s[pos] == '0' then pos + 1 else DigitRun(s, pos + 1);
      IntegerPart(s, pos, e);
      if e + 1 < |s| && s[e] == '.' && IsDigit(s[e + 1]) then
        var f := DigitRun(s, e + 1);
        DigitSlice(s, e + 1, f);
        Ok(Literal(s[pos..e], s[e + 1..f]), f)
      else
        Ok(Literal(s[pos..e], ""), e)
    else Fail
  }

  /** What `NumberLexeme` reads is the literal at `pos`, each part read as far
      as the literal syntax lets it go. */
  lemma NumberLexemeLongest(s: string, pos: nat)
    requires pos <= |s|
    ensures NumberLexeme(s, pos).Ok? ==> LexemeAt(s, pos, NumberLexeme(s, pos).value, NumberLexeme(s, pos).next)
  {
    if pos < |s| && IsDigit(s[pos]) {
      var e := if s[pos] == '0' then pos + 1 else DigitRun(s, pos + 1);
      IntegerPart(s, pos, e);
      if e + 1 < |s| && s[e] == '.' && IsDigit(s[e + 1]) {
        FractionLexeme(s, pos, e, DigitRun(s, e + 1));
      } else {
        IntegerLexeme(s, pos, e);
      }
    }
  }

  /** `l` is the literal read from `pos` up to `next`: the source slice, an integer
      part in `text::int` form and a digit fraction, each read as far as it goes
      (an integer part starting with `0` is that `0` alone and stops at once, and `.` is taken only before a digit). */
  ghost predicate LexemeAt(s: string, pos: nat, l: Literal, next: nat)
  {
    pos < next <= |s| && IsIntegerText(l.integer) && |l.integer| > 0 && AllDigits(l.integer) &&
    AllDigits(l.fraction) && s[pos..next] == LiteralText(l) &&
    var e := pos + |l.integer|;
    (l.integer[0] != '0' ==> e == |s| || !IsDigit(s[e])) &&
    (l.fraction == "" ==> !(e + 1 < |s| && s[e] == '.' && IsDigit(s[e + 1]))) &&
    (l.fraction != "" ==> next == |s| || !IsDigit(s[next]))
  }

  /** The integer part: a lone `0`, or the longest run of digits from a non-zero digit. */
  lemma IntegerPart(s: string, pos: nat, e: nat)
    requires pos < |s| && IsDigit(s[pos])
    requires e == if s[pos] == '0' then pos + 1 else DigitRun(s, pos + 1)
    ensures IntegerPartAt(s, pos, e)
  {
    var t := s[pos..e];
    assert forall i :: 0 <= i < |t| ==> t[i] == s[pos + i];
    if s[pos] == '0' {
      assert t == "0";
    }
  }

  /** The facts `IntegerPart` establishes about the integer part `s[pos..e]`. */
  ghost predicate IntegerPartAt(s: string, pos: nat, e: nat)
  {
    pos < e <= |s| && |s[pos..e]| == e - pos && IsIntegerText(s[pos..e]) && AllDigits(s[pos..e]) &&
    s[pos..e][0] == s[pos] && (s[pos] != '0' ==> e == |s| || !IsDigit(s[e]))
  }

  lemma IntegerLexeme(s: string, pos: nat, e: nat)
    requires IntegerPartAt(s, pos, e)
    requires !(e + 1 < |s| && s[e] == '.' && IsDigit(s[e + 1]))
    ensures LexemeAt(s, pos, Literal(s[pos..e], ""), e)
  {
    var l := Literal(s[pos..e], "");
    assert LiteralText(l) == s[pos..e];
  }

  lemma FractionLexeme(s: string, pos: nat, e: nat, f: nat)
    requires IntegerPartAt(s, pos, e)
    requires e + 1 < |s| && s[e] == '.' && IsDigit(s[e + 1]) && e + 1 < f <= |s|
    requires (forall i :: e + 1 <= i < f ==> IsDigit(s[i])) && (f == |s| || !IsDigit(s[f]))
    ensures LexemeAt(s, pos, Literal(s[pos..e], s[e + 1..f]), f)
  {
    SliceAround(s, pos, e, f);
    DigitSlice(s, e + 1, f);
  }

  lemma DigitSlice(s: string, a: nat, b: nat)
    requires a <= b <= |s| && forall i :: a <= i < b ==> IsDigit(s[i])
    ensures AllDigits(s[a..b])
  {
    assert forall i :: 0 <= i < b - a ==> s[a..b][i] == s[a + i];
  }

  /** A slice is the part before a position, the character there, and the part after. */
  lemma SliceAround(s: string, a: nat, e: nat, f: nat)
    requires a <= e < f <= |s|
    ensures s[a..f] == s[a..e] + [s[e]] + s[e + 1..f]
  {
    assert s[a..f] == s[a..e] + s[e..f];
    assert s[e..f] == [s[e]] + s[e + 1..f];
  }

  /** The text a literal was read from. */
  function LiteralText(l: Literal): string
  {
    if l.fraction == "" then l.integer else l.integer + "." + l.fraction
  }

  function DigitValue(c: char): nat requires IsDigit(c) { (c as int - '0' as int) as nat }

  /** The natural number a string of decimal digits denotes. */
  function DigitsValue(t: string): nat
    requires AllDigits(t)
    decreases |t|
  {
    if t == [] then 0 else DigitsValue(t[..|t| - 1]) * 10 + DigitValue(t[|t| - 1])
  }

  function Pow10(n: nat): (r: nat)
    ensures r >= 1
  {
    if n == 0 then 1 else 10 * Pow10(n - 1)
  }

  /** The exact value of a literal; the program's `parse::<f64>()` rounds it to the nearest f64. */
  function LiteralValue(l: Literal): real
    requires AllDigits(l.integer) && AllDigits(l.fraction)
  {
    DigitsValue(l.integer) as real + DigitsValue(l.fraction) as real / Pow10(|l.fraction|) as real
  }
}
