/** Abstraction of the 64-bit floating-point operations the engine uses.
    Numbers are reals; the operations whose f64 results have no real counterpart
    (powf, division by zero, remainder by zero) are supplied as parameters. */
module Float {

  /** The operations of f64 that the model does not interpret. */
  datatype Ops = Ops(
    pow: (real, real) -> real,      // f64::powf
    divByZero: real -> real,        // x / 0.0 (an infinity or NaN)
    remByZero: real -> real         // x % 0.0 (NaN)
  )

  /** std::f64::consts::PI and TAU, as written in Rust's standard library. */
  const PI: real := 3.14159265358979323846264338327950288
  const TAU: real := 6.28318530717958647692528676655900577

  /** Truncation toward zero, as `as i64` / `f64::trunc` do. */
  function Trunc(x: real): (t: int)
    ensures 0.0 <= x ==> 0 <= t && t as real <= x < t as real + 1.0
    ensures x < 0.0 ==> t <= 0 && t as real - 1.0 < x <= t as real
  {
    if 0.0 <= x then x.Floor else -((-x).Floor)
  }

  /** `a / b` on f64. */
  function Quotient(ops: Ops, a: real, b: real): (q: real)
    ensures b != 0.0 ==> q * b == a
  {
    if b != 0.0 then a / b else ops.divByZero(a)
  }

  function Abs(x: real): real { if x < 0.0 then -x else x }

  /** `a % b` on f64 (C's fmod): the remainder of truncating division, which
      takes the sign of the dividend and is smaller than the divisor in magnitude. */
  function Remainder(ops: Ops, a: real, b: real): (r: real)
    ensures b != 0.0 ==> Abs(r) < Abs(b)
    ensures b != 0.0 && 0.0 <= a ==> 0.0 <= r
    ensures b != 0.0 && a < 0.0 ==> r <= 0.0
  {
    if b == 0.0 then ops.remByZero(a)
    else if 0.0 <= a then PositiveRemainder(a, Abs(b))
    else -PositiveRemainder(-a, Abs(b))
  }

  /** The remainder is what truncating division leaves over: `a - trunc(a / b) * b`. */
  lemma RemainderTruncates(ops: Ops, a: real, b: real)
    requires b != 0.0
    ensures Remainder(ops, a, b) == a - Trunc(a / b) as real * b
  {
    var c := Abs(b);
    if 0.0 <= a {
      assert a / c == Abs(a / b);
    } else {
      assert -a / c == Abs(a / b);
    }
  }

  /** `x - floor(x / c) * c` for a non-negative dividend and a positive divisor. */
  function PositiveRemainder(x: real, c: real): (r: real)
    requires 0.0 <= x && 0.0 < c
    ensures 0.0 <= r < c
  {
    var k := (x / c).Floor as real;
    FloorScaled(x, c, k);
    x - k * c
  }

  lemma FloorScaled(x: real, c: real, k: real)
    requires 0.0 <= x && 0.0 < c && k == (x / c).Floor as real
    ensures 0.0 <= x - k * c < c
  {
    var q := x / c;
    assert q * c == x;
    assert k <= q < k + 1.0;
    var r := x - k * c;
    assert (q - k) * c == r;
    assert (k + 1.0 - q) * c == c - r;
    ProductPositive(k + 1.0 - q, c);
    assert 0.0 < (k + 1.0 - q) * c;
    assert 0.0 < c - r;
    assert r < c;
  }

  lemma ProductPositive(u: real, c: real)
    requires 0.0 < u && 0.0 < c
    ensures 0.0 < u * c
  {}
}
