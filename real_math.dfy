/**
 * The two pieces of f32 arithmetic the synthesizer relies on, stated on
 * `real`: the constant TAU (one full turn, 2 * pi) and the remainder
 * operator `%`, which for floats truncates toward zero (fmod).
 * Rounding of f32 is not modelled.
 */
module RealMath {

  /** std::f32::consts::TAU, as the real number it approximates. */
  const TAU: real := 6.283185307179586

  /**
   * A product, written as a call so that the solver matches a product in a
   * lemma's conclusion against the same product at the lemma's call site.
   */
  function Times(a: real, b: real): real {
    a * b
  }

  /** Products distribute over a sum in their first factor. */
  lemma TimesDistributes(a: real, b: real, c: real)
    ensures Times(a + b, c) == Times(a, c) + Times(b, c)
  {
  }

  /** Scaling a positive distance by a coefficient in [0, 1) shrinks it. */
  lemma Shrink(c: real, d: real)
    requires 0.0 <= c < 1.0 && d > 0.0
    ensures 0.0 <= Times(c, d) < d
  {
    assert (1.0 - c) * d > 0.0;
  }

  /** Truncation toward zero. */
  function Trunc(x: real): (n: int)
    ensures x >= 0.0 ==> n as real <= x < n as real + 1.0
    ensures x < 0.0 ==> n as real - 1.0 < x <= n as real
  {
    if x >= 0.0 then x.Floor else -((-x).Floor)
  }

  /**
   * `x % m` on floats: `x` minus `m` times the truncated quotient. The
   * remainder keeps the sign of `x`, lies strictly inside one modulus of
   * zero, and differs from `x` by a whole number of moduli.
   */
  function FMod(x: real, m: real): (r: real)
    requires m > 0.0
    ensures x >= 0.0 ==> 0.0 <= r < m
    ensures x < 0.0 ==> -m < r <= 0.0
    ensures x - r == (Trunc(x / m) as real) * m
  {
    RemainderOfNonNegative(x, m);
    RemainderOfNegative(x, m);
    x - Trunc(x / m) as real * m
  }

  lemma RemainderOfNonNegative(x: real, m: real)
    requires m > 0.0
    ensures x >= 0.0 ==> 0.0 <= x - Trunc(x / m) as real * m < m
  {
    if x >= 0.0 {
      QuotientSign(x, m);
      var n := Trunc(x / m) as real;
      BelowQuotient(x, m, n);
      AboveQuotient(x, m, n + 1.0);
    }
  }

  lemma RemainderOfNegative(x: real, m: real)
    requires m > 0.0
    ensures x < 0.0 ==> -m < x - Trunc(x / m) as real * m <= 0.0
  {
    if x < 0.0 {
      QuotientSign(x, m);
      var n := Trunc(x / m) as real;
      StrictlyBelowQuotient(x, m, n - 1.0);
      AtMostQuotient(x, m, n);
    }
  }

  /** Dividing by a positive modulus keeps the sign. */
  lemma QuotientSign(x: real, m: real)
    requires m > 0.0
    ensures x >= 0.0 <==> x / m >= 0.0
  {
    if x / m >= 0.0 {
      BelowQuotient(x, m, 0.0);
    } else {
      AboveQuotient(x, m, 0.0);
    }
  }

  // Multiplying an inequality against `x / m` through by a positive `m`.

  lemma BelowQuotient(x: real, m: real, c: real)
    requires m > 0.0 && c <= x / m
    ensures c * m <= x
  {
    var q := x / m;
    assert x == q * m;
    assert (q - c) * m >= 0.0;
  }

  lemma StrictlyBelowQuotient(x: real, m: real, c: real)
    requires m > 0.0 && c < x / m
    ensures c * m < x
  {
    var q := x / m;
    assert x == q * m;
    assert (q - c) * m > 0.0;
  }

  lemma AboveQuotient(x: real, m: real, c: real)
    requires m > 0.0 && x / m < c
    ensures x < c * m
  {
    var q := x / m;
    assert x == q * m;
    assert (c - q) * m > 0.0;
  }

  lemma AtMostQuotient(x: real, m: real, c: real)
    requires m > 0.0 && x / m <= c
    ensures x <= c * m
  {
    var q := x / m;
    assert x == q * m;
    assert (c - q) * m >= 0.0;
  }

  /** A value already inside [0, m) is its own remainder. */
  lemma FModOfSmall(x: real, m: real)
    requires m > 0.0 && 0.0 <= x < m
    ensures FMod(x, m) == x
  {
    QuotientSign(x, m);
    if 1.0 <= x / m {
      BelowQuotient(x, m, 1.0);
    }
    assert Trunc(x / m) == 0;
  }
}
