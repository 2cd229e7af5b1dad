/** Exact integer versions of the floating-point steps of `parseTimeEstimate`
    and the dashboard's completion rate: `Math.round` of a non-negative
    rational, powers of ten and the `parseFloat` value of a decimal numeral
    with a fraction part. Scaling by a power of ten is
    computed by recursion, so that unfolding it never asks the solver for
    non-linear arithmetic; `ShiftIsProduct` relates it to `*`. */
module Numeric {
  import opened Text

  function Pow10(k: nat): (r: nat)
    ensures r >= 1
  {
    if k == 0 then 1 else 10 * Pow10(k - 1)
  }

  /** `n` followed by `k` zero digits. */
  function Shift(n: nat, k: nat): nat {
    if k == 0 then n else 10 * Shift(n, k - 1)
  }

  lemma {:induction false} ShiftIsProduct(n: nat, k: nat)
    ensures Shift(n, k) == n * Pow10(k)
  {
    if k > 0 {
      ShiftIsProduct(n, k - 1);
      assert 10 * (n * Pow10(k - 1)) == n * (10 * Pow10(k - 1));
    }
  }

  /** Writing the digits of `b` after those of `a` shifts `a` by `|b|` places. */
  lemma {:induction false} NumeralValueConcat(a: string, b: string)
    requires forall i :: 0 <= i < |a| ==> IsDigit(a[i])
    requires forall i :: 0 <= i < |b| ==> IsDigit(b[i])
    ensures forall i :: 0 <= i < |a + b| ==> IsDigit((a + b)[i])
    ensures NumeralValue(a + b) == Shift(NumeralValue(a), |b|) + NumeralValue(b)
  {
    if b != [] {
      var b' := b[..|b| - 1];
      assert (a + b)[..|a + b| - 1] == a + b';
      assert (a + b)[|a + b| - 1] == b[|b| - 1];
      NumeralValueConcat(a, b');
      assert NumeralValue(b) == 10 * NumeralValue(b') + DigitValue(b[|b| - 1]);
      assert Shift(NumeralValue(a), |b|) == 10 * Shift(NumeralValue(a), |b'|);
    } else {
      assert a + b == a;
    }
  }

  /** `Math.floor(a / b)`, by repeated subtraction. */
  function Quotient(a: nat, b: nat): nat
    requires b > 0
    decreases a
  {
    if a < b then 0 else 1 + Quotient(a - b, b)
  }

  /** The quotient is the number of whole `b`s in `a`. */
  lemma {:induction false} QuotientBounds(a: nat, b: nat)
    requires b > 0
    ensures b * Quotient(a, b) <= a < b * Quotient(a, b) + b
  {
    if a >= b {
      var q := Quotient(a - b, b);
      QuotientBounds(a - b, b);
      assert b * (q + 1) == b * q + b;
    }
  }

  /** ... and it is the only number with that property. */
  lemma {:induction false} QuotientUnique(a: nat, b: nat, q: nat)
    requires b > 0 && b * q <= a < b * q + b
    ensures Quotient(a, b) == q
  {
    if q > 0 {
      assert b * q == b * (q - 1) + b;
      QuotientUnique(a - b, b, q - 1);
    }
  }

  /** `Math.round(num / den)` for an exact non-negative rational: add one half
      and take the floor. `RoundHalfUpNearest` states what this computes. */
  function RoundHalfUp(num: nat, den: nat): nat
    requires den > 0
  {
    Quotient(2 * num + den, 2 * den)
  }

  /** The rounded value `r` satisfies r <= num/den + 1/2 < r + 1: it is the
      nearest integer to num/den, and a tie rounds up. */
  lemma RoundHalfUpNearest(num: nat, den: nat)
    requires den > 0
    ensures 2 * RoundHalfUp(num, den) * den <= 2 * num + den < 2 * (RoundHalfUp(num, den) + 1) * den
  {
    var q := RoundHalfUp(num, den);
    QuotientBounds(2 * num + den, 2 * den);
    assert (2 * den) * q == 2 * q * den;
    assert 2 * (q + 1) * den == 2 * q * den + 2 * den;
  }

  /** Rounding is exact on integers. */
  lemma RoundHalfUpExact(n: nat, den: nat)
    requires den > 0
    ensures RoundHalfUp(n * den, den) == n
  {
    assert (2 * den) * n == 2 * (n * den);
    QuotientUnique(2 * (n * den) + den, 2 * den, n);
  }

  /** Dividing by one rounds nothing. */
  lemma RoundHalfUpByOne(n: nat)
    ensures RoundHalfUp(n, 1) == n
  {
    QuotientUnique(2 * n + 1, 2, n);
  }
}
