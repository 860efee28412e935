/** Elementary facts about real numbers shared by the models. */
module Reals {
  function Abs(x: real): (r: real)
    ensures r >= 0.0 && (r == x || r == -x)
  {
    if x < 0.0 then -x else x
  }

  function Min(x: real, y: real): real { if x <= y then x else y }

  function Max(x: real, y: real): real { if x <= y then y else x }

  function Pow(x: real, n: nat): real { if n == 0 then 1.0 else x * Pow(x, n - 1) }

  lemma MulMono(x: real, y: real, c: real)
    requires x <= y && 0.0 <= c
    ensures x * c <= y * c && c * x <= c * y
  {}

  lemma ProductNonNegative(x: real, y: real)
    requires x >= 0.0 && y >= 0.0
    ensures x * y >= 0.0
  {}

  lemma SquareNonNegative(x: real)
    ensures x * x >= 0.0
  {}

  /** |x| <= m bounds the square. */
  lemma SquareBound(x: real, m: real)
    requires -m <= x <= m
    ensures x * x <= m * m
  {
    assert (m - x) * (m + x) >= 0.0;
  }

  lemma PowStep(x: real, n: nat, y: real)
    requires n > 0
    ensures Pow(x, n) * y == x * (Pow(x, n - 1) * y)
  {}

  /** n-fold sum of x. */
  function Times(n: nat, x: real): real { if n == 0 then 0.0 else Times(n - 1, x) + x }

  lemma {:induction false} TimesIsProduct(n: nat, x: real)
    ensures Times(n, x) == n as real * x
  {
    if n > 0 { TimesIsProduct(n - 1, x); }
  }

  lemma TimesNonNegative(n: nat, x: real)
    requires x >= 0.0
    ensures Times(n, x) >= 0.0
  {}

  lemma {:induction false} TimesMono(n: nat, x: real, y: real)
    requires x <= y
    ensures Times(n, x) <= Times(n, y)
  {
    if n > 0 { TimesMono(n - 1, x, y); }
  }

  lemma {:induction false} TimesMonoCount(a: nat, b: nat, x: real)
    requires a <= b && x >= 0.0
    ensures Times(a, x) <= Times(b, x)
  {
    if a < b { TimesMonoCount(a, b - 1, x); }
  }

  function Sq(x: real): real { x * x }

  lemma Cancel(k: real, x: real, y: real)
    requires k > 0.0 && k * x <= k * y
    ensures x <= y
  {
    assert k * (y - x) >= 0.0;
  }

  lemma MulPositive(x: real, y: real)
    requires x > 0.0 && y > 0.0
    ensures x * y > 0.0
  {}

  /** Comparing nonnegative numbers by their squares. */
  lemma SquaresCompare(x: real, y: real)
    requires x >= 0.0 && y >= 0.0
    ensures x > y <==> Sq(x) > Sq(y)
  {
    if x > y {
      MulPositive(x - y, x + y);
      assert Sq(x) - Sq(y) == (x - y) * (x + y);
    } else {
      MulMono(x, y, x);
      MulMono(x, y, y);
    }
  }
}
