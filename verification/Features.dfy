/** Window statistics of a sensor (slm_sensor_analytics/app/services/features.py): mean, population
    deviation, root mean square and peak-to-peak. Square roots are modelled by their squares. */
module Features {
  import opened Wrappers
  import opened Reals
  import opened Sequences
  import opened Statistics

  datatype FeatureVector = FeatureVector(mean: real, stdSq: real, rmsSq: real, peakToPeak: real)

  function Largest(s: seq<real>): (m: real)
    requires s != []
    ensures m in s && forall x :: x in s ==> x <= m
  {
    if |s| == 1 then s[0]
    else
      var rest := Largest(s[1..]);
      assert forall x :: x in s ==> x == s[0] || x in s[1..];
      Max(s[0], rest)
  }

  function Smallest(s: seq<real>): (m: real)
    requires s != []
    ensures m in s && forall x :: x in s ==> m <= x
  {
    if |s| == 1 then s[0]
    else
      var rest := Smallest(s[1..]);
      assert forall x :: x in s ==> x == s[0] || x in s[1..];
      Min(s[0], rest)
  }

  function ExtractFeatures(values: seq<real>): Result<FeatureVector> {
    if |values| < 2 then Failure("Feature extraction requires at least 2 values.")
    else
      var n, mean := |values| as real, Mean(values);
      Success(FeatureVector(mean, SqDev(values, mean) / n, SqDev(values, 0.0) / n, Largest(values) - Smallest(values)))
  }

  /** The features in terms of the sums they are quotients of. */
  predicate Quotients(f: FeatureVector, n: real, sum: real, squares: real, dev: real) {
    && n >= 2.0 && IsMean(n, f.mean, sum)
    && n * f.stdSq == dev && n * f.rmsSq == squares
  }

  lemma Divide(n: real, total: real, quotient: real)
    requires n > 0.0 && quotient == total / n
    ensures n * quotient == total
  {}

  lemma NamedQuotients(f: FeatureVector, n: real, sum: real, squares: real, dev: real)
    requires n >= 2.0 && IsMean(n, f.mean, sum) && f.stdSq == dev / n && f.rmsSq == squares / n
    ensures Quotients(f, n, sum, squares, dev)
  {
    Divide(n, dev, f.stdSq);
    Divide(n, squares, f.rmsSq);
  }

  lemma Named(values: seq<real>, f: FeatureVector) returns (n: real, sum: real, squares: real, dev: real)
    requires ExtractFeatures(values) == Success(f)
    ensures n == |values| as real && sum == Sum(values)
    ensures squares == SqDev(values, 0.0) && dev == SqDev(values, f.mean)
    ensures Quotients(f, n, sum, squares, dev)
    ensures f.peakToPeak == Largest(values) - Smallest(values)
  {
    n, sum, squares, dev := |values| as real, Sum(values), SqDev(values, 0.0), SqDev(values, f.mean);
    MeanTimes(values);
    NamedQuotients(f, n, sum, squares, dev);
  }

  // ----- rms^2 = mean^2 + std^2 -----

  /** rms^2 = mean^2 + std^2 with std^2 >= 0, so |mean| <= rms. */
  predicate SecondMomentSplits(f: FeatureVector) {
    f.rmsSq == Sq(f.mean) + f.stdSq && 0.0 <= f.stdSq && Sq(f.mean) <= f.rmsSq
  }

  lemma MomentStep(f: FeatureVector, n: real, sum: real, squares: real, dev: real)
    requires Quotients(f, n, sum, squares, dev) && Shifted(n, 0.0 - f.mean, dev, squares) && dev >= 0.0
    ensures SecondMomentSplits(f)
  {
    var right := Sq(f.mean) + f.stdSq;
    assert n * f.rmsSq == n * right;
    Cancel(n, f.rmsSq, right);
    Cancel(n, right, f.rmsSq);
    Cancel(n, 0.0, f.stdSq);
  }

  /** The three second-order features are tied. */
  lemma RmsDecomposes(values: seq<real>, f: FeatureVector)
    requires ExtractFeatures(values) == Success(f)
    ensures SecondMomentSplits(f)
  {
    var n, sum, squares, dev := Named(values, f);
    AboutTheMean(values, f.mean, 0.0, n, sum, dev, squares);
    SqDevNonNegative(values, f.mean);
    MomentStep(f, n, sum, squares, dev);
  }

  // ----- Peak-to-peak bounds the deviation from both sides -----

  /** Values between lo and hi deviate from c by at most (hi - c)(c - lo) on average, up to how far c is
      from their mean. */
  predicate SpanBound(n: real, sum: real, c: real, lo: real, hi: real, dev: real) {
    dev <= n * ((hi - c) * (c - lo)) + (hi + lo - 2.0 * c) * (sum - n * c)
  }

  lemma {:induction false} BhatiaDavis(s: seq<real>, c: real, lo: real, hi: real)
    requires forall x :: x in s ==> lo <= x <= hi
    ensures SpanBound(|s| as real, Sum(s), c, lo, hi, SqDev(s, c))
  {
    if s != [] {
      assert forall x :: x in s[1..] ==> x in s;
      assert s[0] in s;
      BhatiaDavis(s[1..], c, lo, hi);
      SpanStep(s[0], |s[1..]| as real, Sum(s[1..]), c, lo, hi, SqDev(s[1..], c));
    }
  }

  lemma SpanProduct(x: real, c: real, lo: real, hi: real)
    ensures (hi - x) * (x - lo) == (hi - c) * (c - lo) + (hi + lo - 2.0 * c) * (x - c) - Sq(x - c)
  {}

  lemma SpanRegroup(x: real, n: real, sum: real, c: real, g: real, h: real)
    ensures (n + 1.0) * g + h * (x + sum - (n + 1.0) * c) == (n * g + h * (sum - n * c)) + (g + h * (x - c))
  {}

  lemma SpanStep(x: real, n: real, sum: real, c: real, lo: real, hi: real, dev: real)
    requires SpanBound(n, sum, c, lo, hi, dev) && lo <= x <= hi
    ensures SpanBound(n + 1.0, x + sum, c, lo, hi, Sq(x - c) + dev)
  {
    ProductNonNegative(hi - x, x - lo);
    SpanProduct(x, c, lo, hi);
    SpanRegroup(x, n, sum, c, (hi - c) * (c - lo), hi + lo - 2.0 * c);
  }

  /** Popoviciu's inequality: std^2 <= range^2 / 4. */
  predicate DeviationWithin(f: FeatureVector) { 4.0 * f.stdSq <= Sq(f.peakToPeak) }

  lemma RangeBoundsDeviation(values: seq<real>, f: FeatureVector)
    requires ExtractFeatures(values) == Success(f)
    ensures DeviationWithin(f)
  {
    var n, sum, squares, dev := Named(values, f);
    BhatiaDavis(values, f.mean, Smallest(values), Largest(values));
    PopoviciuStep(f, n, sum, squares, dev, Smallest(values), Largest(values));
  }

  lemma PopoviciuStep(f: FeatureVector, n: real, sum: real, squares: real, dev: real, lo: real, hi: real)
    requires Quotients(f, n, sum, squares, dev) && f.peakToPeak == hi - lo
    requires SpanBound(n, sum, f.mean, lo, hi, dev)
    ensures DeviationWithin(f)
  {
    var m := f.mean;
    var g := (hi - m) * (m - lo);
    assert (hi + lo - 2.0 * m) * (sum - n * m) == 0.0;
    Cancel(n, f.stdSq, g);
    assert Sq(hi - lo) - 4.0 * g == Sq(hi + lo - 2.0 * m);
    SquareNonNegative(hi + lo - 2.0 * m);
  }

  /** Two different places of a sample contribute separately. */
  lemma TwoTerms(s: seq<real>, i: nat, j: nat, c: real)
    requires i < j < |s|
    ensures Sq(s[i] - c) + Sq(s[j] - c) <= SqDev(s, c)
  {
    SqDevWithout(s, j, c);
    SqDevWithout(Remove(s, j), i, c);
    SqDevNonNegative(Remove(Remove(s, j), i), c);
  }

  lemma HalfRange(lo: real, hi: real, c: real)
    ensures Sq(hi - lo) <= 2.0 * (Sq(lo - c) + Sq(hi - c))
  {
    assert 2.0 * (Sq(lo - c) + Sq(hi - c)) - Sq(hi - lo) == Sq(hi + lo - 2.0 * c);
    SquareNonNegative(hi + lo - 2.0 * c);
  }

  lemma ExtremesDeviate(s: seq<real>, c: real)
    requires s != []
    ensures Sq(Largest(s) - Smallest(s)) <= 2.0 * SqDev(s, c)
  {
    var lo, hi := Smallest(s), Largest(s);
    var i :| 0 <= i < |s| && s[i] == lo;
    var j :| 0 <= j < |s| && s[j] == hi;
    HalfRange(lo, hi, c);
    SqDevNonNegative(s, c);
    if i < j {
      TwoTerms(s, i, j, c);
    } else if j < i {
      TwoTerms(s, j, i, c);
    }
  }

  /** range^2 / (2 n) <= std^2: the two extremes alone deviate that much. */
  predicate RangeWithin(f: FeatureVector, n: real) { Sq(f.peakToPeak) <= 2.0 * (n * f.stdSq) }

  lemma RangeStep(f: FeatureVector, n: real, sum: real, squares: real, dev: real)
    requires Quotients(f, n, sum, squares, dev) && Sq(f.peakToPeak) <= 2.0 * dev
    ensures RangeWithin(f, n)
  {}

  lemma DeviationBoundsRange(values: seq<real>, f: FeatureVector)
    requires ExtractFeatures(values) == Success(f)
    ensures RangeWithin(f, |values| as real)
  {
    var n, sum, squares, dev := Named(values, f);
    ExtremesDeviate(values, f.mean);
    RangeStep(f, n, sum, squares, dev);
  }

  // ----- The documented deviation -----

  predicate SampleVariance(n: real, dev: real, sample: real) { (n - 1.0) * sample == dev }

  /** `sample` is the variance with n - 1 that docs/slm-sensor-analytics.md describes. */
  predicate Documented(values: seq<real>, mean: real, sample: real) {
    SampleVariance(|values| as real, SqDev(values, mean), sample)
  }

  /** Two quotients of one total, by n and by n - 1. */
  predicate TwoQuotients(n: real, dev: real, population: real, sample: real) {
    n >= 2.0 && dev >= 0.0 && n * population == dev && (n - 1.0) * sample == dev
  }

  lemma SmallerQuotient(n: real, dev: real, population: real, sample: real)
    requires TwoQuotients(n, dev, population, sample)
    ensures 0.0 <= population <= sample
  {
    Cancel(n, 0.0, population);
    assert n * population - (n - 1.0) * population == population;
    Cancel(n - 1.0, population, sample);
  }

  lemma SameQuotientIsZero(n: real, dev: real, p: real)
    requires TwoQuotients(n, dev, p, p)
    ensures p == 0.0
  {
    assert n * p - (n - 1.0) * p == p;
  }

  lemma ZeroQuotients(n: real, dev: real, sample: real)
    requires TwoQuotients(n, dev, 0.0, sample)
    ensures sample == 0.0
  {
    SmallerQuotient(n, dev, 0.0, sample);
    if sample > 0.0 { MulPositive(n - 1.0, sample); }
  }

  lemma EqualQuotients(n: real, dev: real, population: real, sample: real)
    requires TwoQuotients(n, dev, population, sample)
    ensures population == sample <==> population == 0.0
  {
    if population == sample { SameQuotientIsZero(n, dev, population); }
    if population == 0.0 { ZeroQuotients(n, dev, sample); }
  }

  lemma OnlyZeroSquare(x: real)
    requires Sq(x) <= 0.0
    ensures x == 0.0
  {
    SquaresCompare(Abs(x), 0.0);
    assert Sq(Abs(x)) == Sq(x);
  }

  lemma FlatIffNoDeviation(f: FeatureVector, n: real)
    requires DeviationWithin(f) && RangeWithin(f, n) && 0.0 <= f.stdSq
    ensures f.stdSq == 0.0 <==> f.peakToPeak == 0.0
  {
    if f.stdSq == 0.0 {
      assert n * f.stdSq == 0.0;
      OnlyZeroSquare(f.peakToPeak);
    }
    if f.peakToPeak == 0.0 { assert Sq(f.peakToPeak) == 0.0; }
  }

  lemma FlatFeatures(values: seq<real>, f: FeatureVector)
    requires ExtractFeatures(values) == Success(f)
    ensures f.stdSq == 0.0 <==> f.peakToPeak == 0.0
  {
    RmsDecomposes(values, f);
    RangeBoundsDeviation(values, f);
    DeviationBoundsRange(values, f);
    FlatIffNoDeviation(f, |values| as real);
  }

  lemma DocumentedStep(f: FeatureVector, n: real, sum: real, squares: real, dev: real, sample: real)
    requires Quotients(f, n, sum, squares, dev) && SampleVariance(n, dev, sample) && dev >= 0.0
    ensures f.stdSq <= sample && (f.stdSq == sample <==> f.stdSq == 0.0)
  {
    SmallerQuotient(n, dev, f.stdSq, sample);
    EqualQuotients(n, dev, f.stdSq, sample);
  }

  predicate AllEqual(values: seq<real>) { forall i :: 0 <= i < |values| ==> values[i] == values[0] }

  lemma FlatIffAllEqual(values: seq<real>)
    requires values != []
    ensures Largest(values) - Smallest(values) == 0.0 <==> AllEqual(values)
  {
    assert values[0] in values;
  }

  /** The code's deviation never exceeds the documented one, and equals it exactly when all values of the
      window are equal, which is when the peak-to-peak value is zero. */
  lemma DocumentedDeviationIff(values: seq<real>, f: FeatureVector, sample: real)
    requires ExtractFeatures(values) == Success(f) && Documented(values, f.mean, sample)
    ensures f.stdSq <= sample
    ensures f.stdSq == sample <==> AllEqual(values)
    ensures AllEqual(values) <==> f.peakToPeak == 0.0
  {
    var n, sum, squares, dev := Named(values, f);
    SqDevNonNegative(values, f.mean);
    DocumentedStep(f, n, sum, squares, dev, sample);
    FlatFeatures(values, f);
    FlatIffAllEqual(values);
  }

  /** A window in which they differ: 0 and 2 deviate by 1 from their mean, and have a documented variance
      of 2. */
  lemma DocumentedDeviationFails()
    ensures ExtractFeatures([0.0, 2.0]) == Success(FeatureVector(1.0, 1.0, 2.0, 2.0))
    ensures Documented([0.0, 2.0], 1.0, 2.0)
  {
    var s := [0.0, 2.0];
    assert s[1..] == [2.0] && s[1..][1..] == [];
    assert Sum(s) == 2.0 && Mean(s) == 1.0;
    assert SqDev(s, 1.0) == 2.0 && SqDev(s, 0.0) == 4.0;
    assert Largest(s) == 2.0 && Smallest(s) == 0.0;
  }
}
