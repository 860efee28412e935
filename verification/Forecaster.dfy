/** Sliding-sum moving average and anomaly flags
    (grid_load_forecasting/app/workers/forecaster.py). */
module Forecaster {
  import opened Wrappers
  import opened Reals
  import opened Statistics

  /** The k readings up to and including index i. */
  function Window(readings: seq<real>, k: nat, i: nat): seq<real>
    requires 1 <= k <= i + 1 <= |readings|
  {
    readings[i + 1 - k..i + 1]
  }

  /** The moving average by its definition: the mean of each full window, nothing before it. */
  function SmaAt(readings: seq<real>, k: int, i: nat): Option<real>
    requires i < |readings|
  {
    if 1 <= k <= i + 1 then Some(Mean(Window(readings, k, i))) else None
  }

  function Sma(readings: seq<real>, k: int): (r: seq<Option<real>>)
    ensures |r| == |readings|
    ensures forall i :: 0 <= i < |r| ==> r[i] == SmaAt(readings, k, i)
  {
    seq(|readings|, i requires 0 <= i < |readings| => SmaAt(readings, k, i))
  }

  /** Sliding a window by one adds the new reading and drops the oldest. */
  lemma SlideWindow(readings: seq<real>, k: nat, i: nat)
    requires 1 <= k <= i < |readings|
    ensures Sum(Window(readings, k, i)) == Sum(Window(readings, k, i - 1)) + (readings[i] - readings[i - k])
  {
    var w, v := Window(readings, k, i - 1), Window(readings, k, i);
    assert w[1..] + [readings[i]] == v;
    SumConcat(w[1..], [readings[i]]);
    assert Sum([readings[i]]) == readings[i];
  }

  /** O(n): one running sum, updated in place. */
  method ComputeSma(readings: seq<real>, k: int) returns (result: seq<Option<real>>)
    ensures result == Sma(readings, k)
  {
    var n := |readings|;
    result := seq(n, _ => None);
    if k <= 0 || k > n {
      return;
    }
    var windowSum := Sum(readings[..k]);
    assert readings[..k] == Window(readings, k, k - 1);
    result := result[k - 1 := Some(windowSum / k as real)];
    for i := k to n
      invariant |result| == n
      invariant windowSum == Sum(Window(readings, k, i - 1))
      invariant forall j :: 0 <= j < i ==> result[j] == SmaAt(readings, k, j)
      invariant forall j :: i <= j < n ==> result[j] == None
    {
      SlideWindow(readings, k, i);
      windowSum := windowSum + (readings[i] - readings[i - k]);
      result := result[i := Some(windowSum / k as real)];
    }
  }

  // ----- Anomaly flags -----

  /** `statistics.stdev` squared: the sample variance. */
  function Variance(readings: seq<real>): real
    requires |readings| >= 2
  {
    SqDev(readings, Mean(readings)) / (|readings| - 1) as real
  }

  /** `zscoreSq` is the square of the z-score before it is rounded. */
  datatype Flag = Flag(index: nat, kwh: real, zscoreSq: real)

  /** A reading is flagged when it is more than two standard deviations from its moving average;
      stated on squares, so that no square root is needed. */
  predicate IsAnomaly(r: real, s: Option<real>, variance: real) {
    s.Some? && variance > 0.0 && Sq(r - s.value) > 4.0 * variance
  }

  /** The comparison on squares is the comparison of the absolute deviation with two standard
      deviations, whatever the square root is. */
  lemma SquaredComparison(diff: real, std: real, variance: real)
    requires std >= 0.0 && std * std == variance
    ensures (std > 0.0 && Abs(diff) > 2.0 * std) <==> (variance > 0.0 && Sq(diff) > 4.0 * variance)
  {
    SquaresCompare(Abs(diff), 2.0 * std);
    SquaresCompare(std, 0.0);
    assert Sq(Abs(diff)) == Sq(diff) && Sq(2.0 * std) == 4.0 * variance;
  }

  predicate FlaggedAt(readings: seq<real>, sma: seq<Option<real>>, variance: real, i: nat) {
    i < |readings| && i < |sma| && IsAnomaly(readings[i], sma[i], variance)
  }

  /** What one flag says about its reading. */
  predicate Describes(f: Flag, readings: seq<real>, sma: seq<Option<real>>, variance: real) {
    && FlaggedAt(readings, sma, variance, f.index)
    && f.kwh == readings[f.index]
    && f.zscoreSq == Sq(readings[f.index] - sma[f.index].value) / variance
  }

  /** Flags come in index order, one for each anomaly among the first n readings and for nothing else. */
  ghost predicate FlagsUpTo(readings: seq<real>, sma: seq<Option<real>>, variance: real, n: nat, flags: seq<Flag>) {
    && (forall j :: 0 <= j < |flags| ==> flags[j].index < n && Describes(flags[j], readings, sma, variance))
    && (forall i :: 0 <= i < n && FlaggedAt(readings, sma, variance, i) ==>
          exists j :: 0 <= j < |flags| && flags[j].index == i)
    && (forall i, j :: 0 <= i < j < |flags| ==> flags[i].index < flags[j].index)
  }

  lemma NoNewFlag(readings: seq<real>, sma: seq<Option<real>>, variance: real, i: nat, flags: seq<Flag>)
    requires FlagsUpTo(readings, sma, variance, i, flags) && !FlaggedAt(readings, sma, variance, i)
    ensures FlagsUpTo(readings, sma, variance, i + 1, flags)
  {}

  lemma NewFlag(readings: seq<real>, sma: seq<Option<real>>, variance: real, i: nat, flags: seq<Flag>, f: Flag)
    requires FlagsUpTo(readings, sma, variance, i, flags) && f.index == i && Describes(f, readings, sma, variance)
    ensures FlagsUpTo(readings, sma, variance, i + 1, flags + [f])
  {
    var all := flags + [f];
    assert all[|flags|] == f && forall j :: 0 <= j < |flags| ==> all[j] == flags[j];
    forall m | 0 <= m < i + 1 && FlaggedAt(readings, sma, variance, m)
      ensures exists j :: 0 <= j < |all| && all[j].index == m
    {
      if m < i {
        var j :| 0 <= j < |flags| && flags[j].index == m;
        assert all[j].index == m;
      }
    }
  }

  method ComputeAnomalies(readings: seq<real>, sma: seq<Option<real>>) returns (flags: seq<Flag>)
    ensures if |readings| < 2 then flags == [] else FlagsUpTo(readings, sma, Variance(readings), |readings|, flags)
  {
    if |readings| < 2 {
      return [];
    }
    var variance := Variance(readings);
    flags := [];
    for i := 0 to |readings|
      invariant FlagsUpTo(readings, sma, variance, i, flags)
    {
      if i < |sma| && sma[i].Some? && variance > 0.0 && Sq(readings[i] - sma[i].value) > 4.0 * variance {
        var flag := Flag(i, readings[i], Sq(readings[i] - sma[i].value) / variance);
        NewFlag(readings, sma, variance, i, flags, flag);
        flags := flags + [flag];
      } else {
        NoNewFlag(readings, sma, variance, i, flags);
      }
    }
  }

  // ----- How large a z-score can be -----

  /** The deviation of a reading from its own window mean, bounded by the deviations of the whole
      series from any centre. */
  lemma WindowDeviation(readings: seq<real>, k: nat, i: nat, m: real, c: real)
    requires 1 <= k <= i + 1 <= |readings|
    requires IsMean(k as real, m, Sum(Window(readings, k, i)))
    ensures ShareBound(k as real, readings[i] - m, SqDev(readings, c))
  {
    var w := Window(readings, k, i);
    Samuelson(w, m, k - 1);
    MeanMinimises(w, m, c);
    StretchDeviatesLess(readings, i + 1 - k, i + 1, c);
    ShareBoundGrows(k as real, readings[i] - m, SqDev(w, m), SqDev(readings, c));
  }

  lemma ShareBoundGrows(k: real, e: real, dev: real, more: real)
    requires ShareBound(k, e, dev) && dev <= more && k >= 1.0
    ensures ShareBound(k, e, more)
  {
    MulMono(dev, more, k - 1.0);
  }

  /** k * d^2 <= (k - 1) * (n - 1) * variance. */
  predicate DeviationBound(k: real, n: real, d: real, variance: real) {
    k * Sq(d) <= (k - 1.0) * ((n - 1.0) * variance)
  }

  /** Every reading with a moving average deviates from it by at most sqrt((k-1)(n-1)/k) standard
      deviations. */
  lemma ZScoreBound(readings: seq<real>, k: nat, i: nat, d: real)
    requires |readings| >= 2 && 1 <= k <= i + 1 <= |readings|
    requires d == readings[i] - Mean(Window(readings, k, i))
    ensures DeviationBound(k as real, |readings| as real, d, Variance(readings))
  {
    MeanTimes(Window(readings, k, i));
    WindowDeviation(readings, k, i, Mean(Window(readings, k, i)), Mean(readings));
    ByVariance(k as real, |readings| as real, d, SqDev(readings, Mean(readings)), Variance(readings));
  }

  lemma ByVariance(k: real, n: real, d: real, dev: real, variance: real)
    requires ShareBound(k, d, dev) && n > 1.0 && variance == dev / (n - 1.0)
    ensures DeviationBound(k, n, d, variance)
  {
    assert (n - 1.0) * variance == dev;
  }

  lemma TooFewToFlag(k: nat, n: nat, d: real, variance: real)
    requires k >= 1 && n >= 2 && variance > 0.0
    requires DeviationBound(k as real, n as real, d, variance)
    requires (k - 1) * (n - 1) <= 4 * k
    ensures Sq(d) <= 4.0 * variance
  {
    var c, fourK := ((k - 1) * (n - 1)) as real, 4.0 * k as real;
    assert (k as real - 1.0) * ((n as real - 1.0) * variance) == c * variance;
    MulMono(c, fourK, variance);
    assert fourK * variance == k as real * (4.0 * variance);
    assert k as real * Sq(d) <= c * variance <= fourK * variance;
    Cancel(k as real, Sq(d), 4.0 * variance);
  }

  /** A short series or a short window can never raise a flag, whatever the readings. */
  lemma NothingFlagged(readings: seq<real>, k: int, i: nat)
    requires |readings| >= 2 && (k - 1) * (|readings| - 1) <= 4 * k
    ensures !FlaggedAt(readings, Sma(readings, k), Variance(readings), i)
  {
    if i < |readings| && 1 <= k <= i + 1 && Variance(readings) > 0.0 {
      var d := readings[i] - Mean(Window(readings, k, i));
      ZScoreBound(readings, k, i, d);
      TooFewToFlag(k, |readings|, d, Variance(readings));
    }
  }

  // ----- The bound is attained -----

  function Constant(n: nat, x: real): seq<real> { seq(n, _ => x) }

  /** k - 1 zeros, one reading of k, then ones. */
  function Spike(n: nat, k: nat): (s: seq<real>)
    requires 1 <= k <= n
    ensures |s| == n
  {
    Constant(k - 1, 0.0) + [k as real] + Constant(n - k, 1.0)
  }

  lemma {:induction false} ConstantSums(n: nat, x: real)
    ensures Sum(Constant(n, x)) == n as real * x
    ensures SqDev(Constant(n, x), 1.0) == n as real * Sq(x - 1.0)
  {
    if n > 0 {
      assert Constant(n, x)[1..] == Constant(n - 1, x);
      ConstantSums(n - 1, x);
      ConstantStep(n as real, x, Sq(x - 1.0));
    }
  }

  lemma ConstantStep(n: real, x: real, q: real)
    ensures x + (n - 1.0) * x == n * x && q + (n - 1.0) * q == n * q
  {}

  lemma ZerosAndOnes(n: nat)
    ensures Sum(Constant(n, 0.0)) == 0.0 && SqDev(Constant(n, 0.0), 1.0) == n as real
    ensures Sum(Constant(n, 1.0)) == n as real && SqDev(Constant(n, 1.0), 1.0) == 0.0
  {
    ConstantSums(n, 0.0);
    ConstantSums(n, 1.0);
  }

  lemma Single(x: real)
    ensures Sum([x]) == x && SqDev([x], 1.0) == Sq(x - 1.0)
  {}

  /** The spike has mean 1, overall and over its first window. */
  lemma SpikeSum(n: nat, k: nat)
    requires 1 <= k <= n
    ensures Sum(Spike(n, k)) == n as real
    ensures Sum(Window(Spike(n, k), k, k - 1)) == k as real
  {
    var zeros, spike, ones := Constant(k - 1, 0.0), [k as real], Constant(n - k, 1.0);
    ZerosAndOnes(k - 1);
    ZerosAndOnes(n - k);
    Single(k as real);
    assert Window(Spike(n, k), k, k - 1) == zeros + spike;
    SumConcat(zeros, spike);
    SumConcat(zeros + spike, ones);
  }

  lemma SpikeSqDev(n: nat, k: nat)
    requires 1 <= k <= n
    ensures SqDev(Spike(n, k), 1.0) == (k - 1) as real + Sq(k as real - 1.0)
  {
    var zeros, spike, ones := Constant(k - 1, 0.0), [k as real], Constant(n - k, 1.0);
    ZerosAndOnes(k - 1);
    ZerosAndOnes(n - k);
    Single(k as real);
    SqDevConcat(zeros, spike, 1.0);
    SqDevConcat(zeros + spike, ones, 1.0);
  }

  lemma MeanIsOne(s: seq<real>)
    requires s != [] && Sum(s) == |s| as real
    ensures Mean(s) == 1.0
  {}

  predicate SpikeVariance(k: real, n1: real, v: real) { n1 * v == k * (k - 1.0) }

  lemma SpikeVarianceStep(k: real, n1: real, dev: real, v: real)
    requires n1 > 0.0 && v == dev / n1 && dev == k - 1.0 + Sq(k - 1.0)
    ensures SpikeVariance(k, n1, v)
  {
    assert n1 * v == dev;
  }

  /** The z-score bound is sharp: the spike attains it at index k - 1. */
  lemma SpikeAttainsBound(n: nat, k: nat)
    requires 2 <= k <= n
    ensures var s := Spike(n, k);
            && SmaAt(s, k, k - 1) == Some(1.0) && s[k - 1] == k as real
            && SpikeVariance(k as real, (n - 1) as real, Variance(s))
  {
    var s := Spike(n, k);
    SpikeSum(n, k);
    SpikeSqDev(n, k);
    MeanIsOne(s);
    MeanIsOne(Window(s, k, k - 1));
    SpikeVarianceStep(k as real, (n - 1) as real, SqDev(s, 1.0), Variance(s));
  }

  lemma SpikeIsFlagged(n: nat, k: nat)
    requires 2 <= k <= n && (k - 1) * (n - 1) > 4 * k
    ensures FlaggedAt(Spike(n, k), Sma(Spike(n, k), k), Variance(Spike(n, k)), k - 1)
  {
    SpikeAttainsBound(n, k);
    var v, c := Variance(Spike(n, k)), (k - 1) as real;
    SpikeStep(k as real, (n - 1) as real, c, v);
  }

  lemma SpikeStep(k: real, n1: real, c: real, v: real)
    requires c == k - 1.0 && c > 0.0 && n1 > 0.0 && SpikeVariance(k, n1, v) && c * n1 > 4.0 * k
    ensures v > 0.0 && Sq(k - 1.0) > 4.0 * v
  {
    MulPositive(k, c);
    if v <= 0.0 { MulMono(v, 0.0, n1); }
    MulPositive(c * n1 - 4.0 * k, c);
    assert n1 * Sq(c) > n1 * (4.0 * v);
    if Sq(c) <= 4.0 * v { MulMono(Sq(c), 4.0 * v, n1); }
  }

  /** For n readings and window k some series raises a flag exactly when (k-1)(n-1) > 4k. */
  lemma FlagPossibleIff(n: nat, k: nat)
    requires 2 <= n && 1 <= k <= n
    ensures (exists readings: seq<real>, i: nat ::
               |readings| == n && FlaggedAt(readings, Sma(readings, k), Variance(readings), i))
            <==> (k - 1) * (n - 1) > 4 * k
  {
    if (k - 1) * (n - 1) > 4 * k {
      SpikeIsFlagged(n, k);
    } else {
      forall readings: seq<real>, i: nat | |readings| == n
        ensures !FlaggedAt(readings, Sma(readings, k), Variance(readings), i)
      {
        NothingFlagged(readings, k, i);
      }
    }
  }
}
