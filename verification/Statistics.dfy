/** Sums, means and squared deviations of finite samples. */
module Statistics {
  import opened Reals
  import opened Sequences

  function Sum(s: seq<real>): real { if s == [] then 0.0 else s[0] + Sum(s[1..]) }

  function Mean(s: seq<real>): real
    requires s != []
  {
    Sum(s) / |s| as real
  }

  /** Sum of squared deviations from c. */
  function SqDev(s: seq<real>, c: real): real {
    if s == [] then 0.0 else Sq(s[0] - c) + SqDev(s[1..], c)
  }

  lemma {:induction false} SumConcat(a: seq<real>, b: seq<real>)
    ensures Sum(a + b) == Sum(a) + Sum(b)
  {
    if a == [] {
      assert a + b == b;
    } else {
      assert (a + b)[1..] == a[1..] + b;
      SumConcat(a[1..], b);
    }
  }

  lemma {:induction false} SqDevConcat(a: seq<real>, b: seq<real>, c: real)
    ensures SqDev(a + b, c) == SqDev(a, c) + SqDev(b, c)
  {
    if a == [] {
      assert a + b == b;
    } else {
      assert (a + b)[1..] == a[1..] + b;
      SqDevConcat(a[1..], b, c);
    }
  }

  lemma {:induction false} SqDevNonNegative(s: seq<real>, c: real)
    ensures SqDev(s, c) >= 0.0
  {
    if s != [] {
      SqDevNonNegative(s[1..], c);
      SquareNonNegative(s[0] - c);
    }
  }

  lemma {:induction false} SumWithout(s: seq<real>, i: nat)
    requires i < |s|
    ensures Sum(s) == s[i] + Sum(Remove(s, i))
  {
    if i == 0 {
      assert Remove(s, 0) == s[1..];
    } else {
      SumWithout(s[1..], i - 1);
      assert Remove(s, i)[1..] == Remove(s[1..], i - 1);
    }
  }

  lemma {:induction false} SqDevWithout(s: seq<real>, i: nat, c: real)
    requires i < |s|
    ensures SqDev(s, c) == Sq(s[i] - c) + SqDev(Remove(s, i), c)
  {
    if i == 0 {
      assert Remove(s, 0) == s[1..];
    } else {
      SqDevWithout(s[1..], i - 1, c);
      assert Remove(s, i)[1..] == Remove(s[1..], i - 1);
    }
  }

  // The lemmas below name the sums they speak of, so that the arithmetic is about numbers only.

  lemma MeanTimes(s: seq<real>)
    requires s != []
    ensures IsMean(|s| as real, Mean(s), Sum(s))
  {}

  /** m is the mean of n values with the given sum. */
  predicate IsMean(n: real, m: real, sum: real) { n * m == sum }

  predicate Expanded(c: real, n: real, sum: real, squares: real, dev: real) {
    dev == squares - 2.0 * (c * sum) + n * (c * c)
  }

  /** Squared deviations from any centre, by the first two moments. */
  lemma {:induction false} Expand(s: seq<real>, c: real)
    ensures Expanded(c, |s| as real, Sum(s), SqDev(s, 0.0), SqDev(s, c))
  {
    if s != [] {
      Expand(s[1..], c);
      ExpandStep(s[0], c, |s| as real, Sum(s[1..]), SqDev(s[1..], 0.0), SqDev(s[1..], c),
                 Sum(s), SqDev(s, 0.0), SqDev(s, c));
    }
  }

  lemma ExpandStep(x: real, c: real, n: real, sum': real, squares': real, dev': real,
                   sum: real, squares: real, dev: real)
    requires Expanded(c, n - 1.0, sum', squares', dev')
    requires sum == x + sum' && squares == Sq(x - 0.0) + squares' && dev == Sq(x - c) + dev'
    ensures Expanded(c, n, sum, squares, dev)
  {
    assert c * sum == c * x + c * sum';
  }

  /** Deviations from a centre h away from the mean. */
  predicate Shifted(n: real, h: real, dev: real, devC: real) { devC == dev + n * Sq(h) && dev <= devC }

  /** The mean m minimises squared error, and exactly by n times the squared distance from it. */
  lemma AboutTheMean(s: seq<real>, m: real, c: real, n: real, sum: real, dev: real, devC: real)
    requires n == |s| as real && sum == Sum(s) && IsMean(n, m, sum) && dev == SqDev(s, m) && devC == SqDev(s, c)
    ensures Shifted(n, c - m, dev, devC)
  {
    var squares := SqDev(s, 0.0);
    Expand(s, m);
    Expand(s, c);
    MeanStep(n, m, c, sum, squares, dev, devC);
  }

  lemma MeanStep(n: real, m: real, c: real, sum: real, squares: real, dev: real, devC: real)
    requires n >= 0.0 && IsMean(n, m, sum)
    requires Expanded(m, n, sum, squares, dev) && Expanded(c, n, sum, squares, devC)
    ensures Shifted(n, c - m, dev, devC)
  {
    assert m * sum == n * (m * m) && c * sum == n * (c * m);
    assert n * Sq(c - m) == n * (c * c) - 2.0 * (n * (c * m)) + n * (m * m);
    SquareNonNegative(c - m);
    MulMono(0.0, Sq(c - m), n);
  }

  /** The mean minimises squared error. */
  lemma MeanMinimises(s: seq<real>, m: real, c: real)
    requires IsMean(|s| as real, m, Sum(s))
    ensures SqDev(s, m) <= SqDev(s, c)
  {
    AboutTheMean(s, m, c, |s| as real, Sum(s), SqDev(s, m), SqDev(s, c));
  }

  predicate CauchyBound(n: real, d: real, dev: real) { Sq(d) <= n * dev }

  /** Cauchy-Schwarz: the sum of the deviations from c, squared, is at most n times the squared
      deviations. */
  lemma CauchySchwarz(s: seq<real>, c: real) returns (n: real, sum: real, dev: real)
    ensures n == |s| as real && sum == Sum(s) && dev == SqDev(s, c)
    ensures CauchyBound(n, sum - n * c, dev)
  {
    n, sum, dev := |s| as real, Sum(s), SqDev(s, c);
    if s != [] {
      var m := sum / n;
      var least := SqDev(s, m);
      AboutTheMean(s, m, c, n, sum, least, dev);
      SqDevNonNegative(s, m);
      CauchyStep(n, sum, m, c, least, dev);
    }
  }

  lemma CauchyStep(n: real, sum: real, m: real, c: real, least: real, dev: real)
    requires n >= 0.0 && IsMean(n, m, sum) && least >= 0.0
    requires Shifted(n, c - m, least, dev)
    ensures CauchyBound(n, sum - n * c, dev)
  {
    var q := Sq(c - m);
    assert sum - n * c == n * (m - c);
    assert Sq(n * (m - c)) == n * (n * q);
    assert Sq(sum - n * c) == Sq(n * (m - c));
    assert n * dev == n * least + n * (n * q);
    MulMono(0.0, least, n);
  }

  /** The square of e is at most the (k - 1)/k share of dev. */
  predicate ShareBound(k: real, e: real, dev: real) { k * Sq(e) <= (k - 1.0) * dev }

  /** One value set apart from the others, whose deviations obey Cauchy-Schwarz. */
  lemma SetApart(s: seq<real>, m: real, i: nat) returns (n: real, sum: real, dev: real)
    requires i < |s|
    ensures n == |s| as real - 1.0 && Sum(s) == s[i] + sum && SqDev(s, m) == Sq(s[i] - m) + dev
    ensures CauchyBound(n, sum - n * m, dev)
  {
    SumWithout(s, i);
    SqDevWithout(s, i, m);
    n, sum, dev := CauchySchwarz(Remove(s, i), m);
  }

  /** Samuelson's inequality: one deviation from the mean m of k values is bounded by all of them. */
  lemma Samuelson(s: seq<real>, m: real, i: nat)
    requires i < |s| && IsMean(|s| as real, m, Sum(s))
    ensures ShareBound(|s| as real, s[i] - m, SqDev(s, m))
  {
    var n, sum, dev := SetApart(s, m, i);
    SamuelsonStep(|s| as real, n, s[i], m, Sum(s), sum, dev, SqDev(s, m));
  }

  lemma SamuelsonStep(k: real, n: real, x: real, m: real, sum: real, sum': real, dev': real, dev: real)
    requires IsMean(k, m, sum) && sum == x + sum' && dev == Sq(x - m) + dev' && n == k - 1.0
    requires CauchyBound(n, sum' - n * m, dev')
    ensures ShareBound(k, x - m, dev)
  {
    assert sum' - n * m == m - x;
    assert n * dev == n * Sq(x - m) + n * dev';
  }

  /** A stretch of a sample deviates no more from c than the whole does. */
  lemma StretchDeviatesLess(s: seq<real>, a: nat, b: nat, c: real)
    requires a <= b <= |s|
    ensures SqDev(s[a..b], c) <= SqDev(s, c)
  {
    assert s == s[..a] + s[a..b] + s[b..];
    SqDevConcat(s[..a] + s[a..b], s[b..], c);
    SqDevConcat(s[..a], s[a..b], c);
    SqDevNonNegative(s[..a], c);
    SqDevNonNegative(s[b..], c);
  }
}
