/** One node's forecast in a worker cycle: the most recent rows from the reading service
    (grid_load_forecasting/app/services/reading_service.py), reversed, averaged, last value kept
    (grid_load_forecasting/app/workers/forecaster.py). */
module ForecastWorker {
  import opened Wrappers
  import opened Sequences
  import opened Statistics
  import opened Forecaster

  datatype Row = Row(node: string, ts: int, kwh: real)

  function OfNode(rows: seq<Row>, node: string): seq<Row> {
    if rows == [] then []
    else if rows[0].node == node then [rows[0]] + OfNode(rows[1..], node)
    else OfNode(rows[1..], node)
  }

  /** The filter keeps every row of the node, as often as it is stored, and no row of another. */
  lemma {:induction false} OfNodeFilters(rows: seq<Row>, node: string, r: Row)
    ensures multiset(OfNode(rows, node))[r] == if r.node == node then multiset(rows)[r] else 0
  {
    if rows != [] {
      OfNodeFilters(rows[1..], node, r);
      assert rows == [rows[0]] + rows[1..];
    }
  }

  /** Timestamps never increase along `all`, counting only pairs that start among its first n rows. */
  predicate NewestFirst(all: seq<Row>, n: nat) {
    forall i, j :: 0 <= i < j < |all| && i < n ==> all[i].ts >= all[j].ts
  }

  /** What the query promises of its answer: the node's rows, newest first, cut off at the limit. The
      order of rows with equal timestamps is the database's. */
  ghost predicate RecentAnswer(rows: seq<Row>, node: string, limit: nat, answer: seq<Row>, rest: seq<Row>) {
    && multiset(answer + rest) == multiset(OfNode(rows, node))
    && NewestFirst(answer + rest, |answer|)
    && |answer| <= limit && (rest == [] || |answer| == limit)
  }

  function Kwh(rows: seq<Row>): (s: seq<real>)
    ensures |s| == |rows|
  {
    seq(|rows|, i requires 0 <= i < |rows| => rows[i].kwh)
  }

  function Reversed(rows: seq<Row>): (s: seq<Row>)
    ensures |s| == |rows|
  {
    seq(|rows|, i requires 0 <= i < |rows| => rows[|rows| - 1 - i])
  }

  /** The forecast of a series in time order: the average of its last full window. */
  function LastAverage(series: seq<real>, k: int): Option<real> {
    if series == [] then None else SmaAt(series, k, |series| - 1)
  }

  method NodeForecast(answer: seq<Row>, k: int) returns (forecast: Option<real>)
    ensures forecast == LastAverage(Kwh(Reversed(answer)), k)
  {
    var series := Kwh(Reversed(answer));
    var sma := ComputeSma(series, k);
    for i := |sma| downto 0
      invariant forall j :: i <= j < |sma| ==> sma[j] == None
    {
      if sma[i].Some? {
        assert i == |sma| - 1 || sma[|sma| - 1] == None;
        return sma[i];
      }
    }
    return None;
  }

  lemma {:induction false} KwhOfMultiset(a: seq<Row>, b: seq<Row>)
    requires multiset(a) == multiset(b)
    ensures Sum(Kwh(a)) == Sum(Kwh(b))
    decreases |b|
  {
    assert |multiset(a)| == |multiset(b)|;
    if b != [] {
      var k := MatchHead(a, b);
      KwhOfMultiset(Remove(a, k), b[1..]);
      SumWithout(Kwh(a), k);
      assert Remove(Kwh(a), k) == Kwh(Remove(a, k));
      assert Kwh(b)[1..] == Kwh(b[1..]);
    }
  }

  lemma {:induction false} ReversedMultiset(rows: seq<Row>)
    ensures multiset(Reversed(rows)) == multiset(rows)
  {
    if rows != [] {
      ReversedMultiset(rows[1..]);
      assert Reversed(rows) == Reversed(rows[1..]) + [rows[0]];
      assert rows == [rows[0]] + rows[1..];
    }
  }

  /** Every row of `older` is strictly older than every row of `recent`. */
  predicate StrictlyOlder(older: multiset<Row>, recent: multiset<Row>) {
    forall o, r :: o in older && r in recent ==> o.ts < r.ts
  }

  lemma TakeOneOut(all: multiset<Row>, rest: multiset<Row>, x: Row,
                   recent: multiset<Row>, others: multiset<Row>, older: multiset<Row>)
    requires all == recent + older && x in recent && others == recent - multiset{x} && rest == all - multiset{x}
    ensures rest == others + older && recent == multiset{x} + others && |recent| == |others| + 1
    ensures StrictlyOlder(older, recent) ==> StrictlyOlder(older, others)
  {}

  lemma NewestFirstTail(all: seq<Row>, n: nat)
    requires NewestFirst(all, n) && 0 < n <= |all|
    ensures NewestFirst(all[1..], n - 1)
  {}

  /** The first k rows of a newest-first answer are the k most recent ones. */
  lemma {:induction false} FirstAreRecent(all: seq<Row>, n: nat, recent: multiset<Row>, older: multiset<Row>)
    requires NewestFirst(all, n) && |recent| <= n <= |all|
    requires multiset(all) == recent + older && StrictlyOlder(older, recent)
    ensures multiset(all[..|recent|]) == recent
    decreases |recent|
  {
    if |recent| == 0 {
      assert recent == multiset{};
    } else {
      var first, rest := all[0], all[1..];
      var others := recent - multiset{first};
      FirstIsRecent(all, n, recent, older);
      HeadMultiset(all);
      TakeOneOut(multiset(all), multiset(rest), first, recent, others, older);
      NewestFirstTail(all, n);
      FirstAreRecent(rest, n - 1, others, older);
      HeadMultiset(all[..|recent|]);
      assert all[..|recent|][1..] == rest[..|others|];
    }
  }

  lemma FirstIsRecent(all: seq<Row>, n: nat, recent: multiset<Row>, older: multiset<Row>)
    requires NewestFirst(all, n) && 0 < |recent| && 0 < n <= |all|
    requires multiset(all) == recent + older && StrictlyOlder(older, recent)
    ensures all[0] in recent
  {
    var r :| r in recent;
    assert r in multiset(all) && all[0] in multiset(all);
    var j :| 0 <= j < |all| && all[j] == r;
    var newest := all[0];
    assert newest.ts >= r.ts && newest in recent + older;
    assert newest in older ==> newest.ts < r.ts;
  }

  /** The forecast does not depend on the limit, on the order of ingestion or on how the database breaks
      ties: whenever a node's readings split into k recent ones and strictly older others, it is the
      mean of the recent ones. */
  lemma ForecastIsMeanOfMostRecent(rows: seq<Row>, node: string, limit: nat, answer: seq<Row>, rest: seq<Row>,
                                   k: nat, recent: seq<Row>, older: seq<Row>)
    requires RecentAnswer(rows, node, limit, answer, rest) && 1 <= k <= limit
    requires |recent| == k && multiset(recent) + multiset(older) == multiset(OfNode(rows, node))
    requires StrictlyOlder(multiset(older), multiset(recent))
    ensures LastAverage(Kwh(Reversed(answer)), k) == Some(Mean(Kwh(recent)))
  {
    FirstOfAnswerAreRecent(answer, rest, recent, older);
    LastWindow(answer, k);
    ReversedMultiset(answer[..k]);
    KwhOfMultiset(Reversed(answer[..k]), recent);
    MeanFromSum(Kwh(Reversed(answer[..k])), Kwh(recent));
  }

  lemma FirstOfAnswerAreRecent(answer: seq<Row>, rest: seq<Row>, recent: seq<Row>, older: seq<Row>)
    requires NewestFirst(answer + rest, |answer|)
    requires rest == [] || |recent| <= |answer|
    requires multiset(answer + rest) == multiset(recent) + multiset(older)
    requires StrictlyOlder(multiset(older), multiset(recent))
    ensures |recent| <= |answer| && multiset(answer[..|recent|]) == multiset(recent)
  {
    var all := answer + rest;
    assert |multiset(all)| == |multiset(recent)| + |multiset(older)|;
    FirstAreRecent(all, |answer|, multiset(recent), multiset(older));
    assert all[..|recent|] == answer[..|recent|];
  }

  lemma MeanFromSum(a: seq<real>, b: seq<real>)
    requires |a| == |b| && a != [] && Sum(a) == Sum(b)
    ensures Mean(a) == Mean(b)
  {}

  /** The last full window of the reversed answer is its first k rows. */
  lemma LastWindow(answer: seq<Row>, k: nat)
    requires 1 <= k <= |answer|
    ensures Window(Kwh(Reversed(answer)), k, |answer| - 1) == Kwh(Reversed(answer[..k]))
    ensures LastAverage(Kwh(Reversed(answer)), k) == Some(Mean(Kwh(Reversed(answer[..k]))))
  {}

  /** There is a forecast exactly when the node has k readings. */
  lemma ForecastExistsIff(rows: seq<Row>, node: string, limit: nat, answer: seq<Row>, rest: seq<Row>, k: nat)
    requires RecentAnswer(rows, node, limit, answer, rest) && 1 <= k <= limit
    ensures LastAverage(Kwh(Reversed(answer)), k).Some? <==> |OfNode(rows, node)| >= k
  {
    assert |multiset(answer + rest)| == |multiset(OfNode(rows, node))|;
  }

  // ----- Distinct timestamps -----

  predicate DistinctTimes(rows: seq<Row>) { forall i, j :: 0 <= i < j < |rows| ==> rows[i].ts != rows[j].ts }

  lemma DistinctWithout(rows: seq<Row>, k: nat)
    requires k < |rows| && DistinctTimes(rows)
    ensures DistinctTimes(Remove(rows, k))
    ensures forall r :: r in Remove(rows, k) ==> r.ts != rows[k].ts
  {}

  lemma {:induction false} DistinctInAnyOrder(a: seq<Row>, b: seq<Row>)
    requires multiset(a) == multiset(b) && DistinctTimes(a)
    ensures DistinctTimes(b)
    decreases |b|
  {
    if b != [] {
      var k := MatchHead(a, b);
      DistinctWithout(a, k);
      DistinctInAnyOrder(Remove(a, k), b[1..]);
      forall j | 1 <= j < |b| ensures b[0].ts != b[j].ts {
        assert b[j] == b[1..][j - 1] && b[j] in multiset(Remove(a, k));
      }
    }
  }

  /** When a node has k readings, all at different times, they do split into k recent ones and strictly
      older others, and the forecast is the mean of the recent ones. */
  lemma MostRecentSplit(rows: seq<Row>, node: string, limit: nat, answer: seq<Row>, rest: seq<Row>, k: nat)
      returns (recent: seq<Row>, older: seq<Row>)
    requires RecentAnswer(rows, node, limit, answer, rest) && 1 <= k <= limit
    requires DistinctTimes(OfNode(rows, node)) && |OfNode(rows, node)| >= k
    ensures |recent| == k && multiset(recent) + multiset(older) == multiset(OfNode(rows, node))
    ensures StrictlyOlder(multiset(older), multiset(recent))
    ensures LastAverage(Kwh(Reversed(answer)), k) == Some(Mean(Kwh(recent)))
  {
    var all := answer + rest;
    assert |multiset(all)| == |multiset(OfNode(rows, node))|;
    recent, older := all[..k], all[k..];
    assert all == recent + older;
    DistinctInAnyOrder(OfNode(rows, node), all);
    forall o, r | o in multiset(older) && r in multiset(recent) ensures o.ts < r.ts {
      var i :| 0 <= i < k && all[i] == r;
      var j :| 0 <= j < |older| && older[j] == o;
      assert o == all[k + j];
    }
    ForecastIsMeanOfMostRecent(rows, node, limit, answer, rest, k, recent, older);
  }

  /** With distinct timestamps the forecast is a function of the node's readings alone: no two limits of
      at least k, and no two answers of the database, give different ones. */
  lemma ForecastIgnoresLimit(rows: seq<Row>, node: string, k: nat,
                             limit1: nat, answer1: seq<Row>, rest1: seq<Row>,
                             limit2: nat, answer2: seq<Row>, rest2: seq<Row>)
    requires RecentAnswer(rows, node, limit1, answer1, rest1) && 1 <= k <= limit1
    requires RecentAnswer(rows, node, limit2, answer2, rest2) && k <= limit2
    requires DistinctTimes(OfNode(rows, node))
    ensures LastAverage(Kwh(Reversed(answer1)), k) == LastAverage(Kwh(Reversed(answer2)), k)
  {
    ForecastExistsIff(rows, node, limit1, answer1, rest1, k);
    ForecastExistsIff(rows, node, limit2, answer2, rest2, k);
    if |OfNode(rows, node)| >= k {
      var recent, older := MostRecentSplit(rows, node, limit1, answer1, rest1, k);
      ForecastIsMeanOfMostRecent(rows, node, limit2, answer2, rest2, k, recent, older);
    }
  }
}
