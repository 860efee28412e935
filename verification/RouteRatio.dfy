/** How far the greedy route can be from the best one: at most ceil(log2(n + 1)) + 1 times, over
    any metric. */
module RouteRatio {
  import opened Reals
  import opened Sequences
  import opened Optimizer

  /** A stop of the greedy route together with the length of the leg that leaves it (zero at the
      last stop). */
  datatype Stop = Stop(at: Waypoint, leg: real)

  function Stops(dist: Distance, current: Waypoint, route: seq<Waypoint>): (s: seq<Stop>)
    ensures |s| == |route| + 1 && s[0].at == current
    decreases |route|
  {
    if route == [] then [Stop(current, 0.0)]
    else [Stop(current, Gap(dist, current, route[0]))] + Stops(dist, route[0], route[1..])
  }

  function LegSum(p: seq<Stop>): real {
    if p == [] then 0.0 else p[0].leg + LegSum(p[1..])
  }

  function Places(p: seq<Stop>): seq<Waypoint> { seq(|p|, i requires 0 <= i < |p| => p[i].at) }

  /** Length of the path through the given stops. */
  function Span(dist: Distance, p: seq<Stop>): real {
    if |p| < 2 then 0.0 else Gap(dist, p[0].at, p[1].at) + Span(dist, p[1..])
  }

  lemma {:induction false} SpanIsPathLength(dist: Distance, p: seq<Stop>)
    ensures Span(dist, p) == PathLength(dist, Places(p))
  {
    if |p| >= 2 {
      SpanIsPathLength(dist, p[1..]);
      assert Places(p)[1..] == Places(p[1..]);
    }
  }

  /** Two stops are at least as far apart as the shorter of the legs leaving them. */
  predicate Far(dist: Distance, a: Stop, b: Stop) { Gap(dist, a.at, b.at) >= Min(a.leg, b.leg) }

  ghost predicate Spread(dist: Distance, p: seq<Stop>) {
    p != [] ==> (forall q :: q in p[1..] ==> Far(dist, p[0], q)) && Spread(dist, p[1..])
  }

  // ----- The greedy route is spread -----

  lemma {:induction false} StopsAreOnRoute(dist: Distance, current: Waypoint, route: seq<Waypoint>, s: Stop)
    requires s in Stops(dist, current, route)
    ensures s.at == current || s.at in route
    decreases |route|
  {
    if route != [] && s in Stops(dist, route[0], route[1..]) {
      StopsAreOnRoute(dist, route[0], route[1..], s);
    }
  }

  lemma {:induction false} GreedyStopsSpread(dist: Distance, current: Waypoint, route: seq<Waypoint>)
    requires LegsAreNearest(dist, current, route)
    ensures Spread(dist, Stops(dist, current, route))
    decreases |route|
  {
    if route != [] {
      var rest := Stops(dist, route[0], route[1..]);
      GreedyStopsSpread(dist, route[0], route[1..]);
      forall q | q in rest ensures Far(dist, Stop(current, Gap(dist, current, route[0])), q) {
        StopsAreOnRoute(dist, route[0], route[1..], q);
      }
      assert Stops(dist, current, route)[1..] == rest;
    }
  }

  lemma {:induction false} LegSumIsRouteLength(dist: Distance, current: Waypoint, route: seq<Waypoint>)
    ensures LegSum(Stops(dist, current, route)) == PathLength(dist, [current] + route)
    decreases |route|
  {
    if route != [] {
      LegSumIsRouteLength(dist, route[0], route[1..]);
      assert [route[0]] + route[1..] == route;
      assert ([current] + route)[1..] == route;
      assert Stops(dist, current, route)[1..] == Stops(dist, route[0], route[1..]);
    }
  }

  // ----- Halving a path -----

  /** Of every two neighbours on a path, the one with the longer leg. */
  function Survivors(p: seq<Stop>): (s: seq<Stop>)
    ensures |s| == (|p| + 1) / 2
  {
    if |p| < 2 then p
    else [if p[0].leg >= p[1].leg then p[0] else p[1]] + Survivors(p[2..])
  }

  lemma {:induction false} SurvivorsAreStops(p: seq<Stop>, q: Stop)
    requires q in Survivors(p)
    ensures q in p
  {
    if |p| >= 2 && q in Survivors(p[2..]) { SurvivorsAreStops(p[2..], q); }
  }

  lemma {:induction false} SurvivorsSpread(dist: Distance, p: seq<Stop>)
    requires Spread(dist, p)
    ensures Spread(dist, Survivors(p))
  {
    if |p| >= 2 {
      var s, rest := Survivors(p), p[2..];
      assert p[1..][1..] == rest;
      SurvivorsSpread(dist, rest);
      assert s[1..] == Survivors(rest);
      forall q | q in s[1..] ensures Far(dist, s[0], q) {
        SurvivorsAreStops(rest, q);
        assert q in p[1..];
      }
    }
  }

  lemma MetricFacts(dist: Distance, a: Waypoint, b: Waypoint, c: Waypoint)
    requires Metric(dist)
    ensures Gap(dist, a, b) >= 0.0 && Gap(dist, a, b) == Gap(dist, b, a)
    ensures Gap(dist, a, c) <= Gap(dist, a, b) + Gap(dist, b, c)
  {
    var x, y, z := a.At(), b.At(), c.At();
    assert Triangle(dist, x, y, z) && Triangle(dist, x, y, x) && Symmetric(dist, x, y);
  }

  lemma {:induction false} SpanNonNegative(dist: Distance, p: seq<Stop>)
    requires Metric(dist)
    ensures Span(dist, p) >= 0.0
  {
    if |p| >= 2 {
      SpanNonNegative(dist, p[1..]);
      MetricFacts(dist, p[0].at, p[1].at, p[0].at);
    }
  }

  /** Skipping the second stop of a path never lengthens it. */
  lemma Shortcut(dist: Distance, q: Stop, s: Stop, rest: seq<Stop>)
    requires Metric(dist)
    ensures Span(dist, [q] + rest) <= Span(dist, [q, s] + rest)
  {
    assert ([q, s] + rest)[1..] == [s] + rest;
    SpanNonNegative(dist, [s] + rest);
    MetricFacts(dist, q.at, s.at, q.at);
    if rest != [] {
      assert ([q] + rest)[1..] == rest && ([s] + rest)[1..] == rest;
      MetricFacts(dist, q.at, s.at, rest[0].at);
    }
  }

  lemma DropAfter(dist: Distance, q: Stop, a: Stop, b: Stop, rest: seq<Stop>)
    requires Metric(dist)
    ensures Span(dist, [q, a] + rest) <= Span(dist, [q] + ([a, b] + rest))
  {
    Shortcut(dist, a, b, rest);
    assert ([q, a] + rest)[1..] == [a] + rest;
    assert ([q] + ([a, b] + rest))[1..] == [a, b] + rest;
  }

  lemma Flatten(q: Stop, s: Stop, x: seq<Stop>)
    ensures [q] + ([s] + x) == [q, s] + x
  {}

  lemma FlattenThree(q: Stop, a: Stop, b: Stop, x: seq<Stop>)
    ensures [q, a] + ([b] + x) == [q] + ([a, b] + x)
  {}

  /** Keeping either one of two neighbours never lengthens a path. */
  lemma KeepOne(dist: Distance, q: Stop, a: Stop, b: Stop, s: Stop, rest: seq<Stop>)
    requires Metric(dist) && (s == a || s == b)
    ensures Span(dist, [q, s] + rest) <= Span(dist, [q] + ([a, b] + rest))
  {
    if s == a {
      DropAfter(dist, q, a, b, rest);
    } else {
      var tail := [b] + rest;
      Shortcut(dist, q, a, tail);
      FlattenThree(q, a, b, rest);
      Flatten(q, b, rest);
    }
  }

  lemma SameFirstLeg(dist: Distance, q: Stop, s: Stop, x: seq<Stop>, y: seq<Stop>)
    requires Span(dist, [s] + x) <= Span(dist, [s] + y)
    ensures Span(dist, [q, s] + x) <= Span(dist, [q, s] + y)
  {
    assert ([q, s] + x)[1..] == [s] + x && ([q, s] + y)[1..] == [s] + y;
  }

  lemma {:induction false} SurvivorsAreShorterFrom(dist: Distance, q: Stop, p: seq<Stop>)
    requires Metric(dist)
    ensures Span(dist, [q] + Survivors(p)) <= Span(dist, [q] + p)
    decreases |p|
  {
    if |p| >= 2 {
      var s, rest := Survivors(p)[0], p[2..];
      SurvivorsAreShorterFrom(dist, s, rest);
      SameFirstLeg(dist, q, s, Survivors(rest), rest);
      KeepOne(dist, q, p[0], p[1], s, rest);
      Flatten(q, s, Survivors(rest));
      assert p == [p[0], p[1]] + rest;
    }
  }

  lemma SurvivorsAreShorter(dist: Distance, p: seq<Stop>)
    requires Metric(dist)
    ensures Span(dist, Survivors(p)) <= Span(dist, p)
  {
    if |p| >= 2 {
      var s, rest := Survivors(p)[0], p[2..];
      SurvivorsAreShorterFrom(dist, s, rest);
      assert Survivors(p) == [s] + Survivors(rest);
      assert p == [p[0], p[1]] + rest;
      if s == p[0] {
        Shortcut(dist, p[0], p[1], rest);
      } else {
        assert p[1..] == [s] + rest;
        MetricFacts(dist, p[0].at, p[1].at, p[0].at);
      }
    }
  }

  /** One halving pays for the legs it drops with one path length. */
  lemma {:induction false} HalvingPays(dist: Distance, p: seq<Stop>)
    requires Metric(dist) && Spread(dist, p)
    ensures LegSum(p) <= Span(dist, p) + LegSum(Survivors(p))
  {
    if |p| < 2 {
      SpanNonNegative(dist, p);
    } else {
      var rest := p[2..];
      assert p[1..][1..] == rest;
      HalvingPays(dist, rest);
      assert LegSum(p) == p[0].leg + p[1].leg + LegSum(rest);
      assert Survivors(p)[1..] == Survivors(rest);
      assert Far(dist, p[0], p[1]) by { assert p[1] == p[1..][0]; }
      if rest != [] {
        MetricFacts(dist, p[1].at, p[2].at, p[1].at);
      } else {
        SpanNonNegative(dist, p[1..]);
      }
    }
  }

  /** Halvings until one stop is left. */
  function Rounds(n: nat): nat { if n < 2 then 0 else 1 + Rounds((n + 1) / 2) }

  predicate LegsAtMost(p: seq<Stop>, most: real) { forall q :: q in p ==> q.leg <= most }

  lemma {:induction false} HalvingBound(dist: Distance, p: seq<Stop>, most: real)
    requires Metric(dist) && Spread(dist, p)
    requires 0.0 <= most && LegsAtMost(p, most)
    ensures LegSum(p) <= Times(Rounds(|p|), Span(dist, p)) + most
    decreases |p|
  {
    if |p| < 2 {
      assert p != [] ==> p[0] in p && p[1..] == [];
    } else {
      var s := Survivors(p);
      assert LegsAtMost(s, most) by {
        forall q | q in s ensures q.leg <= most { SurvivorsAreStops(p, q); }
      }
      SurvivorsSpread(dist, p);
      HalvingBound(dist, s, most);
      HalvingPays(dist, p);
      SurvivorsAreShorter(dist, p);
      TimesMono(Rounds(|s|), Span(dist, s), Span(dist, p));
    }
  }

  function Pow2(n: nat): nat { if n == 0 then 1 else 2 * Pow2(n - 1) }

  /** Rounds(n) is the ceiling of log2(n): the least r with n <= 2^r. */
  lemma {:induction false} RoundsIsCeilLog2(n: nat, r: nat)
    requires n > 0
    ensures n <= Pow2(r) <==> Rounds(n) <= r
  {
    if n >= 2 && r > 0 {
      RoundsIsCeilLog2((n + 1) / 2, r - 1);
    } else if n >= 2 {
      assert Pow2(0) == 1;
    } else {
      PowPositive(r);
    }
  }

  lemma PowPositive(r: nat)
    ensures Pow2(r) >= 1
  {}

  // ----- Any other ordering is an ordering of the same stops -----

  lemma PlacesRemove(stops: seq<Stop>, k: nat)
    requires k < |stops|
    ensures Places(Remove(stops, k)) == Remove(Places(stops), k)
  {}

  lemma {:induction false} Arrange(stops: seq<Stop>, other: seq<Waypoint>) returns (p: seq<Stop>)
    requires multiset(Places(stops)) == multiset(other)
    ensures Places(p) == other && multiset(p) == multiset(stops)
    decreases |other|
  {
    if other == [] {
      p := [];
      assert |multiset(Places(stops))| == 0 && stops == [];
    } else {
      var k := MatchHead(Places(stops), other);
      PlacesRemove(stops, k);
      var rest := Arrange(Remove(stops, k), other[1..]);
      p := [stops[k]] + rest;
      RemoveMultiset(stops, k);
      assert p[1..] == rest && Places(p) == [other[0]] + other[1..];
    }
  }

  lemma {:induction false} SpreadPair(dist: Distance, a: seq<Stop>, x: Stop, q: Stop)
    requires Metric(dist) && Spread(dist, a) && multiset{x, q} <= multiset(a)
    ensures Far(dist, x, q)
  {
    assert a == [a[0]] + a[1..];
    MetricFacts(dist, x.at, q.at, x.at);
    if a[0] == x {
      assert q in multiset(a[1..]);
      assert q in a[1..];
    } else if a[0] == q {
      assert x in multiset(a[1..]);
      assert x in a[1..] && Far(dist, q, x);
    } else {
      assert multiset{x, q} <= multiset(a[1..]);
      SpreadPair(dist, a[1..], x, q);
    }
  }

  /** Spread follows from its pairs, whatever their order. */
  lemma {:induction false} SpreadFromPairs(dist: Distance, b: seq<Stop>)
    requires forall x, q :: multiset{x, q} <= multiset(b) ==> Far(dist, x, q)
    ensures Spread(dist, b)
    decreases |b|
  {
    if b != [] {
      assert b == [b[0]] + b[1..];
      forall q | q in b[1..] ensures Far(dist, b[0], q) {
        assert q in multiset(b[1..]);
        assert multiset{b[0], q} <= multiset(b);
      }
      forall x, q | multiset{x, q} <= multiset(b[1..]) ensures Far(dist, x, q) {
        assert multiset{x, q} <= multiset(b);
      }
      SpreadFromPairs(dist, b[1..]);
    }
  }

  // ----- No leg is longer than a path through all stops -----

  lemma {:induction false} FromHead(dist: Distance, p: seq<Stop>, q: Stop)
    requires Metric(dist) && q in p
    ensures Gap(dist, p[0].at, q.at) <= Span(dist, p)
  {
    SpanNonNegative(dist, p);
    SelfGap(dist, q.at);
    if q != p[0] {
      FromHead(dist, p[1..], q);
      MetricFacts(dist, p[0].at, p[1].at, q.at);
    }
  }

  lemma {:induction false} WithinPath(dist: Distance, p: seq<Stop>, a: Stop, b: Stop)
    requires Metric(dist) && a in p && b in p
    ensures Gap(dist, a.at, b.at) <= Span(dist, p)
  {
    MetricFacts(dist, a.at, b.at, a.at);
    if a == p[0] {
      FromHead(dist, p, b);
    } else if b == p[0] {
      FromHead(dist, p, a);
    } else {
      WithinPath(dist, p[1..], a, b);
      MetricFacts(dist, p[0].at, p[1].at, p[0].at);
    }
  }

  lemma {:induction false} LegIsGap(dist: Distance, current: Waypoint, route: seq<Waypoint>, s: Stop) returns (t: Stop)
    requires Metric(dist) && s in Stops(dist, current, route)
    ensures t in Stops(dist, current, route) && s.leg == Gap(dist, s.at, t.at)
    decreases |route|
  {
    var all := Stops(dist, current, route);
    if s == all[0] {
      t := all[if route == [] then 0 else 1];
      SelfGap(dist, current);
    } else {
      t := LegIsGap(dist, route[0], route[1..], s);
    }
  }

  lemma SelfGap(dist: Distance, a: Waypoint)
    requires Metric(dist)
    ensures Gap(dist, a, a) == 0.0
  {
    assert Symmetric(dist, a.At(), a.At());
  }

  // ----- The theorem -----

  lemma RatioFrom(dist: Distance, stops: seq<Stop>, p: seq<Stop>, current: Waypoint, route: seq<Waypoint>)
    requires Metric(dist) && LegsAreNearest(dist, current, route)
    requires stops == Stops(dist, current, route) && multiset(p) == multiset(stops)
    ensures LegSum(p) <= Times(Rounds(|p|), Span(dist, p)) + Span(dist, p)
  {
    GreedyStopsSpread(dist, current, route);
    forall x, q | multiset{x, q} <= multiset(p) ensures Far(dist, x, q) {
      SpreadPair(dist, stops, x, q);
    }
    SpreadFromPairs(dist, p);
    forall s | s in p ensures s.leg <= Span(dist, p) {
      assert s in multiset(stops);
      var t := LegIsGap(dist, current, route, s);
      assert t in multiset(p);
      WithinPath(dist, p, s, t);
    }
    SpanNonNegative(dist, p);
    HalvingBound(dist, p, Span(dist, p));
  }

  lemma {:induction false} LegSumOfMultiset(a: seq<Stop>, b: seq<Stop>)
    requires multiset(a) == multiset(b)
    ensures LegSum(a) == LegSum(b) && |a| == |b|
    decreases |b|
  {
    assert |multiset(a)| == |multiset(b)|;
    if b != [] {
      var k := MatchHead(a, b);
      LegSumOfMultiset(Remove(a, k), b[1..]);
      LegSumRemove(a, k);
    }
  }

  lemma {:induction false} LegSumRemove(a: seq<Stop>, k: nat)
    requires k < |a|
    ensures LegSum(a) == a[k].leg + LegSum(Remove(a, k))
  {
    if k > 0 {
      LegSumRemove(a[1..], k - 1);
      assert Remove(a, k)[1..] == Remove(a[1..], k - 1);
    } else {
      assert Remove(a, 0) == a[1..];
    }
  }

  lemma TimesMoreRounds(m: nat, n: nat, x: real)
    requires m <= n && x >= 0.0
    ensures Times(m, x) <= Times(n, x)
    decreases n - m
  {
    if m < n { TimesMoreRounds(m + 1, n, x); }
  }

  lemma RoundsToProduct(length: real, best: real, k: nat, r: nat)
    requires length <= Times(k, best) + best && k <= r && best >= 0.0
    ensures length <= (r + 1) as real * best
  {
    TimesMoreRounds(k, r, best);
    TimesIsProduct(r + 1, best);
  }

  lemma GreedyInRounds(dist: Distance, depot: Waypoint, ws: seq<Waypoint>, other: seq<Waypoint>)
    requires Metric(dist) && multiset(other) == multiset(ws)
    ensures var best := PathLength(dist, [depot] + other);
            && best >= 0.0
            && PathLength(dist, [depot] + Greedy(dist, depot, ws)) <= Times(Rounds(|ws| + 1), best) + best
  {
    GreedyIsPermutation(dist, depot, ws);
    GreedyLegsAreNearest(dist, depot, ws);
    RouteInRounds(dist, depot, Greedy(dist, depot, ws), other);
  }

  lemma RouteInRounds(dist: Distance, depot: Waypoint, route: seq<Waypoint>, other: seq<Waypoint>)
    requires Metric(dist) && multiset(other) == multiset(route) && LegsAreNearest(dist, depot, route)
    ensures var best := PathLength(dist, [depot] + other);
            && best >= 0.0
            && PathLength(dist, [depot] + route) <= Times(Rounds(|route| + 1), best) + best
  {
    var stops := Stops(dist, depot, route);
    LegSumIsRouteLength(dist, depot, route);
    PlacesOfStops(dist, depot, route);
    var p := Arrange(stops, [depot] + other);
    RatioFrom(dist, stops, p, depot, route);
    LegSumOfMultiset(stops, p);
    SpanIsPathLength(dist, p);
    SpanNonNegative(dist, p);
  }

  /** Over any metric, the nearest-neighbour route from the depot is at most r + 1 times as long as
      every other ordering of the same waypoints, for every r with n + 1 <= 2^r; the least such r is
      the ceiling of log2(n + 1). */
  lemma GreedyWithinLogOfEveryOrder(dist: Distance, depot: Waypoint, ws: seq<Waypoint>, other: seq<Waypoint>,
                                    r: nat, greedy: real, length: real)
    requires Metric(dist) && multiset(other) == multiset(ws)
    requires greedy == PathLength(dist, [depot] + Greedy(dist, depot, ws))
    requires length == PathLength(dist, [depot] + other)
    requires |ws| + 1 <= Pow2(r)
    ensures greedy <= (r + 1) as real * length
  {
    GreedyInRounds(dist, depot, ws, other);
    RoundsIsCeilLog2(|ws| + 1, r);
    RoundsToProduct(greedy, length, Rounds(|ws| + 1), r);
  }

  lemma {:induction false} PlacesOfStops(dist: Distance, current: Waypoint, route: seq<Waypoint>)
    ensures Places(Stops(dist, current, route)) == [current] + route
    decreases |route|
  {
    if route != [] {
      PlacesOfStops(dist, route[0], route[1..]);
      var stops, rest := Stops(dist, current, route), Stops(dist, route[0], route[1..]);
      assert stops == [stops[0]] + rest;
      assert Places(stops) == [current] + Places(rest);
    }
  }
}
