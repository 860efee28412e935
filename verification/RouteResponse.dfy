/** What the distance in a route response means, whether it was computed or came from the cache
    (fleet_routing_api/app/api/routes.py, app/routing/optimizer.py). */
module RouteResponse {
  import opened OrderIndependence
  import opened Optimizer
  import opened RouteCache
  import opened RouteRatio
  import opened Sequences

  /** The gaps between the first n + 1 stops, added up. */
  function GapSum(dist: Distance, stops: seq<Waypoint>, n: nat): real
    requires n == 0 || n < |stops|
  {
    if n == 0 then 0.0 else GapSum(dist, stops, n - 1) + dist(stops[n - 1].At(), stops[n].At())
  }

  /** Length of the whole path: every gap between neighbouring stops once. */
  function TourLength(dist: Distance, depot: Waypoint, ordered: seq<Waypoint>): real {
    GapSum(dist, [depot] + ordered, |ordered|)
  }

  lemma {:induction false} GapSumFromHead(dist: Distance, stops: seq<Waypoint>, n: nat)
    requires 0 < n < |stops|
    ensures GapSum(dist, stops, n) == dist(stops[0].At(), stops[1].At()) + GapSum(dist, stops[1..], n - 1)
  {
    if n > 1 { GapSumFromHead(dist, stops, n - 1); }
  }

  lemma {:induction false} PathLengthIsGapSum(dist: Distance, stops: seq<Waypoint>)
    requires stops != []
    ensures PathLength(dist, stops) == GapSum(dist, stops, |stops| - 1)
    decreases |stops|
  {
    if |stops| >= 2 {
      GapSumFromHead(dist, stops, |stops| - 1);
      PathLengthIsGapSum(dist, stops[1..]);
    }
  }

  /** The distance that belongs to a route: the rounded length of the tour from the depot. */
  predicate Measures(geo: Geo, depot: Waypoint, p: Payload) {
    p.distance == if p.ordered == [] then 0.0 else geo.round3(TourLength(geo.dist, depot, p.ordered))
  }

  lemma FreshMeasures(geo: Geo, d1: Waypoint, ws: seq<Waypoint>, d2: Waypoint)
    requires d1.At() == d2.At()
    ensures Measures(geo, d2, Fresh(geo, d1, ws))
  {
    var ordered := Greedy(geo.dist, d1, ws);
    CoordinatesCons(d1, ordered);
    CoordinatesCons(d2, ordered);
    PathLengthFromCoordinates(geo.dist, [d1] + ordered, [d2] + ordered);
    PathLengthIsGapSum(geo.dist, [d2] + ordered);
  }

  /** A response stems from some request with the same depot and coordinates. */
  lemma AnswerSource(geo: Geo, ops: seq<Op>, r: Request) returns (ws: seq<Waypoint>)
    ensures multiset(Coordinates(ws)) == multiset(Coordinates(r.wps))
    ensures Answer(geo, After(geo, map[], ops), r).payload.ordered == Greedy(geo.dist, r.Depot(), ws)
    ensures Measures(geo, r.Depot(), Answer(geo, After(geo, map[], ops), r).payload)
  {
    var store := After(geo, map[], ops);
    CacheStaysSound(geo, map[], ops);
    if r.online && r.CacheKey() in store {
      assert Computed(geo, r.CacheKey(), store[r.CacheKey()]);
      var first: Request :| first.CacheKey() == r.CacheKey()
                            && store[r.CacheKey()] == Fresh(geo, first.Depot(), first.wps);
      SameKey(first.Depot(), first.wps, r.Depot(), r.wps);
      assert first.Depot() == r.Depot();
      ws := first.wps;
    } else {
      ws := r.wps;
    }
    FreshMeasures(geo, r.Depot(), ws, r.Depot());
  }

  /** Over any run every response, computed or cached, tie or no tie, carries the rounded length of the
      very route it carries, the leg from the depot included. */
  lemma DistanceIsOfTheRoute(geo: Geo, ops: seq<Op>, r: Request)
    ensures Measures(geo, r.Depot(), Answer(geo, After(geo, map[], ops), r).payload)
  {
    var _ := AnswerSource(geo, ops, r);
  }

  // ----- How long that route is -----

  /** Distances are reported as they are. */
  ghost predicate Unrounded(geo: Geo) { forall x :: geo.round3(x) == x }

  /** The waypoints of a request put in the order of some places. */
  lemma {:induction false} Rearrange(ws: seq<Waypoint>, places: seq<Waypoint>) returns (arranged: seq<Waypoint>)
    requires multiset(Coordinates(ws)) == multiset(Coordinates(places))
    ensures multiset(arranged) == multiset(ws) && Coordinates(arranged) == Coordinates(places)
    decreases |places|
  {
    assert |multiset(Coordinates(ws))| == |multiset(Coordinates(places))|;
    if places == [] {
      arranged := [];
    } else {
      var j := Occurs(places, ws, 0);
      CoordinatesRemove(ws, j);
      CoordinatesRemove(places, 0);
      RemoveMultiset(Coordinates(ws), j);
      RemoveMultiset(Coordinates(places), 0);
      assert Remove(places, 0) == places[1..];
      var rest := Rearrange(Remove(ws, j), places[1..]);
      arranged := [ws[j]] + rest;
      RemoveMultiset(ws, j);
      CoordinatesCons(ws[j], rest);
      CoordinatesCons(places[0], places[1..]);
      assert places == [places[0]] + places[1..];
    }
  }

  lemma TourIsPath(dist: Distance, depot: Waypoint, a: seq<Waypoint>, b: seq<Waypoint>)
    requires Coordinates(a) == Coordinates(b)
    ensures PathLength(dist, [depot] + a) == TourLength(dist, depot, b)
  {
    assert |a| == |Coordinates(a)| == |b|;
    CoordinatesCons(depot, a);
    CoordinatesCons(depot, b);
    PathLengthFromCoordinates(dist, [depot] + a, [depot] + b);
    PathLengthIsGapSum(dist, [depot] + b);
  }

  lemma UnroundedDistance(geo: Geo, depot: Waypoint, p: Payload)
    requires Unrounded(geo) && Measures(geo, depot, p)
    ensures p.distance == PathLength(geo.dist, [depot] + p.ordered)
  {
    TourIsPath(geo.dist, depot, p.ordered, p.ordered);
  }

  lemma RouteWithinLog(dist: Distance, depot: Waypoint, ws: seq<Waypoint>, other: seq<Waypoint>, k: nat,
                       greedy: real, length: real)
    requires Metric(dist) && multiset(Coordinates(other)) == multiset(Coordinates(ws)) && |ws| + 1 <= Pow2(k)
    requires greedy == PathLength(dist, [depot] + Greedy(dist, depot, ws))
    requires length == TourLength(dist, depot, other)
    ensures greedy <= (k + 1) as real * length
  {
    var arranged := Rearrange(ws, other);
    TourIsPath(dist, depot, arranged, other);
    GreedyWithinLogOfEveryOrder(dist, depot, ws, arranged, k, greedy, length);
  }

  /** The distance of a response is the length of a greedy route through the requested places. */
  lemma DistanceIsGreedy(geo: Geo, ops: seq<Op>, r: Request, p: Payload) returns (ws: seq<Waypoint>)
    requires Unrounded(geo) && p == Answer(geo, After(geo, map[], ops), r).payload
    ensures |ws| == |r.wps| && multiset(Coordinates(ws)) == multiset(Coordinates(r.wps))
    ensures p.ordered == Greedy(geo.dist, r.Depot(), ws)
    ensures p.distance == PathLength(geo.dist, [r.Depot()] + Greedy(geo.dist, r.Depot(), ws))
  {
    ws := AnswerSource(geo, ops, r);
    assert |multiset(Coordinates(ws))| == |ws| && |multiset(Coordinates(r.wps))| == |r.wps|;
    UnroundedDistance(geo, r.Depot(), p);
  }

  /** Over any metric and any run of the service, the distance of a response is at most k + 1 times the
      length of every tour through the requested places, for every k with n + 1 <= 2^k. */
  lemma ResponseWithinLog(geo: Geo, ops: seq<Op>, r: Request, other: seq<Waypoint>, k: nat, p: Payload, length: real)
    requires Metric(geo.dist) && Unrounded(geo) && |r.wps| + 1 <= Pow2(k)
    requires multiset(Coordinates(other)) == multiset(Coordinates(r.wps))
    requires p == Answer(geo, After(geo, map[], ops), r).payload
    requires length == TourLength(geo.dist, r.Depot(), other)
    ensures p.distance <= (k + 1) as real * length
  {
    var ws := DistanceIsGreedy(geo, ops, r, p);
    RouteWithinLog(geo.dist, r.Depot(), ws, other, k, p.distance, length);
  }

  lemma {:induction false} PathReaches(dist: Distance, start: Waypoint, route: seq<Waypoint>, w: Waypoint)
    requires Metric(dist) && w in route
    ensures PathLength(dist, [start] + route) >= Gap(dist, start, w)
    decreases |route|
  {
    var path := [start] + route;
    var next, rest := route[0], route[1..];
    assert path[1..] == route == [next] + rest;
    MetricFacts(dist, start, next, w);
    if w in rest {
      PathReaches(dist, next, rest, w);
    } else {
      PathNonNegative(dist, route);
    }
  }

  lemma {:induction false} PathNonNegative(dist: Distance, path: seq<Waypoint>)
    requires Metric(dist)
    ensures PathLength(dist, path) >= 0.0
    decreases |path|
  {
    if |path| >= 2 {
      MetricFacts(dist, path[0], path[1], path[1]);
      PathNonNegative(dist, path[1..]);
    }
  }

  /** Nor is it less than the way from the depot to any requested waypoint. */
  lemma ResponseReachesEveryWaypoint(geo: Geo, ops: seq<Op>, r: Request, w: Waypoint)
    requires Metric(geo.dist) && Unrounded(geo) && w in r.wps
    ensures Answer(geo, After(geo, map[], ops), r).payload.distance >= geo.dist(r.depot, w.At())
  {
    var p := Answer(geo, After(geo, map[], ops), r).payload;
    var ws := DistanceIsGreedy(geo, ops, r, p);
    var i :| 0 <= i < |r.wps| && r.wps[i] == w;
    var j := Occurs(r.wps, ws, i);
    GreedyIsPermutation(geo.dist, r.Depot(), ws);
    assert ws[j] in multiset(p.ordered);
    PathReaches(geo.dist, r.Depot(), p.ordered, ws[j]);
  }
}
