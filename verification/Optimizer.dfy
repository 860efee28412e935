/** Greedy nearest-neighbour routing (fleet_routing_api/app/routing/optimizer.py). The great-circle
    distance is a parameter: the code uses nothing of it but its values. */
module Optimizer {
  import opened Sequences

  datatype Place = Place(lat: real, lon: real)

  datatype Waypoint = Waypoint(id: int, lat: real, lon: real) {
    function At(): Place { Place(lat, lon) }
  }

  type Distance = (Place, Place) -> real

  function Gap(dist: Distance, a: Waypoint, b: Waypoint): real { dist(a.At(), b.At()) }

  predicate Triangle(dist: Distance, x: Place, y: Place, z: Place) { dist(x, z) <= dist(x, y) + dist(y, z) }

  predicate Symmetric(dist: Distance, x: Place, y: Place) { dist(x, y) == dist(y, x) && dist(x, x) == 0.0 }

  /** A distance as great circles have it: distinct coordinates may still be zero apart. */
  ghost predicate Metric(dist: Distance) {
    && (forall x, y :: Symmetric(dist, x, y))
    && (forall x, y, z :: Triangle(dist, x, y, z))
  }

  /** Length of the open path through the given stops. */
  function PathLength(dist: Distance, stops: seq<Waypoint>): real {
    if |stops| < 2 then 0.0 else Gap(dist, stops[0], stops[1]) + PathLength(dist, stops[1..])
  }

  /** Rounding to three decimals is a parameter too. */
  function TotalRouteDistance(dist: Distance, round3: real -> real, depot: Waypoint, ordered: seq<Waypoint>): real {
    if ordered == [] then 0.0 else round3(PathLength(dist, [depot] + ordered))
  }

  /** `i` is the first index at which the distance from `current` is least. */
  predicate IsFirstNearest(dist: Distance, current: Waypoint, ws: seq<Waypoint>, i: nat) {
    && i < |ws|
    && (forall j :: 0 <= j < |ws| ==> Gap(dist, current, ws[i]) <= Gap(dist, current, ws[j]))
    && (forall j :: 0 <= j < i ==> Gap(dist, current, ws[i]) < Gap(dist, current, ws[j]))
  }

  function FirstNearest(dist: Distance, current: Waypoint, ws: seq<Waypoint>): (i: nat)
    requires ws != []
    ensures IsFirstNearest(dist, current, ws, i)
  {
    if |ws| == 1 then 0
    else
      var k := FirstNearest(dist, current, ws[1..]) + 1;
      if Gap(dist, current, ws[0]) <= Gap(dist, current, ws[k]) then 0 else k
  }

  /** The greedy route from `current` through all of `ws`. */
  function Greedy(dist: Distance, current: Waypoint, ws: seq<Waypoint>): (route: seq<Waypoint>)
    ensures |route| == |ws|
    decreases |ws|
  {
    if ws == [] then []
    else
      var i := FirstNearest(dist, current, ws);
      [ws[i]] + Greedy(dist, ws[i], Remove(ws, i))
  }

  /** `distances.index(min(distances))`. */
  method IndexOfMin(distances: seq<real>) returns (idx: nat)
    requires distances != []
    ensures idx < |distances|
    ensures forall j :: 0 <= j < |distances| ==> distances[idx] <= distances[j]
    ensures forall j :: 0 <= j < idx ==> distances[idx] < distances[j]
  {
    idx := 0;
    for k := 1 to |distances|
      invariant 0 <= idx < k
      invariant forall j :: 0 <= j < k ==> distances[idx] <= distances[j]
      invariant forall j :: 0 <= j < idx ==> distances[idx] < distances[j]
    {
      if distances[k] < distances[idx] { idx := k; }
    }
  }

  lemma FirstNearestUnique(dist: Distance, current: Waypoint, ws: seq<Waypoint>, i: nat, j: nat)
    requires IsFirstNearest(dist, current, ws, i) && IsFirstNearest(dist, current, ws, j)
    ensures i == j
  {
    var v, w := ws[i], ws[j];
  }

  /** The routing loop: repeatedly pops the nearest remaining waypoint. */
  method NearestNeighborRoute(dist: Distance, depot: Waypoint, waypoints: seq<Waypoint>)
      returns (ordered: seq<Waypoint>)
    ensures ordered == Greedy(dist, depot, waypoints)
  {
    if waypoints == [] { return []; }
    var remaining := waypoints;
    var current := depot;
    ordered := [];
    while remaining != []
      invariant ordered + Greedy(dist, current, remaining) == Greedy(dist, depot, waypoints)
      decreases |remaining|
    {
      var distances := seq(|remaining|, j requires 0 <= j < |remaining| => Gap(dist, current, remaining[j]));
      var idx := IndexOfMin(distances);
      assert IsFirstNearest(dist, current, remaining, idx) by {
        assert forall j :: 0 <= j < |remaining| ==> distances[j] == Gap(dist, current, remaining[j]);
      }
      FirstNearestUnique(dist, current, remaining, idx, FirstNearest(dist, current, remaining));
      current := remaining[idx];
      remaining := Remove(remaining, idx);
      ordered := ordered + [current];
    }
  }

  /** The route visits every waypoint exactly as often as it was requested. */
  lemma {:induction false} GreedyIsPermutation(dist: Distance, current: Waypoint, ws: seq<Waypoint>)
    ensures multiset(Greedy(dist, current, ws)) == multiset(ws)
    decreases |ws|
  {
    if ws != [] {
      var i := FirstNearest(dist, current, ws);
      GreedyIsPermutation(dist, ws[i], Remove(ws, i));
      RemoveMultiset(ws, i);
    }
  }

  /** Every leg of a route is no longer than the way from its start to any stop still ahead. */
  ghost predicate LegsAreNearest(dist: Distance, current: Waypoint, route: seq<Waypoint>)
    decreases |route|
  {
    route != [] ==>
      && (forall w :: w in route ==> Gap(dist, current, route[0]) <= Gap(dist, current, w))
      && LegsAreNearest(dist, route[0], route[1..])
  }

  lemma {:induction false} GreedyLegsAreNearest(dist: Distance, current: Waypoint, ws: seq<Waypoint>)
    ensures LegsAreNearest(dist, current, Greedy(dist, current, ws))
    decreases |ws|
  {
    if ws != [] {
      var i, route := FirstNearest(dist, current, ws), Greedy(dist, current, ws);
      GreedyLegsAreNearest(dist, ws[i], Remove(ws, i));
      assert route[1..] == Greedy(dist, ws[i], Remove(ws, i));
      forall w | w in route ensures Gap(dist, current, route[0]) <= Gap(dist, current, w) {
        GreedyIsPermutation(dist, current, ws);
        assert w in multiset(ws);
      }
    }
  }
}
