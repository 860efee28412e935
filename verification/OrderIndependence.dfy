/** When the greedy route does not depend on the order in which the waypoints were given. */
module OrderIndependence {
  import opened Sequences
  import opened Optimizer

  function Coordinates(ws: seq<Waypoint>): seq<Place> { seq(|ws|, i requires 0 <= i < |ws| => ws[i].At()) }

  /** At every step of the greedy route, stops at the least distance share their coordinates. */
  ghost predicate TieFree(dist: Distance, current: Waypoint, ws: seq<Waypoint>)
    decreases |ws|
  {
    ws != [] ==>
      var i := FirstNearest(dist, current, ws);
      && (forall w :: w in ws && Gap(dist, current, w) == Gap(dist, current, ws[i]) ==> w.At() == ws[i].At())
      && TieFree(dist, ws[i], Remove(ws, i))
  }

  lemma CoordinatesRemove(ws: seq<Waypoint>, i: nat)
    requires i < |ws|
    ensures Coordinates(Remove(ws, i)) == Remove(Coordinates(ws), i)
    ensures multiset(Coordinates(ws)) == multiset{ws[i].At()} + multiset(Coordinates(Remove(ws, i)))
  {
    RemoveMultiset(Coordinates(ws), i);
  }

  lemma Occurs(a: seq<Waypoint>, b: seq<Waypoint>, i: nat) returns (j: nat)
    requires multiset(Coordinates(a)) == multiset(Coordinates(b)) && i < |a|
    ensures j < |b| && b[j].At() == a[i].At()
  {
    assert Coordinates(a)[i] in multiset(Coordinates(b));
    j :| 0 <= j < |b| && Coordinates(b)[j] == a[i].At();
  }

  /** The nearest coordinates of two orderings agree. */
  lemma SameNearest(dist: Distance, c1: Waypoint, c2: Waypoint, ws1: seq<Waypoint>, ws2: seq<Waypoint>)
    requires c1.At() == c2.At() && multiset(Coordinates(ws1)) == multiset(Coordinates(ws2))
    requires ws1 != [] && ws2 != [] && TieFree(dist, c1, ws1)
    ensures ws1[FirstNearest(dist, c1, ws1)].At() == ws2[FirstNearest(dist, c2, ws2)].At()
  {
    var i, j := FirstNearest(dist, c1, ws1), FirstNearest(dist, c2, ws2);
    var k := Occurs(ws2, ws1, j);
    var l := Occurs(ws1, ws2, i);
    assert Gap(dist, c1, ws1[i]) <= Gap(dist, c1, ws1[k]) == Gap(dist, c2, ws2[j]);
    assert Gap(dist, c2, ws2[j]) <= Gap(dist, c2, ws2[l]) == Gap(dist, c1, ws1[i]);
    assert ws1[k] in ws1;
  }

  lemma {:induction false} TieFreeIsSufficient(dist: Distance, c1: Waypoint, c2: Waypoint,
                                                 ws1: seq<Waypoint>, ws2: seq<Waypoint>)
    requires c1.At() == c2.At() && multiset(Coordinates(ws1)) == multiset(Coordinates(ws2))
    requires TieFree(dist, c1, ws1)
    ensures Coordinates(Greedy(dist, c1, ws1)) == Coordinates(Greedy(dist, c2, ws2))
    decreases |ws1|
  {
    assert |multiset(Coordinates(ws1))| == |multiset(Coordinates(ws2))|;
    if ws1 != [] {
      var i, j := FirstNearest(dist, c1, ws1), FirstNearest(dist, c2, ws2);
      SameNearest(dist, c1, c2, ws1, ws2);
      CoordinatesRemove(ws1, i);
      CoordinatesRemove(ws2, j);
      var r1, r2 := multiset(Coordinates(Remove(ws1, i))), multiset(Coordinates(Remove(ws2, j)));
      assert r1 == multiset(Coordinates(ws1)) - multiset{ws1[i].At()};
      assert r2 == multiset(Coordinates(ws2)) - multiset{ws2[j].At()};
      TieFreeIsSufficient(dist, ws1[i], ws2[j], Remove(ws1, i), Remove(ws2, j));
      CoordinatesCons(ws1[i], Greedy(dist, ws1[i], Remove(ws1, i)));
      CoordinatesCons(ws2[j], Greedy(dist, ws2[j], Remove(ws2, j)));
    }
  }

  lemma CoordinatesCons(w: Waypoint, ws: seq<Waypoint>)
    ensures Coordinates([w] + ws) == [w.At()] + Coordinates(ws)
  {}

  /** A nearest stop placed first is visited first. */
  lemma NearestFirst(dist: Distance, current: Waypoint, w: Waypoint, rest: seq<Waypoint>)
    requires forall v :: v in rest ==> Gap(dist, current, w) <= Gap(dist, current, v)
    ensures Greedy(dist, current, [w] + rest) == [w] + Greedy(dist, w, rest)
  {
    var ws := [w] + rest;
    assert forall j :: 1 <= j < |ws| ==> ws[j] in rest;
    FirstNearestUnique(dist, current, ws, FirstNearest(dist, current, ws), 0);
    assert Remove(ws, 0) == rest;
  }

  lemma MoveToFront(dist: Distance, current: Waypoint, ws: seq<Waypoint>, k: nat) returns (other: seq<Waypoint>)
    requires k < |ws| && forall v :: v in ws ==> Gap(dist, current, ws[k]) <= Gap(dist, current, v)
    ensures multiset(other) == multiset(ws)
    ensures Greedy(dist, current, other) != [] && Coordinates(Greedy(dist, current, other))[0] == ws[k].At()
  {
    var rest := Remove(ws, k);
    other := [ws[k]] + rest;
    RemoveMultiset(ws, k);
    NearestFirst(dist, current, ws[k], rest);
    CoordinatesCons(ws[k], Greedy(dist, ws[k], rest));
  }

  /** With a tie, some reordering of the same waypoints is routed differently. */
  lemma {:induction false} TieMatters(dist: Distance, current: Waypoint, ws: seq<Waypoint>)
      returns (other: seq<Waypoint>)
    requires !TieFree(dist, current, ws)
    ensures multiset(other) == multiset(ws)
    ensures Coordinates(Greedy(dist, current, other)) != Coordinates(Greedy(dist, current, ws))
    decreases |ws|
  {
    var i := FirstNearest(dist, current, ws);
    CoordinatesCons(ws[i], Greedy(dist, ws[i], Remove(ws, i)));
    if TieFree(dist, ws[i], Remove(ws, i)) {
      var w :| w in ws && Gap(dist, current, w) == Gap(dist, current, ws[i]) && w.At() != ws[i].At();
      var k :| 0 <= k < |ws| && ws[k] == w;
      other := MoveToFront(dist, current, ws, k);
      assert Coordinates(Greedy(dist, current, other))[0] != Coordinates(Greedy(dist, current, ws))[0];
    } else {
      var rest := TieMatters(dist, ws[i], Remove(ws, i));
      other := [ws[i]] + rest;
      RemoveMultiset(ws, i);
      forall v | v in rest ensures Gap(dist, current, ws[i]) <= Gap(dist, current, v) {
        assert v in multiset(rest);
        assert v in multiset(ws);
      }
      NearestFirst(dist, current, ws[i], rest);
      CoordinatesCons(ws[i], Greedy(dist, ws[i], rest));
      assert Coordinates(Greedy(dist, current, other))[1..] == Coordinates(Greedy(dist, ws[i], rest));
      assert Coordinates(Greedy(dist, current, ws))[1..] == Coordinates(Greedy(dist, ws[i], Remove(ws, i)));
    }
  }

  lemma {:induction false} SameMultisetSameCoordinates(a: seq<Waypoint>, b: seq<Waypoint>)
    requires multiset(a) == multiset(b)
    ensures multiset(Coordinates(a)) == multiset(Coordinates(b))
    decreases |b|
  {
    assert |multiset(a)| == |multiset(b)|;
    if b != [] {
      var k := MatchHead(a, b);
      CoordinatesRemove(a, k);
      CoordinatesRemove(b, 0);
      assert Remove(b, 0) == b[1..];
      SameMultisetSameCoordinates(Remove(a, k), b[1..]);
    }
  }

  /** Every ordering of the same coordinates is routed along the same coordinates. */
  ghost predicate OrderIndependent(dist: Distance, depot: Waypoint, ws: seq<Waypoint>) {
    forall other: seq<Waypoint> :: multiset(Coordinates(other)) == multiset(Coordinates(ws)) ==>
      Coordinates(Greedy(dist, depot, other)) == Coordinates(Greedy(dist, depot, ws))
  }

  /** The greedy route is independent of the input order exactly when it meets no tie between
      differently located stops. */
  lemma OrderIndependentIffTieFree(dist: Distance, depot: Waypoint, ws: seq<Waypoint>)
    ensures OrderIndependent(dist, depot, ws) <==> TieFree(dist, depot, ws)
  {
    if TieFree(dist, depot, ws) {
      forall other: seq<Waypoint> | multiset(Coordinates(other)) == multiset(Coordinates(ws))
        ensures Coordinates(Greedy(dist, depot, other)) == Coordinates(Greedy(dist, depot, ws))
      {
        TieFreeIsSufficient(dist, depot, depot, ws, other);
      }
    } else {
      var other := TieMatters(dist, depot, ws);
      SameMultisetSameCoordinates(other, ws);
    }
  }

  /** `p` is not equidistant from v and w unless they share their coordinates. */
  predicate TellsApart(dist: Distance, p: Waypoint, v: Waypoint, w: Waypoint) {
    Gap(dist, p, v) == Gap(dist, p, w) ==> v.At() == w.At()
  }

  /** No one of `points` is equidistant from two differently located waypoints. */
  ghost predicate NoEquidistantPair(dist: Distance, points: set<Waypoint>, ws: seq<Waypoint>) {
    forall p, v, w {:trigger TellsApart(dist, p, v, w)} ::
      p in points && v in ws && w in ws ==> TellsApart(dist, p, v, w)
  }

  /** A condition on the request alone that rules ties out: no point of the depot and the waypoints is
      equidistant from two differently located waypoints. */
  lemma {:induction false} NoEquidistantPairMeansTieFree(dist: Distance, points: set<Waypoint>,
                                                           current: Waypoint, ws: seq<Waypoint>)
    requires current in points && (forall w :: w in ws ==> w in points)
    requires NoEquidistantPair(dist, points, ws)
    ensures TieFree(dist, current, ws)
    decreases |ws|
  {
    if ws != [] {
      var i := FirstNearest(dist, current, ws);
      forall w | w in ws && Gap(dist, current, w) == Gap(dist, current, ws[i]) ensures w.At() == ws[i].At() {
        assert TellsApart(dist, current, w, ws[i]);
      }
      assert forall w :: w in Remove(ws, i) ==> w in ws;
      NoEquidistantPairMeansTieFree(dist, points, ws[i], Remove(ws, i));
    }
  }
}
