/** The route endpoint with its shared cache (fleet_routing_api/app/api/routes.py). Keys are the
    digest of the depot and the sorted coordinates; the digest is taken to be injective, so a key is
    modelled by what is digested. */
module RouteCache {
  import opened Sequences
  import opened Optimizer
  import opened OrderIndependence

  // ----- sorted(): lexicographic order on (lat, lon) -----

  predicate Le(a: Place, b: Place) { a.lat < b.lat || (a.lat == b.lat && a.lon <= b.lon) }

  function Insert(p: Place, s: seq<Place>): seq<Place> {
    if s == [] || Le(p, s[0]) then [p] + s else [s[0]] + Insert(p, s[1..])
  }

  function Sort(s: seq<Place>): seq<Place> {
    if s == [] then [] else Insert(s[0], Sort(s[1..]))
  }

  ghost predicate Sorted(s: seq<Place>) { s != [] ==> (forall q :: q in s ==> Le(s[0], q)) && Sorted(s[1..]) }

  lemma {:induction false} InsertSorts(p: Place, s: seq<Place>)
    requires Sorted(s)
    ensures Sorted(Insert(p, s)) && multiset(Insert(p, s)) == multiset{p} + multiset(s)
  {
    var t := Insert(p, s);
    if s == [] || Le(p, s[0]) {
      assert t[1..] == s;
      assert forall q :: q in s ==> Le(s[0], q) && Le(p, q);
    } else {
      InsertSorts(p, s[1..]);
      assert s == [s[0]] + s[1..] && t[1..] == Insert(p, s[1..]);
      forall q | q in t[1..] ensures Le(s[0], q) { assert q in multiset(t[1..]); }
    }
  }

  lemma {:induction false} SortSorts(s: seq<Place>)
    ensures Sorted(Sort(s)) && multiset(Sort(s)) == multiset(s)
  {
    if s != [] {
      SortSorts(s[1..]);
      InsertSorts(s[0], Sort(s[1..]));
      assert s == [s[0]] + s[1..];
    }
  }

  lemma {:induction false} SortedIsUnique(a: seq<Place>, b: seq<Place>)
    requires Sorted(a) && Sorted(b) && multiset(a) == multiset(b)
    ensures a == b
    decreases |a|
  {
    assert |multiset(a)| == |multiset(b)|;
    if a != [] {
      SameLeast(a, b);
      assert a == [a[0]] + a[1..] && b == [b[0]] + b[1..];
      assert multiset(a[1..]) == multiset(a) - multiset{a[0]};
      assert multiset(b[1..]) == multiset(b) - multiset{b[0]};
      SortedIsUnique(a[1..], b[1..]);
    }
  }

  lemma SameLeast(a: seq<Place>, b: seq<Place>)
    requires Sorted(a) && Sorted(b) && multiset(a) == multiset(b) && a != [] && b != []
    ensures a[0] == b[0]
  {
    assert a[0] in multiset(b) && b[0] in multiset(a);
    assert Le(a[0], b[0]) && Le(b[0], a[0]);
  }

  // ----- Keys and payloads -----

  datatype Key = Key(depot: Place, wps: seq<Place>)

  function MakeKey(depot: Waypoint, ws: seq<Waypoint>): Key { Key(depot.At(), Sort(Coordinates(ws))) }

  /** Two requests share a key exactly when they have the same depot and the same coordinates, each as
      often, in whatever order and under whatever ids. */
  lemma SameKey(d1: Waypoint, w1: seq<Waypoint>, d2: Waypoint, w2: seq<Waypoint>)
    ensures MakeKey(d1, w1) == MakeKey(d2, w2) <==>
            d1.At() == d2.At() && multiset(Coordinates(w1)) == multiset(Coordinates(w2))
  {
    SortSorts(Coordinates(w1));
    SortSorts(Coordinates(w2));
    if multiset(Coordinates(w1)) == multiset(Coordinates(w2)) {
      SortedIsUnique(Sort(Coordinates(w1)), Sort(Coordinates(w2)));
    }
  }

  datatype Payload = Payload(ordered: seq<Waypoint>, distance: real)

  datatype Response = Response(payload: Payload, cached: bool)

  /** What the code uses of geography and rounding. */
  datatype Geo = Geo(dist: Distance, round3: real -> real)

  function Fresh(geo: Geo, depot: Waypoint, ws: seq<Waypoint>): Payload {
    var ordered := Greedy(geo.dist, depot, ws);
    Payload(ordered, TotalRouteDistance(geo.dist, geo.round3, depot, ordered))
  }

  type Store = map<Key, Payload>

  /** A request; `online` tells whether the cache could be reached for it. The depot always has id 0. */
  datatype Request = Request(depot: Place, wps: seq<Waypoint>, online: bool) {
    function Depot(): Waypoint { Waypoint(0, depot.lat, depot.lon) }
    function CacheKey(): Key { MakeKey(Depot(), wps) }
  }

  function Answer(geo: Geo, store: Store, r: Request): Response {
    if r.online && r.CacheKey() in store then Response(store[r.CacheKey()], true)
    else Response(Fresh(geo, r.Depot(), r.wps), false)
  }

  function AfterRequest(geo: Geo, store: Store, r: Request): Store {
    if r.online && r.CacheKey() !in store then store[r.CacheKey() := Fresh(geo, r.Depot(), r.wps)] else store
  }

  /** One cache shared by every request handler. */
  class RouteService {
    const geo: Geo
    var store: Store

    constructor (geo: Geo)
      ensures this.geo == geo && store == map[]
    {
      this.geo, store := geo, map[];
    }

    method OptimiseRoute(r: Request) returns (response: Response)
      modifies this
      ensures response == Answer(geo, old(store), r) && store == AfterRequest(geo, old(store), r)
    {
      var depot := r.Depot();
      var key := r.CacheKey();
      if r.online && key in store {
        return Response(store[key], true);
      }
      var ordered := NearestNeighborRoute(geo.dist, depot, r.wps);
      var distance := TotalRouteDistance(geo.dist, geo.round3, depot, ordered);
      if r.online {
        store := store[key := Payload(ordered, distance)];
      }
      return Response(Payload(ordered, distance), false);
    }

    /** An entry's time to live runs out. */
    method Expire(key: Key)
      modifies this
      ensures store == old(store) - {key}
    {
      store := store - {key};
    }
  }

  // ----- Runs -----

  datatype Op = Serve(request: Request) | Expiry(key: Key)

  function Step(geo: Geo, store: Store, op: Op): Store {
    match op
    case Serve(r) => AfterRequest(geo, store, r)
    case Expiry(key) => store - {key}
  }

  function After(geo: Geo, store: Store, ops: seq<Op>): Store
    decreases |ops|
  {
    if ops == [] then store else After(geo, Step(geo, store, ops[0]), ops[1..])
  }

  /** An entry was computed for some request with its key. */
  ghost predicate Computed(geo: Geo, key: Key, payload: Payload) {
    exists r: Request :: r.CacheKey() == key && payload == Fresh(geo, r.Depot(), r.wps)
  }

  ghost predicate Sound(geo: Geo, store: Store) {
    forall key :: key in store ==> Computed(geo, key, store[key])
  }

  lemma {:induction false} CacheStaysSound(geo: Geo, store: Store, ops: seq<Op>)
    requires Sound(geo, store)
    ensures Sound(geo, After(geo, store, ops))
    decreases |ops|
  {
    if ops != [] {
      CacheStaysSound(geo, Step(geo, store, ops[0]), ops[1..]);
    }
  }

  /** Request k stored or found the key, and nothing has expired it since. */
  predicate LivesAt(ops: seq<Op>, key: Key, k: nat) {
    && k < |ops| && ops[k].Serve? && ops[k].request.online && ops[k].request.CacheKey() == key
    && Expiry(key) !in ops[k + 1..]
  }

  lemma {:induction false} AfterConcat(geo: Geo, store: Store, a: seq<Op>, b: seq<Op>)
    ensures After(geo, store, a + b) == After(geo, After(geo, store, a), b)
    decreases |a|
  {
    if a == [] {
      assert a + b == b;
    } else {
      assert (a + b)[1..] == a[1..] + b;
      AfterConcat(geo, Step(geo, store, a[0]), a[1..], b);
    }
  }

  lemma LastOp(geo: Geo, ops: seq<Op>, before: seq<Op>, op: Op)
    requires ops == before + [op]
    ensures After(geo, map[], ops) == Step(geo, After(geo, map[], before), op)
  {
    AfterConcat(geo, map[], before, [op]);
    assert [op][1..] == [];
  }

  lemma LivesAtExtends(ops: seq<Op>, before: seq<Op>, op: Op, key: Key, k: nat)
    requires ops == before + [op] && k < |before|
    ensures LivesAt(ops, key, k) <==> LivesAt(before, key, k) && op != Expiry(key)
  {
    assert ops[k + 1..] == before[k + 1..] + [op];
  }

  /** A key is in the cache exactly when some request with it has reached the cache since it last expired. */
  lemma {:induction false} StoredIff(geo: Geo, ops: seq<Op>, key: Key)
    ensures key in After(geo, map[], ops) <==> exists k: nat :: LivesAt(ops, key, k)
    decreases |ops|
  {
    if ops != [] {
      var before, op := ops[..|ops| - 1], ops[|ops| - 1];
      LastOp(geo, ops, before, op);
      StoredIff(geo, before, key);
      forall k: nat | k < |before|
        ensures LivesAt(ops, key, k) <==> LivesAt(before, key, k) && op != Expiry(key)
      {
        LivesAtExtends(ops, before, op, key, k);
      }
      assert ops[|before| + 1..] == [];
      assert LivesAt(ops, key, |before|) <==> op.Serve? && op.request.online && op.request.CacheKey() == key;
    }
  }

  /** A response says `cached` exactly when the request reached the cache and an earlier one with its key
      has been there since the key last expired. */
  lemma CachedIff(geo: Geo, ops: seq<Op>, r: Request)
    ensures Answer(geo, After(geo, map[], ops), r).cached <==>
            r.online && exists k: nat :: LivesAt(ops, r.CacheKey(), k)
  {
    StoredIff(geo, ops, r.CacheKey());
  }

  lemma {:induction false} PathLengthFromCoordinates(dist: Distance, a: seq<Waypoint>, b: seq<Waypoint>)
    requires Coordinates(a) == Coordinates(b)
    ensures PathLength(dist, a) == PathLength(dist, b)
    decreases |a|
  {
    assert |a| == |Coordinates(a)| == |b|;
    if |a| >= 2 {
      assert Coordinates(a)[0] == a[0].At() && Coordinates(a)[1] == a[1].At();
      assert Coordinates(b)[0] == b[0].At() && Coordinates(b)[1] == b[1].At();
      assert Coordinates(a[1..]) == Coordinates(a)[1..] && Coordinates(b[1..]) == Coordinates(b)[1..];
      PathLengthFromCoordinates(dist, a[1..], b[1..]);
    }
  }

  /** The part of a payload that does not depend on ids. */
  predicate SameRoute(p: Payload, q: Payload) {
    Coordinates(p.ordered) == Coordinates(q.ordered) && p.distance == q.distance
  }

  lemma FreshFromCoordinates(geo: Geo, d1: Waypoint, w1: seq<Waypoint>, d2: Waypoint, w2: seq<Waypoint>)
    requires d1.At() == d2.At()
    requires Coordinates(Greedy(geo.dist, d1, w1)) == Coordinates(Greedy(geo.dist, d2, w2))
    ensures SameRoute(Fresh(geo, d1, w1), Fresh(geo, d2, w2))
  {
    var r1, r2 := Greedy(geo.dist, d1, w1), Greedy(geo.dist, d2, w2);
    assert |r1| == |Coordinates(r1)| == |r2|;
    CoordinatesCons(d1, r1);
    CoordinatesCons(d2, r2);
    PathLengthFromCoordinates(geo.dist, [d1] + r1, [d2] + r2);
  }

  /** Over any run of requests, hits, misses, outages and expiries, the answer to a tie-free request
      has the coordinates and the distance a fresh computation would give. */
  lemma HitsAreFresh(geo: Geo, ops: seq<Op>, r: Request)
    requires TieFree(geo.dist, r.Depot(), r.wps)
    ensures SameRoute(Answer(geo, After(geo, map[], ops), r).payload, Fresh(geo, r.Depot(), r.wps))
  {
    var store := After(geo, map[], ops);
    CacheStaysSound(geo, map[], ops);
    if r.online && r.CacheKey() in store {
      assert Computed(geo, r.CacheKey(), store[r.CacheKey()]);
      var first: Request :| first.CacheKey() == r.CacheKey()
                            && store[r.CacheKey()] == Fresh(geo, first.Depot(), first.wps);
      SameKey(first.Depot(), first.wps, r.Depot(), r.wps);
      TieFreeIsSufficient(geo.dist, r.Depot(), first.Depot(), r.wps, first.wps);
      FreshFromCoordinates(geo, first.Depot(), first.wps, r.Depot(), r.wps);
    }
  }

  /** The cache can be noticed: some run makes it answer with another route. */
  ghost predicate Noticeable(geo: Geo, r: Request) {
    exists ops: seq<Op> :: !SameRoute(Answer(geo, After(geo, map[], ops), r).payload, Fresh(geo, r.Depot(), r.wps))
  }

  /** For a request that reaches the cache, the cache is transparent exactly when the request is
      tie-free. */
  lemma TransparentIffTieFree(geo: Geo, r: Request)
    requires r.online
    ensures TieFree(geo.dist, r.Depot(), r.wps) <==> !Noticeable(geo, r)
  {
    if TieFree(geo.dist, r.Depot(), r.wps) {
      forall ops: seq<Op>
        ensures SameRoute(Answer(geo, After(geo, map[], ops), r).payload, Fresh(geo, r.Depot(), r.wps))
      {
        HitsAreFresh(geo, ops, r);
      }
    } else {
      var other := TieMatters(geo.dist, r.Depot(), r.wps);
      SameMultisetSameCoordinates(other, r.wps);
      var ops := FirstCallerWins(geo, r, other);
      assert !SameRoute(Answer(geo, After(geo, map[], ops), r).payload, Fresh(geo, r.Depot(), r.wps));
    }
  }

  /** After another caller asked for the same coordinates, under whatever ids, that caller's payload is
      the answer, ids and all. */
  lemma FirstCallerWins(geo: Geo, r: Request, other: seq<Waypoint>) returns (ops: seq<Op>)
    requires r.online && multiset(Coordinates(other)) == multiset(Coordinates(r.wps))
    ensures Answer(geo, After(geo, map[], ops), r) == Response(Fresh(geo, r.Depot(), other), true)
  {
    var first := r.(wps := other);
    SameKey(r.Depot(), other, r.Depot(), r.wps);
    ops := [Serve(first)];
    assert ops[1..] == [];
  }

  // ----- Ids -----

  function IdSum(ws: seq<Waypoint>): int { if ws == [] then 0 else ws[0].id + IdSum(ws[1..]) }

  lemma {:induction false} IdSumWithout(ws: seq<Waypoint>, k: nat)
    requires k < |ws|
    ensures IdSum(ws) == ws[k].id + IdSum(Remove(ws, k))
  {
    if k == 0 {
      assert Remove(ws, 0) == ws[1..];
    } else {
      IdSumWithout(ws[1..], k - 1);
      assert Remove(ws, k)[1..] == Remove(ws[1..], k - 1);
    }
  }

  lemma {:induction false} IdSumOfMultiset(a: seq<Waypoint>, b: seq<Waypoint>)
    requires multiset(a) == multiset(b)
    ensures IdSum(a) == IdSum(b)
    decreases |b|
  {
    assert |multiset(a)| == |multiset(b)|;
    if b != [] {
      var k := MatchHead(a, b);
      IdSumOfMultiset(Remove(a, k), b[1..]);
      IdSumWithout(a, k);
    }
  }

  /** The same places under other ids. */
  function Relabelled(ws: seq<Waypoint>): seq<Waypoint> {
    if ws == [] then [] else [ws[0].(id := ws[0].id + 1)] + Relabelled(ws[1..])
  }

  lemma {:induction false} RelabelledKeepsPlaces(ws: seq<Waypoint>)
    ensures Coordinates(Relabelled(ws)) == Coordinates(ws) && IdSum(Relabelled(ws)) == IdSum(ws) + |ws|
  {
    if ws != [] {
      RelabelledKeepsPlaces(ws[1..]);
      CoordinatesCons(Relabelled(ws)[0], Relabelled(ws[1..]));
      CoordinatesCons(ws[0], ws[1..]);
      assert ws == [ws[0]] + ws[1..] && Relabelled(ws)[1..] == Relabelled(ws[1..]);
    }
  }

  lemma RelabelledRoutesDiffer(geo: Geo, depot: Waypoint, ws: seq<Waypoint>)
    requires ws != []
    ensures Fresh(geo, depot, Relabelled(ws)).ordered != Fresh(geo, depot, ws).ordered
  {
    RelabelledKeepsPlaces(ws);
    GreedyIsPermutation(geo.dist, depot, ws);
    GreedyIsPermutation(geo.dist, depot, Relabelled(ws));
    IdSumOfMultiset(Greedy(geo.dist, depot, ws), ws);
    IdSumOfMultiset(Greedy(geo.dist, depot, Relabelled(ws)), Relabelled(ws));
  }

  /** Some run makes the cache answer with another payload, be it only in the ids. */
  ghost predicate PayloadChanges(geo: Geo, r: Request) {
    exists ops: seq<Op> :: Answer(geo, After(geo, map[], ops), r).payload != Fresh(geo, r.Depot(), r.wps)
  }

  lemma EmptyRequestIsFresh(geo: Geo, ops: seq<Op>, r: Request)
    requires r.wps == []
    ensures Answer(geo, After(geo, map[], ops), r).payload == Fresh(geo, r.Depot(), r.wps)
  {
    HitsAreFresh(geo, ops, r);
    var answer := Answer(geo, After(geo, map[], ops), r).payload;
    assert |Coordinates(answer.ordered)| == |answer.ordered| && Coordinates([]) == [];
  }

  /** The code's intent, that a hit returns what the caller would have got afresh, fails for every
      request that reaches the cache with a waypoint in it: another caller's ids can come back. */
  lemma PayloadChangesIffAnyWaypoint(geo: Geo, r: Request)
    requires r.online
    ensures PayloadChanges(geo, r) <==> r.wps != []
  {
    if r.wps == [] {
      forall ops: seq<Op> ensures Answer(geo, After(geo, map[], ops), r).payload == Fresh(geo, r.Depot(), r.wps) {
        EmptyRequestIsFresh(geo, ops, r);
      }
    } else {
      var other := Relabelled(r.wps);
      RelabelledKeepsPlaces(r.wps);
      RelabelledRoutesDiffer(geo, r.Depot(), r.wps);
      var ops := FirstCallerWins(geo, r, other);
      assert Answer(geo, After(geo, map[], ops), r).payload != Fresh(geo, r.Depot(), r.wps);
    }
  }
}
