/**
 * One candidate solution ("firefly"): a route for every vehicle, built by
 * drawing points at random without replacement, and able to evaluate its own
 * fitness and its per-point delivery times.
 */
module Candidate {
  import opened Beans
  import opened Routes
  import opened Timing

  /** The pool with the point at position `k` taken out, the others keeping their order. */
  function Without(pool: seq<Point>, k: nat): (r: seq<Point>)
    requires k < |pool|
    ensures |r| == |pool| - 1
  {
    pool[..k] + pool[k + 1..]
  }

  /**
   * The route one vehicle draws: `capacity` times, the point at position
   * `rolls(drawn) % |pool|` is taken out of the shrinking pool, with draw
   * numbers counting on from `drawn`. Returns the route and what is left.
   */
  function DrawnRoute(pool: seq<Point>, capacity: nat, rolls: Rolls, drawn: nat): (r: (seq<Point>, seq<Point>))
    requires capacity <= |pool|
    ensures |r.0| == capacity && |r.1| == |pool| - capacity
  {
    if capacity == 0 then ([], pool)
    else
      var k := rolls(drawn) % |pool|;
      var later := DrawnRoute(Without(pool, k), capacity - 1, rolls, drawn + 1);
      ([pool[k]] + later.0, later.1)
  }

  /** Drawing without replacement: the route and the rest together are the pool. */
  lemma {:induction false} DrawnRouteKeeps(pool: seq<Point>, capacity: nat, rolls: Rolls, drawn: nat)
    requires capacity <= |pool|
    ensures multiset(DrawnRoute(pool, capacity, rolls, drawn).0) + multiset(DrawnRoute(pool, capacity, rolls, drawn).1) == multiset(pool)
  {
    if capacity > 0 {
      var k := rolls(drawn) % |pool|;
      var rest := Without(pool, k);
      var later := DrawnRoute(rest, capacity - 1, rolls, drawn + 1);
      assert DrawnRoute(pool, capacity, rolls, drawn) == ([pool[k]] + later.0, later.1);
      DrawnRouteKeeps(rest, capacity - 1, rolls, drawn + 1);
      PutBack(pool, k, later);
    }
  }

  /** What was drawn after the point at `k` was taken out, with that point put back in front. */
  lemma PutBack(pool: seq<Point>, k: nat, later: (seq<Point>, seq<Point>))
    requires k < |pool|
    requires multiset(later.0) + multiset(later.1) == multiset(Without(pool, k))
    ensures multiset([pool[k]] + later.0) + multiset(later.1) == multiset(pool)
  {
    assert pool == pool[..k] + [pool[k]] + pool[k + 1..];
    assert multiset(pool) == multiset{pool[k]} + multiset(Without(pool, k));
    assert multiset([pool[k]] + later.0) == multiset{pool[k]} + multiset(later.0);
  }

  /**
   * The routes the whole fleet draws, vehicle by vehicle in list order from
   * one pool; the draw numbers run on from one vehicle to the next. Returns
   * the routes and the points left over.
   */
  function Drawn(points: seq<Point>, vehicles: seq<Vehicle>, rolls: Rolls): (r: (seq<seq<Point>>, seq<Point>))
    requires TotalCapacity(vehicles) <= |points|
    ensures |r.1| == |points| - TotalCapacity(vehicles)
  {
    if |vehicles| == 0 then ([], points)
    else
      var n := |vehicles| - 1;
      var earlier := Drawn(points, vehicles[..n], rolls);
      var last := DrawnRoute(earlier.1, vehicles[n].capacity, rolls, TotalCapacity(vehicles[..n]));
      (earlier.0 + [last.0], last.1)
  }

  /** Each vehicle receives exactly its capacity, and drawing neither loses nor invents a point. */
  lemma {:induction false} DrawnKeeps(points: seq<Point>, vehicles: seq<Vehicle>, rolls: Rolls)
    requires TotalCapacity(vehicles) <= |points|
    ensures Fits(Drawn(points, vehicles, rolls).0, vehicles)
    ensures multiset(Concat(Drawn(points, vehicles, rolls).0)) + multiset(Drawn(points, vehicles, rolls).1) == multiset(points)
  {
    if |vehicles| > 0 {
      var n := |vehicles| - 1;
      var earlier := Drawn(points, vehicles[..n], rolls);
      var last := DrawnRoute(earlier.1, vehicles[n].capacity, rolls, TotalCapacity(vehicles[..n]));
      DrawnKeeps(points, vehicles[..n], rolls);
      DrawnRouteKeeps(earlier.1, vehicles[n].capacity, rolls, TotalCapacity(vehicles[..n]));
      assert Drawn(points, vehicles, rolls) == (earlier.0 + [last.0], last.1);
      assert vehicles == vehicles[..n + 1];
      FitsAppend(earlier.0, vehicles, n, last.0);
      AppendKeeps(points, earlier, last);
    }
  }

  /** Appending a drawn route keeps the points of the earlier routes and the pool. */
  lemma AppendKeeps(points: seq<Point>, earlier: (seq<seq<Point>>, seq<Point>), last: (seq<Point>, seq<Point>))
    requires multiset(Concat(earlier.0)) + multiset(earlier.1) == multiset(points)
    requires multiset(last.0) + multiset(last.1) == multiset(earlier.1)
    ensures multiset(Concat(earlier.0 + [last.0])) + multiset(last.1) == multiset(points)
  {
    ConcatAppend(earlier.0, last.0);
  }

  /** `routes` are what the fleet draws from `points` with `rolls`. */
  ghost predicate Drew(routes: seq<seq<Point>>, points: seq<Point>, vehicles: seq<Vehicle>, rolls: Rolls) {
    TotalCapacity(vehicles) <= |points| && routes == Drawn(points, vehicles, rolls).0
  }

  /**
   * One vehicle's share of the drawing: `capacity` times, take the point at a
   * random position out of the pool and append it to the route. Draw numbers
   * continue from `drawn`.
   */
  method DrawRoute(pool: seq<Point>, capacity: nat, rolls: Rolls, drawn: nat)
    returns (route: seq<Point>, rest: seq<Point>, next: nat)
    requires capacity <= |pool|
    ensures (route, rest) == DrawnRoute(pool, capacity, rolls, drawn)
    ensures next == drawn + capacity
  {
    rest := pool;
    route := [];
    next := drawn;
    ghost var target := DrawnRoute(pool, capacity, rolls, drawn);
    var i := 0;
    while i < capacity
      invariant 0 <= i <= capacity && next == drawn + i && |rest| == |pool| - i
      invariant Drawing(route, rest, capacity - i, rolls, next, target)
    {
      var r := rolls(next) % |rest|;
      DrawingStep(route, rest, capacity - i, rolls, next, target);
      route := route + [rest[r]];
      rest := Without(rest, r);
      next := next + 1;
      i := i + 1;
    }
    DrawingDone(route, rest, rolls, next, target);
  }

  /** `route` was drawn so far; drawing `n` more from `rest` completes `target`. */
  ghost predicate Drawing(route: seq<Point>, rest: seq<Point>, n: nat, rolls: Rolls, next: nat, target: (seq<Point>, seq<Point>))
    requires n <= |rest|
  {
    var later := DrawnRoute(rest, n, rolls, next);
    route + later.0 == target.0 && later.1 == target.1
  }

  lemma DrawingStep(route: seq<Point>, rest: seq<Point>, n: nat, rolls: Rolls, next: nat, target: (seq<Point>, seq<Point>))
    requires 0 < n <= |rest| && Drawing(route, rest, n, rolls, next, target)
    ensures var r := rolls(next) % |rest|; Drawing(route + [rest[r]], Without(rest, r), n - 1, rolls, next + 1, target)
  {
    var r := rolls(next) % |rest|;
    var later := DrawnRoute(Without(rest, r), n - 1, rolls, next + 1);
    assert route + [rest[r]] + later.0 == route + ([rest[r]] + later.0);
  }

  lemma DrawingDone(route: seq<Point>, rest: seq<Point>, rolls: Rolls, next: nat, target: (seq<Point>, seq<Point>))
    requires Drawing(route, rest, 0, rolls, next, target)
    ensures (route, rest) == target
  {
    assert route + [] == route;
  }

  /**
   * The drawing done by the constructor: for each vehicle in list order, take
   * `capacity` points out of the pool, each at a random position. Returns the
   * routes and what is left in the pool.
   */
  method DrawRoutes(points: seq<Point>, vehicles: seq<Vehicle>, rolls: Rolls)
    returns (routes: seq<seq<Point>>, rest: seq<Point>)
    requires TotalCapacity(vehicles) <= |points|
    ensures (routes, rest) == Drawn(points, vehicles, rolls)
  {
    rest := points;
    routes := [];
    var drawn := 0;
    var k := 0;
    while k < |vehicles|
      invariant 0 <= k <= |vehicles|
      invariant TotalCapacity(vehicles[..k]) <= |points| && drawn == TotalCapacity(vehicles[..k])
      invariant (routes, rest) == Drawn(points, vehicles[..k], rolls)
    {
      TotalCapacityStep(vehicles, k);
      TotalCapacityPrefix(vehicles, k + 1);
      var vehiclePoints;
      vehiclePoints, rest, drawn := DrawRoute(rest, vehicles[k].capacity, rolls, drawn);
      assert vehicles[..k + 1][..k] == vehicles[..k];
      routes := routes + [vehiclePoints];
      k := k + 1;
    }
    assert vehicles[..k] == vehicles;
  }

  class Firefly {
    /** The vehicles, which are the keys of the source's permutation map. */
    const fleet: seq<Vehicle>
    /** The permutation map's values: routes[j] is the route of fleet[j]. */
    var routes: seq<seq<Point>>
    /** The points the drawing left in the caller's list. */
    ghost const unassigned: seq<Point>
    /** Where the owner placed this firefly in its population; distinct positions mean distinct objects. */
    ghost const position: nat

    ghost predicate Valid()
      reads this
    {
      Fits(routes, fleet)
    }

    constructor (points: seq<Point>, vehicles: seq<Vehicle>, rolls: Rolls, ghost position: nat)
      requires TotalCapacity(vehicles) <= |points|
      ensures fleet == vehicles && Valid() && this.position == position
      ensures (routes, unassigned) == Drawn(points, vehicles, rolls)
      ensures multiset(Concat(routes)) + multiset(unassigned) == multiset(points)
      ensures |unassigned| == |points| - TotalCapacity(vehicles)
    {
      fleet := vehicles;
      var drawn, rest := DrawRoutes(points, vehicles, rolls);
      routes := drawn;
      unassigned := rest;
      DrawnKeeps(points, vehicles, rolls);
      this.position := position;
    }

    /** The fitness, summed in the map's key order. */
    method DistanceFunction(hop: HopCost, keyOrder: seq<nat>) returns (fitness: real)
      requires Measurable(fleet, routes) && |fleet| >= 1
      requires IsKeyOrder(keyOrder, |fleet|)
      ensures fitness == Fitness(hop, fleet, routes)
    {
      KeyOrderInRange(keyOrder, |fleet|);
      var result := 0.0;
      var k := 0;
      while k < |keyOrder|
        invariant 0 <= k <= |keyOrder|
        invariant result == TotalIn(hop, fleet, routes, keyOrder[..k])
      {
        var j := keyOrder[k];
        var vehicle := fleet[j];
        var route := routes[j];
        var currentTime := 0.0;
        currentTime := currentTime + hop(vehicle, Depot, route[0]);
        result := result + currentTime;
        var i := 0;
        while i < vehicle.capacity - 1
          invariant 0 <= i <= vehicle.capacity - 1
          invariant currentTime == Arrival(hop, vehicle, route, i)
          invariant result == TotalIn(hop, fleet, routes, keyOrder[..k]) + RouteScore(hop, vehicle, route, i + 1)
        {
          currentTime := currentTime + hop(vehicle, route[i], route[i + 1]);
          result := result + currentTime;
          i := i + 1;
        }
        assert keyOrder[..k + 1][..k] == keyOrder[..k];
        k := k + 1;
      }
      assert keyOrder[..k] == keyOrder;
      KeyOrderTotal(hop, fleet, routes, keyOrder);
      fitness := result / (|routes| as real);
    }

    /** Each visited point with the time at which its vehicle reaches it, written in the map's key order. */
    method GetApproximatedDeliveryTime(hop: HopCost, keyOrder: seq<nat>) returns (times: map<Point, real>)
      requires Measurable(fleet, routes)
      requires IsKeyOrder(keyOrder, |fleet|)
      ensures InRange(keyOrder, |fleet|)
      ensures times == DeliveryTimes(hop, fleet, routes, keyOrder)
    {
      KeyOrderInRange(keyOrder, |fleet|);
      times := map[];
      var k := 0;
      while k < |keyOrder|
        invariant 0 <= k <= |keyOrder|
        invariant times == DeliveryTimes(hop, fleet, routes, keyOrder[..k])
      {
        var j := keyOrder[k];
        var vehicle := fleet[j];
        var route := routes[j];
        ghost var before := times;
        var currentTime := 0.0;
        currentTime := currentTime + hop(vehicle, Depot, route[0]);
        times := times[route[0] := currentTime];
        var i := 0;
        while i < vehicle.capacity - 1
          invariant 0 <= i <= vehicle.capacity - 1
          invariant currentTime == Arrival(hop, vehicle, route, i)
          invariant times == RouteTimes(hop, vehicle, route, i + 1, before)
        {
          currentTime := currentTime + hop(vehicle, route[i], route[i + 1]);
          times := times[route[i + 1] := currentTime];
          i := i + 1;
        }
        assert keyOrder[..k + 1][..k] == keyOrder[..k];
        k := k + 1;
      }
      assert keyOrder[..k] == keyOrder;
    }
  }
}
