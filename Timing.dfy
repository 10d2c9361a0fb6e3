/**
 * The time model behind a candidate's fitness and its delivery-time report.
 * A vehicle leaves the depot, and each hop adds the hop's travel time; the
 * arrival time at a point is the running total after the hop that reaches it.
 */
module Timing {
  import opened Beans
  import opened Routes

  /** Time at which the vehicle reaches route[k]: the total of the first k + 1 hops. */
  function Arrival(hop: HopCost, v: Vehicle, route: seq<Point>, k: nat): real
    requires k < |route|
  {
    if k == 0 then hop(v, Depot, route[0])
    else Arrival(hop, v, route, k - 1) + hop(v, route[k - 1], route[k])
  }

  /** Sum of the arrival times at the first n points of the route. */
  function RouteScore(hop: HopCost, v: Vehicle, route: seq<Point>, n: nat): real
    requires n <= |route|
  {
    if n == 0 then 0.0
    else RouteScore(hop, v, route, n - 1) + Arrival(hop, v, route, n - 1)
  }

  /** What the fitness needs: one route per vehicle, each at least as long as a capacity of at least one. */
  predicate Measurable(fleet: seq<Vehicle>, routes: seq<seq<Point>>)
  {
    |routes| == |fleet| &&
    forall j :: 0 <= j < |fleet| ==> 1 <= fleet[j].capacity <= |routes[j]|
  }

  /** Contribution of vehicle j: the arrival times at its first `capacity` points. */
  function VehicleScore(hop: HopCost, fleet: seq<Vehicle>, routes: seq<seq<Point>>, j: nat): real
    requires Measurable(fleet, routes) && j < |fleet|
  {
    RouteScore(hop, fleet[j], routes[j], fleet[j].capacity)
  }

  /** Sum of the vehicles' contributions, visiting the vehicles in the given order. */
  function TotalIn(hop: HopCost, fleet: seq<Vehicle>, routes: seq<seq<Point>>, order: seq<nat>): real
    requires Measurable(fleet, routes) && InRange(order, |fleet|)
  {
    if |order| == 0 then 0.0
    else TotalIn(hop, fleet, routes, order[..|order| - 1]) + VehicleScore(hop, fleet, routes, order[|order| - 1])
  }

  /**
   * The fitness of a candidate (lower is better): the sum, over all vehicles,
   * of the arrival times at each of the vehicle's points, divided by the
   * number of vehicles.
   */
  function Fitness(hop: HopCost, fleet: seq<Vehicle>, routes: seq<seq<Point>>): real
    requires Measurable(fleet, routes) && |fleet| >= 1
  {
    TotalIn(hop, fleet, routes, Indices(|fleet|)) / (|fleet| as real)
  }

  lemma {:induction false} TotalInAppend(hop: HopCost, fleet: seq<Vehicle>, routes: seq<seq<Point>>, a: seq<nat>, b: seq<nat>)
    requires Measurable(fleet, routes) && InRange(a, |fleet|) && InRange(b, |fleet|)
    ensures InRange(a + b, |fleet|)
    ensures TotalIn(hop, fleet, routes, a + b) == TotalIn(hop, fleet, routes, a) + TotalIn(hop, fleet, routes, b)
    decreases |b|
  {
    assert InRange(a + b, |fleet|);
    if |b| > 0 {
      var n := |b| - 1;
      assert (a + b)[..|a + b| - 1] == a + b[..n];
      TotalInAppend(hop, fleet, routes, a, b[..n]);
    } else {
      assert a + b == a;
    }
  }

  /** The total splits around any one position of the order. */
  lemma TotalInSplit(hop: HopCost, fleet: seq<Vehicle>, routes: seq<seq<Point>>, b: seq<nat>, k: nat)
    requires Measurable(fleet, routes) && InRange(b, |fleet|) && k < |b|
    ensures InRange(b[..k] + b[k + 1..], |fleet|)
    ensures TotalIn(hop, fleet, routes, b) ==
      TotalIn(hop, fleet, routes, b[..k] + b[k + 1..]) + VehicleScore(hop, fleet, routes, b[k])
  {
    assert b == (b[..k] + [b[k]]) + b[k + 1..];
    TotalInAppend(hop, fleet, routes, b[..k] + [b[k]], b[k + 1..]);
    TotalInAppend(hop, fleet, routes, b[..k], [b[k]]);
    TotalInAppend(hop, fleet, routes, b[..k], b[k + 1..]);
    assert [b[k]][..0] == [];
  }

  /** The total does not depend on the order in which the vehicles are visited. */
  lemma {:induction false} TotalInPermutation(hop: HopCost, fleet: seq<Vehicle>, routes: seq<seq<Point>>, a: seq<nat>, b: seq<nat>)
    requires Measurable(fleet, routes) && InRange(a, |fleet|) && InRange(b, |fleet|)
    requires multiset(a) == multiset(b)
    ensures TotalIn(hop, fleet, routes, a) == TotalIn(hop, fleet, routes, b)
    decreases |a|
  {
    if |a| == 0 {
      assert |b| == |multiset(b)| == 0;
    } else {
      var n := |a| - 1;
      var k, rest := PickOut(a, b);
      TotalInPermutation(hop, fleet, routes, a[..n], rest);
      TotalInSplit(hop, fleet, routes, b, k);
    }
  }

  /**
   * Summing in the map's key order, as distanceFunction does, gives the
   * fitness numerator.
   */
  lemma KeyOrderTotal(hop: HopCost, fleet: seq<Vehicle>, routes: seq<seq<Point>>, order: seq<nat>)
    requires Measurable(fleet, routes) && IsKeyOrder(order, |fleet|)
    ensures InRange(order, |fleet|)
    ensures TotalIn(hop, fleet, routes, order) == TotalIn(hop, fleet, routes, Indices(|fleet|))
  {
    KeyOrderInRange(order, |fleet|);
    TotalInPermutation(hop, fleet, routes, order, Indices(|fleet|));
  }

  /** With non-negative hop times, arrival times never decrease along a route. */
  lemma {:induction false} ArrivalMonotone(hop: HopCost, v: Vehicle, route: seq<Point>, i: nat, j: nat)
    requires NonNegative(hop) && i <= j < |route|
    ensures Arrival(hop, v, route, i) <= Arrival(hop, v, route, j)
    decreases j
  {
    if i < j {
      ArrivalMonotone(hop, v, route, i, j - 1);
      assert hop(v, route[j - 1], route[j]) >= 0.0;
    }
  }

  lemma {:induction false} RouteScoreNonNegative(hop: HopCost, v: Vehicle, route: seq<Point>, n: nat)
    requires NonNegative(hop) && n <= |route|
    ensures RouteScore(hop, v, route, n) >= 0.0
  {
    if n > 0 {
      RouteScoreNonNegative(hop, v, route, n - 1);
      ArrivalMonotone(hop, v, route, 0, n - 1);
      assert hop(v, Depot, route[0]) >= 0.0;
    }
  }

  lemma {:induction false} TotalInNonNegative(hop: HopCost, fleet: seq<Vehicle>, routes: seq<seq<Point>>, order: seq<nat>)
    requires NonNegative(hop) && Measurable(fleet, routes) && InRange(order, |fleet|)
    ensures TotalIn(hop, fleet, routes, order) >= 0.0
  {
    if |order| > 0 {
      var j := order[|order| - 1];
      TotalInNonNegative(hop, fleet, routes, order[..|order| - 1]);
      RouteScoreNonNegative(hop, fleet[j], routes[j], fleet[j].capacity);
    }
  }

  /** With non-negative hop times the fitness is non-negative. */
  lemma FitnessNonNegative(hop: HopCost, fleet: seq<Vehicle>, routes: seq<seq<Point>>)
    requires NonNegative(hop) && Measurable(fleet, routes) && |fleet| >= 1
    ensures Fitness(hop, fleet, routes) >= 0.0
  {
    TotalInNonNegative(hop, fleet, routes, Indices(|fleet|));
  }

  /** The map after writing the arrival times of the first n points of a route into m. */
  function RouteTimes(hop: HopCost, v: Vehicle, route: seq<Point>, n: nat, m: map<Point, real>): map<Point, real>
    requires n <= |route|
  {
    if n == 0 then m
    else RouteTimes(hop, v, route, n - 1, m)[route[n - 1] := Arrival(hop, v, route, n - 1)]
  }

  /** The delivery-time report: every vehicle's writes, in the given order of vehicles. */
  function DeliveryTimes(hop: HopCost, fleet: seq<Vehicle>, routes: seq<seq<Point>>, order: seq<nat>): map<Point, real>
    requires Measurable(fleet, routes) && InRange(order, |fleet|)
  {
    if |order| == 0 then map[]
    else
      var j := order[|order| - 1];
      RouteTimes(hop, fleet[j], routes[j], fleet[j].capacity, DeliveryTimes(hop, fleet, routes, order[..|order| - 1]))
  }

  lemma {:induction false} RouteTimesKeys(hop: HopCost, v: Vehicle, route: seq<Point>, n: nat, m: map<Point, real>, p: Point)
    requires n <= |route|
    ensures p in RouteTimes(hop, v, route, n, m) <==> p in m || exists i :: 0 <= i < n && route[i] == p
  {
    if n > 0 {
      RouteTimesKeys(hop, v, route, n - 1, m, p);
    }
  }

  /** A point the route does not visit keeps its entry. */
  lemma {:induction false} RouteTimesElsewhere(hop: HopCost, v: Vehicle, route: seq<Point>, n: nat, m: map<Point, real>, p: Point)
    requires n <= |route| && p in m
    requires forall i :: 0 <= i < n ==> route[i] != p
    ensures p in RouteTimes(hop, v, route, n, m) && RouteTimes(hop, v, route, n, m)[p] == m[p]
  {
    if n > 0 {
      RouteTimesElsewhere(hop, v, route, n - 1, m, p);
    }
  }

  /** A point maps to the arrival time at its last position among the first n. */
  lemma {:induction false} RouteTimesLast(hop: HopCost, v: Vehicle, route: seq<Point>, n: nat, m: map<Point, real>, i: nat)
    requires i < n <= |route|
    requires forall i' :: i < i' < n ==> route[i'] != route[i]
    ensures route[i] in RouteTimes(hop, v, route, n, m)
    ensures RouteTimes(hop, v, route, n, m)[route[i]] == Arrival(hop, v, route, i)
  {
    if i < n - 1 {
      RouteTimesLast(hop, v, route, n - 1, m, i);
    }
  }

  /**
   * The keys of the delivery-time report are exactly the points at the first
   * `capacity` positions of every route.
   */
  lemma {:induction false} DeliveryTimesKeys(hop: HopCost, fleet: seq<Vehicle>, routes: seq<seq<Point>>, order: seq<nat>, p: Point)
    requires Measurable(fleet, routes) && InRange(order, |fleet|)
    ensures p in DeliveryTimes(hop, fleet, routes, order) <==>
      exists k, i :: 0 <= k < |order| && 0 <= i < fleet[order[k]].capacity && routes[order[k]][i] == p
  {
    if |order| > 0 {
      var n := |order| - 1;
      var j := order[n];
      var before := DeliveryTimes(hop, fleet, routes, order[..n]);
      DeliveryTimesKeys(hop, fleet, routes, order[..n], p);
      RouteTimesKeys(hop, fleet[j], routes[j], fleet[j].capacity, before, p);
      if p in DeliveryTimes(hop, fleet, routes, order) {
        if p in before {
          var k, i :| 0 <= k < n && 0 <= i < fleet[order[..n][k]].capacity && routes[order[..n][k]][i] == p;
          assert order[k] == order[..n][k];
        } else {
          var i :| 0 <= i < fleet[j].capacity && routes[j][i] == p;
          assert order[n] == j;
        }
      } else {
        forall k, i | 0 <= k < |order| && 0 <= i < fleet[order[k]].capacity
          ensures routes[order[k]][i] != p
        {
          if k < n {
            assert order[..n][k] == order[k];
          }
        }
      }
    }
  }

  /**
   * The delivery time of a point is the arrival time of its last write: the
   * time at position i of the k-th visited route, provided that neither a later
   * position of that route nor a later-visited route holds the same point.
   * For routes whose points are all distinct, every point gets the arrival time
   * of its own position.
   */
  lemma {:induction false} DeliveryTimeOfLastWrite(hop: HopCost, fleet: seq<Vehicle>, routes: seq<seq<Point>>, order: seq<nat>, k: nat, i: nat)
    requires Measurable(fleet, routes) && InRange(order, |fleet|)
    requires k < |order| && i < fleet[order[k]].capacity
    requires forall i' :: i < i' < fleet[order[k]].capacity ==> routes[order[k]][i'] != routes[order[k]][i]
    requires forall k', i' :: k < k' < |order| && 0 <= i' < fleet[order[k']].capacity ==> routes[order[k']][i'] != routes[order[k]][i]
    ensures routes[order[k]][i] in DeliveryTimes(hop, fleet, routes, order)
    ensures DeliveryTimes(hop, fleet, routes, order)[routes[order[k]][i]] == Arrival(hop, fleet[order[k]], routes[order[k]], i)
  {
    var n := |order| - 1;
    var j := order[n];
    var before := DeliveryTimes(hop, fleet, routes, order[..n]);
    var p := routes[order[k]][i];
    if k == n {
      RouteTimesLast(hop, fleet[j], routes[j], fleet[j].capacity, before, i);
    } else {
      assert order[..n][k] == order[k];
      forall k', i' | k < k' < n && 0 <= i' < fleet[order[..n][k']].capacity
        ensures routes[order[..n][k']][i'] != p
      {
        assert order[..n][k'] == order[k'];
      }
      DeliveryTimeOfLastWrite(hop, fleet, routes, order[..n], k, i);
      forall i' | 0 <= i' < fleet[j].capacity
        ensures routes[j][i'] != p
      {
        assert routes[order[n]][i'] != p;
      }
      RouteTimesElsewhere(hop, fleet[j], routes[j], fleet[j].capacity, before, p);
    }
  }
}
