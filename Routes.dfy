/**
 * Route lists: a candidate assigns one ordered route to each vehicle. The
 * source keeps them in a map keyed by vehicle; here route j belongs to the
 * j-th vehicle of the input list, and the map's key-iteration order is a
 * sequence listing every vehicle index once.
 */
module Routes {
  import opened Beans

  /** Sum of the capacities of the vehicles. */
  function TotalCapacity(vehicles: seq<Vehicle>): nat
  {
    if |vehicles| == 0 then 0
    else TotalCapacity(vehicles[..|vehicles| - 1]) + vehicles[|vehicles| - 1].capacity
  }

  /** The capacity invariant: one route per vehicle, each exactly as long as its capacity. */
  predicate Fits(routes: seq<seq<Point>>, vehicles: seq<Vehicle>)
  {
    |routes| == |vehicles| &&
    forall j :: 0 <= j < |routes| ==> |routes[j]| == vehicles[j].capacity
  }

  /** The routes concatenated in vehicle-list order. */
  function Concat(routes: seq<seq<Point>>): seq<Point>
  {
    if |routes| == 0 then []
    else Concat(routes[..|routes| - 1]) + routes[|routes| - 1]
  }

  predicate InRange(order: seq<nat>, n: nat)
  {
    forall k :: 0 <= k < |order| ==> order[k] < n
  }

  /** The routes concatenated in the given order of vehicle indices. */
  function FlatIn(routes: seq<seq<Point>>, order: seq<nat>): seq<Point>
    requires InRange(order, |routes|)
  {
    if |order| == 0 then []
    else FlatIn(routes, order[..|order| - 1]) + routes[order[|order| - 1]]
  }

  function Indices(n: nat): (r: seq<nat>)
    ensures |r| == n && forall k :: 0 <= k < n ==> r[k] == k
  {
    seq(n, k => k)
  }

  /** A key-iteration order of a map holding n vehicles: every index exactly once. */
  predicate IsKeyOrder(order: seq<nat>, n: nat)
  {
    multiset(order) == multiset(Indices(n))
  }

  lemma KeyOrderInRange(order: seq<nat>, n: nat)
    requires IsKeyOrder(order, n)
    ensures |order| == n && InRange(order, n)
  {
    assert |order| == |multiset(order)| == |multiset(Indices(n))| == n;
    forall k | 0 <= k < |order|
      ensures order[k] < n
    {
      assert order[k] in multiset(Indices(n));
    }
  }

  lemma TotalCapacityStep(vehicles: seq<Vehicle>, k: nat)
    requires k < |vehicles|
    ensures TotalCapacity(vehicles[..k + 1]) == TotalCapacity(vehicles[..k]) + vehicles[k].capacity
  {
    assert vehicles[..k + 1][..k] == vehicles[..k];
  }

  /** A prefix of the fleet never needs more points than the whole fleet. */
  lemma {:induction false} TotalCapacityPrefix(vehicles: seq<Vehicle>, k: nat)
    requires k <= |vehicles|
    ensures TotalCapacity(vehicles[..k]) <= TotalCapacity(vehicles)
    decreases |vehicles| - k
  {
    if k < |vehicles| {
      TotalCapacityStep(vehicles, k);
      TotalCapacityPrefix(vehicles, k + 1);
    } else {
      assert vehicles[..k] == vehicles;
    }
  }

  /** Adding a route of the next vehicle's capacity extends the capacity invariant to one more vehicle. */
  lemma FitsAppend(routes: seq<seq<Point>>, vehicles: seq<Vehicle>, k: nat, route: seq<Point>)
    requires k < |vehicles| && Fits(routes, vehicles[..k]) && |route| == vehicles[k].capacity
    ensures Fits(routes + [route], vehicles[..k + 1])
  {
  }

  /** Routes that fit the fleet hold exactly as many points as the fleet's total capacity. */
  lemma {:induction false} ConcatLength(routes: seq<seq<Point>>, vehicles: seq<Vehicle>)
    requires Fits(routes, vehicles)
    ensures |Concat(routes)| == TotalCapacity(vehicles)
  {
    if |routes| > 0 {
      var n := |routes| - 1;
      ConcatLength(routes[..n], vehicles[..n]);
    }
  }

  lemma ConcatAppend(routes: seq<seq<Point>>, route: seq<Point>)
    ensures Concat(routes + [route]) == Concat(routes) + route
  {
    assert (routes + [route])[..|routes|] == routes;
  }

  /** Every point of every route appears in the concatenation. */
  lemma {:induction false} InConcat(routes: seq<seq<Point>>, j: nat, i: nat)
    requires j < |routes| && i < |routes[j]|
    ensures routes[j][i] in Concat(routes)
  {
    var n := |routes| - 1;
    if j < n {
      InConcat(routes[..n], j, i);
    } else {
      assert Concat(routes) == Concat(routes[..n]) + routes[n];
      assert Concat(routes)[|Concat(routes[..n])| + i] == routes[j][i];
    }
  }

  /**
   * Two route lists for the same fleet with the same concatenation are the
   * same: cutting a list into capacity-sized chunks can be done one way only.
   */
  lemma {:induction false} SplitUnique(a: seq<seq<Point>>, b: seq<seq<Point>>, vehicles: seq<Vehicle>)
    requires Fits(a, vehicles) && Fits(b, vehicles)
    requires Concat(a) == Concat(b)
    ensures a == b
  {
    if |a| > 0 {
      var n := |a| - 1;
      ConcatLength(a[..n], vehicles[..n]);
      ConcatLength(b[..n], vehicles[..n]);
      var m := |Concat(a[..n])|;
      assert Concat(a[..n]) == Concat(a)[..m] == Concat(b)[..m] == Concat(b[..n]);
      assert a[n] == Concat(a)[m..] == Concat(b)[m..] == b[n];
      SplitUnique(a[..n], b[..n], vehicles[..n]);
      assert a == a[..n] + [a[n]];
      assert b == b[..n] + [b[n]];
    }
  }

  lemma {:induction false} FlatInAppend(routes: seq<seq<Point>>, a: seq<nat>, b: seq<nat>)
    requires InRange(a, |routes|) && InRange(b, |routes|)
    ensures InRange(a + b, |routes|)
    ensures FlatIn(routes, a + b) == FlatIn(routes, a) + FlatIn(routes, b)
    decreases |b|
  {
    assert InRange(a + b, |routes|);
    if |b| > 0 {
      var n := |b| - 1;
      assert (a + b)[..|a + b| - 1] == a + b[..n];
      FlatInAppend(routes, a, b[..n]);
    } else {
      assert a + b == a;
    }
  }

  lemma RemoveAt(b: seq<nat>, k: nat)
    requires k < |b|
    ensures multiset(b) == multiset(b[..k] + b[k + 1..]) + multiset{b[k]}
  {
    assert b == b[..k] + [b[k]] + b[k + 1..];
  }

  /** Multiset addition cancels: the same part added to both sides can be taken away again. */
  lemma Cancel<T>(u: multiset<T>, w: multiset<T>, m: multiset<T>)
    requires u + m == w + m
    ensures u == w
  {
    forall y
      ensures u[y] == w[y]
    {
      assert (u + m)[y] == (w + m)[y];
    }
  }

  /**
   * When a and b list the same indices, the last index of a occurs in b at
   * some position k, and what remains of b lists the same indices as the
   * rest of a.
   */
  lemma PickOut(a: seq<nat>, b: seq<nat>) returns (k: nat, rest: seq<nat>)
    requires |a| > 0 && multiset(a) == multiset(b)
    ensures k < |b| && b[k] == a[|a| - 1] && rest == b[..k] + b[k + 1..]
    ensures multiset(a[..|a| - 1]) == multiset(rest)
  {
    var n := |a| - 1;
    assert a == a[..n] + [a[n]];
    assert a[n] in multiset(b);
    k :| 0 <= k < |b| && b[k] == a[n];
    rest := b[..k] + b[k + 1..];
    RemoveAt(b, k);
    Cancel(multiset(a[..n]), multiset(rest), multiset{a[n]});
  }

  /** Flattening splits around any one position of the order. */
  lemma FlatInSplit(routes: seq<seq<Point>>, b: seq<nat>, k: nat)
    requires InRange(b, |routes|) && k < |b|
    ensures InRange(b[..k] + b[k + 1..], |routes|)
    ensures FlatIn(routes, b) == FlatIn(routes, b[..k]) + routes[b[k]] + FlatIn(routes, b[k + 1..])
    ensures FlatIn(routes, b[..k] + b[k + 1..]) == FlatIn(routes, b[..k]) + FlatIn(routes, b[k + 1..])
  {
    assert b == (b[..k] + [b[k]]) + b[k + 1..];
    FlatInAppend(routes, b[..k] + [b[k]], b[k + 1..]);
    FlatInAppend(routes, b[..k], [b[k]]);
    FlatInAppend(routes, b[..k], b[k + 1..]);
    assert [b[k]][..0] == [];
  }

  /**
   * Flattening in two orders that list the same vehicle indices gives the same
   * points, as a multiset.
   */
  lemma {:induction false} FlatInPermutation(routes: seq<seq<Point>>, a: seq<nat>, b: seq<nat>)
    requires InRange(a, |routes|) && InRange(b, |routes|)
    requires multiset(a) == multiset(b)
    ensures multiset(FlatIn(routes, a)) == multiset(FlatIn(routes, b))
    decreases |a|
  {
    if |a| == 0 {
      assert |b| == |multiset(b)| == 0;
    } else {
      var n := |a| - 1;
      var k, rest := PickOut(a, b);
      FlatInPermutation(routes, a[..n], rest);
      FlatInSplit(routes, b, k);
    }
  }

  lemma {:induction false} FlatInIndices(routes: seq<seq<Point>>, m: nat)
    requires m <= |routes|
    ensures FlatIn(routes, Indices(m)) == Concat(routes[..m])
  {
    if m > 0 {
      assert Indices(m)[..m - 1] == Indices(m - 1);
      assert routes[..m][..m - 1] == routes[..m - 1];
      FlatInIndices(routes, m - 1);
    }
  }

  /**
   * Flattening in the map's key order (mergeLists) yields the points of
   * the routes, with the same multiplicities, as flattening in list order.
   */
  lemma KeyOrderFlatten(routes: seq<seq<Point>>, order: seq<nat>)
    requires IsKeyOrder(order, |routes|)
    ensures InRange(order, |routes|)
    ensures multiset(FlatIn(routes, order)) == multiset(Concat(routes))
    ensures |FlatIn(routes, order)| == |Concat(routes)|
  {
    KeyOrderInRange(order, |routes|);
    FlatInPermutation(routes, order, Indices(|routes|));
    FlatInIndices(routes, |routes|);
    assert routes[..|routes|] == routes;
    assert |FlatIn(routes, order)| == |multiset(FlatIn(routes, order))|;
  }
}
