/**
 * The search engine: a population of fireflies, the best one tracked by index,
 * and a fixed number of cycles in which every other firefly is moved toward
 * the best (beta-step), perturbed (alpha-step) and cut back into routes.
 */
module Search {
  import opened Beans
  import opened Routes
  import opened Timing
  import opened Candidate

  /** The random draws one mutation consumes, and which positions hold the very same Point object. */
  datatype MutationDraws = MutationDraws(
    /** Where candidate and best hold equal values: whether it is one shared object. */
    sameObject: nat -> bool,
    /** The `nextInt(100)` draw made at position i of the beta-step. */
    attraction: Rolls,
    /** The `nextInt` draw that picks the donor for the i-th free slot. */
    donor: Rolls,
    /** The `nextInt` draw for the number of swaps. */
    swapCount: nat,
    /** Four draws per swap: vehicle, position, vehicle, position. */
    swapPicks: Rolls)

  /** What solve reports: the best routes, their delivery times and the last improving cycle. */
  datatype Solution = Solution(permutation: seq<seq<Point>>, deliveryTimes: map<Point, real>, bestIterationNumber: int)

  /** Every firefly, holding `routes[a]`, has been pulled to the round's leader. */
  ghost predicate AllPulled(routes: seq<seq<seq<Point>>>, r: Round, beta: int, fleetSize: nat)
  {
    forall a :: 0 <= a < |routes| ==> PulledTo(routes[a], a, r, beta, fleetSize)
  }

  /**
   * `after` was mutated from `before` toward `theirs` with draws `d`: both
   * flattened in the map's key order, every position where the two held the
   * very same point object, and every position whose attraction draw fell
   * below beta, now holds the leader's point.
   */
  ghost predicate Attracted(before: seq<seq<Point>>, theirs: seq<seq<Point>>, after: seq<seq<Point>>, keyOrder: seq<nat>, d: MutationDraws, beta: int)
  {
    && InRange(keyOrder, |before|) && InRange(keyOrder, |theirs|)
    && var mine, best := FlatIn(before, keyOrder), FlatIn(theirs, keyOrder);
       && |Concat(after)| == |mine| == |best|
       && forall i :: 0 <= i < |Concat(after)| && ((d.sameObject(i) && mine[i] == best[i]) || d.attraction(i) % 100 < beta) ==> Concat(after)[i] == best[i]
  }

  /**
   * One pass of the inner loop of solve: the map's key order, the draws, the
   * cycle number, the routes every firefly held when the pass began, and the
   * leader's position.
   */
  datatype Round = Round(keyOrder: seq<nat>, draws: (nat, nat) -> MutationDraws, c: nat, start: seq<seq<seq<Point>>>, leader: nat)

  /**
   * The a-th firefly, now holding `routes`, has been pulled to the round's
   * leader: it holds a rearrangement of the leader's points; under full
   * attraction with the map's keys in list order it holds the leader's
   * routes; and unless it is the leader, it was mutated toward the leader
   * with the round's draws.
   */
  ghost predicate PulledTo(routes: seq<seq<Point>>, a: nat, r: Round, beta: int, fleetSize: nat)
  {
    && a < |r.start| && r.leader < |r.start|
    && multiset(Concat(routes)) == multiset(Concat(r.start[r.leader]))
    && (beta >= 100 && r.keyOrder == Indices(fleetSize) ==> routes == r.start[r.leader])
    && (a != r.leader ==> Attracted(r.start[a], r.start[r.leader], routes, r.keyOrder, r.draws(r.c, a), beta))
  }

  /** What the cycles read besides the population: the hop cost, the fleet, beta, the map's key order and the draws. */
  datatype Setup = Setup(hop: HopCost, vehicles: seq<Vehicle>, beta: int, keyOrder: seq<nat>, draws: (nat, nat) -> MutationDraws)

  /**
   * One cycle of solve, read off as values: every firefly's routes when the
   * cycle began and after its mutation pass, the best's position before and
   * after the re-selection, the best's fitness before and after, and
   * setBestFirefly's answer.
   */
  datatype Step = Step(start: seq<seq<seq<Point>>>, leader: nat, after: seq<seq<seq<Point>>>, chosen: nat,
                       before: real, score: real, found: bool)

  /**
   * Step s is cycle k: every firefly was pulled to the leader with the
   * cycle's draws, the leader's routes were left alone, and setBestFirefly
   * then moved to the first firefly of least fitness when one is strictly
   * fitter than the leader, and kept the leader otherwise.
   */
  ghost predicate Ran(s: Step, k: nat, setup: Setup)
  {
    && |s.after| == |s.start| && s.leader < |s.start| && s.chosen < |s.after| && |setup.vehicles| >= 1
    && (forall a :: 0 <= a < |s.after| ==> Measurable(setup.vehicles, s.after[a]))
    && AllPulled(s.after, Round(setup.keyOrder, setup.draws, k, s.start, s.leader), setup.beta, |setup.vehicles|)
    && s.after[s.leader] == s.start[s.leader]
    && s.before == Fitness(setup.hop, setup.vehicles, s.after[s.leader])
    && s.score == Fitness(setup.hop, setup.vehicles, s.after[s.chosen])
    && (forall a :: 0 <= a < |s.after| ==> s.score <= Fitness(setup.hop, setup.vehicles, s.after[a]))
    && (s.found <==> s.score < s.before)
    && (s.found ==> forall a :: 0 <= a < s.chosen ==> s.score < Fitness(setup.hop, setup.vehicles, s.after[a]))
    && (!s.found ==> s.chosen == s.leader)
  }

  /** The values of s at the given positions. */
  function At(s: seq<Point>, positions: seq<nat>): seq<Point>
    requires InRange(positions, |s|)
  {
    seq(|positions|, k requires 0 <= k < |positions| => s[positions[k]])
  }

  lemma AtAppend(s: seq<Point>, positions: seq<nat>, p: nat)
    requires InRange(positions, |s|) && p < |s|
    ensures InRange(positions + [p], |s|)
    ensures At(s, positions + [p]) == At(s, positions) + [s[p]]
  {
  }

  lemma AtRemove(s: seq<Point>, left: seq<nat>, r: nat)
    requires InRange(left, |s|) && r < |left|
    ensures InRange(left[..r] + left[r + 1..], |s|)
    ensures multiset(At(s, left)) == multiset(At(s, left[..r] + left[r + 1..])) + multiset{s[left[r]]}
  {
    assert At(s, left) == At(s, left[..r]) + [s[left[r]]] + At(s, left[r + 1..]);
    assert At(s, left[..r] + left[r + 1..]) == At(s, left[..r]) + At(s, left[r + 1..]);
  }

  /** Overwriting one position trades that position's old value for the new one. */
  lemma UpdateMultiset(s: seq<Point>, i: nat, v: Point)
    requires i < |s|
    ensures multiset(s[i := v]) + multiset{s[i]} == multiset(s) + multiset{v}
  {
    assert s == s[..i] + [s[i]] + s[i + 1..];
    assert s[i := v] == s[..i] + [v] + s[i + 1..];
  }

  /** One exchange of x for y on the left of a balanced multiset equation, with x and y added on either side. */
  lemma Exchange(c1: multiset<Point>, c0: multiset<Point>, a: multiset<Point>, k: multiset<Point>,
                 whole: multiset<Point>, b: multiset<Point>, ac: multiset<Point>, x: Point, y: Point)
    requires c1 + multiset{x} == c0 + multiset{y}
    requires c0 + a + k == whole + b + ac
    ensures c1 + a + (k + multiset{x}) == whole + (b + multiset{y}) + ac
  {
    forall z
      ensures (c1 + a + (k + multiset{x}))[z] == (whole + (b + multiset{y}) + ac)[z]
    {
      assert (c1 + multiset{x})[z] == (c0 + multiset{y})[z];
      assert (c0 + a + k)[z] == (whole + b + ac)[z];
    }
  }

  /** A new free slot adds its candidate point and its best point to both sides. */
  lemma Reserve(c: multiset<Point>, a: multiset<Point>, k: multiset<Point>,
                whole: multiset<Point>, b: multiset<Point>, ac: multiset<Point>, x: Point, y: Point)
    requires c + a + k == whole + b + ac
    ensures c + (a + multiset{y}) + (k + multiset{x}) == whole + (b + multiset{y}) + (ac + multiset{x})
  {
    forall z
      ensures (c + (a + multiset{y}) + (k + multiset{x}))[z] == (whole + (b + multiset{y}) + (ac + multiset{x}))[z]
    {
      assert (c + a + k)[z] == (whole + b + ac)[z];
    }
  }

  /** Filling a slot moves one donor out of the pool and the slot's old point into the consumed part. */
  lemma Refill(r1: multiset<Point>, r0: multiset<Point>, pool: multiset<Point>, consumed: multiset<Point>,
               c: multiset<Point>, donors: multiset<Point>, x: Point, y: Point)
    requires r1 + multiset{x} == r0 + multiset{y}
    requires r0 + (pool + multiset{y}) + consumed == c + donors
    ensures r1 + pool + (consumed + multiset{x}) == c + donors
  {
    forall z
      ensures (r1 + pool + (consumed + multiset{x}))[z] == (c + donors)[z]
    {
      assert (r1 + multiset{x})[z] == (r0 + multiset{y})[z];
      assert (r0 + (pool + multiset{y}) + consumed)[z] == (c + donors)[z];
    }
  }

  /**
   * The multiset balance of the attraction pass survives position i, whether
   * the position was copied from the best, became a free slot, or held equal
   * points.
   */
  lemma AttractBalance(c: seq<Point>, c1: seq<Point>, candidate: seq<Point>, best: seq<Point>,
                       freeSlots: seq<nat>, freeSlots1: seq<nat>, i: nat)
    requires i < |candidate| == |best| == |c| && c[i] == candidate[i]
    requires InRange(freeSlots, |best|) && InRange(freeSlots1, |best|)
    requires || (c1 == c[i := best[i]] && freeSlots1 == freeSlots)
             || (c1 == c && freeSlots1 == freeSlots + [i])
             || (c1 == c && freeSlots1 == freeSlots && candidate[i] == best[i])
    requires multiset(c) + multiset(At(best, freeSlots)) + multiset(candidate[..i]) ==
             multiset(candidate) + multiset(best[..i]) + multiset(At(candidate, freeSlots))
    ensures multiset(c1) + multiset(At(best, freeSlots1)) + multiset(candidate[..i + 1]) ==
            multiset(candidate) + multiset(best[..i + 1]) + multiset(At(candidate, freeSlots1))
  {
    assert best[..i + 1] == best[..i] + [best[i]];
    assert candidate[..i + 1] == candidate[..i] + [candidate[i]];
    var a, ac := multiset(At(best, freeSlots)), multiset(At(candidate, freeSlots));
    var k, b := multiset(candidate[..i]), multiset(best[..i]);
    if c1 == c[i := best[i]] && freeSlots1 == freeSlots {
      UpdateMultiset(c, i, best[i]);
      Exchange(multiset(c1), multiset(c), a, k, multiset(candidate), b, ac, candidate[i], best[i]);
    } else if c1 == c && freeSlots1 == freeSlots + [i] {
      AtAppend(best, freeSlots, i);
      AtAppend(candidate, freeSlots, i);
      Reserve(multiset(c), a, k, multiset(candidate), b, ac, candidate[i], best[i]);
    } else {
      Exchange(multiset(c), multiset(c), a, k, multiset(candidate), b, ac, candidate[i], best[i]);
    }
  }

  predicate Increasing(positions: seq<nat>)
  {
    forall a, b :: 0 <= a < b < |positions| ==> positions[a] < positions[b]
  }

  /**
   * The positions below n that the attraction pass leaves free, in order:
   * those where candidate and best differ and the roll is not below beta.
   */
  function FreeSlots(differs: seq<bool>, beta: int, attraction: Rolls, n: nat): seq<nat>
    requires n <= |differs|
  {
    if n == 0 then []
    else
      var earlier := FreeSlots(differs, beta, attraction, n - 1);
      if differs[n - 1] && attraction(n - 1) % 100 >= beta then earlier + [n - 1] else earlier
  }

  /** The free slots are increasing positions below n, and a position is free exactly when it differs and its roll is not below beta. */
  lemma {:induction false} FreeSlotsFacts(differs: seq<bool>, beta: int, attraction: Rolls, n: nat)
    requires n <= |differs|
    ensures InRange(FreeSlots(differs, beta, attraction, n), n)
    ensures Increasing(FreeSlots(differs, beta, attraction, n))
    ensures forall i :: 0 <= i < n ==>
      (i in FreeSlots(differs, beta, attraction, n) <==> differs[i] && attraction(i) % 100 >= beta)
  {
    if n > 0 {
      FreeSlotsFacts(differs, beta, attraction, n - 1);
      var prev := FreeSlots(differs, beta, attraction, n - 1);
      assert n - 1 !in prev;
      forall i | 0 <= i < n - 1
        ensures i in FreeSlots(differs, beta, attraction, n) <==> i in prev
      {
      }
    }
  }

  /**
   * Where the attraction pass stands after position i: positions from i on
   * are untouched, earlier ones are copied from the best exactly where they
   * differ and the roll is below beta, the free slots are FreeSlots(..., i),
   * and the multisets balance.
   */
  ghost predicate Attracting(candidate: seq<Point>, best: seq<Point>, differs: seq<bool>, beta: int, attraction: Rolls,
                             c: seq<Point>, freeSlots: seq<nat>, i: nat)
    requires |candidate| == |best| == |differs| && i <= |best|
  {
    && |c| == |best| && InRange(freeSlots, i) && InRange(freeSlots, |best|)
    && freeSlots == FreeSlots(differs, beta, attraction, i)
    && (forall j :: i <= j < |c| ==> c[j] == candidate[j])
    && (forall j :: 0 <= j < i && !(differs[j] && attraction(j) % 100 < beta) ==> c[j] == candidate[j])
    && (forall j :: 0 <= j < i && differs[j] && attraction(j) % 100 < beta ==> c[j] == best[j])
    && multiset(c) + multiset(At(best, freeSlots)) + multiset(candidate[..i]) ==
       multiset(candidate) + multiset(best[..i]) + multiset(At(candidate, freeSlots))
  }

  /** One position of the attraction pass carries its state from i to i + 1. */
  lemma AttractStep(candidate: seq<Point>, best: seq<Point>, differs: seq<bool>, beta: int, attraction: Rolls,
                    c: seq<Point>, freeSlots: seq<nat>, c1: seq<Point>, freeSlots1: seq<nat>, i: nat)
    requires |candidate| == |best| == |differs| && i < |best|
    requires forall j :: 0 <= j < |differs| && !differs[j] ==> candidate[j] == best[j]
    requires Attracting(candidate, best, differs, beta, attraction, c, freeSlots, i)
    requires || (differs[i] && attraction(i) % 100 < beta && c1 == c[i := best[i]] && freeSlots1 == freeSlots)
             || (differs[i] && attraction(i) % 100 >= beta && c1 == c && freeSlots1 == freeSlots + [i])
             || (!differs[i] && c1 == c && freeSlots1 == freeSlots)
    ensures Attracting(candidate, best, differs, beta, attraction, c1, freeSlots1, i + 1)
  {
    AttractBalance(c, c1, candidate, best, freeSlots, freeSlots1, i);
  }

  /**
   * First pass of the beta-step: at every position where candidate and best
   * differ, a roll below beta copies the best's point; otherwise the position
   * becomes a free slot (and the best's point there a donor). The points the
   * copies bring in and the donors together replace what the copies and the
   * free slots held.
   */
  method AttractTowardBest(candidate: seq<Point>, best: seq<Point>, differs: seq<bool>, beta: int, attraction: Rolls)
    returns (c: seq<Point>, freeSlots: seq<nat>)
    requires |candidate| == |best| == |differs|
    requires forall i :: 0 <= i < |differs| && !differs[i] ==> candidate[i] == best[i]
    ensures |c| == |best| && InRange(freeSlots, |best|)
    ensures freeSlots == FreeSlots(differs, beta, attraction, |best|)
    ensures forall j :: 0 <= j < |c| && !(differs[j] && attraction(j) % 100 < beta) ==> c[j] == candidate[j]
    ensures forall j :: 0 <= j < |c| && differs[j] && attraction(j) % 100 < beta ==> c[j] == best[j]
    ensures multiset(c) + multiset(At(best, freeSlots)) == multiset(best) + multiset(At(candidate, freeSlots))
  {
    c := candidate;
    freeSlots := [];
    var i := 0;
    while i < |best|
      invariant i <= |best|
      invariant Attracting(candidate, best, differs, beta, attraction, c, freeSlots, i)
    {
      if differs[i] && attraction(i) % 100 < beta {
        AttractStep(candidate, best, differs, beta, attraction, c, freeSlots, c[i := best[i]], freeSlots, i);
        c := c[i := best[i]];
      } else if differs[i] {
        AttractStep(candidate, best, differs, beta, attraction, c, freeSlots, c, freeSlots + [i], i);
        freeSlots := freeSlots + [i];
      } else {
        AttractStep(candidate, best, differs, beta, attraction, c, freeSlots, c, freeSlots, i);
      }
      i := i + 1;
    }
    assert best[..i] == best;
    assert candidate[..i] == candidate;
    Cancel(multiset(c) + multiset(At(best, freeSlots)),
              multiset(best) + multiset(At(candidate, freeSlots)), multiset(candidate));
  }

  /** The multiset balance of the donor fill survives one filled slot. */
  lemma FillBalance(r: seq<Point>, c: seq<Point>, best: seq<Point>, freeSlots: seq<nat>, left: seq<nat>, n: nat, p: nat)
    requires |r| == |c| == |best| && InRange(freeSlots, |c|) && InRange(left, |best|)
    requires n < |freeSlots| && p < |left| && r[freeSlots[n]] == c[freeSlots[n]]
    requires multiset(r) + multiset(At(best, left)) + multiset(At(c, freeSlots[..n])) ==
             multiset(c) + multiset(At(best, freeSlots))
    ensures InRange(left[..p] + left[p + 1..], |best|)
    ensures multiset(r[freeSlots[n] := best[left[p]]]) + multiset(At(best, left[..p] + left[p + 1..])) +
            multiset(At(c, freeSlots[..n + 1])) == multiset(c) + multiset(At(best, freeSlots))
  {
    var slot, chosen := freeSlots[n], left[p];
    var remaining := left[..p] + left[p + 1..];
    AtRemove(best, left, p);
    assert freeSlots[..n + 1] == freeSlots[..n] + [slot];
    AtAppend(c, freeSlots[..n], slot);
    UpdateMultiset(r, slot, best[chosen]);
    Refill(multiset(r[slot := best[chosen]]), multiset(r), multiset(At(best, remaining)),
           multiset(At(c, freeSlots[..n])), multiset(c), multiset(At(best, freeSlots)), c[slot], best[chosen]);
  }

  /** Filling slot n with a donor keeps every earlier slot's donor and every position outside the filled slots. */
  lemma FillPlace(r: seq<Point>, c: seq<Point>, best: seq<Point>, freeSlots: seq<nat>, used: seq<nat>, n: nat, chosen: nat)
    requires |r| == |c| && InRange(freeSlots, |c|) && Increasing(freeSlots)
    requires n < |freeSlots| && |used| == n && InRange(used, |best|) && chosen < |best|
    requires forall k {:trigger used[k]} :: 0 <= k < n ==> r[freeSlots[k]] == best[used[k]]
    requires forall j {:trigger r[j]} :: 0 <= j < |c| && j !in freeSlots[..n] ==> r[j] == c[j]
    ensures forall k {:trigger (used + [chosen])[k]} :: 0 <= k < n + 1 ==>
      r[freeSlots[n] := best[chosen]][freeSlots[k]] == best[(used + [chosen])[k]]
    ensures forall j {:trigger r[freeSlots[n] := best[chosen]][j]} :: 0 <= j < |c| && j !in freeSlots[..n + 1] ==> r[freeSlots[n] := best[chosen]][j] == c[j]
  {
    assert freeSlots[..n + 1] == freeSlots[..n] + [freeSlots[n]];
    forall k | 0 <= k < n + 1
      ensures r[freeSlots[n] := best[chosen]][freeSlots[k]] == best[(used + [chosen])[k]]
    {
      if k < n {
        assert used[k] == (used + [chosen])[k];
        assert freeSlots[k] < freeSlots[n];
      }
    }
  }

  /**
   * Where the donor fill stands after n slots: slot k < n holds the best's
   * point at used[k], every position outside the first n slots still holds
   * the candidate's point, `left` lists the donors not used yet, and the
   * points moved in balance the points moved out.
   */
  ghost predicate Filling(c: seq<Point>, best: seq<Point>, freeSlots: seq<nat>,
                          r: seq<Point>, used: seq<nat>, left: seq<nat>, n: nat)
    requires |c| == |best| && InRange(freeSlots, |c|) && n <= |freeSlots|
  {
    |r| == |c| && |left| == |freeSlots| - n &&
    InRange(left, |best|) && InRange(used, |best|) &&
    |used| == n && multiset(used) + multiset(left) == multiset(freeSlots) &&
    (forall k {:trigger used[k]} :: 0 <= k < n ==> r[freeSlots[k]] == best[used[k]]) &&
    (forall j {:trigger r[j]} :: 0 <= j < |c| && j !in freeSlots[..n] ==> r[j] == c[j]) &&
    multiset(r) + multiset(At(best, left)) + multiset(At(c, freeSlots[..n])) ==
    multiset(c) + multiset(At(best, freeSlots))
  }

  /** Filling slot n from the donor at position p of `left` carries the fill's state to n + 1 slots. */
  lemma FillStep(c: seq<Point>, best: seq<Point>, freeSlots: seq<nat>,
                 r: seq<Point>, used: seq<nat>, left: seq<nat>, n: nat, p: nat)
    requires |c| == |best| && InRange(freeSlots, |c|) && Increasing(freeSlots) && n < |freeSlots|
    requires Filling(c, best, freeSlots, r, used, left, n) && p < |left|
    ensures Filling(c, best, freeSlots, r[freeSlots[n] := best[left[p]]], used + [left[p]],
                    left[..p] + left[p + 1..], n + 1)
  {
    var slot := freeSlots[n];
    assert slot !in freeSlots[..n] by {
      assert forall k :: 0 <= k < n ==> freeSlots[..n][k] < slot;
    }
    FillBalance(r, c, best, freeSlots, left, n, p);
    FillPlace(r, c, best, freeSlots, used, n, left[p]);
    RemoveAt(left, p);
  }

  /**
   * Second pass of the beta-step: each free slot, in order, receives the
   * point at a donor position picked at random among those not used yet, so
   * every donor is used exactly once and the bound given to `nextInt` is
   * never zero.
   */
  method FillFreeSlots(c: seq<Point>, best: seq<Point>, freeSlots: seq<nat>, donor: Rolls)
    returns (r: seq<Point>, ghost used: seq<nat>)
    requires |c| == |best|
    requires InRange(freeSlots, |c|) && Increasing(freeSlots)
    ensures |r| == |c| && |used| == |freeSlots|
    ensures InRange(used, |best|) && multiset(used) == multiset(freeSlots)
    ensures forall k :: 0 <= k < |freeSlots| ==> r[freeSlots[k]] == best[used[k]]
    ensures forall j {:trigger r[j]} :: 0 <= j < |c| && j !in freeSlots ==> r[j] == c[j]
    ensures multiset(r) + multiset(At(c, freeSlots)) == multiset(c) + multiset(At(best, freeSlots))
  {
    r := c;
    used := [];
    var left := freeSlots;
    var n := 0;
    while n < |freeSlots|
      invariant n <= |freeSlots|
      invariant Filling(c, best, freeSlots, r, used, left, n)
    {
      var randomPointNumber := donor(n) % |left|;
      FillStep(c, best, freeSlots, r, used, left, n, randomPointNumber);
      r := r[freeSlots[n] := best[left[randomPointNumber]]];
      used := used + [left[randomPointNumber]];
      left := left[..randomPointNumber] + left[randomPointNumber + 1..];
      n := n + 1;
    }
    assert freeSlots[..n] == freeSlots;
    assert At(best, left) == [];
  }

  /**
   * The beta-step of mutate, on the flattened candidate and best lists: the
   * attraction pass, then the donor fill. The result is a rearrangement of
   * the best's list that agrees with the candidate wherever the two did not
   * differ.
   */
  method BetaStep(candidate: seq<Point>, best: seq<Point>, differs: seq<bool>, beta: int, attraction: Rolls, donor: Rolls)
    returns (r: seq<Point>)
    requires |candidate| == |best| == |differs|
    requires forall i :: 0 <= i < |differs| && !differs[i] ==> candidate[i] == best[i]
    ensures |r| == |best|
    ensures multiset(r) == multiset(best)
    ensures forall i :: 0 <= i < |r| && !differs[i] ==> r[i] == candidate[i]
    ensures forall i :: 0 <= i < |r| && differs[i] && attraction(i) % 100 < beta ==> r[i] == best[i]
    ensures beta >= 100 ==> r == best
  {
    var c, freeSlots := AttractTowardBest(candidate, best, differs, beta, attraction);
    FreeSlotsFacts(differs, beta, attraction, |best|);
    ghost var used;
    r, used := FillFreeSlots(c, best, freeSlots, donor);
    assert At(c, freeSlots) == At(candidate, freeSlots);
    Cancel(multiset(r), multiset(best), multiset(At(candidate, freeSlots)));
    if beta >= 100 {
      assert forall j :: 0 <= j < |r| ==> r[j] == best[j];
    }
  }

  /**
   * The unmerge step of mutate: each vehicle, in list order, takes its
   * `capacity` points off the front of the list.
   */
  method Unmerge(list: seq<Point>, vehicles: seq<Vehicle>) returns (routes: seq<seq<Point>>, rest: seq<Point>)
    requires TotalCapacity(vehicles) <= |list|
    ensures Fits(routes, vehicles)
    ensures Concat(routes) == list[..TotalCapacity(vehicles)]
    ensures rest == list[TotalCapacity(vehicles)..]
  {
    rest := list;
    routes := [];
    var k := 0;
    while k < |vehicles|
      invariant 0 <= k <= |vehicles|
      invariant Fits(routes, vehicles[..k])
      invariant TotalCapacity(vehicles[..k]) <= TotalCapacity(vehicles)
      invariant Concat(routes) == list[..TotalCapacity(vehicles[..k])]
      invariant rest == list[TotalCapacity(vehicles[..k])..]
    {
      TotalCapacityStep(vehicles, k);
      TotalCapacityPrefix(vehicles, k + 1);
      var consumed := TotalCapacity(vehicles[..k]);
      var newVehiclePermutation: seq<Point> := [];
      var i := 0;
      while i < vehicles[k].capacity
        invariant 0 <= i <= vehicles[k].capacity
        invariant |newVehiclePermutation| == i
        invariant Concat(routes) + newVehiclePermutation == list[..consumed + i]
        invariant rest == list[consumed + i..]
      {
        assert list[..consumed + i + 1] == list[..consumed + i] + [list[consumed + i]];
        newVehiclePermutation := newVehiclePermutation + [rest[0]];
        rest := rest[1..];
        i := i + 1;
      }
      ConcatAppend(routes, newVehiclePermutation);
      FitsAppend(routes, vehicles, k, newVehiclePermutation);
      routes := routes + [newVehiclePermutation];
      k := k + 1;
    }
    assert vehicles[..k] == vehicles;
  }

  /** Whether the alpha-step's `nextInt` gets a bound that is not positive (alpha != 0 and points * alpha / 100 <= 0). */
  predicate AlphaThrows(pointsCount: nat, alpha: int)
  {
    alpha != 0 && JavaDiv(pointsCount * alpha, 100) <= 0
  }

  /**
   * The exception the first cycle runs into, if any: how `initialize`
   * ends, given the parameters and the input.
   */
  function InitializeOutcome(firefliesNumber: int, vehicles: seq<Vehicle>, pointsCount: nat): Outcome
  {
    if firefliesNumber >= 1 && TotalCapacity(vehicles) > pointsCount then Fail(IllegalArgument)
    else if firefliesNumber < 1 then Fail(IndexOutOfBounds)
    else if exists j :: 0 <= j < |vehicles| && vehicles[j].capacity == 0 then Fail(IndexOutOfBounds)
    else Pass
  }

  /** How `solve` ends: initialization, then the first mutation's alpha-step. */
  function SolveOutcome(firefliesNumber: int, cycles: int, alpha: int, vehicles: seq<Vehicle>, pointsCount: nat): Outcome
  {
    var init := InitializeOutcome(firefliesNumber, vehicles, pointsCount);
    if init.Fail? then init
    else if cycles >= 1 && firefliesNumber >= 2 && AlphaThrows(pointsCount, alpha) then Fail(IllegalArgument)
    else Pass
  }

  /** The last cycle whose best-selection found an improvement, or 0 if none did. */
  function LastImproved(improved: seq<bool>): (r: nat)
    ensures (exists k :: 0 <= k < |improved| && improved[k]) ==> r < |improved| && improved[r]
    ensures (forall k :: 0 <= k < |improved| ==> !improved[k]) ==> r == 0
    ensures forall k :: r < k < |improved| ==> !improved[k]
  {
    if |improved| == 0 then 0
    else if improved[|improved| - 1] then |improved| - 1
    else LastImproved(improved[..|improved| - 1])
  }

  /** A population member: routes for exactly this fleet, holding input points only. */
  ghost predicate Member(f: Firefly, vehicles: seq<Vehicle>, points: seq<Point>)
    reads f
  {
    && f.fleet == vehicles
    && f.Valid()
    && multiset(Concat(f.routes)) <= multiset(points)
    && (TotalCapacity(vehicles) == |points| ==> multiset(Concat(f.routes)) == multiset(points))
  }

  /**
   * The record solve keeps: the best's fitness after initialization and
   * after each cycle never goes up, and a cycle counts as improving exactly
   * when it went strictly down.
   */
  predicate History(bestScores: seq<real>, improved: seq<bool>)
  {
    && |bestScores| == |improved| + 1
    && forall c :: 0 <= c < |improved| ==>
         bestScores[c + 1] <= bestScores[c] && (improved[c] <==> bestScores[c + 1] < bestScores[c])
  }

  /** Recording one more round keeps the history, and moves the last improving round exactly when the new one improved. */
  lemma {:induction false} RecordRound(bestScores: seq<real>, improved: seq<bool>, score: real, found: bool)
    requires History(bestScores, improved)
    requires score <= bestScores[|improved|] && (found <==> score < bestScores[|improved|])
    ensures History(bestScores + [score], improved + [found])
    ensures LastImproved(improved + [found]) == if found then |improved| else LastImproved(improved)
  {
    assert (improved + [found])[..|improved|] == improved;
  }

  class FireflyAlgorithm {
    var points: seq<Point>
    var vehicles: seq<Vehicle>
    var fireflies: seq<Firefly>
    /** The best firefly, as its index in `fireflies`. */
    var best: nat
    var bestIterationNumber: int
    var firefliesNumber: int
    var beta: int
    var alpha: int
    var cycles: int
    /** The travel time of a hop, which the source computes from coordinates and speed. */
    const hop: HopCost

    constructor (hop: HopCost)
      ensures this.hop == hop
      ensures points == [] && vehicles == [] && fireflies == [] && best == 0 && bestIterationNumber == 0
      ensures firefliesNumber == 500 && beta == 25 && alpha == 10 && cycles == 200
    {
      this.hop := hop;
      points, vehicles, fireflies := [], [], [];
      best, bestIterationNumber := 0, 0;
      firefliesNumber, beta, alpha, cycles := 500, 25, 10, 200;
    }

    method SetInputData(points: seq<Point>, vehicles: seq<Vehicle>)
      modifies this`points, this`vehicles
      ensures this.points == points && this.vehicles == vehicles
    {
      this.points := points;
      this.vehicles := vehicles;
    }

    method SetAlgorithmParams(params: Params) returns (outcome: Outcome)
      modifies this`alpha, this`beta, this`cycles, this`firefliesNumber
      ensures params.FireflyParams? ==> (outcome == Pass &&
        alpha == params.alpha && beta == params.beta && cycles == params.cycles && firefliesNumber == params.firefliesNumber)
      ensures !params.FireflyParams? ==> (outcome == Fail(IllegalArgument) &&
        alpha == old(alpha) && beta == old(beta) && cycles == old(cycles) && firefliesNumber == old(firefliesNumber))
    {
      if params.FireflyParams? {
        alpha := params.alpha;
        beta := params.beta;
        cycles := params.cycles;
        firefliesNumber := params.firefliesNumber;
        outcome := Pass;
      } else {
        outcome := Fail(IllegalArgument);
      }
    }

    /** The population after a successful initialization, kept by every cycle. */
    ghost predicate Population()
      reads this`fireflies, this`vehicles, this`points, this`firefliesNumber, fireflies
    {
      && |fireflies| == firefliesNumber >= 1
      && |vehicles| >= 1
      && (forall j :: 0 <= j < |vehicles| ==> vehicles[j].capacity >= 1)
      && TotalCapacity(vehicles) <= |points|
      && (forall a :: 0 <= a < |fireflies| ==> fireflies[a].position == a)
      && (forall a {:trigger Member(fireflies[a], vehicles, points)} ::
            0 <= a < |fireflies| ==> Member(fireflies[a], vehicles, points))
    }

    ghost predicate Ready()
      reads this`fireflies, this`vehicles, this`points, this`firefliesNumber, this`best, fireflies
    {
      Population() && best < |fireflies|
    }

    /** The fitness of the i-th firefly. */
    ghost function ScoreOf(i: nat): real
      requires Population() && i < |fireflies|
      reads this`fireflies, this`vehicles, this`points, this`firefliesNumber, fireflies
    {
      assert Member(fireflies[i], vehicles, points);
      Fitness(hop, vehicles, fireflies[i].routes)
    }

    /**
     * When the fleet needs every input point, each firefly's routes hold
     * exactly the input points: no point is lost or doubled.
     */
    lemma ExactCover()
      requires Population() && TotalCapacity(vehicles) == |points|
      ensures forall i :: 0 <= i < |fireflies| ==> multiset(Concat(fireflies[i].routes)) == multiset(points)
    {
      forall i | 0 <= i < |fireflies|
        ensures multiset(Concat(fireflies[i].routes)) == multiset(points)
      {
        assert Member(fireflies[i], vehicles, points);
      }
    }

    /** The tracked best is a population minimum. */
    ghost predicate BestIsMinimum()
      requires Ready()
      reads this`fireflies, this`vehicles, this`points, this`firefliesNumber, this`best, fireflies
    {
      forall i :: 0 <= i < |fireflies| ==> ScoreOf(best) <= ScoreOf(i)
    }

    /** The routes every firefly holds now, in population order; the best's fitness is the least of theirs. */
    ghost method Snapshot() returns (population: seq<seq<seq<Point>>>)
      requires Ready() && BestIsMinimum()
      ensures |population| == |fireflies| && best < |population|
      ensures forall i :: 0 <= i < |population| ==> population[i] == fireflies[i].routes
      ensures forall i :: 0 <= i < |population| ==> Measurable(vehicles, population[i])
      ensures Fitness(hop, vehicles, population[best]) == ScoreOf(best)
      ensures forall i :: 0 <= i < |population| ==> ScoreOf(best) <= Fitness(hop, vehicles, population[i])
    {
      population := [];
      while |population| < |fireflies|
        invariant |population| <= |fireflies|
        invariant forall i :: 0 <= i < |population| ==> population[i] == fireflies[i].routes
        invariant forall i :: 0 <= i < |population| ==> Measurable(vehicles, population[i])
        invariant forall i :: 0 <= i < |population| ==> ScoreOf(best) <= Fitness(hop, vehicles, population[i])
      {
        var i := |population|;
        assert Member(fireflies[i], vehicles, points) && ScoreOf(best) <= ScoreOf(i);
        population := population + [fireflies[i].routes];
      }
      assert Member(fireflies[best], vehicles, points);
    }

    /**
     * One comparison of the scan: both fitnesses are computed afresh, and
     * only a strictly lower one wins.
     */
    method IsFitter(i: nat, current: nat, keyOrder: seq<nat>) returns (fitter: bool)
      requires Population() && i < |fireflies| && current < |fireflies| && IsKeyOrder(keyOrder, |vehicles|)
      ensures fitter <==> ScoreOf(i) < ScoreOf(current)
    {
      assert Member(fireflies[i], vehicles, points) && Member(fireflies[current], vehicles, points);
      var fitness := fireflies[i].DistanceFunction(hop, keyOrder);
      var bestFitness := fireflies[current].DistanceFunction(hop, keyOrder);
      fitter := fitness < bestFitness;
    }

    /**
     * The scan of setBestFirefly, starting from the current best: the index
     * it ends on, and whether it ever moved.
     */
    method FittestIndex(keyOrder: seq<nat>) returns (found: bool, index: nat)
      requires Ready() && IsKeyOrder(keyOrder, |vehicles|)
      ensures index < |fireflies|
      ensures forall i :: 0 <= i < |fireflies| ==> ScoreOf(index) <= ScoreOf(i)
      ensures found <==> ScoreOf(index) < ScoreOf(best)
      ensures found <==> exists i :: 0 <= i < |fireflies| && ScoreOf(i) < ScoreOf(best)
      ensures !found ==> index == best
      ensures found ==> forall j :: 0 <= j < index ==> ScoreOf(index) < ScoreOf(j)
    {
      found := false;
      index := best;
      var i := 0;
      while i < firefliesNumber
        invariant 0 <= i <= firefliesNumber && index < |fireflies|
        invariant forall j :: 0 <= j < i ==> ScoreOf(index) <= ScoreOf(j)
        invariant ScoreOf(index) <= ScoreOf(best)
        invariant found <==> ScoreOf(index) < ScoreOf(best)
        invariant !found ==> index == best
        invariant found ==> index < i && forall j :: 0 <= j < index ==> ScoreOf(index) < ScoreOf(j)
      {
        var fitter := IsFitter(i, index, keyOrder);
        if fitter {
          index := i;
          found := true;
        }
        i := i + 1;
      }
    }

    /**
     * One scan over the population: a firefly strictly fitter than the
     * current best replaces it; ties do not.
     */
    method SetBestFirefly(keyOrder: seq<nat>) returns (found: bool)
      requires Ready() && IsKeyOrder(keyOrder, |vehicles|)
      modifies this`best
      ensures Ready() && BestIsMinimum()
      ensures found <==> ScoreOf(best) < ScoreOf(old(best))
      ensures found <==> exists i :: 0 <= i < |fireflies| && ScoreOf(i) < ScoreOf(old(best))
      ensures !found ==> best == old(best)
      ensures found ==> forall j :: 0 <= j < best ==> ScoreOf(best) < ScoreOf(j)
    {
      var index;
      found, index := FittestIndex(keyOrder);
      best := index;
    }

    /** The routes concatenated in the map's key order. */
    method MergeLists(f: Firefly, keyOrder: seq<nat>) returns (pointsList: seq<Point>)
      requires IsKeyOrder(keyOrder, |f.routes|)
      ensures InRange(keyOrder, |f.routes|)
      ensures pointsList == FlatIn(f.routes, keyOrder)
      ensures multiset(pointsList) == multiset(Concat(f.routes))
      ensures |pointsList| == |Concat(f.routes)|
    {
      KeyOrderFlatten(f.routes, keyOrder);
      pointsList := [];
      var k := 0;
      while k < |keyOrder|
        invariant 0 <= k <= |keyOrder|
        invariant pointsList == FlatIn(f.routes, keyOrder[..k])
      {
        var route := f.routes[keyOrder[k]];
        var i := 0;
        while i < |route|
          invariant 0 <= i <= |route|
          invariant pointsList == FlatIn(f.routes, keyOrder[..k]) + route[..i]
        {
          assert route[..i + 1] == route[..i] + [route[i]];
          pointsList := pointsList + [route[i]];
          i := i + 1;
        }
        assert route[..i] == route;
        assert keyOrder[..k + 1][..k] == keyOrder[..k];
        k := k + 1;
      }
      assert keyOrder[..k] == keyOrder;
    }

    /**
     * Picks a random vehicle and a random point of its route, twice, and
     * exchanges the two local variables holding those points: the firefly's
     * routes are not touched.
     */
    method Swap(f: Firefly, picks: Rolls, base: nat) returns (first: Point, second: Point)
      requires |vehicles| >= 1 && f.fleet == vehicles && f.Valid()
      requires forall j :: 0 <= j < |vehicles| ==> vehicles[j].capacity >= 1
      ensures first in Concat(f.routes) && second in Concat(f.routes)
    {
      var swappedVehicle1 := picks(base) % |vehicles|;
      var pointsPool := f.routes[swappedVehicle1];
      var position1 := picks(base + 1) % |pointsPool|;
      var swappedPoint1 := pointsPool[position1];
      var swappedVehicle2 := picks(base + 2) % |vehicles|;
      pointsPool := f.routes[swappedVehicle2];
      var position2 := picks(base + 3) % |pointsPool|;
      var swappedPoint2 := pointsPool[position2];
      InConcat(f.routes, swappedVehicle1, position1);
      InConcat(f.routes, swappedVehicle2, position2);
      var temp := swappedPoint1;
      swappedPoint1 := swappedPoint2;
      swappedPoint2 := temp;
      first, second := swappedPoint1, swappedPoint2;
    }

    /**
     * The alpha-step of mutate: draws the number of swaps below
     * points * alpha / 100 (none when alpha is 0) and performs them.
     */
    method AlphaStep(f: Firefly, d: MutationDraws) returns (swaps: Result<nat>)
      requires |vehicles| >= 1 && f.fleet == vehicles && f.Valid()
      requires forall j :: 0 <= j < |vehicles| ==> vehicles[j].capacity >= 1
      ensures swaps.Err? <==> AlphaThrows(|points|, alpha)
      ensures swaps.Err? ==> swaps.error == IllegalArgument
      ensures swaps.Ok? && alpha == 0 ==> swaps.value == 0
      ensures swaps.Ok? && alpha != 0 ==> swaps.value < JavaDiv(|points| * alpha, 100)
    {
      var count: nat;
      if alpha != 0 {
        var bound := JavaDiv(|points| * alpha, 100);
        if bound <= 0 {
          return Err(IllegalArgument);
        }
        count := d.swapCount % bound;
      } else {
        count := 0;
      }
      var i := 0;
      while i < count
        invariant 0 <= i <= count
      {
        var _, _ := Swap(f, d.swapPicks, 4 * i);
        i := i + 1;
      }
      swaps := Ok(count);
    }

    /**
     * The new routes mutate gives a non-best firefly: flatten it and the best,
     * beta-step, alpha-step, then cut the list into the vehicles' routes. A
     * position "differs" by the source's reference comparison: different
     * values, or equal values held by different objects.
     */
    method MutatedRoutes(f: Firefly, bestFirefly: Firefly, keyOrder: seq<nat>, d: MutationDraws)
      returns (outcome: Outcome, routes: seq<seq<Point>>)
      requires |vehicles| >= 1 && forall j :: 0 <= j < |vehicles| ==> vehicles[j].capacity >= 1
      requires f.fleet == vehicles && f.Valid() && bestFirefly.fleet == vehicles && bestFirefly.Valid()
      requires IsKeyOrder(keyOrder, |vehicles|)
      ensures InRange(keyOrder, |vehicles|)
      ensures outcome == (if AlphaThrows(|points|, alpha) then Fail(IllegalArgument) else Pass)
      ensures outcome.Fail? ==> routes == f.routes
      ensures outcome.Pass? ==> Fits(routes, vehicles)
      ensures outcome.Pass? ==> multiset(Concat(routes)) == multiset(Concat(bestFirefly.routes))
      ensures outcome.Pass? ==> |Concat(routes)| == |FlatIn(f.routes, keyOrder)| == |FlatIn(bestFirefly.routes, keyOrder)|
      ensures outcome.Pass? ==>
        var mine, theirs := FlatIn(f.routes, keyOrder), FlatIn(bestFirefly.routes, keyOrder);
        forall i :: 0 <= i < |Concat(routes)| && ((d.sameObject(i) && mine[i] == theirs[i]) || d.attraction(i) % 100 < beta) ==> Concat(routes)[i] == theirs[i]
      ensures outcome.Pass? && beta >= 100 ==> Concat(routes) == FlatIn(bestFirefly.routes, keyOrder)
      ensures outcome.Pass? && beta >= 100 && keyOrder == Indices(|vehicles|) ==> routes == bestFirefly.routes
    {
      var candidateList := MergeLists(f, keyOrder);
      var bestList := MergeLists(bestFirefly, keyOrder);
      ConcatLength(f.routes, vehicles);
      ConcatLength(bestFirefly.routes, vehicles);
      var differs := seq(|bestList|, i requires 0 <= i < |bestList| =>
        candidateList[i] != bestList[i] || !d.sameObject(i));
      candidateList := BetaStep(candidateList, bestList, differs, beta, d.attraction, d.donor);
      var swaps := AlphaStep(f, d);
      if swaps.Err? {
        return Fail(swaps.error), f.routes;
      }
      var rest;
      routes, rest := Unmerge(candidateList, vehicles);
      assert candidateList[..TotalCapacity(vehicles)] == candidateList;
      outcome := Pass;
      if beta >= 100 && keyOrder == Indices(|vehicles|) {
        FlatInIndices(bestFirefly.routes, |vehicles|);
        assert bestFirefly.routes[..|vehicles|] == bestFirefly.routes;
        SplitUnique(routes, bestFirefly.routes, vehicles);
      }
    }

    /** Mutate: the firefly's map is cleared and refilled with the mutated routes, unless the alpha-step throws first. */
    method Mutate(f: Firefly, ghost j: nat, keyOrder: seq<nat>, d: MutationDraws) returns (outcome: Outcome)
      requires Ready() && IsKeyOrder(keyOrder, |vehicles|)
      requires j < |fireflies| && fireflies[j] == f && j != best
      modifies f
      ensures Ready()
      ensures outcome == (if AlphaThrows(|points|, alpha) then Fail(IllegalArgument) else Pass)
      ensures outcome.Fail? ==> f.routes == old(f.routes)
      ensures outcome.Pass? ==> multiset(Concat(f.routes)) == multiset(Concat(fireflies[best].routes))
      ensures outcome.Pass? && beta >= 100 && keyOrder == Indices(|vehicles|) ==> f.routes == fireflies[best].routes
      ensures InRange(keyOrder, |vehicles|) && |old(f.routes)| == |vehicles| && |fireflies[best].routes| == |vehicles|
      ensures outcome.Pass? ==>
        |Concat(f.routes)| == |FlatIn(old(f.routes), keyOrder)| == |FlatIn(fireflies[best].routes, keyOrder)|
      ensures outcome.Pass? ==>
        var mine, theirs := FlatIn(old(f.routes), keyOrder), FlatIn(fireflies[best].routes, keyOrder);
        forall i :: 0 <= i < |Concat(f.routes)| && ((d.sameObject(i) && mine[i] == theirs[i]) || d.attraction(i) % 100 < beta) ==> Concat(f.routes)[i] == theirs[i]
    {
      var routes;
      assert Member(f, vehicles, points) && Member(fireflies[best], vehicles, points);
      outcome, routes := MutatedRoutes(f, fireflies[best], keyOrder, d);
      if outcome.Pass? {
        ghost var bestRoutes := fireflies[best].routes;
        f.routes := routes;
        assert fireflies[best].routes == bestRoutes;
        assert Member(f, vehicles, points);
        KeepReady(j);
      }
    }

    /** Rewriting the j-th firefly's routes into those of a population member keeps the population ready. */
    twostate lemma KeepReady(j: nat)
      requires old(Ready()) && j < |fireflies| && unchanged(this)
      requires forall a :: 0 <= a < |fireflies| && a != j ==> unchanged(fireflies[a])
      requires Member(fireflies[j], vehicles, points)
      ensures Ready()
    {
      forall a | 0 <= a < |fireflies| && a != j
        ensures Member(fireflies[a], vehicles, points)
      {
        assert old(Member(fireflies[a], vehicles, points));
      }
    }

    /** A firefly of the creation loop: placed at `position`, drawn from the input points with `rolls`. */
    ghost predicate Spawned(f: Firefly, position: nat, rolls: Rolls)
      reads this`vehicles, this`points, f
    {
      Member(f, vehicles, points) && f.position == position && Drew(f.routes, points, vehicles, rolls)
    }

    /**
     * The creation loop of initialize: firefliesNumber new fireflies, each
     * drawing its routes from its own copy of the input points.
     */
    method AddFireflies(build: nat -> Rolls)
      requires fireflies == [] && (firefliesNumber < 1 || TotalCapacity(vehicles) <= |points|)
      modifies this`fireflies
      ensures |fireflies| == (if firefliesNumber < 0 then 0 else firefliesNumber)
      ensures forall a :: 0 <= a < |fireflies| ==> fresh(fireflies[a]) && Spawned(fireflies[a], a, build(a))
    {
      var i := 0;
      while i < firefliesNumber
        invariant 0 <= i <= (if firefliesNumber < 0 then 0 else firefliesNumber)
        invariant |fireflies| == i
        invariant forall a :: 0 <= a < i ==> fresh(fireflies[a]) && Spawned(fireflies[a], a, build(a))
      {
        var f := NewFirefly(build(i), i);
        fireflies := fireflies + [f];
        i := i + 1;
      }
    }

    /** A freshly created population of drawn fireflies meets the population invariant. */
    lemma Populated(build: nat -> Rolls)
      requires |fireflies| == firefliesNumber >= 1 && |vehicles| >= 1 && TotalCapacity(vehicles) <= |points|
      requires forall j :: 0 <= j < |vehicles| ==> vehicles[j].capacity >= 1
      requires forall a :: 0 <= a < |fireflies| ==> Spawned(fireflies[a], a, build(a))
      ensures Population()
      ensures forall a :: 0 <= a < |fireflies| ==> Drew(fireflies[a].routes, points, vehicles, build(a))
    {
      forall a | 0 <= a < |fireflies|
        ensures fireflies[a].position == a && Member(fireflies[a], vehicles, points)
        ensures Drew(fireflies[a].routes, points, vehicles, build(a))
      {
        assert Spawned(fireflies[a], a, build(a));
      }
    }

    /** One firefly of the creation loop, drawn with `rolls` and placed at `position`. */
    method NewFirefly(rolls: Rolls, ghost position: nat) returns (f: Firefly)
      requires TotalCapacity(vehicles) <= |points|
      ensures fresh(f) && Spawned(f, position, rolls)
    {
      f := new Firefly(points, vehicles, rolls, position);
      ConcatLength(f.routes, vehicles);
      assert TotalCapacity(vehicles) == |points| ==> f.unassigned == [];
    }

    /** Builds the population and selects the initial best. */
    method Initialize(keyOrder: seq<nat>, build: nat -> Rolls) returns (outcome: Outcome)
      requires fireflies == [] && |vehicles| >= 1 && IsKeyOrder(keyOrder, |vehicles|)
      modifies this`fireflies, this`best
      ensures outcome == InitializeOutcome(firefliesNumber, vehicles, |points|)
      ensures forall a :: 0 <= a < |fireflies| ==> fresh(fireflies[a])
      ensures outcome.Pass? ==> Ready()
      ensures outcome.Pass? ==> BestIsMinimum()
      ensures outcome.Pass? ==> forall j :: 0 <= j < best ==> ScoreOf(best) < ScoreOf(j)
      ensures outcome.Pass? ==> forall a :: 0 <= a < |fireflies| ==> Drew(fireflies[a].routes, points, vehicles, build(a))
    {
      outcome := Populate(build);
      if outcome.Pass? {
        var _ := SetBestFirefly(keyOrder);
      }
    }

    /** The creation loop and the first leader, before the best is searched for. */
    method Populate(build: nat -> Rolls) returns (outcome: Outcome)
      requires fireflies == [] && |vehicles| >= 1
      modifies this`fireflies, this`best
      ensures outcome == InitializeOutcome(firefliesNumber, vehicles, |points|)
      ensures forall a :: 0 <= a < |fireflies| ==> fresh(fireflies[a])
      ensures outcome.Pass? ==> Ready() && best == 0
      ensures outcome.Pass? ==> forall a :: 0 <= a < |fireflies| ==> Drew(fireflies[a].routes, points, vehicles, build(a))
    {
      if firefliesNumber >= 1 && TotalCapacity(vehicles) > |points| {
        return Fail(IllegalArgument);
      }
      AddFireflies(build);
      if firefliesNumber < 1 {
        return Fail(IndexOutOfBounds);
      }
      best := 0;
      if exists j :: 0 <= j < |vehicles| && vehicles[j].capacity == 0 {
        return Fail(IndexOutOfBounds);
      }
      Populated(build);
      outcome := Pass;
    }

    /** The routes the first n fireflies hold. */
    ghost function RoutesOf(n: nat): (r: seq<seq<seq<Point>>>)
      requires n <= |fireflies|
      reads this`fireflies, fireflies
      ensures |r| == n && forall a :: 0 <= a < n ==> r[a] == fireflies[a].routes
    {
      if n == 0 then [] else RoutesOf(n - 1) + [fireflies[n - 1].routes]
    }

    /**
     * The first n fireflies of the round have been pulled to its leader, the
     * others still hold the routes they started the round with, and so does
     * the leader.
     */
    ghost predicate Pulled(n: nat, r: Round)
      requires n <= |fireflies|
      reads this`fireflies, this`vehicles, this`beta, fireflies
    {
      && |r.start| == |fireflies| && r.leader < |fireflies|
      && fireflies[r.leader].routes == r.start[r.leader]
      && (forall a :: 0 <= a < n ==> PulledAt(a, r))
      && (forall a :: n <= a < |fireflies| ==> fireflies[a].routes == r.start[a])
    }

    /** The a-th firefly has been pulled to the round's leader. */
    ghost predicate PulledAt(a: nat, r: Round)
      requires a < |fireflies|
      reads this`fireflies, this`vehicles, this`beta, fireflies[a]
    {
      PulledTo(fireflies[a].routes, a, r, beta, |vehicles|)
    }

    /**
     * Rewriting only the j-th firefly, so that it is pulled to the leader,
     * extends Pulled from j to j + 1. The step is one pair, j and the
     * round, because the prover crashes on a two-state lemma with several
     * parameters when contradictory assumptions are reported.
     */
    twostate lemma KeepPulled(step: (nat, Round))
      requires step.0 < |fireflies| && unchanged(this)
      requires forall a :: 0 <= a < |fireflies| && a != step.0 ==> unchanged(fireflies[a])
      requires old(Pulled(step.0, step.1))
      requires PulledAt(step.0, step.1) && fireflies[step.1.leader].routes == step.1.start[step.1.leader]
      ensures Pulled(step.0 + 1, step.1)
    {
      var (j, r) := step;
      forall a | 0 <= a < j
        ensures PulledAt(a, r)
      {
        assert old(PulledAt(a, r));
      }
      forall a | j + 1 <= a < |fireflies|
        ensures fireflies[a].routes == r.start[a]
      {
        assert old(fireflies[a].routes) == r.start[a];
      }
    }

    /** One step of the inner loop: the j-th firefly is mutated unless it is the best itself. */
    method Pull(j: nat, keyOrder: seq<nat>, draws: (nat, nat) -> MutationDraws, c: nat, ghost start: seq<seq<seq<Point>>>)
      returns (outcome: Outcome)
      requires Ready() && IsKeyOrder(keyOrder, |vehicles|) && j < |fireflies|
      requires Pulled(j, Round(keyOrder, draws, c, start, best))
      modifies fireflies[j]
      ensures Ready() && unchanged(fireflies[best])
      ensures outcome == (if j != best && AlphaThrows(|points|, alpha) then Fail(IllegalArgument) else Pass)
      ensures outcome.Pass? ==> Pulled(j + 1, Round(keyOrder, draws, c, start, best))
    {
      ghost var r := Round(keyOrder, draws, c, start, best);
      assert fireflies[j].position == j && fireflies[best].position == best;
      outcome := Pass;
      if fireflies[j] != fireflies[best] {
        assert fireflies[j].routes == start[j];
        outcome := Mutate(fireflies[j], j, keyOrder, draws(c, j));
        if outcome.Fail? {
          return;
        }
      }
      KeepPulled((j, r));
    }

    /**
     * The inner loop of a cycle: every firefly other than the best (by
     * reference), in list order, is mutated; the best's routes are left alone.
     */
    method MutateAll(keyOrder: seq<nat>, draws: (nat, nat) -> MutationDraws, c: nat, ghost start: seq<seq<seq<Point>>>)
      returns (outcome: Outcome)
      requires Ready() && IsKeyOrder(keyOrder, |vehicles|)
      requires |start| == |fireflies| && forall a :: 0 <= a < |fireflies| ==> start[a] == fireflies[a].routes
      modifies fireflies
      ensures outcome == (if firefliesNumber >= 2 && AlphaThrows(|points|, alpha) then Fail(IllegalArgument) else Pass)
      ensures outcome.Pass? ==> Ready() && fireflies[best].routes == old(fireflies[best].routes)
      ensures outcome.Pass? ==> Pulled(|fireflies|, Round(keyOrder, draws, c, start, best))
    {
      var j := 0;
      while j < |fireflies|
        invariant 0 <= j <= |fireflies|
        invariant Ready()
        invariant AlphaThrows(|points|, alpha) ==> j == 0 || (j == 1 && best == 0)
        invariant Pulled(j, Round(keyOrder, draws, c, start, best))
      {
        outcome := Pull(j, keyOrder, draws, c, start);
        if outcome.Fail? {
          return;
        }
        j := j + 1;
      }
      outcome := Pass;
    }

    /**
     * One cycle of solve: mutate every firefly other than the best, then
     * re-select the best. The best's routes are left alone, so its fitness
     * can only go down.
     */
    method Cycle(keyOrder: seq<nat>, draws: (nat, nat) -> MutationDraws, c: nat, ghost entry: real)
      returns (outcome: Outcome, found: bool, ghost start: seq<seq<seq<Point>>>, ghost after: seq<seq<seq<Point>>>)
      requires Ready() && IsKeyOrder(keyOrder, |vehicles|) && entry == ScoreOf(best)
      modifies fireflies, this`best, this`bestIterationNumber
      ensures outcome == (if firefliesNumber >= 2 && AlphaThrows(|points|, alpha) then Fail(IllegalArgument) else Pass)
      ensures |start| == |fireflies| && forall a :: 0 <= a < |fireflies| ==> start[a] == old(fireflies[a].routes)
      ensures outcome.Pass? ==> Ready()
      ensures outcome.Pass? ==> |after| == |fireflies| && forall a :: 0 <= a < |fireflies| ==> fireflies[a].routes == after[a]
      ensures outcome.Pass? ==> AllPulled(after, Round(keyOrder, draws, c, start, old(best)), beta, |vehicles|)
      ensures outcome.Pass? ==> forall a :: 0 <= a < |after| ==> multiset(Concat(after[a])) == multiset(Concat(after[best]))
      ensures outcome.Pass? ==> BestIsMinimum()
      ensures outcome.Pass? ==> ScoreOf(best) <= entry
      ensures outcome.Pass? ==> (found <==> ScoreOf(best) < entry)
      ensures outcome.Pass? ==> after[old(best)] == start[old(best)] && ScoreOf(old(best)) == entry
      ensures outcome.Pass? ==> (!found ==> best == old(best))
      ensures outcome.Pass? ==> (found ==> forall j :: 0 <= j < best ==> ScoreOf(best) < ScoreOf(j))
      ensures outcome.Pass? ==> bestIterationNumber == if found then c else old(bestIterationNumber)
    {
      outcome, start, after := Move(keyOrder, draws, c);
      if outcome.Fail? {
        return outcome, false, start, after;
      }
      found := Select(keyOrder, c, entry);
    }

    /**
     * The mutation half of a cycle: record the routes every firefly starts
     * with, then pull every firefly other than the best toward it.
     */
    method Move(keyOrder: seq<nat>, draws: (nat, nat) -> MutationDraws, c: nat)
      returns (outcome: Outcome, ghost start: seq<seq<seq<Point>>>, ghost after: seq<seq<seq<Point>>>)
      requires Ready() && IsKeyOrder(keyOrder, |vehicles|)
      modifies fireflies
      ensures outcome == (if firefliesNumber >= 2 && AlphaThrows(|points|, alpha) then Fail(IllegalArgument) else Pass)
      ensures |start| == |fireflies| && forall a :: 0 <= a < |fireflies| ==> start[a] == old(fireflies[a].routes)
      ensures outcome.Pass? ==> Ready() && fireflies[best].routes == old(fireflies[best].routes)
      ensures outcome.Pass? ==> |after| == |fireflies| && forall a :: 0 <= a < |fireflies| ==> fireflies[a].routes == after[a]
      ensures outcome.Pass? ==> AllPulled(after, Round(keyOrder, draws, c, start, best), beta, |vehicles|)
      ensures outcome.Pass? ==> forall a :: 0 <= a < |after| ==> multiset(Concat(after[a])) == multiset(Concat(start[best]))
    {
      start := RoutesOf(|fireflies|);
      after := start;
      outcome := MutateAll(keyOrder, draws, c, start);
      if outcome.Pass? {
        after := RoutesOf(|fireflies|);
        SameLeader(Round(keyOrder, draws, c, start, best), after);
      }
    }

    /** Once every firefly is pulled to the leader, all hold rearrangements of the leader's points. */
    lemma SameLeader(r: Round, after: seq<seq<seq<Point>>>)
      requires Pulled(|fireflies|, r)
      requires |after| == |fireflies| && forall a :: 0 <= a < |fireflies| ==> fireflies[a].routes == after[a]
      ensures AllPulled(after, r, beta, |vehicles|)
      ensures forall a :: 0 <= a < |after| ==> multiset(Concat(after[a])) == multiset(Concat(r.start[r.leader]))
    {
      forall a | 0 <= a < |after|
        ensures PulledTo(after[a], a, r, beta, |vehicles|)
      {
        assert PulledAt(a, r);
      }
    }

    /** The selection half of a cycle: re-select the best, and record the cycle if it improved. */
    method Select(keyOrder: seq<nat>, c: nat, ghost entry: real) returns (found: bool)
      requires Ready() && IsKeyOrder(keyOrder, |vehicles|) && entry == ScoreOf(best)
      modifies this`best, this`bestIterationNumber
      ensures Ready() && BestIsMinimum()
      ensures ScoreOf(best) <= entry
      ensures found <==> ScoreOf(best) < entry
      ensures old(best) < |fireflies| && ScoreOf(old(best)) == entry
      ensures !found ==> best == old(best)
      ensures found ==> forall j :: 0 <= j < best ==> ScoreOf(best) < ScoreOf(j)
      ensures bestIterationNumber == if found then c else old(bestIterationNumber)
    {
      ghost var selected := best;
      found := SetBestFirefly(keyOrder);
      assert ScoreOf(selected) == entry;
      if found {
        bestIterationNumber := c;
      }
    }

    /**
     * The cycle loop of solve: `cycles` rounds of mutation and re-selection,
     * recording the round whenever the selection found an improvement. The
     * ghost outputs record the best's fitness on entry and after each round,
     * and each round's selection result.
     */
    method RunCycles(keyOrder: seq<nat>, draws: (nat, nat) -> MutationDraws, ghost entry: real)
      returns (outcome: Outcome, ghost bestScores: seq<real>, ghost improved: seq<bool>)
      requires Ready() && BestIsMinimum() && IsKeyOrder(keyOrder, |vehicles|) && bestIterationNumber == 0
      requires entry == ScoreOf(best)
      modifies fireflies, this`best, this`bestIterationNumber
      ensures outcome == (if cycles >= 1 && firefliesNumber >= 2 && AlphaThrows(|points|, alpha) then Fail(IllegalArgument) else Pass)
      ensures outcome.Pass? ==> Ready() && BestIsMinimum()
      ensures outcome.Pass? ==> |improved| == (if cycles < 0 then 0 else cycles) && History(bestScores, improved)
      ensures outcome.Pass? ==> bestScores[|improved|] == ScoreOf(best)
      ensures outcome.Pass? ==> bestIterationNumber == LastImproved(improved)
      ensures outcome.Pass? ==> bestScores[0] == entry && ScoreOf(best) <= entry
    {
      bestScores, improved := [entry], [];
      outcome := Pass;
      var c := 0;
      while c < cycles
        invariant Ready() && outcome == Pass
        invariant 0 <= c <= (if cycles < 0 then 0 else cycles)
        invariant c >= 1 ==> !(firefliesNumber >= 2 && AlphaThrows(|points|, alpha))
        invariant |improved| == c && History(bestScores, improved)
        invariant bestScores[c] == ScoreOf(best)
        invariant bestScores[0] == entry && bestScores[c] <= entry
        invariant bestIterationNumber == LastImproved(improved)
        invariant BestIsMinimum()
      {
        ghost var step;
        outcome, bestScores, improved, step := Turn(keyOrder, draws, c, entry, bestScores, improved);
        if outcome.Fail? {
          return;
        }
        c := c + 1;
      }
    }

    /**
     * One round of the cycle loop: a cycle, and the record of what it found,
     * appended to the history. The ghost step is the round read off as
     * values: it starts from the routes the fireflies held on entry.
     */
    method Turn(keyOrder: seq<nat>, draws: (nat, nat) -> MutationDraws, c: nat, ghost entry: real,
                ghost bestScores: seq<real>, ghost improved: seq<bool>)
      returns (outcome: Outcome, ghost scores: seq<real>, ghost record: seq<bool>, ghost step: Step)
      requires Ready() && BestIsMinimum() && IsKeyOrder(keyOrder, |vehicles|)
      requires |improved| == c && History(bestScores, improved) && bestScores[c] == ScoreOf(best)
      requires bestScores[0] == entry && bestScores[c] <= entry && bestIterationNumber == LastImproved(improved)
      modifies fireflies, this`best, this`bestIterationNumber
      ensures outcome == (if firefliesNumber >= 2 && AlphaThrows(|points|, alpha) then Fail(IllegalArgument) else Pass)
      ensures outcome.Pass? ==> Ready() && BestIsMinimum()
      ensures outcome.Pass? ==> scores == bestScores + [step.score] && record == improved + [step.found]
      ensures outcome.Pass? ==> |record| == c + 1 && History(scores, record) && scores[c + 1] == ScoreOf(best)
      ensures outcome.Pass? ==> scores[0] == entry && scores[c + 1] <= entry && bestIterationNumber == LastImproved(record)
      ensures outcome.Pass? ==> Ran(step, c, Setup(hop, vehicles, beta, keyOrder, draws)) && step.before == bestScores[c]
      ensures outcome.Pass? ==> |step.start| == |fireflies| && forall a :: 0 <= a < |fireflies| ==> step.start[a] == old(fireflies[a].routes)
      ensures outcome.Pass? ==> step.leader == old(best) && step.chosen == best
      ensures outcome.Pass? ==> |step.after| == |fireflies| && forall a :: 0 <= a < |fireflies| ==> fireflies[a].routes == step.after[a]
    {
      var found;
      ghost var start, after;
      ghost var leader := best;
      outcome, found, start, after := Cycle(keyOrder, draws, c, bestScores[c]);
      scores, record := bestScores, improved;
      step := Step(start, leader, start, leader, bestScores[c], bestScores[c], false);
      if outcome.Pass? {
        ghost var score := ScoreOf(best);
        RecordRound(bestScores, improved, score, found);
        record := improved + [found];
        scores := bestScores + [score];
        step := Step(start, leader, after, best, bestScores[c], score, found);
        Observe(step, c, keyOrder, draws);
      }
    }

    /** The state a cycle left, read off as a step, is a run of cycle k. */
    lemma Observe(s: Step, k: nat, keyOrder: seq<nat>, draws: (nat, nat) -> MutationDraws)
      requires Ready() && BestIsMinimum()
      requires |s.after| == |fireflies| && forall a :: 0 <= a < |fireflies| ==> fireflies[a].routes == s.after[a]
      requires |s.start| == |fireflies| && s.leader < |fireflies| && s.chosen == best
      requires AllPulled(s.after, Round(keyOrder, draws, k, s.start, s.leader), beta, |vehicles|)
      requires s.after[s.leader] == s.start[s.leader]
      requires s.before == ScoreOf(s.leader) && s.score == ScoreOf(best)
      requires s.found <==> s.score < s.before
      requires s.found ==> forall j :: 0 <= j < best ==> ScoreOf(best) < ScoreOf(j)
      requires !s.found ==> best == s.leader
      ensures Ran(s, k, Setup(hop, vehicles, beta, keyOrder, draws))
    {
      forall a | 0 <= a < |fireflies|
        ensures Measurable(vehicles, s.after[a]) && ScoreOf(a) == Fitness(hop, vehicles, s.after[a])
      {
        assert Member(fireflies[a], vehicles, points);
      }
    }

    /**
     * The search: initialize, run the cycles, then report the best's routes,
     * their delivery times and the last improving cycle.
     */
    method Solve(keyOrder: seq<nat>, build: nat -> Rolls, draws: (nat, nat) -> MutationDraws)
      returns (result: Result<Solution>, ghost initial: seq<seq<seq<Point>>>, ghost bestScores: seq<real>, ghost improved: seq<bool>)
      requires fireflies == [] && bestIterationNumber == 0
      requires |vehicles| >= 1 && IsKeyOrder(keyOrder, |vehicles|)
      modifies this`fireflies, this`best, this`bestIterationNumber
      ensures result.Err? <==> SolveOutcome(firefliesNumber, cycles, alpha, vehicles, |points|).Fail?
      ensures result.Err? ==> result.error == SolveOutcome(firefliesNumber, cycles, alpha, vehicles, |points|).error
      ensures result.Ok? ==> Ready() && InRange(keyOrder, |vehicles|)
      ensures result.Ok? ==> |improved| == (if cycles < 0 then 0 else cycles) && History(bestScores, improved)
      ensures result.Ok? ==> bestIterationNumber == LastImproved(improved) == result.value.bestIterationNumber
      ensures result.Ok? ==> bestScores[|improved|] == ScoreOf(best)
      ensures result.Ok? ==> |initial| == firefliesNumber && forall i :: 0 <= i < |initial| ==> Measurable(vehicles, initial[i])
      ensures result.Ok? ==> forall i :: 0 <= i < |initial| ==> Drew(initial[i], points, vehicles, build(i))
      ensures result.Ok? ==> exists i :: 0 <= i < |initial| && bestScores[0] == Fitness(hop, vehicles, initial[i])
      ensures result.Ok? ==> forall i :: 0 <= i < |initial| ==> bestScores[0] <= Fitness(hop, vehicles, initial[i])
      ensures result.Ok? ==> ScoreOf(best) <= bestScores[0]
      ensures result.Ok? ==> BestIsMinimum()
      ensures result.Ok? ==> result.value.permutation == fireflies[best].routes
      ensures result.Ok? ==> Fits(result.value.permutation, vehicles) && Measurable(vehicles, result.value.permutation)
      ensures result.Ok? ==> result.value.deliveryTimes == DeliveryTimes(hop, vehicles, fireflies[best].routes, keyOrder)
    {
      var outcome;
      outcome, initial, bestScores, improved := Evolve(keyOrder, build, draws);
      if outcome.Fail? {
        return Err(outcome.error), initial, bestScores, improved;
      }
      var solution := Report(keyOrder);
      result := Ok(solution);
    }

    /**
     * What solve does before it reports: build the population, record its
     * routes, then run the cycles.
     */
    method Evolve(keyOrder: seq<nat>, build: nat -> Rolls, draws: (nat, nat) -> MutationDraws)
      returns (outcome: Outcome, ghost initial: seq<seq<seq<Point>>>, ghost bestScores: seq<real>, ghost improved: seq<bool>)
      requires fireflies == [] && bestIterationNumber == 0
      requires |vehicles| >= 1 && IsKeyOrder(keyOrder, |vehicles|)
      modifies this`fireflies, this`best, this`bestIterationNumber
      ensures outcome == SolveOutcome(firefliesNumber, cycles, alpha, vehicles, |points|)
      ensures outcome.Pass? ==> Ready() && BestIsMinimum()
      ensures outcome.Pass? ==> |improved| == (if cycles < 0 then 0 else cycles) && History(bestScores, improved)
      ensures outcome.Pass? ==> bestIterationNumber == LastImproved(improved) && bestScores[|improved|] == ScoreOf(best)
      ensures outcome.Pass? ==> |initial| == firefliesNumber && forall i :: 0 <= i < |initial| ==> Measurable(vehicles, initial[i])
      ensures outcome.Pass? ==> forall i :: 0 <= i < |initial| ==> Drew(initial[i], points, vehicles, build(i))
      ensures outcome.Pass? ==> exists i :: 0 <= i < |initial| && bestScores[0] == Fitness(hop, vehicles, initial[i])
      ensures outcome.Pass? ==> forall i :: 0 <= i < |initial| ==> bestScores[0] <= Fitness(hop, vehicles, initial[i])
      ensures outcome.Pass? ==> ScoreOf(best) <= bestScores[0]
    {
      bestScores, improved := [], [];
      outcome, initial := Start(keyOrder, build);
      if outcome.Fail? {
        return;
      }
      ghost var first := best;
      outcome, bestScores, improved := RunCycles(keyOrder, draws, ScoreOf(best));
      if outcome.Fail? {
        return;
      }
      assert bestScores[0] == Fitness(hop, vehicles, initial[first]);
    }

    /** Initialization, with a record of the routes each firefly was created with. */
    method Start(keyOrder: seq<nat>, build: nat -> Rolls) returns (outcome: Outcome, ghost initial: seq<seq<seq<Point>>>)
      requires fireflies == [] && |vehicles| >= 1 && IsKeyOrder(keyOrder, |vehicles|)
      modifies this`fireflies, this`best
      ensures outcome == InitializeOutcome(firefliesNumber, vehicles, |points|)
      ensures forall a :: 0 <= a < |fireflies| ==> fresh(fireflies[a])
      ensures outcome.Pass? ==> Ready() && BestIsMinimum()
      ensures outcome.Pass? ==> |initial| == firefliesNumber && forall i :: 0 <= i < |initial| ==> Measurable(vehicles, initial[i])
      ensures outcome.Pass? ==> forall i :: 0 <= i < |initial| ==> Drew(initial[i], points, vehicles, build(i))
      ensures outcome.Pass? ==> |initial| == |fireflies| && forall a :: 0 <= a < |fireflies| ==> initial[a] == fireflies[a].routes
      ensures outcome.Pass? ==> Fitness(hop, vehicles, initial[best]) == ScoreOf(best)
      ensures outcome.Pass? ==> forall i :: 0 <= i < |initial| ==> ScoreOf(best) <= Fitness(hop, vehicles, initial[i])
    {
      initial := [];
      outcome := Initialize(keyOrder, build);
      if outcome.Pass? {
        initial := Snapshot();
      }
    }

    /** The answer of solve: the best's routes, their delivery times, and the last improving cycle. */
    method Report(keyOrder: seq<nat>) returns (solution: Solution)
      requires Ready() && IsKeyOrder(keyOrder, |vehicles|)
      ensures InRange(keyOrder, |vehicles|)
      ensures solution.permutation == fireflies[best].routes && solution.bestIterationNumber == bestIterationNumber
      ensures Fits(solution.permutation, vehicles) && Measurable(vehicles, solution.permutation)
      ensures solution.deliveryTimes == DeliveryTimes(hop, vehicles, fireflies[best].routes, keyOrder)
    {
      assert Member(fireflies[best], vehicles, points);
      var times := fireflies[best].GetApproximatedDeliveryTime(hop, keyOrder);
      solution := Solution(fireflies[best].routes, times, bestIterationNumber);
    }
  }
}
