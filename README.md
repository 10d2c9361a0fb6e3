# Firefly search for capacitated vehicle routing, in Dafny

This project models the firefly metaheuristic of the pizzeria route planner:
- `Firefly/Firefly.java`, one candidate solution;
- `Firefly/FireflyAlgorithm.java`, the search over a population of candidates.

A candidate ("firefly") assigns each vehicle an ordered route of exactly
`capacity` delivery points. The points are drawn at random, without
replacement, from a copy of the input points. Its fitness is lower for better
candidates. The fitness is the sum, over all vehicles, of the running arrival
times at the vehicle's points (starting from the depot at the origin), divided
by the number of vehicles.

The search works as follows:
- It builds `firefliesNumber` candidates and picks the fittest as the best.
- For `cycles` rounds, it mutates every candidate other than the best, then
  re-selects the best.
- Each mutation flattens the candidate and the best into point lists. Then:
  - the beta-step copies some differing positions from the best and fills
    the remaining "free slots" with the best's left-over points in random
    order;
  - the alpha-step draws a random number of swaps, but each swap only
    exchanges two local variables, so it leaves the routes unchanged;
  - the list is cut back into capacity-sized routes.
- It reports the best's routes, its delivery-time map and the last round in
  which the best improved.

Modules:
- `Beans`: points, vehicles, parameter objects, the Java exceptions, and
  Java's truncating `int` division.
- `Routes`: route lists, their concatenation in vehicle order or in the map's
  key order, and permutation lemmas.
- `Timing`: arrival times, the fitness and the delivery-time report, as
  functions, with their lemmas.
- `Candidate`: the random drawing of routes as functions (`DrawnRoute`,
  `Drawn`), and the class `Firefly` (its constructor's drawing loops,
  `DistanceFunction`, `GetApproximatedDeliveryTime`).
- `Search`: the class `FireflyAlgorithm` (parameters, initialization,
  best-selection, mutation, the cycle loop, `Solve`). It also holds the
  beta-step passes and the unmerge as methods over point lists.

Randomness and the travel-time geometry are inputs:
- a `Rolls` value gives the raw draws, and a `nextInt(b)` call is `roll % b`;
- the hop cost `HopCost(vehicle, from, to)` stands for distance divided by
  speed.

The vehicle-keyed hash map of a firefly is a sequence of routes indexed by
position in the vehicle list. The map's key-iteration order is a separate
input `keyOrder`, which lists every vehicle index once.

One round of the cycle loop can be read off as a value `Step`: the routes
every firefly held before and after the mutation pass, the best before and
after re-selection, the best's fitness before and after, and whether it
improved. The predicate `Ran` says such a step is round c of the search under
the given hop cost, fleet, beta, key order and draws.

The source compares points by reference at `FireflyAlgorithm.java:113`. The
model decides "differs" from the values plus a caller-supplied `sameObject`
oracle: equal values count as the same only when they are one object. The
mask therefore satisfies "not differing implies equal values", the one fact
the beta-step's permutation proof needs.

## Model

| member | source | states |
|---|---|---|
| Beans.JavaDiv | Firefly/FireflyAlgorithm.java:146 | The `int` quotient used as the swap bound is not positive exactly when the dividend is below the divisor; for non-negative dividends it is the floor quotient |
| Routes.ConcatLength | Firefly/FireflyAlgorithm.java:157-164 | Routes that fit the fleet hold exactly as many points as the fleet's total capacity |
| Routes.SplitUnique | Firefly/FireflyAlgorithm.java:157-164 | Two route lists fitting the same fleet with the same concatenation are equal: the capacity-sized cut is unique |
| Routes.InConcat | Firefly/FireflyAlgorithm.java:190-196 | Any point picked from a vehicle's route is a point of the flattened routes |
| Routes.KeyOrderInRange | Firefly/FireflyAlgorithm.java:175 | A key order of n vehicles has length n and names only vehicle indices below n |
| Routes.FlatInPermutation | Firefly/FireflyAlgorithm.java:175-179 | Flattening in two orders that list the same vehicle indices yields the same multiset of points |
| Routes.KeyOrderFlatten | Firefly/FireflyAlgorithm.java:172-182 | Flattening in the map's key order yields the points of the routes in list order, with the same multiplicities and length |
| Timing.TotalInPermutation | Firefly/Firefly.java:39-48 | The fitness numerator does not depend on the order in which vehicles are visited |
| Timing.KeyOrderTotal | Firefly/Firefly.java:39-49 | Summing in the map's key order gives the numerator of the fitness |
| Timing.ArrivalMonotone | Firefly/Firefly.java:73-75 | With non-negative hop costs, arrival times never decrease along a route |
| Timing.RouteScoreNonNegative | Firefly/Firefly.java:42-47 | With non-negative hop costs, a route's sum of arrival times is non-negative |
| Timing.TotalInNonNegative | Firefly/Firefly.java:39-48 | With non-negative hop costs, the sum over any vehicles is non-negative |
| Timing.FitnessNonNegative | Firefly/Firefly.java:34-51 | With non-negative hop costs, the fitness is non-negative |
| Timing.RouteTimesKeys | Firefly/Firefly.java:70-76 | After one vehicle's writes, a point is a key exactly when it was a key before or is among the vehicle's first `capacity` points |
| Timing.RouteTimesElsewhere | Firefly/Firefly.java:73-76 | A point the route does not visit keeps its earlier delivery time |
| Timing.RouteTimesLast | Firefly/Firefly.java:73-76 | A point not repeated later in the route maps to the arrival time at its position |
| Timing.DeliveryTimesKeys | Firefly/Firefly.java:63-81 | The report's keys are exactly the points in the first `capacity` positions of every route |
| Timing.DeliveryTimeOfLastWrite | Firefly/Firefly.java:63-81 | A point written last at position i of a route maps to the arrival time of the first i + 1 hops; for distinct points this holds for every point |
| Candidate.DrawnRoute | Firefly/Firefly.java:26-30 | The route one vehicle draws is exactly `capacity` long, and the pool shrinks by exactly that many points |
| Candidate.DrawnRouteKeeps | Firefly/Firefly.java:26-30 | Drawing without replacement: the drawn route and the remaining pool together are a permutation of the pool |
| Candidate.Drawn | Firefly/Firefly.java:24-31 | The fleet's drawing leaves exactly `points - total capacity` points over |
| Candidate.DrawnKeeps | Firefly/Firefly.java:24-31 | The drawn routes fit the fleet (each vehicle gets exactly its capacity), and with the points left over they are a permutation of the input |
| Candidate.DrawRoute | Firefly/Firefly.java:26-30 | The loop over `capacity` draws produces the route and remaining pool that DrawnRoute defines, consuming one draw per point |
| Candidate.DrawRoutes | Firefly/Firefly.java:24-31 | The loop over the vehicles produces exactly the routes and left-over points that Drawn defines |
| Candidate.Firefly.constructor | Firefly/Firefly.java:16-32 | The new firefly's routes are the drawing Drawn makes from the points with the given draws; they fit the fleet and, with the unassigned points, form a permutation of the input |
| Candidate.Firefly.DistanceFunction | Firefly/Firefly.java:34-51 | The loop in key order returns the fitness: summed running arrival times divided by the number of vehicles |
| Candidate.Firefly.GetApproximatedDeliveryTime | Firefly/Firefly.java:63-81 | The loop returns the delivery-time report written in key order (its keys and values are characterised by the Timing lemmas) |
| Search.FreeSlotsFacts | Firefly/FireflyAlgorithm.java:111-125 | The free slots are increasing positions, and a position is free exactly when it differs and its draw is not below beta |
| Search.AttractTowardBest | Firefly/FireflyAlgorithm.java:111-125 | Differing positions with a draw below beta hold the best's point, every other position keeps the candidate's, the free slots are exactly the other differing positions, and the multisets balance |
| Search.FillFreeSlots | Firefly/FireflyAlgorithm.java:127-138 | Each free slot receives the best's point at a donor position; the donors used are a permutation of the free slots, so each is used once and the `nextInt` bound is never zero; other positions are untouched |
| Search.BetaStep | Firefly/FireflyAlgorithm.java:101-138 | The resulting list is a permutation of the best's list; non-differing positions keep the candidate's point; attracted positions hold the best's point; with beta at least 100 it is the best's list |
| Search.Unmerge | Firefly/FireflyAlgorithm.java:157-164 | Every vehicle gets exactly `capacity` consecutive points, and the routes concatenated in vehicle order are the consumed prefix of the list |
| Search.LastImproved | Firefly/FireflyAlgorithm.java:67-68 | The result is the last round that improved, or 0 if none did: it improved, and no later round did |
| Search.RecordRound | Firefly/FireflyAlgorithm.java:62-70 | Recording a round keeps the best's fitness non-increasing and moves the last-improved round exactly when the round improved strictly |
| Search.FireflyAlgorithm.constructor | Firefly/FireflyAlgorithm.java:18-31 | Empty input and population, and the default parameters 500, 25, 10 and 200 |
| Search.FireflyAlgorithm.SetInputData | Firefly/FireflyAlgorithm.java:38-43 | The algorithm keeps the given points and vehicles |
| Search.FireflyAlgorithm.SetAlgorithmParams | Firefly/FireflyAlgorithm.java:45-56 | Firefly parameters are copied; any other kind fails with IllegalArgument and leaves all four parameters unchanged |
| Search.FireflyAlgorithm.ExactCover | Firefly/FireflyAlgorithm.java:82-85 | When the fleet needs every input point, each firefly's routes hold exactly the input points |
| Search.FireflyAlgorithm.IsFitter | Firefly/FireflyAlgorithm.java:211-212 | True exactly when the i-th firefly's fitness is strictly below the current best's |
| Search.FireflyAlgorithm.FittestIndex | Firefly/FireflyAlgorithm.java:209-218 | The scan ends on a population minimum; it moved exactly when some firefly is strictly fitter than the starting best, and then it ends on the first minimum (strictly fitter than every earlier firefly); otherwise it ends on that best |
| Search.FireflyAlgorithm.SetBestFirefly | Firefly/FireflyAlgorithm.java:207-219 | Afterwards the best is a population minimum; the result is true exactly when some firefly was strictly fitter than the old best, and then the new best is the first minimum in list order; ties never replace the best |
| Search.FireflyAlgorithm.MergeLists | Firefly/FireflyAlgorithm.java:172-182 | The result is the routes flattened in key order, a permutation of the routes' points of the same length; the firefly is not modified |
| Search.FireflyAlgorithm.Swap | Firefly/FireflyAlgorithm.java:187-205 | Both picked points come from the firefly's routes, and nothing is modified |
| Search.FireflyAlgorithm.AlphaStep | Firefly/FireflyAlgorithm.java:144-152 | Fails with IllegalArgument exactly when alpha is non-zero and `points*alpha/100` is not positive; otherwise 0 swaps for alpha 0, else fewer than that bound; the routes are not modified |
| Search.FireflyAlgorithm.MutatedRoutes | Firefly/FireflyAlgorithm.java:101-164 | Fails exactly when the alpha-step throws; otherwise the new routes fit the fleet, are a permutation of the best's points, agree with the best at same-object and attracted positions, and equal the best's routes when beta is at least 100 and the key order is the list order |
| Search.FireflyAlgorithm.Mutate | Firefly/FireflyAlgorithm.java:95-166 | Fails exactly when the alpha-step throws, leaving the routes unchanged; otherwise the population stays ready, the new routes are a permutation of the best's points, positions of the flattened lists that hold the best's own point object or whose draw is below beta hold the best's point, and with beta at least 100 in list order the routes are the best's |
| Search.FireflyAlgorithm.AddFireflies | Firefly/FireflyAlgorithm.java:82-85 | Exactly `firefliesNumber` fresh fireflies; the a-th is a member of the population and holds the routes Drawn makes with the a-th draw stream |
| Search.FireflyAlgorithm.NewFirefly | Firefly/FireflyAlgorithm.java:83-84 | A fresh firefly built from copies of the points and vehicles, holding the routes Drawn makes with the given draws |
| Search.FireflyAlgorithm.Populated | Firefly/FireflyAlgorithm.java:82-85 | A population of freshly drawn fireflies over a fleet whose vehicles all carry a point is ready to be scored, and each firefly's routes are its drawing |
| Search.FireflyAlgorithm.Populate | Firefly/FireflyAlgorithm.java:82-90 | The outcome is as InitializeOutcome says; on success the population is ready, the leader is firefly 0, and every firefly holds its drawing |
| Search.FireflyAlgorithm.Initialize | Firefly/FireflyAlgorithm.java:80-93 | The outcome is as InitializeOutcome says (too few points, no fireflies, an empty route); on success the population has `firefliesNumber` fresh members, each holding its drawing, and the best is the first population minimum |
| Search.FireflyAlgorithm.Start | Firefly/FireflyAlgorithm.java:61 | Initialization, with a snapshot of the initial routes: each is the drawing made with its own draws, and the best's fitness is the least of them |
| Search.FireflyAlgorithm.KeepPulled | Firefly/FireflyAlgorithm.java:64-67 | When only firefly j changed and it is now pulled to the leader, the first j + 1 fireflies are pulled and the rest still hold their routes from the start of the round |
| Search.FireflyAlgorithm.Pull | Firefly/FireflyAlgorithm.java:65-66 | A firefly other than the best (by reference) is mutated, the best itself is skipped; afterwards the first j + 1 fireflies are pulled to the best, the later ones still hold their start-of-round routes, and the best is unchanged |
| Search.FireflyAlgorithm.MutateAll | Firefly/FireflyAlgorithm.java:64-67 | Fails exactly when the alpha-step throws and some non-best firefly exists; otherwise the population stays ready, the best's routes are untouched, and every firefly is pulled: a permutation of the best's points that, against its own start-of-round routes and its round's draws, holds the best's point at every same-object or attracted position; with beta at least 100 in list order it holds the best's routes |
| Search.FireflyAlgorithm.SameLeader | Firefly/FireflyAlgorithm.java:64-67 | A fully pulled population, read off as values, satisfies the per-firefly pull relation, and every firefly holds the leader's points |
| Search.FireflyAlgorithm.Move | Firefly/FireflyAlgorithm.java:64-67 | The mutation pass of one round: the start-of-round routes are recorded, and on success every firefly's new routes are pulled to the leader and hold a permutation of its points |
| Search.FireflyAlgorithm.Select | Firefly/FireflyAlgorithm.java:68-69 | The re-selected best is a minimum no worse than before, the round counts as improving exactly when the fitness went strictly down, and only then is the round recorded; without an improvement the best stays the same firefly, and with one it is strictly fitter than every earlier firefly |
| Search.FireflyAlgorithm.Cycle | Firefly/FireflyAlgorithm.java:63-69 | Fails as MutateAll does; otherwise each firefly's new routes are pulled toward the old best from its own start-of-round routes (same-object and attracted positions hold the old best's point), all fireflies hold permutations of the new best's points, the new best is a minimum whose fitness did not increase, the round counts as improving exactly when it went strictly down, and only then is the round recorded; the old best's routes are untouched, and without an improvement the best stays the same firefly |
| Search.FireflyAlgorithm.Turn | Firefly/FireflyAlgorithm.java:63-69 | One round appends exactly one entry to the fitness history and one to the improvement record, keeping every earlier entry: the new best's fitness (no higher than the last) and whether it fell strictly; the round read off as a step satisfies Ran: it starts from the routes held on entry, every firefly is pulled toward the old best with round c's draws, the old best's routes are untouched, and the new best is the first firefly of least fitness when that is strictly fitter, else the old best; `bestIterationNumber` stays the last improving round |
| Search.FireflyAlgorithm.Observe | Firefly/FireflyAlgorithm.java:63-69 | The population a cycle leaves, read off as values together with its start-of-round routes and its old and new best, satisfies Ran for that cycle |
| Search.FireflyAlgorithm.RunCycles | Firefly/FireflyAlgorithm.java:63-70 | After `cycles` rounds the recorded fitness history starts at the best's fitness on entry and never increases, the final best is no worse than the entry best, and `bestIterationNumber` is the last improving round (0 if none) |
| Search.FireflyAlgorithm.Evolve | Firefly/FireflyAlgorithm.java:61-70 | Fails exactly as SolveOutcome says; otherwise the initial routes are the drawings made with each firefly's draws, and `bestIterationNumber` is the last true entry of a ghost history that is anchored only at its ends (it starts at the initial population's least fitness and ends at the final best's fitness) and never increases |
| Search.FireflyAlgorithm.Report | Firefly/FireflyAlgorithm.java:72-74 | The answer holds the best's routes (fitting the fleet), their delivery-time report in key order, and the recorded round |
| Search.FireflyAlgorithm.Solve | Firefly/FireflyAlgorithm.java:59-75 | Fails exactly as SolveOutcome says; otherwise reports the best's routes (fitting the fleet), their delivery times and the recorded round, with a minimal best; the recorded round is the last true entry of a non-increasing ghost history that is anchored only at its ends (it starts at the least fitness of the initial population, whose routes are the drawings made with each firefly's draws) |

## Left out

- The Euclidean distance, `Math.sqrt` and `double` arithmetic (`getDistance`) are replaced by an abstract real-valued hop cost. Rounding, overflow to infinity and NaN are not modelled.
- `java.util.Random` is replaced by explicit raw draws. The beta-step, donor, swap-count and swap draws of one mutation are separate inputs rather than one generator's stream.
- The hash map's key-iteration order is an input (`keyOrder`), the same for every firefly. In the source, `mergeLists` and the fitness loops iterate the map, but the unmerge walks the vehicle list. The two orders may differ, so a mutated firefly's routes need not line up with the flattened lists.
- Vehicles are assumed to be distinct map keys. `Vehicle`'s equality is not part of this model.
- Search.FireflyAlgorithm.Swap: the retry when both picks are the same point object is left out. It changes nothing, but with a single point in the routes it never ends, and the model does not capture that stack overflow.
- Search.FireflyAlgorithm.AlphaStep: `points.size() * alpha` is computed with unbounded integers, so 32-bit overflow of the product is not modelled.
- Candidate.Firefly.DistanceFunction: requires at least one vehicle. With none, the source divides 0.0 by 0 and returns NaN, which has no real-valued counterpart.
- Search.FireflyAlgorithm.Solve: requires at least one vehicle. With none, once a swap is drawn `swap` calls `nextInt(vehicles.size())` with bound 0, which throws IllegalArgumentException (`FireflyAlgorithm.java:190`); that path is not modelled. It also requires a fresh instance: re-running `solve` appends a second population, and that is not modelled.
- Search.FireflyAlgorithm.Mutate: receives the firefly's population index as a ghost argument. The best firefly is passed to the route computation as an argument rather than read from the field.
- Search.FireflyAlgorithm.Pull: the source's reference test `firefly != bestFirefly` is kept. Each firefly carries a ghost position so that distinct indices are known to be distinct objects.
- Search.FireflyAlgorithm.RunCycles: the ghost history is anchored at its two ends (the best's fitness on entry and after the last round). Turn's contract inside the loop establishes that entry c + 1 is the fitness right after round c, and that round c satisfies Ran. RunCycles' own ensures does not restate this per-round link: no chain of steps from the initial routes is kept, because such a chain made the loop's proof too large for the solver.
- Search.FireflyAlgorithm.Evolve: `bestIterationNumber` is the last true entry of a ghost history tied to the population only at its ends (the initial least fitness and the final best's fitness). The contract does not state that entry k is the outcome of the k-th cycle's selection; only Turn states that, one round at a time.
- Search.FireflyAlgorithm.Solve: the same gap as Evolve. The reported round is the last true entry of a ghost history anchored only at its ends, not a history tied round by round to the cycles that ran.
- Points are compared by value wherever the model needs equality: as delivery-time keys, in multisets and in the "differs" mask. The source compares by reference at `FireflyAlgorithm.java:113` and `:198`, and the beta-step stores fresh `new Point` copies (`:116`, `:132`), so two equal-valued point objects are told apart only through the `sameObject` oracle; the identity semantics of the map keys is not modelled.
- Capacities are natural numbers. A negative capacity from the external `Vehicle` bean is not modelled.
- `getName`, `getPoints`, `getPermutation` and the `OutputData` wrapper are left out; `Solve` returns a plain record instead.
- The external beans (`Point`, `Vehicle`, `InputData`, `FireflyParams`) are not part of this model; they are treated as immutable records.
