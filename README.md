# Simulated annealing for the Traveling Salesman problem, in Dafny

This project models the algorithmic core of a small Python program, `main.py`. The program runs simulated annealing on a Traveling Salesman tour and then plays back the states it went through.

- **`SimulatedAnnealing`** is the engine.
  - It keeps a current `state` and an append-only `history` of every state ever assigned.
  - The `state` setter appends to `history`.
  - `start` runs `for k in range(k_max)`. Each pass computes the temperature at `(k + 1) / k_max` and breaks out of the loop when that temperature is 0. Otherwise it asks `neighbour` for a candidate and adopts it when `acceptance_prob(...) >= random.random()`.
- **`TravelingSalesman`** supplies the four hooks for a closed tour of integer points:
  - `neighbour` deep-copies the tour and swaps two distinct random positions.
  - `temperature(x)` is `int(t_max * (x - 1) ** 2)`.
  - `acceptance_prob` is the Metropolis rule.
  - `energy` adds up `|dx| + |dy|` over every edge, including the edge from the last point back to the first.
- **Helpers:**
  - `swap_random` and `swap_random_neighbours` swap two list entries in place.
  - `generate_cities` draws random points in a rectangle.

The Dafny modules follow that structure:

- `Wrappers`: the `Option` type for operations that raise.
- `Swaps`: the two in-place swaps on an `array`, each specified by the value-level `Swapped`.
- `Tsp`: points, tours and the four hooks.
  - `Neighbour` and `Energy` are methods: an array copy plus an in-place swap, and a summing loop.
  - `Temperature` and `AcceptanceProb` are functions.
  - The lemmas state what each hook guarantees.
- `Cities`: `generate_cities`.
- `Annealing`: the engine.
  - `Run` is the specification of `start`: what a run appends to `history`, and whether it raises, under the temperature `Schedule` of `t_max` and `k_max`.
  - Class `TravelingSalesman` holds the fields `state`, `history`, `k_max`, `k` and `t_max`.
  - `Start` loops over `Pass`, and `Pass` uses `Step` for the body of a pass that is not cold. Each is proved against `Run`.
  - The lemmas about `Run` give the history bounds, that every adopted state is a swap of the one before it, and that improving moves are always adopted.

The random source becomes parameters:

- `Draws.picks[k]` is what `random.sample(range(n), 2)` returns in pass k.
- `Draws.coins[k]` is what `random.random()` returns in pass k.
- `Draws.exp` stands for `math.exp`.
- `randint` becomes one raw draw per coordinate.
- `random.choice` becomes an index parameter.

The model follows the code of `start`, not the pseudocode in the module docstring (main.py:3-11), on three points:

- The loop leaves early when the temperature is exactly 0. The pseudocode has no early exit.
- The field `k` is set to 0 and never advanced, because the loop counts with a local variable.
- The constructor does not validate `k_max`: a negative value simply makes `range(k_max)` empty.

## Model

| member | source | states |
|---|---|---|
| Swaps.SwapRandom | main.py:35-38 | The array afterwards is the old contents with the two distinct drawn positions exchanged. |
| Swaps.SwapRandomNeighbours | main.py:41-45 | The array afterwards is the old contents with position i exchanged with its successor on the cycle. For the last index the successor is 0. |
| Swaps.NextIndex | main.py:44 | The successor of i is in range and equals (i + 1) mod n. |
| Swaps.Swapped | main.py:38 | The two positions trade values, every other position is unchanged, and the length is kept. |
| Swaps.SwappedPermutes | main.py:38 | A swap keeps the multiset of elements. |
| Swaps.SwappedDiffersAtMostTwice | main.py:38 | A swap changes the sequence only at the two chosen positions, so at most two positions differ. |
| Tsp.Perturb | main.py:90-93 | The neighbour is None (ValueError from `random.sample`) exactly when the tour has fewer than two points; otherwise it has the tour's length. Its points and the positions it moves are stated by `Tsp.PerturbPermutes`. |
| Tsp.Neighbour | main.py:90-93 | It copies the tour into a fresh array and swaps two picked positions of the copy. The result equals `Perturb`: None exactly when the tour is too short for `random.sample`. |
| Tsp.PerturbPermutes | main.py:90-93 | A neighbour is None exactly for tours of fewer than two points. Otherwise it has the same length and the same points, and it differs from the input only at the two picked positions. |
| Tsp.Trunc | main.py:96 | `int()` of a float truncates toward zero: the result is within 1 of x, on the side of 0. |
| Tsp.TruncQuotient | main.py:96 | Truncating an exact quotient a / b is integer division rounded toward zero. |
| Tsp.Temperature | main.py:95-96 | `int(t_max * (x - 1) ** 2)` is never negative for t_max >= 0. Its bounds, its monotonicity and its value at x = 1 are stated by the lemmas below. |
| Tsp.TemperatureAtOne | main.py:95-96 | At x = 1 the temperature is exactly 0. |
| Tsp.TemperatureBounds | main.py:95-96 | For t_max >= 0 and x in (0, 1] the temperature lies in [0, t_max]. |
| Tsp.TemperatureNonIncreasing | main.py:95-96 | For t_max >= 0 the temperature never rises as x grows toward 1. |
| Tsp.TemperatureOfPass | main.py:80 | The temperature at x = (k + 1) / k_max equals the integer t_max * (k_max - k - 1)^2 / k_max^2, truncated toward zero. |
| Tsp.LastPassIsCold | main.py:79-82 | At the last pass, k = k_max - 1, the temperature is 0, so that pass always breaks. |
| Tsp.AcceptanceProb | main.py:98-101 | An improving move gets exactly 1.0. The worsening case is stated by `Tsp.WorseningMoveProbability`, `Tsp.LargerWorseningLessLikely` and `Tsp.HotterAcceptsMore`. |
| Tsp.ImprovingMoveAccepted | main.py:98-100 | An improving move gets probability exactly 1, which is at least any draw in [0, 1). |
| Tsp.WorseningMoveProbability | main.py:98-101 | At a positive temperature a worsening move gets a probability in (0, 1], given that exp maps non-positive arguments there. |
| Tsp.LargerWorseningLessLikely | main.py:101 | For a monotone exp, a larger energy increase never gets a higher acceptance probability. |
| Tsp.HotterAcceptsMore | main.py:101 | For a monotone exp, a higher temperature never lowers the acceptance probability of a worsening move. |
| Tsp.EdgeLength | main.py:106 | The length of one edge, the sum of the two axis distances, is never negative, and it is 0 exactly when the two points coincide. How `Tsp.TourEnergy` adds the edges up is stated in its row. |
| Tsp.AxisDistance | main.py:106 | The distance along one axis is b - a or a - b, and never negative. |
| Tsp.AxisDistanceIsRoot | main.py:106 | The axis distance is the unique non-negative integer whose square is (b - a)^2, which is `((b - a) ** 2) ** 0.5`. |
| Tsp.TourEnergy | main.py:103-107 | The sum of all edge lengths of the closed tour is never negative. Its values on short tours and its rotation invariance are stated by the lemmas below. |
| Tsp.Energy | main.py:103-107 | The loop over the tour paired with its rotation returns `TourEnergy`: the sum of edge lengths over all edges (i, i + 1 mod n). |
| Tsp.ShortTourEnergy | main.py:103-107 | Empty and one-point tours have energy 0. |
| Tsp.TwoPointExample | main.py:103-107 | The tour [(0,0), (3,4)] has energy 14: two edges of length 7. |
| Tsp.EnergyRotationInvariant | main.py:105 | Rotating a closed tour by one place keeps its energy. |
| Cities.RandInt | main.py:153 | A draw mapped by `randint(lo, hi)` lies in [lo, hi]. |
| Cities.RandIntReachesAll | main.py:153 | Every value in [lo, hi] is produced by some draw. |
| Cities.GenerateCities | main.py:152-153 | The result is None (ValueError) exactly when a point is drawn and the width or height is negative. Otherwise it has max(nodes, 0) points, each inside [0, width] x [0, height]. |
| Cities.GenerateCitiesReachesAll | main.py:152-153 | Every list of points inside the rectangle, duplicates included, is a possible result. |
| Annealing.PassTemperature | main.py:80 | The temperature of pass k, `temperature((k + 1) / k_max)`, lies in [0, t_max] for t_max >= 0 and is 0 at the last pass. `Annealing.ScheduleAt` and `Annealing.PassTemperatureCools` relate it to the schedule and state that it never rises. |
| Annealing.Schedule | main.py:79-80 | The schedule has one temperature per pass, k_max in all (none when k_max <= 0), and the last one is 0. |
| Annealing.ScheduleAt | main.py:80 | Entry k of the schedule is `temperature((k + 1) / k_max)`. |
| Annealing.PassTemperatureCools | main.py:79-80 | For t_max >= 0, pass temperatures never rise from one pass to a later one and stay in [0, t_max]. |
| Annealing.ScheduleCools | main.py:79-80 | The same holds for the schedule's entries. |
| Annealing.Candidate | main.py:83 | The candidate of a pass is the neighbour for the pass's pick, with the tour's length. `Annealing.CandidateIsSwap` states that it is a swap of two distinct positions. |
| Annealing.Accepts | main.py:84 | The acceptance test `acceptance_prob(...) >= random.random()`: an improving candidate passes it for every draw below 1. The worsening case is stated by the `Tsp` acceptance lemmas. |
| Annealing.Adopted | main.py:84-85 | What a pass appends is empty or exactly its candidate, and an improving candidate with a draw below 1 is always appended. `Annealing.Successor` states the matching new state. |
| Annealing.Successor | main.py:83-85 | After a pass the state is the candidate if the pass appended it, and the old state otherwise. The length is kept. |
| Annealing.Run | main.py:78-85 | A run raises only on a tour of fewer than two points, and then appends nothing. What it appends is stated by the lemmas below and by `Annealing.TravelingSalesman.Start`, which equals it. |
| Annealing.RunPass | main.py:79-85 | A pass that is not cold, on a tour of at least two points, appends what it adopts and continues from its successor at k + 1. It also has its draws. |
| Annealing.RunStops | main.py:81-82 | At or past k_max, or at a cold pass, the run appends nothing and does not raise. |
| Annealing.RunAdvance | main.py:79-85 | Moving one pass forward, with what it adopted added to the already-appended states, leaves the outcome of the whole run unchanged. |
| Annealing.RunLength | main.py:79-85 | From pass k a run appends at most |schedule| - 1 - k states. |
| Annealing.ScheduledRunLength | main.py:79-85 | A whole run appends at most max(k_max - 1, 0) states. A run that starts right after construction therefore leaves history with at most max(k_max, 1) entries. |
| Annealing.NoMovesForSmallKMax | main.py:79-82 | With k_max <= 1 a run appends nothing and does not raise. |
| Annealing.SwapPermutes | main.py:90-93 | A swap of two distinct positions keeps the length and the points, and moves at most two of them. |
| Annealing.CandidateIsSwap | main.py:83 | The candidate of a pass is a swap of the current state. |
| Annealing.RunSwapChain | main.py:83-85 | Every state a run appends is a swap of the state adopted before it. |
| Annealing.SwapChainPermutes | main.py:83-85 | So every appended state has the same length and points as the starting tour. |
| Annealing.RunPermutes | main.py:83-85 | Every state a whole run appends has the starting tour's length and points. |
| Annealing.LongTourNeverRaises | main.py:83 | A run on a tour of two or more points never raises. |
| Annealing.ShortTourRun | main.py:83 | A run on a tour of fewer than two points appends nothing. It raises exactly when its first pass is not cold. |
| Annealing.ImprovingMoveAdopted | main.py:84-85 | A pass that is not cold, whose candidate has lower energy, appends that candidate as the next history entry. |
| Annealing.TravelingSalesman.constructor | main.py:49-55 | Afterwards state is the initial state and history is exactly [initial state]. k_max and t_max are stored unvalidated (both default to 200) and k is 0. |
| Annealing.TravelingSalesman.SetState | main.py:61-64 | The setter stores the new state and appends exactly it to history. It keeps the invariant: history[0] is the initial state and the state is the last entry. |
| Annealing.TravelingSalesman.Step | main.py:83-85 | It raises exactly on a tour of fewer than two points, changing nothing. Otherwise state becomes the pass's successor and history grows by exactly what the pass adopts. |
| Annealing.TravelingSalesman.Pass | main.py:80-85 | The pass stops exactly when its temperature is 0 or the tour has fewer than two points. It raises exactly in the second case, and when it stops, state and history are unchanged. Otherwise state becomes the pass's successor and history grows by exactly what the pass adopts. In both cases the whole run appends the same states: either the loop stops here, or the run goes on from k + 1 with the new state and history. |
| Annealing.TravelingSalesman.Start | main.py:78-85 | History becomes the old history followed by exactly the states `Run` adopts under the schedule, with at most max(k_max - 1, 0) new entries. Every new entry has the starting tour's length and points. It raises exactly when `Run` does, and the invariant is kept. |

## Left out

- The Kivy user interface is not part of this model: the window set-up, the widget with its clock callbacks, slider and energy label, the app class and `main`. It is presentation, event scheduling and output only.
- Floating point is idealised as exact arithmetic:
  - `(k + 1) / k_max` and `(x - 1) ** 2` are computed over the reals, before `int()` truncates.
  - `((d) ** 2) ** 0.5` is the exact absolute value.
  - The float sum in `energy` is the exact integer sum, so the final `int()` changes nothing.
  - IEEE rounding is not modelled. This matters wherever t_max * (k_max - k - 1)^2 / k_max^2 is exactly an integer. There the float product can land just below that integer, so `int()` gives one less than the model's temperature. That can make the first cold pass come earlier in the program than in the model. For example, with k_max = 2000 and t_max = 100, pass 1799 is cold in the program (the double product is just under 1) but has temperature 1 in the model.
- `math.exp` is the parameter `exp`. Its values, and the OverflowError it raises for very large arguments (possible only with a negative `t_max`), are not modelled. The lemmas that need it assume it is monotone or maps non-positive numbers into (0, 1].
- The random source is a set of parameters: the picks and coins in `Draws`, the raw draws of `generate_cities`, and the index of `swap_random_neighbours`. Their distribution is not modelled, only their ranges. `randint` is modelled as a draw reduced modulo the range size.
- Tsp.WorseningMoveProbability: assumes exp(y) > 0 for every y <= 0. IEEE `math.exp` underflows to exactly 0.0 below about -745. That can happen in the program when a swap adds thousands to the energy at a late pass with temperature 1. There the program gives a worsening move probability 0.0 rather than a positive one. The other acceptance lemmas assume only that exp is monotone, which the underflow respects.
- Tsp.AcceptanceProb: requires an improving move or a temperature other than 0. This excludes the ZeroDivisionError that `acceptance_prob` raises for a worsening move at temperature 0. `start` never calls it with temperature 0, because it breaks first.
- Swaps.SwapRandom: requires two distinct in-range indices, which is what `random.sample` returns. The ValueError that `random.sample` raises on a list shorter than two is modelled one level up, by `Tsp.Neighbour` and the `raised` flag of `Start`.
- Swaps.SwapRandomNeighbours: requires an index inside the array, so the IndexError that `random.choice` raises on an empty list is not modelled.
- Annealing.TravelingSalesman.Start: requires a valid pick for every position of `Draws.picks`, including picks for passes the run never reaches. A raised ValueError is reported as the result `raised`, after which the state and history are left as they were.
- The generic base class and its TSP subclass are one class, `Annealing.TravelingSalesman`. The base class's hooks that raise NotImplementedError are not modelled, and neither is the genericity over the state type.
- The `state` getter is the field `state` itself. Before the setter first runs, the source holds None; the model holds the empty tour.
- `deepcopy` is an array copy of the tour. Points are immutable values, so copying them is enough.
- `generate_cities` takes integer width and height. Non-integral sizes, which the program computes from the window size, are not modelled.
