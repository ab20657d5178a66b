/**
 * The simulated-annealing engine, instantiated for the Traveling Salesman
 * problem. The generic base class and its TSP subclass are one class here:
 * `Start` calls the TSP hooks of module Tsp directly.
 *
 * The random source is replaced by parameters read by pass index (see
 * `Draws`), and `exp` stands for `math.exp`.
 */
module Annealing {
  import opened Wrappers
  import opened Swaps
  import opened Tsp

  // ----------------------------------------------------------------- schedule

  /**
   * The temperature pass `k` of `k_max` asks for: `temperature((k + 1) / k_max)`.
   * It lies in [0, t_max] for t_max >= 0, and the last pass is cold.
   */
  function PassTemperature(tMax: int, kMax: int, k: int): (r: int)
    requires 0 <= k < kMax
    ensures tMax >= 0 ==> 0 <= r <= tMax
    ensures k == kMax - 1 ==> r == 0
  {
    var x := (k + 1) as real / kMax as real;
    assert tMax >= 0 ==> 0 <= Temperature(tMax, x) <= tMax by {
      if tMax >= 0 {
        PassPoint(kMax, k, k);
        TemperatureBounds(tMax, x);
      }
    }
    LastPassIsCold(tMax, kMax);
    Temperature(tMax, x)
  }

  /** A schedule is empty or ends with a cold pass. */
  predicate EndsCold(temps: seq<int>) {
    |temps| == 0 || temps[|temps| - 1] == 0
  }

  /**
   * The temperatures of passes k, k + 1, ..., k_max - 1 of `start`, in
   * order. The last pass, at x = 1, is always cold.
   */
  function Schedule(tMax: int, kMax: int, k: nat): (r: seq<int>)
    ensures |r| == if k < kMax then kMax - k else 0
    ensures EndsCold(r)
    decreases kMax - k
  {
    if k >= kMax then []
    else
      LastPassIsCold(tMax, kMax);
      [PassTemperature(tMax, kMax, k)] + Schedule(tMax, kMax, k + 1)
  }

  /** Entry j - k of the schedule from pass k is the temperature of pass j. */
  lemma {:induction false} ScheduleAt(tMax: int, kMax: int, k: nat, j: int)
    requires k <= j < kMax
    ensures Schedule(tMax, kMax, k)[j - k] == PassTemperature(tMax, kMax, j)
    decreases kMax - k
  {
    if j > k {
      ScheduleAt(tMax, kMax, k + 1, j);
    }
  }

  /** The point x = (i + 1) / k_max of pass i lies in (0, 1], and grows with i. */
  lemma PassPoint(kMax: int, i: int, j: int)
    requires 0 <= i <= j < kMax
    ensures 0.0 < (i + 1) as real / kMax as real <= (j + 1) as real / kMax as real <= 1.0
  {
    var kk := kMax as real;
    assert ((i + 1) as real / kk) * kk == (i + 1) as real;
    DivLeMono((i + 1) as real, (j + 1) as real, kk);
    DivLeMono((j + 1) as real, kk, kk);
    assert kk / kk == 1.0;
  }

  /** With t_max >= 0 pass temperatures never warm up and stay within [0, t_max]. */
  lemma PassTemperatureCools(tMax: int, kMax: int, i: int, j: int)
    requires tMax >= 0 && 0 <= i <= j < kMax
    ensures 0 <= PassTemperature(tMax, kMax, j) <= PassTemperature(tMax, kMax, i) <= tMax
  {
    var x, y := (i + 1) as real / kMax as real, (j + 1) as real / kMax as real;
    PassPoint(kMax, i, j);
    TemperatureNonIncreasing(tMax, x, y);
    TemperatureBounds(tMax, x);
    TemperatureBounds(tMax, y);
  }

  /** So the schedule is non-increasing and within [0, t_max]. */
  lemma ScheduleCools(tMax: int, kMax: int, i: int, j: int)
    requires tMax >= 0 && 0 <= i <= j < kMax
    ensures 0 <= Schedule(tMax, kMax, 0)[j] <= Schedule(tMax, kMax, 0)[i] <= tMax
  {
    ScheduleAt(tMax, kMax, 0, i);
    ScheduleAt(tMax, kMax, 0, j);
    PassTemperatureCools(tMax, kMax, i, j);
  }

  // -------------------------------------------------------------------- draws

  /**
   * The draws a run consumes: `picks[k]` is what `random.sample` returns in
   * pass k, `coins[k]` what `random.random()` returns there; `exp` is
   * `math.exp`.
   */
  datatype Draws = Draws(picks: seq<Pick>, coins: seq<real>, exp: real -> real)

  /**
   * Enough draws for `passes` passes on tours of `n` points: the last pass
   * is cold and never draws, and every pick is two distinct indices when
   * n >= 2.
   */
  predicate Enough(passes: int, n: int, d: Draws) {
    && |d.picks| >= passes - 1 && |d.coins| >= passes - 1
    && (n >= 2 ==> forall j :: 0 <= j < |d.picks| ==> ValidPick(d.picks[j], n))
  }

  /** Every draw of `random.random()` lies in [0, 1). */
  predicate CoinsInRange(coins: seq<real>) {
    forall j :: 0 <= j < |coins| ==> 0.0 <= coins[j] < 1.0
  }

  // --------------------------------------------------------------------- pass

  /**
   * Whether a pass adopts candidate `c`: its acceptance probability is at
   * least the draw. An improving candidate beats every draw below 1.
   */
  predicate Accepts(s: Tour, c: Tour, temp: int, coin: real, exp: real -> real)
    requires temp != 0
    ensures TourEnergy(c) < TourEnergy(s) && coin < 1.0 ==> Accepts(s, c, temp, coin, exp)
  {
    AcceptanceProb(TourEnergy(s), TourEnergy(c), temp, exp) >= coin
  }

  /** The candidate of pass `k`: the neighbour of `s` for the pass's pick. */
  function Candidate(s: Tour, d: Draws, k: int): (c: Tour)
    requires 0 <= k < |d.picks| && ValidPick(d.picks[k], |s|)
    ensures |c| == |s|
  {
    Perturb(s, d.picks[k]).value
  }

  /** Pass `k` at a temperature that is not zero can ask for its candidate and coin. */
  predicate CanPass(s: Tour, d: Draws, k: int, temp: int) {
    temp != 0 && 0 <= k < |d.picks| && k < |d.coins| && ValidPick(d.picks[k], |s|)
  }

  /**
   * What pass `k` appends to the history: its candidate when accepted,
   * nothing otherwise; an improving candidate is always appended.
   */
  function Adopted(s: Tour, d: Draws, k: int, temp: int): (r: seq<Tour>)
    requires CanPass(s, d, k, temp)
    ensures |r| <= 1 && forall t :: t in r ==> t == Candidate(s, d, k)
    ensures TourEnergy(Candidate(s, d, k)) < TourEnergy(s) && d.coins[k] < 1.0 ==> r == [Candidate(s, d, k)]
  {
    var c := Candidate(s, d, k);
    if Accepts(s, c, temp, d.coins[k], d.exp) then [c] else []
  }

  /** The state after pass `k`: its candidate when accepted, `s` otherwise. */
  function Successor(s: Tour, d: Draws, k: int, temp: int): (r: Tour)
    requires CanPass(s, d, k, temp)
    ensures |r| == |s|
    ensures Adopted(s, d, k, temp) == [] ==> r == s
    ensures Adopted(s, d, k, temp) != [] ==> Adopted(s, d, k, temp) == [r]
  {
    var c := Candidate(s, d, k);
    if Accepts(s, c, temp, d.coins[k], d.exp) then c else s
  }

  // ---------------------------------------------------------------------- run

  /** What a run appends to the history, and whether it ended by raising ValueError. */
  datatype Outcome = Outcome(accepted: seq<Tour>, raised: bool)

  /** The outcome of a whole run whose passes so far appended `acc` and whose remaining passes yield `o`. */
  function After(acc: seq<Tour>, o: Outcome): (r: Outcome)
    ensures |r.accepted| == |acc| + |o.accepted| && r.raised == o.raised
  {
    Outcome(acc + o.accepted, o.raised)
  }

  /** What `Run` needs: a schedule that ends cold and enough draws for it. */
  predicate Fits(temps: seq<int>, n: int, d: Draws) {
    EndsCold(temps) && Enough(|temps|, n, d)
  }

  /**
   * The passes k, k + 1, ... of `start` from current state `s` under the
   * temperature schedule `temps`: stop after the last pass or at a zero
   * temperature; raise when the tour is too short for `neighbour`;
   * otherwise move to the `Successor` and go on.
   */
  function Run(temps: seq<int>, k: nat, s: Tour, d: Draws): (r: Outcome)
    requires Fits(temps, |s|, d)
    ensures r.raised ==> |s| < 2 && r.accepted == []
    decreases |temps| - k
  {
    if k >= |temps| || temps[k] == 0 then Outcome([], false)
    else if |s| < 2 then Outcome([], true)
    else After(Adopted(s, d, k, temps[k]), Run(temps, k + 1, Successor(s, d, k, temps[k]), d))
  }

  /** One pass that is not cold, on a tour of two or more points, unfolded. */
  lemma RunPass(temps: seq<int>, k: nat, s: Tour, d: Draws)
    requires Fits(temps, |s|, d)
    requires k < |temps| && temps[k] != 0 && |s| >= 2
    ensures k < |temps| - 1 && CanPass(s, d, k, temps[k])
    ensures Run(temps, k, s, d)
         == After(Adopted(s, d, k, temps[k]), Run(temps, k + 1, Successor(s, d, k, temps[k]), d))
  {
  }

  /** A run stops, appending nothing, after the last pass or at a cold one. */
  lemma RunStops(temps: seq<int>, k: nat, s: Tour, d: Draws)
    requires Fits(temps, |s|, d)
    requires k >= |temps| || temps[k] == 0
    ensures Run(temps, k, s, d) == Outcome([], false)
  {
  }

  /**
   * One pass seen from the loop of `start`: a pass that is not cold has
   * its draws, and with `acc` appended so far the whole run's outcome is
   * unchanged when the pass appends what it adopts to `acc` and moves on
   * to k + 1 from its successor.
   */
  lemma RunAdvance(temps: seq<int>, k: nat, s: Tour, d: Draws, acc: seq<Tour>)
    requires Fits(temps, |s|, d)
    requires k < |temps| && temps[k] != 0
    ensures k < |temps| - 1 && k < |d.picks| && k < |d.coins|
    ensures |s| >= 2 ==>
      && CanPass(s, d, k, temps[k])
      && After(acc, Run(temps, k, s, d))
         == After(acc + Adopted(s, d, k, temps[k]), Run(temps, k + 1, Successor(s, d, k, temps[k]), d))
  {
    if |s| >= 2 {
      RunPass(temps, k, s, d);
      var a := Adopted(s, d, k, temps[k]);
      var rest := Run(temps, k + 1, Successor(s, d, k, temps[k]), d).accepted;
      assert acc + (a + rest) == (acc + a) + rest;
    }
  }

  /**
   * A run from pass k appends at most one state per pass that reaches a
   * candidate, and the last pass never does: at most |temps| - 1 - k entries.
   */
  lemma {:induction false} RunLength(temps: seq<int>, k: nat, s: Tour, d: Draws)
    requires Fits(temps, |s|, d)
    ensures |Run(temps, k, s, d).accepted| <= if k < |temps| then |temps| - 1 - k else 0
    decreases |temps| - k
  {
    if k < |temps| && temps[k] != 0 && |s| >= 2 {
      RunPass(temps, k, s, d);
      RunLength(temps, k + 1, Successor(s, d, k, temps[k]), d);
    }
  }

  /**
   * A whole run of `start` appends at most max(k_max - 1, 0) states: after a
   * run that follows construction, history holds at most max(k_max, 1) entries.
   */
  lemma ScheduledRunLength(tMax: int, kMax: int, s: Tour, d: Draws)
    requires Enough(kMax, |s|, d)
    ensures |Run(Schedule(tMax, kMax, 0), 0, s, d).accepted| <= if kMax >= 1 then kMax - 1 else 0
  {
    RunLength(Schedule(tMax, kMax, 0), 0, s, d);
  }

  /** With k_max = 0 the loop body never runs, and with k_max = 1 its only pass is cold. */
  lemma NoMovesForSmallKMax(tMax: int, kMax: int, s: Tour, d: Draws)
    requires kMax <= 1 && Enough(kMax, |s|, d)
    ensures Run(Schedule(tMax, kMax, 0), 0, s, d) == Outcome([], false)
  {
  }

  // --------------------------------------------------------------- swap chain

  /** `t` is `s` with two distinct positions exchanged. */
  predicate IsSwapOf(s: Tour, t: Tour) {
    exists i, j :: 0 <= i < |s| && 0 <= j < |s| && i != j && t == Swapped(s, i, j)
  }

  /** A swap keeps the length and the points, and moves at most two of them. */
  lemma SwapPermutes(s: Tour, t: Tour)
    requires IsSwapOf(s, t)
    ensures |t| == |s| && multiset(t) == multiset(s) && |Differences(s, t)| <= 2
  {
    var i, j :| 0 <= i < |s| && 0 <= j < |s| && i != j && t == Swapped(s, i, j);
    SwappedPermutes(s, i, j);
    SwappedDiffersAtMostTwice(s, i, j);
  }

  /** Each appended state is a swap of the state adopted before it. */
  predicate SwapChain(s: Tour, a: seq<Tour>)
    decreases |a|
  {
    a == [] || (IsSwapOf(s, a[0]) && SwapChain(a[0], a[1..]))
  }

  lemma SwapChainCons(s: Tour, c: Tour, rest: seq<Tour>)
    requires IsSwapOf(s, c) && SwapChain(c, rest)
    ensures SwapChain(s, [c] + rest)
  {
    assert ([c] + rest)[0] == c && ([c] + rest)[1..] == rest;
  }

  lemma CandidateIsSwap(s: Tour, d: Draws, k: int)
    requires 0 <= k < |d.picks| && ValidPick(d.picks[k], |s|)
    ensures IsSwapOf(s, Candidate(s, d, k))
  {
    var p := d.picks[k];
    assert Candidate(s, d, k) == Swapped(s, p.i1, p.i2);
  }

  /** Every state a run appends is a swap of the state before it. */
  lemma {:induction false} RunSwapChain(temps: seq<int>, k: nat, s: Tour, d: Draws)
    requires Fits(temps, |s|, d)
    ensures SwapChain(s, Run(temps, k, s, d).accepted)
    decreases |temps| - k
  {
    var a := Run(temps, k, s, d).accepted;
    if k >= |temps| || temps[k] == 0 || |s| < 2 {
      assert a == [];
    } else {
      RunPass(temps, k, s, d);
      var s' := Successor(s, d, k, temps[k]);
      RunSwapChain(temps, k + 1, s', d);
      var rest := Run(temps, k + 1, s', d).accepted;
      assert a == Adopted(s, d, k, temps[k]) + rest;
      if Adopted(s, d, k, temps[k]) != [] {
        CandidateIsSwap(s, d, k);
        assert s' == Candidate(s, d, k);
        SwapChainCons(s, s', rest);
      } else {
        assert a == rest;
      }
    }
  }

  /** Consequently every appended state holds exactly the points of the starting state. */
  lemma {:induction false} SwapChainPermutes(s: Tour, a: seq<Tour>)
    requires SwapChain(s, a)
    ensures forall t :: t in a ==> |t| == |s| && multiset(t) == multiset(s)
    decreases |a|
  {
    if a != [] {
      SwapPermutes(s, a[0]);
      SwapChainPermutes(a[0], a[1..]);
      assert a == [a[0]] + a[1..];
    }
  }

  /** Every state a whole run appends has the length and the points of the starting tour. */
  lemma RunPermutes(temps: seq<int>, s: Tour, d: Draws)
    requires Fits(temps, |s|, d)
    ensures forall t :: t in Run(temps, 0, s, d).accepted ==> |t| == |s| && multiset(t) == multiset(s)
  {
    RunSwapChain(temps, 0, s, d);
    SwapChainPermutes(s, Run(temps, 0, s, d).accepted);
  }

  // ------------------------------------------------------------ other results

  /** A tour of two or more points never makes `random.sample` raise. */
  lemma {:induction false} LongTourNeverRaises(temps: seq<int>, k: nat, s: Tour, d: Draws)
    requires Fits(temps, |s|, d) && |s| >= 2
    ensures !Run(temps, k, s, d).raised
    decreases |temps| - k
  {
    if k < |temps| && temps[k] != 0 {
      RunPass(temps, k, s, d);
      LongTourNeverRaises(temps, k + 1, Successor(s, d, k, temps[k]), d);
    }
  }

  /**
   * A tour of fewer than two points adopts nothing; the run raises exactly
   * when its first pass is not cold, since that pass needs a neighbour.
   */
  lemma ShortTourRun(temps: seq<int>, k: nat, s: Tour, d: Draws)
    requires Fits(temps, |s|, d) && |s| < 2
    ensures Run(temps, k, s, d) == Outcome([], k < |temps| && temps[k] != 0)
  {
  }

  /**
   * A pass that is not cold and whose neighbour has lower energy always
   * adopts that neighbour: it becomes the next history entry.
   */
  lemma ImprovingMoveAdopted(temps: seq<int>, k: nat, s: Tour, d: Draws)
    requires Fits(temps, |s|, d) && CoinsInRange(d.coins)
    requires |s| >= 2 && k < |temps| && temps[k] != 0
    requires k < |d.picks| && TourEnergy(Candidate(s, d, k)) < TourEnergy(s)
    ensures Run(temps, k, s, d).accepted != []
    ensures Run(temps, k, s, d).accepted[0] == Candidate(s, d, k)
  {
    RunPass(temps, k, s, d);
    var c := Candidate(s, d, k);
    ImprovingMoveAccepted(TourEnergy(s), TourEnergy(c), temps[k], d.exp, d.coins[k]);
    assert Adopted(s, d, k, temps[k]) == [c];
  }

  // ------------------------------------------------------------------- engine

  /**
   * The engine: the current `state`, the append-only `history` of every
   * state assigned, the run parameters and the field `k`, which is set to
   * 0 and never advanced (the loop counts with a local variable).
   */
  class TravelingSalesman {
    var state: Tour
    var history: seq<Tour>
    const kMax: int
    var k: int
    const tMax: int
    ghost const initial: Tour

    /** The setter's coupling: history starts with the initial state and ends with the current one. */
    ghost predicate Valid()
      reads this
    {
      |history| >= 1 && history[0] == initial && state == history[|history| - 1]
    }

    /** `__init__`: no validation of the parameters; the setter seeds the history. */
    constructor (state0: Tour, kMax: int := 200, tMax: int := 200)
      ensures Valid()
      ensures initial == state0 && state == state0 && history == [state0]
      ensures this.kMax == kMax && this.tMax == tMax && k == 0
    {
      this.state := [];  // the source's None, replaced by the setter below
      this.history := [];
      this.kMax := kMax;
      this.k := 0;
      this.tMax := tMax;
      this.initial := state0;
      new;
      SetState(state0);
    }

    /** The `state` setter: every assignment is appended to the history. */
    method SetState(s: Tour)
      modifies this`state, this`history
      ensures state == s && history == old(history) + [s]
      ensures old(Valid()) ==> Valid()
    {
      state := s;
      history := history + [s];
    }

    /**
     * One pass of the loop of `start`: compute the temperature of pass `k`
     * and stop when it is zero; otherwise `Step`. Whatever the pass does,
     * the whole run appends the same states to the history.
     */
    method Pass(k: nat, ghost temps: seq<int>, d: Draws) returns (stop: bool, raised: bool)
      requires Valid() && temps == Schedule(tMax, kMax, 0) && k < kMax
      requires Fits(temps, |state|, d)
      modifies this`state, this`history
      ensures Valid() && |state| == |old(state)|
      ensures stop == (temps[k] == 0 || |old(state)| < 2)
      ensures raised == (temps[k] != 0 && |old(state)| < 2)
      ensures stop ==> state == old(state) && history == old(history)
      ensures !stop ==> (
        && CanPass(old(state), d, k, temps[k])
        && state == Successor(old(state), d, k, temps[k])
        && history == old(history) + Adopted(old(state), d, k, temps[k]))
      ensures After(old(history), Run(temps, k, old(state), d))
           == if stop then Outcome(history, raised) else After(history, Run(temps, k + 1, state, d))
    {
      var temp := PassTemperature(tMax, kMax, k);
      ScheduleAt(tMax, kMax, 0, k);
      if temp == 0 {
        RunStops(temps, k, state, d);
        assert history + [] == history;
        return true, false;
      }
      ghost var s, h := state, history;
      RunAdvance(temps, k, s, d, h);
      raised := Step(k, temp, d);
      stop := raised;
      if raised {
        ShortTourRun(temps, k, s, d);
        assert h + [] == h;
      }
    }

    /**
     * The body of a pass that is not cold: ask `neighbour` for a candidate
     * (raising when the tour is too short), compare energies, and assign
     * the candidate when it is accepted.
     */
    method Step(k: int, temp: int, d: Draws) returns (raised: bool)
      requires Valid() && temp != 0
      requires 0 <= k < |d.picks| && k < |d.coins|
      requires |state| >= 2 ==> ValidPick(d.picks[k], |state|)
      modifies this`state, this`history
      ensures Valid()
      ensures raised == (|old(state)| < 2)
      ensures raised ==> state == old(state) && history == old(history)
      ensures !raised ==>
        && state == Successor(old(state), d, k, temp)
        && history == old(history) + Adopted(old(state), d, k, temp)
    {
      var candidate := Neighbour(state, d.picks[k]);
      if candidate.None? {
        return true;
      }
      raised := false;
      var c := candidate.value;
      var eOld := Energy(state);
      var eNew := Energy(c);
      if AcceptanceProb(eOld, eNew, temp, d.exp) >= d.coins[k] {
        SetState(c);
      }
    }

    /**
     * `start`: the annealing loop. It appends exactly what `Run` describes
     * for the schedule of `t_max` and `k_max`, and reports whether
     * `random.sample` raised on a too-short tour.
     */
    method Start(d: Draws) returns (raised: bool)
      requires Valid()
      requires Enough(kMax, |state|, d)
      modifies this`state, this`history
      ensures Valid()
      ensures history == old(history) + Run(Schedule(tMax, kMax, 0), 0, old(state), d).accepted
      ensures raised == Run(Schedule(tMax, kMax, 0), 0, old(state), d).raised
      ensures |history| <= |old(history)| + if kMax >= 1 then kMax - 1 else 0
      ensures forall t :: t in history[|old(history)|..] ==> |t| == |old(state)| && multiset(t) == multiset(old(state))
    {
      ghost var temps := Schedule(tMax, kMax, 0);
      RunLength(temps, 0, state, d);
      ghost var h0 := history;
      ghost var whole := After(history, Run(temps, 0, state, d));
      raised := false;
      var k, stop := 0, false;
      while k < kMax
        invariant 0 <= k && !stop && !raised && Valid() && Fits(temps, |state|, d)
        invariant whole == After(history, Run(temps, k, state, d))
        decreases kMax - k
      {
        stop, raised := Pass(k, temps, d);
        if stop {
          break;
        }
        k := k + 1;
      }
      if !stop {
        RunStops(temps, k, state, d);
        assert history + [] == history;
      }
      assert history[|h0|..] == Run(temps, 0, old(state), d).accepted;
      RunPermutes(temps, old(state), d);
    }
  }
}
