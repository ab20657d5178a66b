/**
 * The Traveling Salesman instantiation of the annealing engine: the four
 * hooks `neighbour`, `temperature`, `acceptance_prob` and `energy` over a
 * tour, an ordered sequence of points with integer coordinates that is
 * closed from its last point back to its first.
 */
module Tsp {
  import opened Wrappers
  import opened Swaps

  datatype Point = Point(x: int, y: int)

  type Tour = seq<Point>

  /** The two distinct indices `random.sample(range(n), 2)` returns. */
  datatype Pick = Pick(i1: int, i2: int)

  predicate ValidPick(p: Pick, n: int) {
    0 <= p.i1 < n && 0 <= p.i2 < n && p.i1 != p.i2
  }

  // ---------------------------------------------------------------- neighbour

  /**
   * The candidate `neighbour` produces: None when the tour has fewer than
   * two points (sampling two indices raises ValueError), otherwise the tour
   * with the two picked positions exchanged.
   */
  function Perturb(s: Tour, p: Pick): (r: Option<Tour>)
    requires |s| >= 2 ==> ValidPick(p, |s|)
    ensures r.None? <==> |s| < 2
    ensures r.Some? ==> |r.value| == |s|
  {
    if |s| < 2 then None else Some(Swapped(s, p.i1, p.i2))
  }

  /** A neighbour is a permutation of the tour that moves at most two points. */
  lemma PerturbPermutes(s: Tour, p: Pick)
    requires |s| >= 2 ==> ValidPick(p, |s|)
    ensures Perturb(s, p).None? <==> |s| < 2
    ensures Perturb(s, p).Some? ==>
      && |Perturb(s, p).value| == |s|
      && multiset(Perturb(s, p).value) == multiset(s)
      && Differences(s, Perturb(s, p).value) <= {p.i1, p.i2}
      && |Differences(s, Perturb(s, p).value)| <= 2
  {
    if |s| >= 2 {
      SwappedPermutes(s, p.i1, p.i2);
      SwappedDiffersAtMostTwice(s, p.i1, p.i2);
    }
  }

  /**
   * `neighbour`: copy the tour into a fresh array (the deep copy), swap two
   * distinct positions of the copy in place and hand the copy back. The
   * argument is a value, so earlier tours are never changed.
   */
  method Neighbour(state: Tour, pick: Pick) returns (r: Option<Tour>)
    requires |state| >= 2 ==> ValidPick(pick, |state|)
    ensures r == Perturb(state, pick)
  {
    var out := new Point[|state|](i requires 0 <= i < |state| => state[i]);
    assert out[..] == state;
    if out.Length < 2 {
      return None;
    }
    SwapRandom(out, pick.i1, pick.i2);
    r := Some(out[..]);
  }

  // -------------------------------------------------------------- temperature

  /** Python's `int(x)` on a float: truncation toward zero. */
  function Trunc(x: real): (r: int)
    ensures 0.0 <= x ==> 0 <= r && r as real <= x < r as real + 1.0
    ensures x < 0.0 ==> r <= 0 && r as real - 1.0 < x <= r as real
  {
    if x >= 0.0 then x.Floor else -((-x).Floor)
  }

  /** Integer division truncating toward zero, for a positive divisor. */
  function TruncDiv(a: int, b: int): int
    requires b > 0
  {
    if a >= 0 then a / b else -((-a) / b)
  }

  /** The square of a float, `e ** 2`. */
  function Sq(e: real): real {
    e * e
  }

  /** `temperature(x) = int(t_max * (x - 1) ** 2)`. */
  function Temperature(tMax: int, x: real): (r: int)
    ensures tMax >= 0 ==> r >= 0
  {
    assert Sq(x - 1.0) >= 0.0;
    Trunc(tMax as real * Sq(x - 1.0))
  }

  /** The schedule reaches exactly zero at the end of the run, x = 1. */
  lemma TemperatureAtOne(tMax: int)
    ensures Temperature(tMax, 1.0) == 0
  {
    assert Sq(0.0) == 0.0;
  }

  /** For a non-negative scale the temperature stays within [0, t_max]. */
  lemma TemperatureBounds(tMax: int, x: real)
    requires tMax >= 0 && 0.0 < x <= 1.0
    ensures 0 <= Temperature(tMax, x) <= tMax
  {
    SquareShrinks(-1.0, x - 1.0);
    assert Sq(-1.0) == 1.0;
    MulLeMono(tMax as real, Sq(x - 1.0), 1.0);
  }

  /** For a non-negative scale the temperature never rises as x grows. */
  lemma TemperatureNonIncreasing(tMax: int, x: real, y: real)
    requires tMax >= 0 && 0.0 < x <= y <= 1.0
    ensures Temperature(tMax, y) <= Temperature(tMax, x)
  {
    SquareShrinks(x - 1.0, y - 1.0);
    MulLeMono(tMax as real, Sq(y - 1.0), Sq(x - 1.0));
    TruncMono(tMax as real * Sq(y - 1.0), tMax as real * Sq(x - 1.0));
  }

  lemma TruncMono(a: real, b: real)
    requires 0.0 <= a <= b
    ensures Trunc(a) <= Trunc(b)
  {
  }

  /** Squares shrink toward zero: e1 <= e2 <= 0 gives Sq(e2) <= Sq(e1). */
  lemma SquareShrinks(e1: real, e2: real)
    requires e1 <= e2 <= 0.0
    ensures 0.0 <= Sq(e2) <= Sq(e1)
  {
    MulLeMono(-e2, -e2, -e1);
    MulLeMono(-e1, -e2, -e1);
    assert Sq(e2) == (-e2) * (-e2);
    assert Sq(e1) == (-e1) * (-e1);
    assert (-e2) * (-e1) == (-e1) * (-e2);
  }

  lemma MulLeMono(c: real, a: real, b: real)
    requires 0.0 <= c && 0.0 <= a <= b
    ensures 0.0 <= c * a <= c * b
  {
  }

  lemma RealDivFloor(a: int, b: int)
    requires a >= 0 && b > 0
    ensures (a as real / b as real).Floor == a / b
  {
    var q, m := a / b, a % b;
    assert a == q * b + m && 0 <= m < b;
    assert a as real / b as real == q as real + m as real / b as real;
    assert 0.0 <= m as real / b as real < 1.0;
  }

  /** Truncating the exact quotient a / b is integer division toward zero. */
  lemma TruncQuotient(a: int, b: int)
    requires b > 0
    ensures Trunc(a as real / b as real) == TruncDiv(a, b)
  {
    if a >= 0 {
      RealDivFloor(a, b);
    } else {
      assert -(a as real / b as real) == (-a) as real / b as real;
      RealDivFloor(-a, b);
    }
  }

  lemma QuotientOf(v: real, a: real, b: real)
    requires b != 0.0 && v * b == a
    ensures v == a / b
  {
  }

  /** (k + 1) / k_max - 1 squared is (k_max - k - 1)^2 / k_max^2. */
  lemma PassOffsetSquared(k: int, kMax: int)
    requires 0 <= k < kMax
    ensures Sq((k + 1) as real / kMax as real - 1.0)
         == ((kMax - k - 1) * (kMax - k - 1)) as real / (kMax * kMax) as real
  {
    var kk := kMax as real;
    var x := (k + 1) as real / kk;
    var e := x - 1.0;
    var d := (kMax - k - 1) as real;
    assert x * kk == (k + 1) as real;
    assert e * kk == -d;
    assert Sq(e) * (kk * kk) == (e * kk) * (e * kk);
    assert (e * kk) * (e * kk) == d * d;
    QuotientOf(Sq(e), d * d, kk * kk);
  }

  lemma ScaledQuotient(t: int, n: int, b: int)
    requires b > 0
    ensures t as real * (n as real / b as real) == (t * n) as real / b as real
  {
    var q := n as real / b as real;
    assert q * b as real == n as real;
    assert (t as real * q) * b as real == t as real * (q * b as real);
    QuotientOf(t as real * q, (t * n) as real, b as real);
  }

  /** Where (x - 1)^2 is the exact quotient n / b, the temperature is t_max * n / b truncated. */
  lemma TemperatureOfQuotient(tMax: int, x: real, n: int, b: int)
    requires b > 0 && Sq(x - 1.0) == n as real / b as real
    ensures Temperature(tMax, x) == TruncDiv(tMax * n, b)
  {
    ScaledQuotient(tMax, n, b);
    TruncQuotient(tMax * n, b);
  }

  /**
   * At pass `k` of `k_max` the engine asks for the temperature at
   * x = (k + 1) / k_max; with exact arithmetic that is the integer
   * t_max * (k_max - k - 1)^2 / k_max^2, truncated toward zero.
   */
  lemma TemperatureOfPass(tMax: int, kMax: int, k: int)
    requires 0 <= k < kMax
    ensures Temperature(tMax, (k + 1) as real / kMax as real)
         == TruncDiv(tMax * ((kMax - k - 1) * (kMax - k - 1)), kMax * kMax)
  {
    var n, b := (kMax - k - 1) * (kMax - k - 1), kMax * kMax;
    assert b > 0 by {
      assert kMax * kMax >= kMax * 1;
    }
    PassOffsetSquared(k, kMax);
    TemperatureOfQuotient(tMax, (k + 1) as real / kMax as real, n, b);
  }

  /** The last pass, k = k_max - 1, always sees temperature 0. */
  lemma LastPassIsCold(tMax: int, kMax: int)
    requires kMax >= 1
    ensures Temperature(tMax, kMax as real / kMax as real) == 0
  {
    assert kMax as real / kMax as real == 1.0;
    TemperatureAtOne(tMax);
  }

  // ---------------------------------------------------------- acceptance_prob

  /**
   * `acceptance_prob`, the Metropolis rule: 1 for an improving move,
   * otherwise exp(-(e_new - e_old) / T). The exponential is a parameter;
   * dividing by a zero temperature raises, so a worsening move needs T != 0.
   */
  function AcceptanceProb(eOld: int, eNew: int, temp: int, exp: real -> real): (r: real)
    requires eNew < eOld || temp != 0
    ensures eNew < eOld ==> r == 1.0
  {
    if eNew < eOld then 1.0 else exp(-(eNew - eOld) as real / temp as real)
  }

  /**
   * An improving move gets probability exactly 1, so it beats every draw
   * of `random.random()` in [0, 1), whatever the temperature.
   */
  lemma ImprovingMoveAccepted(eOld: int, eNew: int, temp: int, exp: real -> real, coin: real)
    requires eNew < eOld && 0.0 <= coin < 1.0
    ensures AcceptanceProb(eOld, eNew, temp, exp) == 1.0
    ensures AcceptanceProb(eOld, eNew, temp, exp) >= coin
  {
  }

  /**
   * At a positive temperature a worsening move is accepted with a
   * probability in (0, 1], given that exp maps non-positive arguments there.
   */
  lemma WorseningMoveProbability(eOld: int, eNew: int, temp: int, exp: real -> real)
    requires eOld <= eNew && temp > 0
    requires forall y :: y <= 0.0 ==> 0.0 < exp(y) <= 1.0
    ensures 0.0 < AcceptanceProb(eOld, eNew, temp, exp) <= 1.0
  {
    var y := -(eNew - eOld) as real / temp as real;
    assert y <= 0.0 by {
      DivNonNegative((eNew - eOld) as real, temp as real);
    }
  }

  /** The larger the worsening, the less likely it is accepted (exp monotone). */
  lemma LargerWorseningLessLikely(eOld: int, eNew1: int, eNew2: int, temp: int, exp: real -> real)
    requires eOld <= eNew1 <= eNew2 && temp > 0
    requires forall a, b :: a <= b ==> exp(a) <= exp(b)
    ensures AcceptanceProb(eOld, eNew2, temp, exp) <= AcceptanceProb(eOld, eNew1, temp, exp)
  {
    var t := temp as real;
    var d1, d2 := (eNew1 - eOld) as real, (eNew2 - eOld) as real;
    DivLeMono(d1, d2, t);
    assert -(eNew2 - eOld) as real / t <= -(eNew1 - eOld) as real / t;
  }

  /** A hotter system accepts a given worsening move at least as readily. */
  lemma HotterAcceptsMore(eOld: int, eNew: int, temp1: int, temp2: int, exp: real -> real)
    requires eOld <= eNew && 0 < temp1 <= temp2
    requires forall a, b :: a <= b ==> exp(a) <= exp(b)
    ensures AcceptanceProb(eOld, eNew, temp1, exp) <= AcceptanceProb(eOld, eNew, temp2, exp)
  {
    var d := (eNew - eOld) as real;
    var t1, t2 := temp1 as real, temp2 as real;
    DivByLarger(d, t1, t2);
    assert -(eNew - eOld) as real / t1 <= -(eNew - eOld) as real / t2;
  }

  lemma DivByLarger(d: real, t1: real, t2: real)
    requires 0.0 <= d && 0.0 < t1 <= t2
    ensures d / t2 <= d / t1
  {
    assert d / t2 * t2 == d && d / t1 * t1 == d;
    assert d / t2 * t1 <= d / t2 * t2 by {
      DivNonNegative(d, t2);
      MulLeMono(d / t2, t1, t2);
    }
    assert (d / t2 - d / t1) * t1 <= 0.0;
    NonPositiveFactor(d / t2 - d / t1, t1);
  }

  lemma NonPositiveFactor(a: real, t: real)
    requires 0.0 < t && a * t <= 0.0
    ensures a <= 0.0
  {
  }

  lemma DivNonNegative(a: real, t: real)
    requires 0.0 <= a && 0.0 < t
    ensures 0.0 <= a / t
  {
  }

  lemma DivLeMono(a: real, b: real, t: real)
    requires a <= b && 0.0 < t
    ensures a / t <= b / t
  {
    assert b / t - a / t == (b - a) / t;
    DivNonNegative(b - a, t);
  }

  // ------------------------------------------------------------------- energy

  /** `((b - a) ** 2) ** 0.5` with exact arithmetic: the distance between a and b on one axis. */
  function AxisDistance(a: int, b: int): (d: int)
    ensures d >= 0 && (d == b - a || d == a - b)
  {
    if b >= a then b - a else a - b
  }

  /** The axis distance is the non-negative square root of (b - a) squared. */
  lemma AxisDistanceIsRoot(a: int, b: int)
    ensures AxisDistance(a, b) >= 0
    ensures AxisDistance(a, b) * AxisDistance(a, b) == (b - a) * (b - a)
    ensures forall r: int :: r >= 0 && r * r == (b - a) * (b - a) ==> r == AxisDistance(a, b)
  {
    var d := AxisDistance(a, b);
    forall r: int | r >= 0 && r * r == (b - a) * (b - a)
      ensures r == d
    {
      if r < d {
        SquareLess(r, d);
      } else if d < r {
        SquareLess(d, r);
      }
    }
  }

  lemma SquareLess(u: int, v: int)
    requires 0 <= u < v
    ensures u * u < v * v
  {
    assert u * u <= u * v;
    assert u * v < v * v;
  }

  /** The length of one edge: the two axis distances added. A point to itself is length 0. */
  function EdgeLength(p: Point, q: Point): (r: int)
    ensures r >= 0
    ensures r == 0 <==> p == q
  {
    AxisDistance(p.x, q.x) + AxisDistance(p.y, q.y)
  }

  /** The lengths of the first `m` edges of the closed tour. */
  function PrefixEnergy(s: Tour, m: int): int
    requires 0 <= m <= |s|
  {
    if m == 0 then 0 else PrefixEnergy(s, m - 1) + EdgeLength(s[m - 1], s[NextIndex(m - 1, |s|)])
  }

  /** The energy of a tour: the lengths of all its edges, last to first included. */
  function TourEnergy(s: Tour): (r: int)
    ensures r >= 0
  {
    PrefixEnergyNonNegative(s, |s|);
    PrefixEnergy(s, |s|)
  }

  /**
   * `energy`: walk the tour paired with its rotation by one place and add
   * up the edge lengths. The sum of integral values is integral, so the
   * final `int(...)` changes nothing.
   */
  method Energy(state: Tour) returns (total: int)
    ensures total == TourEnergy(state)
  {
    var next := if |state| == 0 then [] else state[1..] + state[..1];
    total := 0;
    var i := 0;
    while i < |state|
      invariant 0 <= i <= |state|
      invariant total == PrefixEnergy(state, i)
    {
      assert next[i] == state[NextIndex(i, |state|)];
      total := total + EdgeLength(state[i], next[i]);
      i := i + 1;
    }
  }

  lemma {:induction false} PrefixEnergyNonNegative(s: Tour, m: int)
    requires 0 <= m <= |s|
    ensures PrefixEnergy(s, m) >= 0
  {
    if m > 0 {
      PrefixEnergyNonNegative(s, m - 1);
    }
  }

  /** An empty tour and a one-point tour both have energy 0. */
  lemma ShortTourEnergy(s: Tour)
    requires |s| <= 1
    ensures TourEnergy(s) == 0
  {
    if |s| == 1 {
      assert TourEnergy(s) == PrefixEnergy(s, 0) + EdgeLength(s[0], s[0]);
    }
  }

  /** [(0,0), (3,4)]: the forward edge and the closing edge each have length 7. */
  lemma TwoPointExample()
    ensures TourEnergy([Point(0, 0), Point(3, 4)]) == 14
  {
    var s := [Point(0, 0), Point(3, 4)];
    assert PrefixEnergy(s, 1) == 7;
  }

  /** The first `m` edges of the tour rotated by one are edges 1..m of the tour. */
  lemma {:induction false} RotatedPrefix(s: Tour, m: int)
    requires |s| >= 1 && 0 <= m <= |s| - 1
    ensures PrefixEnergy(s[1..] + [s[0]], m) == PrefixEnergy(s, m + 1) - PrefixEnergy(s, 1)
  {
    var r := s[1..] + [s[0]];
    if m > 0 {
      RotatedPrefix(s, m - 1);
      assert r[m - 1] == s[m];
      assert r[NextIndex(m - 1, |r|)] == s[NextIndex(m, |s|)];
    }
  }

  /**
   * A closed tour's energy does not depend on where it starts: rotating
   * it by one place keeps the energy.
   */
  lemma EnergyRotationInvariant(s: Tour)
    requires |s| >= 1
    ensures TourEnergy(s[1..] + [s[0]]) == TourEnergy(s)
  {
    var r := s[1..] + [s[0]];
    var n := |s|;
    RotatedPrefix(s, n - 1);
    assert r[n - 1] == s[0];
    assert r[NextIndex(n - 1, n)] == s[NextIndex(0, n)];
    assert PrefixEnergy(s, 1) == EdgeLength(s[0], s[NextIndex(0, n)]);
  }
}
