/**
 * The two in-place swap helpers of the annealing program. The random index
 * choices are parameters: `random.sample(range(n), 2)` becomes two distinct
 * indices below the length, `random.choice(range(n))` one index below it.
 */
module Swaps {

  /** The sequence `s` with the elements at `i` and `j` exchanged. */
  function Swapped<T>(s: seq<T>, i: int, j: int): (r: seq<T>)
    requires 0 <= i < |s| && 0 <= j < |s|
    ensures |r| == |s|
    ensures r[i] == s[j] && r[j] == s[i]
    ensures forall p :: 0 <= p < |s| && p != i && p != j ==> r[p] == s[p]
  {
    s[i := s[j]][j := s[i]]
  }

  /** The positions at which two sequences of equal length differ. */
  function Differences<T(==)>(a: seq<T>, b: seq<T>): set<int>
    requires |a| == |b|
  {
    set p | 0 <= p < |a| && a[p] != b[p]
  }

  /** The index that follows `i` on a cycle of length `n`. */
  function NextIndex(i: int, n: int): (j: int)
    requires 0 <= i < n
    ensures 0 <= j < n
    ensures j == (i + 1) % n
  {
    if i + 1 == n then 0 else i + 1
  }

  /** A swap is a permutation: length and multiset of elements are kept. */
  lemma SwappedPermutes<T>(s: seq<T>, i: int, j: int)
    requires 0 <= i < |s| && 0 <= j < |s|
    ensures multiset(Swapped(s, i, j)) == multiset(s)
  {
    var t := s[i := s[j]];
    assert multiset(t) == multiset(s) - multiset{s[i]} + multiset{s[j]};
    assert multiset(t[j := s[i]]) == multiset(t) - multiset{t[j]} + multiset{s[i]};
  }

  /** A swap changes nothing outside the two chosen positions. */
  lemma SwappedDiffersAtMostTwice<T>(s: seq<T>, i: int, j: int)
    requires 0 <= i < |s| && 0 <= j < |s|
    ensures Differences(s, Swapped(s, i, j)) <= {i, j}
    ensures |Differences(s, Swapped(s, i, j))| <= 2
  {
    var d := Differences(s, Swapped(s, i, j));
    SubsetCardinality(d, {i, j});
  }

  lemma SubsetCardinality<T>(a: set<T>, b: set<T>)
    requires a <= b
    ensures |a| <= |b|
  {
    if a != {} {
      var x :| x in a;
      SubsetCardinality(a - {x}, b - {x});
    }
  }

  /** `swap_random`: exchange the elements at the two distinct drawn indices. */
  method SwapRandom<T>(a: array<T>, i1: int, i2: int)
    requires 0 <= i1 < a.Length && 0 <= i2 < a.Length && i1 != i2
    modifies a
    ensures a[..] == Swapped(old(a[..]), i1, i2)
  {
    a[i1], a[i2] := a[i2], a[i1];
  }

  /**
   * `swap_random_neighbours`: exchange the element at the drawn index `i`
   * with its successor on the cycle (the last index wraps round to 0).
   */
  method SwapRandomNeighbours<T>(a: array<T>, i: int)
    requires 0 <= i < a.Length
    modifies a
    ensures a[..] == Swapped(old(a[..]), i, NextIndex(i, a.Length))
  {
    var i2 := if i + 1 == a.Length then 0 else i + 1;
    a[i], a[i2] := a[i2], a[i];
  }
}
