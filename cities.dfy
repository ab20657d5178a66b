/**
 * `generate_cities`: `nodes` random points with x in [0, width] and y in
 * [0, height]. Each `random.randint(lo, hi)` is modelled by a raw draw `u`
 * reduced modulo the size of the range; which draws the random source
 * produces, and how often, is not modelled, only that every value of the
 * range can come out. The draws are a parameter, one pair per point (the
 * x draw first, then the y draw).
 */
module Cities {
  import opened Wrappers
  import opened Tsp

  /** `random.randint(lo, hi)` for the raw draw `u`; it raises unless lo <= hi. */
  function RandInt(lo: int, hi: int, u: nat): (r: int)
    requires lo <= hi
    ensures lo <= r <= hi
  {
    lo + u % (hi - lo + 1)
  }

  /** Every value of the range is the outcome of some draw. */
  lemma RandIntReachesAll(lo: int, hi: int, v: int)
    requires lo <= v <= hi
    ensures RandInt(lo, hi, v - lo) == v
  {
  }

  /**
   * The list comprehension of `generate_cities`. A negative width or
   * height makes `randint` raise ValueError (None here), unless no point
   * is drawn at all.
   */
  function GenerateCities(width: int, height: int, nodes: int, draws: seq<(nat, nat)>): (r: Option<seq<Point>>)
    requires |draws| >= nodes
    ensures r.None? <==> nodes > 0 && (width < 0 || height < 0)
    ensures r.Some? ==> |r.value| == if nodes > 0 then nodes else 0
    ensures r.Some? ==> forall p :: p in r.value ==> 0 <= p.x <= width && 0 <= p.y <= height
  {
    if nodes <= 0 then Some([])
    else if width < 0 || height < 0 then None
    else Some(seq(nodes, i requires 0 <= i < nodes =>
      Point(RandInt(0, width, draws[i].0), RandInt(0, height, draws[i].1))))
  }

  /**
   * Any list of points inside the rectangle, duplicates included, is a
   * possible result: no point is filtered out.
   */
  lemma GenerateCitiesReachesAll(width: int, height: int, pts: seq<Point>)
    requires forall p :: p in pts ==> 0 <= p.x <= width && 0 <= p.y <= height
    ensures exists draws: seq<(nat, nat)> :: |draws| >= |pts| && GenerateCities(width, height, |pts|, draws) == Some(pts)
  {
    var n := |pts|;
    var draws: seq<(nat, nat)> := seq(n, i requires 0 <= i < n =>
      assert pts[i] in pts;
      (pts[i].x, pts[i].y));
    if n > 0 {
      assert pts[0] in pts;
      var r := GenerateCities(width, height, n, draws);
      forall i | 0 <= i < n
        ensures r.value[i] == pts[i]
      {
        assert pts[i] in pts;
        RandIntReachesAll(0, width, pts[i].x);
        RandIntReachesAll(0, height, pts[i].y);
      }
      assert r.value == pts;
    }
    assert GenerateCities(width, height, n, draws) == Some(pts);
  }
}
