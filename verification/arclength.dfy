/**
  The evidently intended spacing rule of `getEvenlySpacedPoints`: keep a
  fine point once the length of the polyline walked since the last kept
  point reaches `segmentLength`. The source instead adds, at every step,
  the distance from the last kept point (not from the previous fine point)
  to the accumulator, so on a straight run of unit steps it keeps every
  third point for `segmentLength = 5`. `Overcount` shows that input;
  `ArcKept` is the corrected rule, with its spacing proved.
*/
module ArcSampler {
  import opened Geometry
  import opened Bezier
  import opened Sampler

  /** The length of the fine polyline from `pts[lo]` to `pts[hi]`. */
  function ArcLength(dist: (Point, Point) -> real, pts: seq<Point>, lo: nat, hi: nat): real
    requires lo <= hi < |pts|
    decreases hi - lo
  {
    if hi == lo then 0.0 else ArcLength(dist, pts, lo, hi - 1) + dist(pts[hi - 1], pts[hi])
  }

  /** The corrected second loop: the accumulator adds the step from the
      previous fine point. */
  function ArcWalk(dist: (Point, Point) -> real, segmentLength: real, pts: seq<Point>,
                   acc: real, i: nat): (r: seq<nat>)
    requires 1 <= i <= |pts|
    ensures |r| <= |pts| - i
    ensures forall k :: 0 <= k < |r| ==> i <= r[k] < |pts|
    ensures forall k, l :: 0 <= k < l < |r| ==> r[k] < r[l]
    decreases |pts| - i
  {
    if i == |pts| then []
    else
      var d := dist(pts[i - 1], pts[i]);
      if acc + d >= segmentLength then [i] + ArcWalk(dist, segmentLength, pts, 0.0, i + 1)
      else ArcWalk(dist, segmentLength, pts, acc + d, i + 1)
  }

  /** `k` is the first index after `from` whose arc length from `pts[from]`
      reaches `segmentLength`. */
  ghost predicate ArcFirstReach(dist: (Point, Point) -> real, segmentLength: real, pts: seq<Point>, from: nat, k: nat)
  {
    && from < k < |pts|
    && ArcLength(dist, pts, from, k) >= segmentLength
    && forall j :: from < j < k ==> ArcLength(dist, pts, from, j) < segmentLength
  }

  /** `kept` is spaced by arc length from its first element on: each next
      kept index is the first one at least `segmentLength` along the
      polyline from the previous, and the rest of the polyline after the
      last is shorter than that. */
  ghost predicate ArcSelectsFrom(dist: (Point, Point) -> real, segmentLength: real, pts: seq<Point>, kept: seq<nat>)
    decreases |kept|
  {
    && |kept| >= 1
    && kept[0] < |pts|
    && if |kept| == 1 then
         forall j :: kept[0] < j < |pts| ==> ArcLength(dist, pts, kept[0], j) < segmentLength
       else ArcFirstReach(dist, segmentLength, pts, kept[0], kept[1])
            && ArcSelectsFrom(dist, segmentLength, pts, kept[1..])
  }

  lemma {:induction false} ArcWalkSelects(dist: (Point, Point) -> real, segmentLength: real, pts: seq<Point>,
                                          last: nat, acc: real, i: nat)
    requires last < i <= |pts|
    requires acc == ArcLength(dist, pts, last, i - 1)
    requires forall j :: last < j < i ==> ArcLength(dist, pts, last, j) < segmentLength
    ensures ArcSelectsFrom(dist, segmentLength, pts, [last] + ArcWalk(dist, segmentLength, pts, acc, i))
    decreases |pts| - i
  {
    if i < |pts| {
      var d := dist(pts[i - 1], pts[i]);
      assert ArcLength(dist, pts, last, i) == acc + d;
      if acc + d >= segmentLength {
        var tail := [i] + ArcWalk(dist, segmentLength, pts, 0.0, i + 1);
        assert ArcWalk(dist, segmentLength, pts, acc, i) == tail;
        ArcWalkSelects(dist, segmentLength, pts, i, 0.0, i + 1);
        assert ([last] + tail)[1..] == tail;
      } else {
        assert ArcWalk(dist, segmentLength, pts, acc, i) == ArcWalk(dist, segmentLength, pts, acc + d, i + 1);
        ArcWalkSelects(dist, segmentLength, pts, last, acc + d, i + 1);
      }
    }
  }

  /** The indices the corrected rule keeps: the first fine point, then
      every point that completes `segmentLength` of arc since the last. */
  function ArcKept(dist: (Point, Point) -> real, segmentLength: real, pts: seq<Point>): (kept: seq<nat>)
    requires |pts| >= 1
    ensures ArcSelectsFrom(dist, segmentLength, pts, kept)
    ensures kept[0] == 0
  {
    ArcWalkSelects(dist, segmentLength, pts, 0, 0.0, 1);
    [0] + ArcWalk(dist, segmentLength, pts, 0.0, 1)
  }

  /** The corrected `getEvenlySpacedPoints`. */
  function EvenlySpacedByArc(c: Cubic, segmentLength: real, dist: (Point, Point) -> real): (r: seq<Point>)
    ensures 1 <= |r| <= TotalSteps + 1
    ensures r[0] == c.p0
  {
    var fine := Fine(c);
    Pick(fine, ArcKept(dist, segmentLength, fine))
  }

  /** Distance along the x axis, for points on a horizontal line. */
  function AxisDistance(p: Point, q: Point): real
  {
    if q.x >= p.x then q.x - p.x else p.x - q.x
  }

  /** Four points one unit apart on a line. */
  function UnitSteps(): seq<Point>
  {
    [Point(0.0, 0.0), Point(1.0, 0.0), Point(2.0, 0.0), Point(3.0, 0.0)]
  }

  /** As written, the accumulator reaches 5 at the point only 3 units along
      the line (1 + 2 + 3 = 6), so it is kept; the corrected rule keeps no
      point before 5 units of arc. */
  lemma Overcount()
    ensures KeptIndices(AxisDistance, 5.0, UnitSteps()) == [0, 3]
    ensures ArcLength(AxisDistance, UnitSteps(), 0, 3) == 3.0
    ensures ArcKept(AxisDistance, 5.0, UnitSteps()) == [0]
  {
    var pts := UnitSteps();
    assert AxisDistance(pts[0], pts[1]) == 1.0;
    assert AxisDistance(pts[0], pts[2]) == 2.0;
    assert AxisDistance(pts[0], pts[3]) == 3.0;
    assert Walk(AxisDistance, 5.0, pts, 3, 0.0, 4) == [];
    assert Walk(AxisDistance, 5.0, pts, 0, 3.0, 3) == [3];
    assert Walk(AxisDistance, 5.0, pts, 0, 1.0, 2) == [3];
    assert Walk(AxisDistance, 5.0, pts, 0, 0.0, 1) == [3];
    assert AxisDistance(pts[1], pts[2]) == 1.0 && AxisDistance(pts[2], pts[3]) == 1.0;
    assert ArcWalk(AxisDistance, 5.0, pts, 3.0, 4) == [];
    assert ArcWalk(AxisDistance, 5.0, pts, 2.0, 3) == [];
    assert ArcWalk(AxisDistance, 5.0, pts, 1.0, 2) == [];
    assert ArcWalk(AxisDistance, 5.0, pts, 0.0, 1) == [];
    assert ArcLength(AxisDistance, pts, 0, 1) == 1.0;
    assert ArcLength(AxisDistance, pts, 0, 2) == 2.0;
  }
}
