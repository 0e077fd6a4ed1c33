/**
  `getEvenlySpacedPoints` of the curve demo: sample the cubic at 1001
  parameters `t = i/1000`, then keep fine point `i` whenever the accumulator
  plus the distance from the LAST KEPT point to fine point `i` reaches
  `segmentLength`, resetting the accumulator on each kept point.

  The Euclidean distance (`Math.sqrt(dx*dx + dy*dy)`) is a parameter `dist`;
  the lemmas about spacing only ask that it never be negative.
*/
module Sampler {
  import opened Geometry
  import opened Bezier

  /** Number of parameter steps of the fine sample (`totalSteps`). */
  const TotalSteps: nat := 1000

  /** A distance function never reports a negative distance. */
  ghost predicate NonNegative(dist: (Point, Point) -> real)
  {
    forall p, q :: dist(p, q) >= 0.0
  }

  /** The fine sample: the curve at `t = i / TotalSteps` for `i` in 0..TotalSteps. */
  function Fine(c: Cubic): seq<Point>
  {
    seq(TotalSteps + 1, i => BezierPoint(i as real / TotalSteps as real, c))
  }

  /** The first loop of `getEvenlySpacedPoints`, which fills `tempPoints`. */
  method SampleFine(c: Cubic) returns (fine: seq<Point>)
    ensures |fine| == TotalSteps + 1
    ensures forall i :: 0 <= i < |fine| ==> fine[i] == BezierPoint(i as real / TotalSteps as real, c)
  {
    fine := [];
    var i := 0;
    while i <= TotalSteps
      invariant 0 <= i <= TotalSteps + 1
      invariant |fine| == i
      invariant forall k :: 0 <= k < i ==> fine[k] == BezierPoint(k as real / TotalSteps as real, c)
    {
      var t := i as real / TotalSteps as real;
      fine := fine + [BezierPoint(t, c)];
      i := i + 1;
    }
  }

  /** The accumulated distance from `pts[from]` to each of `pts[lo..hi]`:
      the value of `distAcc + dist` when fine point `hi - 1` is examined and
      `from` was the last kept point. */
  function Spread(dist: (Point, Point) -> real, pts: seq<Point>, from: nat, lo: nat, hi: nat): real
    requires from < |pts| && lo <= hi <= |pts|
    decreases hi - lo
  {
    if lo == hi then 0.0
    else Spread(dist, pts, from, lo, hi - 1) + dist(pts[from], pts[hi - 1])
  }

  /** The value `distAcc + dist` the sampler compares with `segmentLength`
      when it examines fine point `j` and `pts[from]` was kept last. */
  function Reach(dist: (Point, Point) -> real, pts: seq<Point>, from: nat, j: nat): real
    requires from < j < |pts|
  {
    Spread(dist, pts, from, from + 1, j + 1)
  }

  /** The accumulator never goes negative. */
  lemma {:induction false} SpreadNonNegative(dist: (Point, Point) -> real, pts: seq<Point>, from: nat, lo: nat, hi: nat)
    requires NonNegative(dist)
    requires from < |pts| && lo <= hi <= |pts|
    ensures Spread(dist, pts, from, lo, hi) >= 0.0
    decreases hi - lo
  {
    if lo < hi {
      SpreadNonNegative(dist, pts, from, lo, hi - 1);
      assert dist(pts[from], pts[hi - 1]) >= 0.0;
    }
  }

  /** The second loop of `getEvenlySpacedPoints` as a recursive filter: the
      indices kept among `pts[i..]`, when `pts[last]` was kept last and the
      accumulator holds `acc`. */
  function Walk(dist: (Point, Point) -> real, segmentLength: real, pts: seq<Point>,
                last: nat, acc: real, i: nat): (r: seq<nat>)
    requires last < i <= |pts|
    ensures |r| <= |pts| - i
    ensures forall k :: 0 <= k < |r| ==> i <= r[k] < |pts|
    ensures forall k, l :: 0 <= k < l < |r| ==> r[k] < r[l]
    decreases |pts| - i
  {
    if i == |pts| then []
    else
      var d := dist(pts[last], pts[i]);
      if acc + d >= segmentLength then [i] + Walk(dist, segmentLength, pts, i, 0.0, i + 1)
      else Walk(dist, segmentLength, pts, last, acc + d, i + 1)
  }

  /** `k` is the FIRST index after `from` at which the accumulated distance
      from `pts[from]` reaches `segmentLength`. */
  ghost predicate IsFirstReach(dist: (Point, Point) -> real, segmentLength: real, pts: seq<Point>, from: nat, k: nat)
  {
    && from < k < |pts|
    && Reach(dist, pts, from, k) >= segmentLength
    && forall j :: from < j < k ==> Reach(dist, pts, from, j) < segmentLength
  }

  /** No index after `from` reaches the threshold. */
  ghost predicate QuietAfter(dist: (Point, Point) -> real, segmentLength: real, pts: seq<Point>, from: nat)
    requires from < |pts|
  {
    forall j :: from < j < |pts| ==> Reach(dist, pts, from, j) < segmentLength
  }

  function Last(kept: seq<nat>): nat
    requires |kept| >= 1
  {
    kept[|kept| - 1]
  }

  /** `kept` is what the threshold rule keeps from its first element on:
      each next kept index is the first one whose accumulated distance from
      the previous kept point reaches `segmentLength`, and after the last
      kept index none does. */
  ghost predicate SelectsFrom(dist: (Point, Point) -> real, segmentLength: real, pts: seq<Point>, kept: seq<nat>)
    decreases |kept|
  {
    && |kept| >= 1
    && kept[0] < |pts|
    && if |kept| == 1 then QuietAfter(dist, segmentLength, pts, kept[0])
       else IsFirstReach(dist, segmentLength, pts, kept[0], kept[1])
            && SelectsFrom(dist, segmentLength, pts, kept[1..])
  }

  /** The threshold selection of the sampler: it starts at fine point 0. */
  ghost predicate IsThresholdSelection(dist: (Point, Point) -> real, segmentLength: real, pts: seq<Point>, kept: seq<nat>)
  {
    SelectsFrom(dist, segmentLength, pts, kept) && kept[0] == 0
  }

  /** The recursive filter implements the threshold selection, provided the
      accumulator is the spread since `last` and nothing in between reached
      the threshold. */
  lemma {:induction false} WalkSelects(dist: (Point, Point) -> real, segmentLength: real, pts: seq<Point>,
                                       last: nat, acc: real, i: nat)
    requires last < i <= |pts|
    requires acc == Spread(dist, pts, last, last + 1, i)
    requires forall j :: last < j < i ==> Reach(dist, pts, last, j) < segmentLength
    ensures SelectsFrom(dist, segmentLength, pts, [last] + Walk(dist, segmentLength, pts, last, acc, i))
    decreases |pts| - i
  {
    if i < |pts| {
      var d := dist(pts[last], pts[i]);
      assert Reach(dist, pts, last, i) == acc + d;
      if acc + d >= segmentLength {
        var tail := [i] + Walk(dist, segmentLength, pts, i, 0.0, i + 1);
        assert Walk(dist, segmentLength, pts, last, acc, i) == tail;
        WalkSelects(dist, segmentLength, pts, i, 0.0, i + 1);
        assert ([last] + tail)[1..] == tail;
      } else {
        assert Walk(dist, segmentLength, pts, last, acc, i) == Walk(dist, segmentLength, pts, last, acc + d, i + 1);
        WalkSelects(dist, segmentLength, pts, last, acc + d, i + 1);
      }
    }
  }

  /** The indices of the fine points `getEvenlySpacedPoints` keeps. */
  function KeptIndices(dist: (Point, Point) -> real, segmentLength: real, pts: seq<Point>): (kept: seq<nat>)
    requires |pts| >= 1
    ensures IsThresholdSelection(dist, segmentLength, pts, kept)
  {
    WalkSelects(dist, segmentLength, pts, 0, 0.0, 1);
    [0] + Walk(dist, segmentLength, pts, 0, 0.0, 1)
  }

  /** The points of `pts` at the indices `kept`, in order. */
  function Pick(pts: seq<Point>, kept: seq<nat>): (r: seq<Point>)
    requires forall m :: 0 <= m < |kept| ==> kept[m] < |pts|
  {
    seq(|kept|, m requires 0 <= m < |kept| => pts[kept[m]])
  }

  /** The result of `getEvenlySpacedPoints(P0, P1, P2, P3, segmentLength)`:
      never empty, starts at P0, and keeps at most every fine point. */
  function EvenlySpaced(c: Cubic, segmentLength: real := 5.0, dist: (Point, Point) -> real): (r: seq<Point>)
    ensures 1 <= |r| <= TotalSteps + 1
    ensures r[0] == c.p0
  {
    var fine := Fine(c);
    var kept := KeptIndices(dist, segmentLength, fine);
    Pick(fine, kept)
  }

  /** One step of the filter, when the point at `i` is kept. */
  lemma WalkKeeps(dist: (Point, Point) -> real, segmentLength: real, pts: seq<Point>,
                  last: nat, acc: real, i: nat)
    requires last < i < |pts|
    requires acc + dist(pts[last], pts[i]) >= segmentLength
    ensures Walk(dist, segmentLength, pts, last, acc, i) == [i] + Walk(dist, segmentLength, pts, i, 0.0, i + 1)
  {
  }

  /** One step of the filter, when the point at `i` is skipped. */
  lemma WalkSkips(dist: (Point, Point) -> real, segmentLength: real, pts: seq<Point>,
                  last: nat, acc: real, i: nat)
    requires last < i < |pts|
    requires acc + dist(pts[last], pts[i]) < segmentLength
    ensures Walk(dist, segmentLength, pts, last, acc, i)
         == Walk(dist, segmentLength, pts, last, acc + dist(pts[last], pts[i]), i + 1)
  {
  }

  /** The second loop of `getEvenlySpacedPoints`, as written: it keeps the
      fine points the threshold selection keeps. */
  method SelectEvenly(tempPoints: seq<Point>, segmentLength: real, dist: (Point, Point) -> real)
    returns (evenPoints: seq<Point>)
    requires |tempPoints| >= 1
    ensures evenPoints == Pick(tempPoints, KeptIndices(dist, segmentLength, tempPoints))
  {
    ghost var target := [0] + Walk(dist, segmentLength, tempPoints, 0, 0.0, 1);
    evenPoints := [tempPoints[0]];
    var distAcc := 0.0;
    ghost var kept: seq<nat> := [0];
    ghost var last: nat := 0;
    var i := 1;
    while i < |tempPoints|
      invariant 1 <= i <= |tempPoints|
      invariant last < i
      invariant |kept| == |evenPoints| >= 1 && Last(kept) == last
      invariant forall m :: 0 <= m < |kept| ==> kept[m] < |tempPoints| && evenPoints[m] == tempPoints[kept[m]]
      invariant kept + Walk(dist, segmentLength, tempPoints, last, distAcc, i) == target
    {
      var prev := evenPoints[|evenPoints| - 1];
      var curr := tempPoints[i];
      var d := dist(prev, curr);
      if distAcc + d >= segmentLength {
        WalkKeeps(dist, segmentLength, tempPoints, last, distAcc, i);
        evenPoints := evenPoints + [curr];
        kept := kept + [i];
        last := i;
        distAcc := 0.0;
      } else {
        WalkSkips(dist, segmentLength, tempPoints, last, distAcc, i);
        distAcc := distAcc + d;
      }
      i := i + 1;
    }
    assert kept == target;
    assert evenPoints == Pick(tempPoints, target);
  }

  /** `getEvenlySpacedPoints(P0, P1, P2, P3, segmentLength)`. */
  method GetEvenlySpacedPoints(c: Cubic, segmentLength: real := 5.0, dist: (Point, Point) -> real)
    returns (evenPoints: seq<Point>)
    ensures evenPoints == EvenlySpaced(c, segmentLength, dist)
  {
    var tempPoints := SampleFine(c);
    assert tempPoints == Fine(c);
    evenPoints := SelectEvenly(tempPoints, segmentLength, dist);
  }

  /** Omitting `segmentLength` samples with the default spacing 5. */
  lemma DefaultSegmentLength(c: Cubic, dist: (Point, Point) -> real)
    ensures EvenlySpaced(c, dist := dist) == EvenlySpaced(c, 5.0, dist)
  {
  }

  /** The threshold rule determines the selection: two selections that start
      at the same index are equal. */
  lemma {:induction false} SelectionUnique(dist: (Point, Point) -> real, segmentLength: real, pts: seq<Point>,
                                           k1: seq<nat>, k2: seq<nat>)
    requires SelectsFrom(dist, segmentLength, pts, k1)
    requires SelectsFrom(dist, segmentLength, pts, k2)
    requires k1[0] == k2[0]
    ensures k1 == k2
    decreases |k1|
  {
    // A second element, when present, is the first index after the shared
    // start that reaches the threshold, so both have one or neither does,
    // and then they agree.
    var s := k1[0];
    if |k1| > 1 && |k2| > 1 {
      assert k1[1] == k2[1];
      SelectionUnique(dist, segmentLength, pts, k1[1..], k2[1..]);
      assert k1 == [s] + k1[1..] && k2 == [s] + k2[1..];
    }
  }

  /** `KeptIndices` is exactly the threshold selection: a list of indices
      satisfies the rule if and only if it is what the sampler keeps. */
  lemma KeptIndicesCharacterised(dist: (Point, Point) -> real, segmentLength: real, pts: seq<Point>, kept: seq<nat>)
    requires |pts| >= 1
    ensures IsThresholdSelection(dist, segmentLength, pts, kept)
        <==> kept == KeptIndices(dist, segmentLength, pts)
  {
    if IsThresholdSelection(dist, segmentLength, pts, kept) {
      SelectionUnique(dist, segmentLength, pts, kept, KeptIndices(dist, segmentLength, pts));
    }
  }

  /** The accumulated reach at `j` includes the distance to `pts[j]` itself. */
  lemma ReachCoversStep(dist: (Point, Point) -> real, pts: seq<Point>, from: nat, j: nat)
    requires NonNegative(dist)
    requires from < j < |pts|
    ensures Reach(dist, pts, from, j) >= dist(pts[from], pts[j])
  {
    SpreadNonNegative(dist, pts, from, from + 1, j);
  }

  /** In a selection, every skipped index lies closer than `segmentLength`
      to the last index kept before it, and the kept indices increase. */
  lemma {:induction false} SelectionSkipsNear(dist: (Point, Point) -> real, segmentLength: real,
                                              pts: seq<Point>, kept: seq<nat>)
    requires NonNegative(dist)
    requires SelectsFrom(dist, segmentLength, pts, kept)
    ensures forall m :: 0 <= m < |kept| ==> kept[m] < |pts|
    ensures forall m :: 0 <= m < |kept| - 1 ==> kept[m] < kept[m + 1]
    ensures forall m, j :: 0 <= m < |kept| - 1 && kept[m] < j < kept[m + 1] ==>
              dist(pts[kept[m]], pts[j]) < segmentLength
    ensures forall j :: Last(kept) < j < |pts| ==> dist(pts[Last(kept)], pts[j]) < segmentLength
    decreases |kept|
  {
    if |kept| == 1 {
      forall j | kept[0] < j < |pts| ensures dist(pts[kept[0]], pts[j]) < segmentLength {
        ReachCoversStep(dist, pts, kept[0], j);
      }
    } else {
      var tail := kept[1..];
      SelectionSkipsNear(dist, segmentLength, pts, tail);
      forall j | kept[0] < j < kept[1] ensures dist(pts[kept[0]], pts[j]) < segmentLength {
        ReachCoversStep(dist, pts, kept[0], j);
      }
      forall m | 1 <= m < |kept| ensures kept[m] == tail[m - 1] { }
      assert Last(kept) == Last(tail);
    }
  }

  /** Every fine point the sampler skips lies closer than `segmentLength`
      to the last point kept before it. */
  lemma SkippedPointsStayNear(dist: (Point, Point) -> real, segmentLength: real, pts: seq<Point>)
    requires NonNegative(dist)
    requires |pts| >= 1
    ensures var kept := KeptIndices(dist, segmentLength, pts);
      && (forall m, j :: 0 <= m < |kept| - 1 && kept[m] < j < kept[m + 1] ==>
            dist(pts[kept[m]], pts[j]) < segmentLength)
      && (forall j :: Last(kept) < j < |pts| ==> dist(pts[Last(kept)], pts[j]) < segmentLength)
  {
    SelectionSkipsNear(dist, segmentLength, pts, KeptIndices(dist, segmentLength, pts));
  }

  /** With a non-positive threshold every step reaches it. */
  lemma {:induction false} WalkKeepsAll(dist: (Point, Point) -> real, segmentLength: real, pts: seq<Point>,
                                        last: nat, acc: real, i: nat)
    requires NonNegative(dist)
    requires segmentLength <= 0.0 && acc >= 0.0
    requires last < i <= |pts|
    ensures Walk(dist, segmentLength, pts, last, acc, i) == seq(|pts| - i, k => i + k)
    decreases |pts| - i
  {
    if i < |pts| {
      assert dist(pts[last], pts[i]) >= 0.0;
      WalkKeepsAll(dist, segmentLength, pts, i, 0.0, i + 1);
    }
  }

  /** If `segmentLength <= 0`, all 1001 fine points are returned. */
  lemma NonPositiveLengthKeepsAll(c: Cubic, segmentLength: real, dist: (Point, Point) -> real)
    requires NonNegative(dist)
    requires segmentLength <= 0.0
    ensures EvenlySpaced(c, segmentLength, dist) == Fine(c)
  {
    WalkKeepsAll(dist, segmentLength, Fine(c), 0, 0.0, 1);
  }

  /** While every remaining point is at distance zero from the last kept one
      and the accumulator is below the threshold, nothing more is kept. */
  lemma {:induction false} WalkKeepsNone(dist: (Point, Point) -> real, segmentLength: real, pts: seq<Point>,
                                         last: nat, acc: real, i: nat)
    requires acc < segmentLength
    requires last < i <= |pts|
    requires forall j :: i <= j < |pts| ==> dist(pts[last], pts[j]) == 0.0
    ensures Walk(dist, segmentLength, pts, last, acc, i) == []
    decreases |pts| - i
  {
    if i < |pts| {
      WalkKeepsNone(dist, segmentLength, pts, last, acc, i + 1);
    }
  }

  /** If every distance is zero and `segmentLength > 0`, only P0 is returned. */
  lemma ZeroDistancesKeepOnlyFirst(c: Cubic, segmentLength: real, dist: (Point, Point) -> real)
    requires forall p, q :: dist(p, q) == 0.0
    requires segmentLength > 0.0
    ensures EvenlySpaced(c, segmentLength, dist) == [c.p0]
  {
    WalkKeepsNone(dist, segmentLength, Fine(c), 0, 0.0, 1);
  }

  /** A degenerate curve whose control points all equal `p` is sampled as
      the single point `p`, for any distance that is zero from a point to
      itself. */
  lemma DegenerateCurveSingleSample(p: Point, segmentLength: real, dist: (Point, Point) -> real)
    requires dist(p, p) == 0.0
    requires segmentLength > 0.0
    ensures EvenlySpaced(Cubic(p, p, p, p), segmentLength, dist) == [p]
  {
    var c := Cubic(p, p, p, p);
    var fine := Fine(c);
    forall j | 0 <= j < |fine| ensures fine[j] == p {
      ConstantCurve(j as real / TotalSteps as real, p);
    }
    WalkKeepsNone(dist, segmentLength, fine, 0, 0.0, 1);
  }
}
