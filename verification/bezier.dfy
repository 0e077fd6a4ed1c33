/**
  Cubic Bézier evaluation (`bezierPoint` of the curve demo) in Bernstein
  form, with de Casteljau's construction as an independent reference.
  `Math.pow(u, 3)` and `Math.pow(u, 2)` are written as products over exact
  reals.
*/
module Bezier {
  import opened Geometry

  /** The four control points P0..P3 of one cubic segment. */
  datatype Cubic = Cubic(p0: Point, p1: Point, p2: Point, p3: Point)

  /** The four Bernstein weights of degree three at `t`. */
  function W0(t: real): real { (1.0 - t) * (1.0 - t) * (1.0 - t) }
  function W1(t: real): real { 3.0 * (1.0 - t) * (1.0 - t) * t }
  function W2(t: real): real { 3.0 * (1.0 - t) * t * t }
  function W3(t: real): real { t * t * t }

  /** One coordinate of the curve: the Bernstein combination of the four
      control coordinates. */
  function Bernstein(t: real, a: real, b: real, c: real, d: real): real
  {
    Combine(W0(t), W1(t), W2(t), W3(t), a, b, c, d)
  }

  /** The weighted sum of four values. */
  function Combine(w0: real, w1: real, w2: real, w3: real, a: real, b: real, c: real, d: real): real
  {
    w0 * a + w1 * b + w2 * c + w3 * d
  }

  /** `bezierPoint(t, P0, P1, P2, P3)`: the point of the curve at `t`, each
      axis computed independently. The curve starts at P0 and ends at P3. */
  function BezierPoint(t: real, c: Cubic): (r: Point)
    ensures t == 0.0 ==> r == c.p0
    ensures t == 1.0 ==> r == c.p3
  {
    Point(Bernstein(t, c.p0.x, c.p1.x, c.p2.x, c.p3.x),
          Bernstein(t, c.p0.y, c.p1.y, c.p2.y, c.p3.y))
  }

  /** Linear interpolation between two values. */
  function Lerp(t: real, a: real, b: real): real
  {
    (1.0 - t) * a + t * b
  }

  /** de Casteljau's construction of one coordinate: three rounds of linear
      interpolation between neighbouring control values. */
  function DeCasteljau(t: real, a: real, b: real, c: real, d: real): real
  {
    var ab := Lerp(t, a, b);
    var bc := Lerp(t, b, c);
    var cd := Lerp(t, c, d);
    var abc := Lerp(t, ab, bc);
    var bcd := Lerp(t, bc, cd);
    Lerp(t, abc, bcd)
  }

  /** The Bernstein weights of degree three sum to one for every `t`. */
  lemma WeightsSumToOne(t: real)
    ensures W0(t) + W1(t) + W2(t) + W3(t) == 1.0
  {
    var s := 1.0 - t;
    assert W0(t) + W1(t) + W2(t) + W3(t) == s * s * s + 3.0 * s * s * t + 3.0 * s * t * t + t * t * t;
    assert s * s * s + 3.0 * s * s * t + 3.0 * s * t * t + t * t * t == (s + t) * (s + t) * (s + t);
  }

  /** Bernstein form and de Casteljau's construction agree everywhere. */
  lemma BernsteinIsDeCasteljau(t: real, a: real, b: real, c: real, d: real)
    ensures Bernstein(t, a, b, c, d) == DeCasteljau(t, a, b, c, d)
  {
    var s := 1.0 - t;
    var ab := s * a + t * b;
    var bc := s * b + t * c;
    var cd := s * c + t * d;
    var abc := s * ab + t * bc;
    var bcd := s * bc + t * cd;
    assert abc == s * s * a + 2.0 * s * t * b + t * t * c;
    assert bcd == s * s * b + 2.0 * s * t * c + t * t * d;
    assert s * abc + t * bcd == s * s * s * a + 3.0 * s * s * t * b + 3.0 * s * t * t * c + t * t * t * d;
  }

  /** The curve at `t` equals de Casteljau's construction on both axes. */
  lemma BezierPointIsDeCasteljau(t: real, c: Cubic)
    ensures BezierPoint(t, c) == Point(DeCasteljau(t, c.p0.x, c.p1.x, c.p2.x, c.p3.x),
                                       DeCasteljau(t, c.p0.y, c.p1.y, c.p2.y, c.p3.y))
  {
    BernsteinIsDeCasteljau(t, c.p0.x, c.p1.x, c.p2.x, c.p3.x);
    BernsteinIsDeCasteljau(t, c.p0.y, c.p1.y, c.p2.y, c.p3.y);
  }

  /** A curve whose four control points coincide is that single point. */
  lemma ConstantCurve(t: real, p: Point)
    ensures BezierPoint(t, Cubic(p, p, p, p)) == p
  {
    WeightsSumToOne(t);
    assert Bernstein(t, p.x, p.x, p.x, p.x) == (W0(t) + W1(t) + W2(t) + W3(t)) * p.x;
    assert Bernstein(t, p.y, p.y, p.y, p.y) == (W0(t) + W1(t) + W2(t) + W3(t)) * p.y;
  }

  /** A product of two non-negative reals is non-negative. */
  lemma ProductNonNegative(u: real, v: real)
    requires u >= 0.0 && v >= 0.0
    ensures u * v >= 0.0
  {
  }

  /** On [0, 1] the weights are non-negative. */
  lemma WeightsNonNegative(t: real)
    requires 0.0 <= t <= 1.0
    ensures W0(t) >= 0.0 && W1(t) >= 0.0 && W2(t) >= 0.0 && W3(t) >= 0.0
  {
    var s := 1.0 - t;
    ProductNonNegative(s, s);
    ProductNonNegative(t, t);
    ProductNonNegative(s * s, s);
    ProductNonNegative(3.0 * s * s, t);
    ProductNonNegative(3.0 * s, t);
    ProductNonNegative(3.0 * s * t, t);
    ProductNonNegative(t * t, t);
  }

  function Min4(a: real, b: real, c: real, d: real): real
  {
    var ab := if a <= b then a else b;
    var cd := if c <= d then c else d;
    if ab <= cd then ab else cd
  }

  function Max4(a: real, b: real, c: real, d: real): real
  {
    var ab := if a >= b then a else b;
    var cd := if c >= d then c else d;
    if ab >= cd then ab else cd
  }

  /** Scaling by a non-negative weight preserves order. */
  lemma ScaleMonotone(w: real, u: real, v: real)
    requires w >= 0.0 && u <= v
    ensures w * u <= w * v
  {
    ProductNonNegative(w, v - u);
  }

  /** A convex combination of four values is at least any common lower
      bound of them. */
  lemma ConvexCombinationLowerBound(w0: real, w1: real, w2: real, w3: real,
                                    a: real, b: real, c: real, d: real, lo: real)
    requires w0 >= 0.0 && w1 >= 0.0 && w2 >= 0.0 && w3 >= 0.0
    requires w0 + w1 + w2 + w3 == 1.0
    requires lo <= a && lo <= b && lo <= c && lo <= d
    ensures lo <= w0 * a + w1 * b + w2 * c + w3 * d
  {
    var pa, pb, pc, pd := w0 * a, w1 * b, w2 * c, w3 * d;
    var la, lb, lc, ld := w0 * lo, w1 * lo, w2 * lo, w3 * lo;
    ScaleMonotone(w0, lo, a); ScaleMonotone(w1, lo, b);
    ScaleMonotone(w2, lo, c); ScaleMonotone(w3, lo, d);
    assert la <= pa && lb <= pb && lc <= pc && ld <= pd;
    // Distribute the common bound over the weights, whose sum is one.
    assert la + lb + lc + ld == lo * (w0 + w1 + w2 + w3);
    assert la + lb + lc + ld <= pa + pb + pc + pd;
  }

  /** A convex combination of four values lies between any common lower
      bound and any common upper bound of them. */
  lemma ConvexCombinationBounds(w0: real, w1: real, w2: real, w3: real,
                                a: real, b: real, c: real, d: real, lo: real, hi: real)
    requires w0 >= 0.0 && w1 >= 0.0 && w2 >= 0.0 && w3 >= 0.0
    requires w0 + w1 + w2 + w3 == 1.0
    requires lo <= a && lo <= b && lo <= c && lo <= d
    requires a <= hi && b <= hi && c <= hi && d <= hi
    ensures lo <= Combine(w0, w1, w2, w3, a, b, c, d) <= hi
  {
    ConvexCombinationLowerBound(w0, w1, w2, w3, a, b, c, d, lo);
    // The upper bound is the lower bound of the negated values.
    ConvexCombinationLowerBound(w0, w1, w2, w3, -a, -b, -c, -d, -hi);
    assert w0 * -a + w1 * -b + w2 * -c + w3 * -d == -(w0 * a + w1 * b + w2 * c + w3 * d);
  }

  /** `Min4` and `Max4` bound each of their arguments. */
  lemma Min4Max4Bound(a: real, b: real, c: real, d: real)
    ensures Min4(a, b, c, d) <= a && Min4(a, b, c, d) <= b && Min4(a, b, c, d) <= c && Min4(a, b, c, d) <= d
    ensures a <= Max4(a, b, c, d) && b <= Max4(a, b, c, d) && c <= Max4(a, b, c, d) && d <= Max4(a, b, c, d)
  {
  }

  /** For `t` in [0, 1] one Bernstein coordinate lies between the least and
      the greatest of its control values. */
  lemma BernsteinBounds(t: real, a: real, b: real, c: real, d: real)
    requires 0.0 <= t <= 1.0
    ensures Min4(a, b, c, d) <= Bernstein(t, a, b, c, d) <= Max4(a, b, c, d)
  {
    var w0, w1, w2, w3 := W0(t), W1(t), W2(t), W3(t);
    var lo, hi := Min4(a, b, c, d), Max4(a, b, c, d);
    Min4Max4Bound(a, b, c, d);
    WeightsNonNegative(t);
    WeightsSumToOne(t);
    ConvexCombinationBounds(w0, w1, w2, w3, a, b, c, d, lo, hi);
  }

  /** For `t` in [0, 1] each coordinate of the curve lies between the least
      and the greatest control coordinate on that axis. */
  lemma CurveWithinControlBounds(t: real, c: Cubic)
    requires 0.0 <= t <= 1.0
    ensures var r := BezierPoint(t, c);
      && Min4(c.p0.x, c.p1.x, c.p2.x, c.p3.x) <= r.x <= Max4(c.p0.x, c.p1.x, c.p2.x, c.p3.x)
      && Min4(c.p0.y, c.p1.y, c.p2.y, c.p3.y) <= r.y <= Max4(c.p0.y, c.p1.y, c.p2.y, c.p3.y)
  {
    BernsteinBounds(t, c.p0.x, c.p1.x, c.p2.x, c.p3.x);
    BernsteinBounds(t, c.p0.y, c.p1.y, c.p2.y, c.p3.y);
  }

  /** At `t = 1/2` the curve is `(P0 + 3·P1 + 3·P2 + P3) / 8`. */
  lemma Midpoint(c: Cubic)
    ensures BezierPoint(0.5, c)
         == Point((c.p0.x + 3.0 * c.p1.x + 3.0 * c.p2.x + c.p3.x) / 8.0,
                  (c.p0.y + 3.0 * c.p1.y + 3.0 * c.p2.y + c.p3.y) / 8.0)
  {
    assert W0(0.5) == 0.125 && W1(0.5) == 0.375 && W2(0.5) == 0.375 && W3(0.5) == 0.125;
  }

  /** The worked example: P0=(0,0), P1=(0,100), P2=(100,100), P3=(100,0)
      gives (50, 75) at `t = 1/2`. */
  lemma MidpointExample()
    ensures BezierPoint(0.5, Cubic(Point(0.0, 0.0), Point(0.0, 100.0),
                                   Point(100.0, 100.0), Point(100.0, 0.0)))
         == Point(50.0, 75.0)
  {
    Midpoint(Cubic(Point(0.0, 0.0), Point(0.0, 100.0), Point(100.0, 100.0), Point(100.0, 0.0)));
  }
}
