/**
  The `Edge` class of the path editor: a connection between two nodes,
  identified by numeric ids, optionally bent by control points.

  `draw` is modelled as a pure function that returns what it would stroke
  and fill, instead of calling the canvas: the path (a start point and its
  segments) and the control-point markers. Colours and line widths are left
  out.
*/
module Edges {
  import opened Geometry
  import opened JsonValue

  /** An edge from node `from` to node `to`. With `bezier` set, one control
      point makes a quadratic curve, two a cubic curve, and more a polyline
      through them. */
  datatype Edge = Edge(from: real, to: real, ctrls: seq<Point>, bezier: bool)

  /** `new Edge(from, to, ctrls = [], bezier = true)`. */
  function NewEdge(from: real, to: real, ctrls: seq<Point> := [], bezier: bool := true): (e: Edge)
    ensures e.from == from && e.to == to && e.ctrls == ctrls && e.bezier == bezier
  {
    Edge(from, to, ctrls, bezier)
  }

  /** The constructor defaults: no control points, and curved. */
  lemma NewEdgeDefaults(from: real, to: real)
    ensures NewEdge(from, to).ctrls == [] && NewEdge(from, to).bezier
  {
  }

  /** The node shape `draw` reads: edge.ts declares its own `Node` interface
      with a numeric id. */
  datatype Anchor = Anchor(id: real, x: real, y: real)

  function Position(a: Anchor): Point
  {
    Point(a.x, a.y)
  }

  /** The index `nodes.find(n => n.id === id)` returns, if any: the first
      node carrying that id. */
  function FindIndex(nodes: seq<Anchor>, id: real): (r: Option<nat>)
    ensures r.Some? ==> r.value < |nodes| && nodes[r.value].id == id
    ensures r.Some? ==> forall j :: 0 <= j < r.value ==> nodes[j].id != id
    ensures r.None? ==> forall j :: 0 <= j < |nodes| ==> nodes[j].id != id
  {
    if |nodes| == 0 then None
    else if nodes[0].id == id then Some(0)
    else match FindIndex(nodes[1..], id)
      case None => None
      case Some(k) => Some(k + 1)
  }

  /** One piece of the stroked path, ending at `end`. */
  datatype Segment =
    | Line(end: Point)                              // lineTo
    | Quadratic(ctrl: Point, end: Point)            // quadraticCurveTo
    | CubicCurve(ctrl1: Point, ctrl2: Point, end: Point)  // bezierCurveTo

  /** What `draw` renders: the path from `start` (moveTo) through its
      segments, then one filled marker per control point. */
  datatype Drawing = Drawing(start: Point, segments: seq<Segment>, markers: seq<Point>)

  /** The segments of the path from `from` to `to`, in screen space. */
  function Segments(e: Edge, from: Point, to: Point, offset: Point): (r: seq<Segment>)
    ensures |r| == (if e.bezier && |e.ctrls| >= 3 then |e.ctrls| + 1 else 1)
    ensures r[|r| - 1].end == Shift(to, offset)
  {
    if e.bezier && |e.ctrls| > 0 then
      if |e.ctrls| == 1 then
        [Quadratic(Shift(e.ctrls[0], offset), Shift(to, offset))]
      else if |e.ctrls| == 2 then
        [CubicCurve(Shift(e.ctrls[0], offset), Shift(e.ctrls[1], offset), Shift(to, offset))]
      else
        var pts := [from] + e.ctrls + [to];
        seq(|pts| - 1, i requires 0 <= i < |pts| - 1 => Line(Shift(pts[i + 1], offset)))
    else
      [Line(Shift(to, offset))]
  }

  /** `edge.draw(ctx, nodes, offset, showControlPoints)`. Nothing is drawn
      unless both end nodes are found; otherwise the path runs from the
      first node with id `from`, through the control points it uses, to the
      first node with id `to`, and markers appear exactly when asked for. */
  function Draw(e: Edge, nodes: seq<Anchor>, offset: Point, showControlPoints: bool): (r: Option<Drawing>)
    ensures r.None? <==> FindIndex(nodes, e.from).None? || FindIndex(nodes, e.to).None?
    ensures r.Some? ==> r.value.start == Shift(Position(nodes[FindIndex(nodes, e.from).value]), offset)
    ensures r.Some? ==> |r.value.markers| == (if showControlPoints then |e.ctrls| else 0)
    ensures r.Some? ==> forall i :: 0 <= i < |r.value.markers| ==> r.value.markers[i] == Shift(e.ctrls[i], offset)
    ensures r.Some? ==>
      [r.value.start] + PathPoints(r.value.segments)
      == ShiftAll([Position(nodes[FindIndex(nodes, e.from).value])] + UsedCtrls(e)
                  + [Position(nodes[FindIndex(nodes, e.to).value])], offset)
  {
    match (FindIndex(nodes, e.from), FindIndex(nodes, e.to))
    case (Some(f), Some(t)) =>
      var from := Position(nodes[f]);
      var to := Position(nodes[t]);
      ControlPolygon(e, from, to, offset);
      var markers := if showControlPoints && |e.ctrls| > 0 then ShiftAll(e.ctrls, offset) else [];
      Some(Drawing(Shift(from, offset), Segments(e, from, to, offset), markers))
    case _ => None
  }

  /** The shape `draw` chooses. */
  datatype Shape = StraightShape | QuadraticShape | CubicShape | PolylineShape

  /** The kind of the path a drawing strokes, read off its segments. */
  function ShapeOfSegments(segs: seq<Segment>): Shape
  {
    if |segs| == 1 && segs[0].Quadratic? then QuadraticShape
    else if |segs| == 1 && segs[0].CubicCurve? then CubicShape
    else if |segs| == 1 then StraightShape
    else PolylineShape
  }

  /** Shape selection: a quadratic curve for one control point, a cubic for
      two, a polyline for three or more, and a straight line when `bezier`
      is off or there are no control points. */
  lemma ShapeSelection(e: Edge, from: Point, to: Point, offset: Point)
    ensures var shape := ShapeOfSegments(Segments(e, from, to, offset));
      && (shape == QuadraticShape <==> e.bezier && |e.ctrls| == 1)
      && (shape == CubicShape <==> e.bezier && |e.ctrls| == 2)
      && (shape == PolylineShape <==> e.bezier && |e.ctrls| >= 3)
      && (shape == StraightShape <==> !e.bezier || |e.ctrls| == 0)
  {
    var segs := Segments(e, from, to, offset);
    if e.bezier && |e.ctrls| >= 3 {
      assert |segs| == |e.ctrls| + 1;
    }
  }

  /** Every point a segment names, in drawing order. */
  function SegmentPoints(s: Segment): seq<Point>
  {
    match s
    case Line(p) => [p]
    case Quadratic(c, p) => [c, p]
    case CubicCurve(c1, c2, p) => [c1, c2, p]
  }

  function PathPoints(segs: seq<Segment>): seq<Point>
  {
    if |segs| == 0 then [] else SegmentPoints(segs[0]) + PathPoints(segs[1..])
  }

  /** The control points the path uses: all of them when curved, none for a
      straight line. */
  function UsedCtrls(e: Edge): seq<Point>
  {
    if e.bezier then e.ctrls else []
  }

  lemma {:induction false} PathPointsOfLines(ps: seq<Point>, segs: seq<Segment>)
    requires |segs| == |ps|
    requires forall i :: 0 <= i < |ps| ==> segs[i] == Line(ps[i])
    ensures PathPoints(segs) == ps
  {
    if |ps| > 0 {
      PathPointsOfLines(ps[1..], segs[1..]);
    }
  }

  /** Whatever shape is chosen, the path visits the `from` node, the control
      points it uses in order, and ends at the `to` node, all shifted by
      `-offset`. */
  lemma ControlPolygon(e: Edge, from: Point, to: Point, offset: Point)
    ensures [Shift(from, offset)] + PathPoints(Segments(e, from, to, offset))
         == ShiftAll([from] + UsedCtrls(e) + [to], offset)
  {
    var segs := Segments(e, from, to, offset);
    var all := [from] + UsedCtrls(e) + [to];
    if e.bezier && |e.ctrls| >= 3 {
      PathPointsOfLines(ShiftAll(all, offset)[1..], segs);
    } else if e.bezier && |e.ctrls| == 1 {
      assert PathPoints(segs) == SegmentPoints(segs[0]) + PathPoints([]);
    } else if e.bezier && |e.ctrls| == 2 {
      assert PathPoints(segs) == SegmentPoints(segs[0]) + PathPoints([]);
    } else {
      assert PathPoints(segs) == SegmentPoints(segs[0]) + PathPoints([]);
    }
  }

  /** The polyline case strokes `ctrls.length + 1` straight segments, through
      the control points in order and ending at the `to` node. */
  lemma PolylineSegments(e: Edge, from: Point, to: Point, offset: Point)
    requires e.bezier && |e.ctrls| >= 3
    ensures var segs := Segments(e, from, to, offset);
      && |segs| == |e.ctrls| + 1
      && (forall i :: 0 <= i < |e.ctrls| ==> segs[i] == Line(Shift(e.ctrls[i], offset)))
      && segs[|e.ctrls|] == Line(Shift(to, offset))
  {
    var pts := [from] + e.ctrls + [to];
    assert forall i :: 0 <= i < |e.ctrls| ==> pts[i + 1] == e.ctrls[i];
  }

  /** A translated segment. */
  function ShiftSegment(s: Segment, offset: Point): Segment
  {
    match s
    case Line(p) => Line(Shift(p, offset))
    case Quadratic(c, p) => Quadratic(Shift(c, offset), Shift(p, offset))
    case CubicCurve(c1, c2, p) => CubicCurve(Shift(c1, offset), Shift(c2, offset), Shift(p, offset))
  }

  /** A translated drawing. */
  function ShiftDrawing(d: Drawing, offset: Point): Drawing
  {
    Drawing(Shift(d.start, offset),
            seq(|d.segments|, i requires 0 <= i < |d.segments| => ShiftSegment(d.segments[i], offset)),
            ShiftAll(d.markers, offset))
  }

  /** Every emitted coordinate is the source coordinate minus `offset`:
      drawing with an offset is drawing with none, then translating. */
  lemma DrawTranslates(e: Edge, nodes: seq<Anchor>, offset: Point, showControlPoints: bool)
    ensures var plain := Draw(e, nodes, Point(0.0, 0.0), showControlPoints);
      && (plain.Some? <==> Draw(e, nodes, offset, showControlPoints).Some?)
      && (plain.Some? ==> Draw(e, nodes, offset, showControlPoints) == Some(ShiftDrawing(plain.value, offset)))
  {
    var origin := Point(0.0, 0.0);
    var plain := Draw(e, nodes, origin, showControlPoints);
    if plain.Some? {
      var from := Position(nodes[FindIndex(nodes, e.from).value]);
      var to := Position(nodes[FindIndex(nodes, e.to).value]);
      var s0 := Segments(e, from, to, origin);
      var s1 := Segments(e, from, to, offset);
      assert |s0| == |s1|;
      forall i | 0 <= i < |s0| ensures s1[i] == ShiftSegment(s0[i], offset) {
        if e.bezier && |e.ctrls| >= 3 {
          PolylineSegments(e, from, to, origin);
          PolylineSegments(e, from, to, offset);
        }
      }
      var shifted := ShiftDrawing(plain.value, offset);
      assert shifted.segments == s1;
      assert shifted.start == Shift(from, offset);
      assert shifted.markers == Draw(e, nodes, offset, showControlPoints).value.markers;
    }
  }

  /** `toJSON()`: the four fields, with control points as plain `{x, y}`. */
  function ToJson(e: Edge): (r: Json)
    ensures r.Obj? && r.fields.Keys == {"from", "to", "bezier", "ctrls"}
  {
    Obj(map["from" := Num(e.from), "to" := Num(e.to), "bezier" := Bool(e.bezier),
            "ctrls" := Arr(PointsToJson(e.ctrls))])
  }

  /** `ctrls.map(p => ({x: p.x, y: p.y}))`. */
  function PointsToJson(ps: seq<Point>): (r: seq<Json>)
    ensures |r| == |ps|
  {
    if |ps| == 0 then [] else [PointToJson(ps[0])] + PointsToJson(ps[1..])
  }

  /** Reading control points back from a JSON array, all or nothing. */
  function PointsOfJson(elems: seq<Json>): Option<seq<Point>>
  {
    if |elems| == 0 then Some([])
    else match (PointOfJson(elems[0]), PointsOfJson(elems[1..]))
      case (Some(p), Some(ps)) => Some([p] + ps)
      case _ => None
  }

  /** Reading an edge back from the JSON form `toJSON` produces. */
  function EdgeOfJson(v: Json): Option<Edge>
  {
    var from := Get(v, "from");
    var to := Get(v, "to");
    var bezier := Get(v, "bezier");
    var ctrls := Get(v, "ctrls");
    if from.Some? && from.value.Num? && to.Some? && to.value.Num?
       && bezier.Some? && bezier.value.Bool? && ctrls.Some? && ctrls.value.Arr?
    then match PointsOfJson(ctrls.value.elems)
      case Some(ps) => Some(Edge(from.value.n, to.value.n, ps, bezier.value.b))
      case None => None
    else None
  }

  lemma {:induction false} PointsRoundTrip(ps: seq<Point>)
    ensures PointsOfJson(PointsToJson(ps)) == Some(ps)
  {
    if |ps| > 0 {
      var js := PointsToJson(ps);
      PointsRoundTrip(ps[1..]);
      assert js[1..] == PointsToJson(ps[1..]);
      PointRoundTrip(ps[0]);
      assert [ps[0]] + ps[1..] == ps;
    }
  }

  /** `toJSON` preserves `from`, `to`, `bezier` and the control points in
      order: they can be read back exactly. */
  lemma EdgeJsonRoundTrip(e: Edge)
    ensures EdgeOfJson(ToJson(e)) == Some(e)
  {
    var js := PointsToJson(e.ctrls);
    var v := ToJson(e);
    assert Get(v, "ctrls") == Some(Arr(js));
    assert Get(v, "from") == Some(Num(e.from)) && Get(v, "to") == Some(Num(e.to));
    assert Get(v, "bezier") == Some(Bool(e.bezier));
    PointsRoundTrip(e.ctrls);
  }
}
