/**
  The path editor's view state and its event handlers (main.ts), each a
  pure transition `State -> State`. DOM reads (mouse coordinates, the
  parsed textarea, the wheel direction) are parameters; redrawing is left
  out, and the position where `drawScene` paints a point is a function.
*/
module Editor {
  import opened Geometry
  import opened JsonValue
  import opened Calibration
  import opened Nodes

  /** The bounds `Math.max(0.1, Math.min(10, scale))` keeps the zoom in. */
  const MinScale: real := 0.1
  const MaxScale: real := 10.0

  /** The id every node the editor creates carries. */
  const PointId: string := "test"

  /** The module-level variables of main.ts. `hasImage` stands for
      `img !== null`. */
  datatype State = State(
    hasImage: bool,
    scale: real,
    offsetX: real,
    offsetY: real,
    isDragging: bool,
    dragStartX: real,
    dragStartY: real,
    refs: Refs,
    points: seq<Node>)

  /** The initial values of the globals. */
  function Init(): (s: State)
    ensures Valid(s)
    ensures !s.hasImage && s.points == []
  {
    State(false, 1.0, 0.0, 0.0, false, 0.0, 0.0, DefaultRefs(), [])
  }

  /** The properties every reachable state has: the zoom stays within its
      bounds, the calibration is usable in both directions, and every point
      is a fresh node `"test"` without edges. */
  predicate Valid(s: State)
  {
    && MinScale <= s.scale <= MaxScale
    && ImageDeltasNonZero(s.refs) && MapDeltasNonZero(s.refs)
    && forall i :: 0 <= i < |s.points| ==> s.points[i].id == PointId && s.points[i].edges == []
  }

  // ---- the canvas transform `setTransform(scale, 0, 0, scale, offsetX, offsetY)` ----

  /** Where an image-space point appears on the canvas. */
  function ImageToScreen(s: State, p: Point): Point
  {
    Point(s.scale * p.x + s.offsetX, s.scale * p.y + s.offsetY)
  }

  /** The image-space point under a canvas position, as the click handler
      computes it: `(e.offsetX - offsetX) / scale`. */
  function ScreenToImage(s: State, screenX: real, screenY: real): (p: Point)
    requires s.scale != 0.0
    ensures ImageToScreen(s, p) == Point(screenX, screenY)
  {
    Point((screenX - s.offsetX) / s.scale, (screenY - s.offsetY) / s.scale)
  }

  /** The click conversion also undoes the draw transform from the other
      side. */
  lemma ScreenToImageInvertsDraw(s: State, p: Point)
    requires s.scale != 0.0
    ensures var q := ImageToScreen(s, p); ScreenToImage(s, q.x, q.y) == p
  {
    var q := ImageToScreen(s, p);
    assert (q.x - s.offsetX) / s.scale == p.x;
    assert (q.y - s.offsetY) / s.scale == p.y;
  }

  /** Where `drawScene` paints a map point: `mapToImg`, then the canvas
      transform. */
  function DrawnAt(s: State, p: Node): Point
    requires MapDeltasNonZero(s.refs)
  {
    ImageToScreen(s, MapToImg(s.refs, p.x, p.y))
  }

  // ---- file input ----

  /** The `img.onload` callback: points cleared, zoom and pan reset. */
  function LoadImage(s: State): (r: State)
    ensures r.hasImage && r.points == []
    ensures r.scale == 1.0 && r.offsetX == 0.0 && r.offsetY == 0.0
    ensures r.isDragging == s.isDragging && r.dragStartX == s.dragStartX
    ensures r.dragStartY == s.dragStartY && r.refs == s.refs
  {
    s.(hasImage := true, points := [], scale := 1.0, offsetX := 0.0, offsetY := 0.0)
  }

  /** After loading, the canvas shows the image unscaled and unpanned, and
      loading again changes nothing further. */
  lemma LoadImageResetsView(s: State, p: Point)
    ensures ImageToScreen(LoadImage(s), p) == p
    ensures LoadImage(LoadImage(s)) == LoadImage(s)
  {
  }

  // ---- wheel ----

  /** `Math.max(0.1, Math.min(10, v))`. */
  function Clamp(v: real): (r: real)
    ensures MinScale <= r <= MaxScale
    ensures MinScale <= v <= MaxScale ==> r == v
    ensures v < MinScale ==> r == MinScale
    ensures v > MaxScale ==> r == MaxScale
  {
    var upper := if MaxScale < v then MaxScale else v;
    if MinScale > upper then MinScale else upper
  }

  /** The wheel handler: zoom out by 0.9 when `deltaY > 0`, in by 1.1
      otherwise, clamp, and move the offsets so that the image point under
      the cursor stays under it. */
  function Wheel(s: State, mouseX: real, mouseY: real, deltaY: real): (r: State)
    requires s.scale > 0.0
    ensures MinScale <= r.scale <= MaxScale
    ensures (mouseX - r.offsetX) / r.scale == (mouseX - s.offsetX) / s.scale
    ensures (mouseY - r.offsetY) / r.scale == (mouseY - s.offsetY) / s.scale
    ensures MinScale <= s.scale <= MaxScale ==>
      (if deltaY > 0.0 then r.scale <= s.scale else r.scale >= s.scale)
    ensures r.(scale := s.scale, offsetX := s.offsetX, offsetY := s.offsetY) == s
  {
    var prevScale := s.scale;
    var scale := Clamp(s.scale * ZoomFactor(deltaY));
    ZoomDirection(s.scale, deltaY);
    var ratio := scale / prevScale;
    AnchorKept(mouseX, s.offsetX, prevScale, scale);
    AnchorKept(mouseY, s.offsetY, prevScale, scale);
    s.(scale := scale,
       offsetX := mouseX - (mouseX - s.offsetX) * ratio,
       offsetY := mouseY - (mouseY - s.offsetY) * ratio)
  }

  /** `deltaY > 0 ? 0.9 : 1.1`. */
  function ZoomFactor(deltaY: real): real
  {
    if deltaY > 0.0 then 0.9 else 1.1
  }

  /** Scrolling down never zooms in and scrolling up never zooms out. */
  lemma ZoomDirection(scale: real, deltaY: real)
    requires scale > 0.0
    ensures MinScale <= scale <= MaxScale && deltaY > 0.0 ==> Clamp(scale * ZoomFactor(deltaY)) <= scale
    ensures MinScale <= scale <= MaxScale && deltaY <= 0.0 ==> Clamp(scale * ZoomFactor(deltaY)) >= scale
  {
  }

  /** The offset update `m - (m - o) * (scale / prev)` keeps the image
      coordinate `(m - o) / prev` under the cursor `m`. */
  lemma AnchorKept(m: real, o: real, prev: real, scale: real)
    requires prev > 0.0 && scale > 0.0
    ensures (m - (m - (m - o) * (scale / prev))) / scale == (m - o) / prev
  {
    var d := m - o;
    assert m - (m - d * (scale / prev)) == d * (scale / prev);
    assert d * (scale / prev) / scale == d / prev;
  }

  /** Zooming keeps the image point under the cursor drawn under the
      cursor. */
  lemma WheelKeepsCursorPoint(s: State, mouseX: real, mouseY: real, deltaY: real)
    requires s.scale > 0.0
    ensures var r := Wheel(s, mouseX, mouseY, deltaY);
      ImageToScreen(r, ScreenToImage(s, mouseX, mouseY)) == Point(mouseX, mouseY)
  {
    var r := Wheel(s, mouseX, mouseY, deltaY);
    var p := ScreenToImage(s, mouseX, mouseY);
    assert ScreenToImage(r, mouseX, mouseY) == p;
  }

  // ---- drag ----

  /** `mousedown`: start dragging from the cursor. */
  function MouseDown(s: State, clientX: real, clientY: real): (r: State)
    ensures r.isDragging && r.dragStartX == clientX && r.dragStartY == clientY
    ensures r.(isDragging := s.isDragging, dragStartX := s.dragStartX, dragStartY := s.dragStartY) == s
  {
    s.(isDragging := true, dragStartX := clientX, dragStartY := clientY)
  }

  /** `mousemove`: while dragging, pan by the cursor's movement since the
      last event; otherwise nothing happens. */
  function MouseMove(s: State, clientX: real, clientY: real): (r: State)
    ensures !s.isDragging ==> r == s
    ensures s.isDragging ==> r.offsetX - s.offsetX == clientX - s.dragStartX
    ensures s.isDragging ==> r.offsetY - s.offsetY == clientY - s.dragStartY
    ensures s.isDragging ==> r.dragStartX == clientX && r.dragStartY == clientY
    ensures r.(offsetX := s.offsetX, offsetY := s.offsetY, dragStartX := s.dragStartX, dragStartY := s.dragStartY) == s
  {
    if s.isDragging then
      var dx := clientX - s.dragStartX;
      var dy := clientY - s.dragStartY;
      s.(offsetX := s.offsetX + dx, offsetY := s.offsetY + dy,
         dragStartX := clientX, dragStartY := clientY)
    else s
  }

  /** Panning follows the cursor: the offset minus the drag anchor is kept,
      so the image point grabbed at `mousedown` stays under the cursor, and
      a sequence of moves pans as far as one move to the final position. */
  lemma DragFollowsCursor(s: State, x1: real, y1: real, x2: real, y2: real)
    requires s.isDragging
    ensures var r := MouseMove(s, x1, y1);
      r.offsetX - r.dragStartX == s.offsetX - s.dragStartX
      && r.offsetY - r.dragStartY == s.offsetY - s.dragStartY
    ensures MouseMove(MouseMove(s, x1, y1), x2, y2) == MouseMove(s, x2, y2)
  {
  }

  /** `mouseup` and `mouseleave`: stop dragging. */
  function MouseUp(s: State): (r: State)
    ensures !r.isDragging
    ensures r.(isDragging := s.isDragging) == s
  {
    s.(isDragging := false)
  }

  // ---- click ----

  /** A click is ignored without an image or while dragging. */
  predicate ClickIgnored(s: State)
  {
    !s.hasImage || s.isDragging
  }

  /** The click handler: convert the cursor to image space, then to map
      space, round with `round` (the `parseFloat(v.toFixed(2))` of the
      source), and append a new node. */
  function Click(s: State, screenX: real, screenY: real, round: real -> real): (r: State)
    requires !ClickIgnored(s) ==> s.scale != 0.0 && ImageDeltasNonZero(s.refs)
    ensures ClickIgnored(s) ==> r == s
    ensures !ClickIgnored(s) ==> |r.points| == |s.points| + 1 && r.points[..|s.points|] == s.points
    ensures !ClickIgnored(s) ==>
      var img := ScreenToImage(s, screenX, screenY);
      var p := r.points[|s.points|];
      && p.id == PointId && p.edges == []
      && p.x == round(ImgToMap(s.refs, img.x, img.y).x)
      && p.y == round(ImgToMap(s.refs, img.x, img.y).y)
    ensures r.(points := s.points) == s
  {
    if ClickIgnored(s) then s
    else
      var img := ScreenToImage(s, screenX, screenY);
      var m := ImgToMap(s.refs, img.x, img.y);
      s.(points := s.points + [NewNode(PointId, round(m.x), round(m.y))])
  }

  /** Without rounding, the point a click adds is drawn exactly under the
      cursor: `drawScene` inverts the click's conversion. */
  lemma ClickLandsUnderCursor(s: State, screenX: real, screenY: real)
    requires !ClickIgnored(s)
    requires s.scale != 0.0 && ImageDeltasNonZero(s.refs) && MapDeltasNonZero(s.refs)
    ensures var r := Click(s, screenX, screenY, v => v);
      DrawnAt(r, r.points[|s.points|]) == Point(screenX, screenY)
  {
    var img := ScreenToImage(s, screenX, screenY);
    MapToImgInvertsImgToMap(s.refs, img.x, img.y);
  }

  // ---- the JSON textarea ----

  /** The edited text parsed to an array whose every element reads as a
      point: `Array.isArray(parsed)` and the `every` test of the handler. */
  predicate AcceptsPoints(parsed: Option<Json>)
  {
    && parsed.Some? && parsed.value.Arr?
    && forall i :: 0 <= i < |parsed.value.elems| ==> PointOfJson(parsed.value.elems[i]).Some?
  }

  /** The `input` handler of the textarea. `parsed` is `None` when
      `JSON.parse` throws. The point list is replaced only when every
      element qualifies; otherwise nothing changes. */
  function JsonInput(s: State, parsed: Option<Json>): (r: State)
    ensures !AcceptsPoints(parsed) ==> r == s
    ensures AcceptsPoints(parsed) ==>
      var elems := parsed.value.elems;
      && |r.points| == |elems|
      && forall i :: 0 <= i < |elems| ==>
           && HasNumber(elems[i], "x") && HasNumber(elems[i], "y")
           && r.points[i] == NewNode(PointId, NumberAt(elems[i], "x"), NumberAt(elems[i], "y"))
    ensures r.(points := s.points) == s
  {
    if AcceptsPoints(parsed) then
      var elems := parsed.value.elems;
      s.(points := seq(|elems|, i requires 0 <= i < |elems| =>
                         var p := PointOfJson(elems[i]).value;
                         NewNode(PointId, p.x, p.y)))
    else s
  }

  /** `JSON.stringify(points)`: each node through its `toJSON`. */
  function PointsJson(points: seq<Node>): (v: Json)
    ensures v.Arr? && |v.elems| == |points|
  {
    Arr(seq(|points|, i requires 0 <= i < |points| => Nodes.ToJson(points[i])))
  }

  /** The textarea round trip: feeding back what `updateJSON` wrote leaves
      a reachable state unchanged. */
  lemma JsonInputOfOwnOutput(s: State)
    requires Valid(s)
    ensures JsonInput(s, Some(PointsJson(s.points))) == s
  {
    var v := PointsJson(s.points);
    forall i | 0 <= i < |v.elems|
      ensures PointOfJson(v.elems[i]).Some?
      ensures HasNumber(v.elems[i], "x") && HasNumber(v.elems[i], "y")
      ensures NumberAt(v.elems[i], "x") == s.points[i].x && NumberAt(v.elems[i], "y") == s.points[i].y
    {
      assert v.elems[i] == Nodes.ToJson(s.points[i]);
      assert Get(v.elems[i], "x") == Some(Num(s.points[i].x));
      assert Get(v.elems[i], "y") == Some(Num(s.points[i].y));
    }
    var r := JsonInput(s, Some(v));
    assert r.points == s.points;
  }

  // ---- all events ----

  datatype Event =
    | FileLoaded
    | WheelEvent(mouseX: real, mouseY: real, deltaY: real)
    | Down(clientX: real, clientY: real)
    | Move(clientX: real, clientY: real)
    | Up
    | Leave
    | ClickEvent(offsetX: real, offsetY: real)
    | TextInput(parsed: Option<Json>)

  /** One event applied to a reachable state. */
  function Step(s: State, e: Event, round: real -> real): (r: State)
    requires Valid(s)
    ensures Valid(r)
    ensures r.refs == s.refs
  {
    match e
    case FileLoaded => LoadImage(s)
    case WheelEvent(x, y, d) => Wheel(s, x, y, d)
    case Down(x, y) => MouseDown(s, x, y)
    case Move(x, y) => MouseMove(s, x, y)
    case Up => MouseUp(s)
    case Leave => MouseUp(s)
    case ClickEvent(x, y) => Click(s, x, y, round)
    case TextInput(p) => JsonInput(s, p)
  }

  /** A session: events applied in order. */
  function Run(s: State, events: seq<Event>, round: real -> real): (r: State)
    requires Valid(s)
    decreases |events|
  {
    if |events| == 0 then s else Run(Step(s, events[0], round), events[1..], round)
  }

  /** Every state reachable from the start satisfies the invariant: in
      particular the zoom never leaves [0.1, 10], whatever events arrive. */
  lemma {:induction false} RunStaysValid(s: State, events: seq<Event>, round: real -> real)
    requires Valid(s)
    ensures Valid(Run(s, events, round))
    ensures MinScale <= Run(s, events, round).scale <= MaxScale
    decreases |events|
  {
    if |events| > 0 {
      RunStaysValid(Step(s, events[0], round), events[1..], round);
    }
  }
}
