# map-navigation core, modelled in Dafny

The repository has two parts. The path editor is a browser tool. The user loads a picture of a map and pans and zooms it on a canvas. Clicking places points, which are stored in map coordinates. A pair of reference points calibrates image pixels against map coordinates, and the point list can be edited as JSON in a text area. Nodes and edges form the graph data model. An edge from one node to another is drawn straight, or bent by control points, and `generateUUID` makes version 4 identifiers. The curve demo evaluates a cubic Bézier curve and picks points along it that are meant to be evenly spaced.

All arithmetic is over `real`.

| file | module | models |
|---|---|---|
| geometry.dfy | `Geometry` | points, translation by an offset, `Option` |
| json.dfy | `JsonValue` | the parsed JSON values the editor reads and writes |
| calibration.dfy | `Calibration` | `imgToMap` / `mapToImg`, the per-axis linear maps fixed by two reference points |
| bezier.dfy | `Bezier` | `bezierPoint`, with de Casteljau's construction as an independent reference |
| sampler.dfy | `Sampler` | `getEvenlySpacedPoints` as written: the fine sample and the threshold filter |
| arclength.dfy | `ArcSampler` | the arc-length spacing rule the sampler evidently intends (see Findings) |
| edge.dfy | `Edges` | `Edge`: constructor, `draw` as a returned drawing, `toJSON` |
| node.dfy | `Nodes` | `Node`: constructor, `addEdge`, accessors, `toJSON` |
| uuid.dfy | `Uuid` | `generateUUID` with its random nibbles as input |
| editor.dfy | `Editor` | the globals of main.ts and every event handler, as `State -> State` |
| clickguard.dfy | `ClickGuard` | the click that ends a pan, as written and with the evidently intended guard (see Findings) |

Each handler becomes a pure function from one state to the next. Mouse positions, the wheel direction and the parsed text-area contents are inputs. `Step` and `Run` replay any sequence of events. Node getters are field reads of an immutable record, and setters are record updates.

## Model

| member | source | states |
|---|---|---|
| JsonValue.PointOfJson | path_editor/src/main.ts:181 | a parsed element yields a point exactly when both `x` and `y` are numbers, and the point holds those numbers |
| JsonValue.PointRoundTrip | path_editor/src/edge.ts:90 | the `{x, y}` copy of a control point reads back as the same point |
| Calibration.DefaultRefs | path_editor/src/main.ts:29-32 | the two default reference points differ on every image axis and every map axis, so both conversions are defined |
| Calibration.AxisMap | path_editor/src/main.ts:63-67 | the converted coordinate lies on the line through the two reference pairs of its axis |
| Calibration.AxisMapUnique | path_editor/src/main.ts:63-67 | that line equation has exactly one solution, the converted coordinate |
| Calibration.ImgToMap | path_editor/src/main.ts:62-69 | each map coordinate lies on its axis's line through the reference points |
| Calibration.MapToImg | path_editor/src/main.ts:71-78 | each image coordinate lies on its axis's line through the reference points |
| Calibration.ImgToMapFixesReferences | path_editor/src/main.ts:62-69 | each reference point's image position converts to its map position |
| Calibration.MapToImgFixesReferences | path_editor/src/main.ts:71-78 | each reference point's map position converts to its image position |
| Calibration.AxisRoundTrip | path_editor/src/main.ts:62-78 | on one axis, converting and converting back returns the original coordinate |
| Calibration.MapToImgInvertsImgToMap | path_editor/src/main.ts:62-78 | `mapToImg(imgToMap(p)) == p` for every image point |
| Calibration.ImgToMapInvertsMapToImg | path_editor/src/main.ts:62-78 | `imgToMap(mapToImg(m)) == m` for every map point |
| Calibration.AxesIndependent | path_editor/src/main.ts:63-67 | each output coordinate depends only on the same input axis |
| Calibration.IdentityCalibration | path_editor/src/main.ts:62-78 | reference points that coincide in both spaces make both conversions the identity |
| Bezier.BezierPoint | curve_demo/script.js:10-20 | the curve starts at P0 (`t = 0`) and ends at P3 (`t = 1`) |
| Bezier.WeightsSumToOne | curve_demo/script.js:11-18 | the four Bernstein weights sum to one for every `t` |
| Bezier.WeightsNonNegative | curve_demo/script.js:11-18 | on `0 <= t <= 1` no weight is negative |
| Bezier.BernsteinIsDeCasteljau | curve_demo/script.js:11-14 | the power form equals three rounds of linear interpolation (de Casteljau) |
| Bezier.BezierPointIsDeCasteljau | curve_demo/script.js:10-20 | `bezierPoint` equals de Casteljau's construction on both coordinates |
| Bezier.ConstantCurve | curve_demo/script.js:10-20 | a curve whose four control points coincide is that point for every `t` |
| Bezier.BernsteinBounds | curve_demo/script.js:11-14 | on `0 <= t <= 1` a coordinate lies between the least and greatest control coordinate |
| Bezier.CurveWithinControlBounds | curve_demo/script.js:10-20 | on `0 <= t <= 1` the curve stays in the bounding box of its control points |
| Bezier.Midpoint | curve_demo/script.js:10-20 | at `t = 1/2` the point is `(P0 + 3 P1 + 3 P2 + P3) / 8` |
| Bezier.MidpointExample | curve_demo/script.js:10-20 | a concrete curve's midpoint |
| Sampler.SampleFine | curve_demo/script.js:24-29 | the first loop yields 1001 points, point `i` being the curve at `i / 1000` |
| Sampler.Walk | curve_demo/script.js:34-47 | the filter keeps strictly increasing indices of points not yet examined |
| Sampler.SpreadNonNegative | curve_demo/script.js:32-46 | the accumulator is never negative when distances are not |
| Sampler.WalkSelects | curve_demo/script.js:31-47 | the filter keeps, after each kept point, the first point at which the accumulated value reaches `segmentLength` |
| Sampler.KeptIndices | curve_demo/script.js:31-47 | the kept indices start at 0 and satisfy the threshold rule |
| Sampler.SelectionUnique | curve_demo/script.js:34-47 | the threshold rule fixes the selection: two selections with the same start are equal |
| Sampler.KeptIndicesCharacterised | curve_demo/script.js:31-47 | a list of indices satisfies the threshold rule from 0 if and only if it is what the sampler keeps |
| Sampler.EvenlySpaced | curve_demo/script.js:23-50 | the result has between 1 and 1001 points and starts at P0; `segmentLength` defaults to 5 |
| Sampler.WalkKeeps | curve_demo/script.js:41-43 | reaching the threshold keeps the current point and restarts from it with a zero accumulator |
| Sampler.WalkSkips | curve_demo/script.js:44-45 | missing the threshold skips the point and adds its distance to the accumulator |
| Sampler.SelectEvenly | curve_demo/script.js:31-49 | the second loop returns exactly the fine points at the kept indices, in order |
| Sampler.GetEvenlySpacedPoints | curve_demo/script.js:23-50 | the two loops together compute `EvenlySpaced`, with the same default `segmentLength = 5` |
| Sampler.DefaultSegmentLength | curve_demo/script.js:23 | omitting `segmentLength` samples with spacing 5 |
| Sampler.ReachCoversStep | curve_demo/script.js:39-41 | the compared value is at least the distance from the last kept point |
| Sampler.SelectionSkipsNear | curve_demo/script.js:34-47 | in a selection, kept indices are in range and increase, and each skipped point is closer than `segmentLength` to the last kept point |
| Sampler.SkippedPointsStayNear | curve_demo/script.js:34-47 | every fine point the sampler skips, including those after the last kept point, is closer than `segmentLength` to the last point kept before it |
| Sampler.WalkKeepsAll | curve_demo/script.js:41-43 | with a non-positive threshold every remaining point is kept |
| Sampler.NonPositiveLengthKeepsAll | curve_demo/script.js:23-50 | `segmentLength <= 0` returns all 1001 fine points |
| Sampler.WalkKeepsNone | curve_demo/script.js:41-46 | while all remaining points are at distance zero and the accumulator is below the threshold, nothing is kept |
| Sampler.ZeroDistancesKeepOnlyFirst | curve_demo/script.js:31-47 | with all distances zero and `segmentLength > 0`, only P0 is returned |
| Sampler.DegenerateCurveSingleSample | curve_demo/script.js:10-50 | a curve whose four control points equal `p` is sampled as `[p]` |
| ArcSampler.ArcWalk | curve_demo/script.js:34-47 | the corrected filter keeps strictly increasing indices of points not yet examined |
| ArcSampler.ArcWalkSelects | curve_demo/script.js:31-47 | the corrected filter keeps, after each kept point, the first point at least `segmentLength` of polyline length away |
| ArcSampler.ArcKept | curve_demo/script.js:31-47 | the corrected selection starts at 0, and consecutive kept points are separated by the first arc length reaching `segmentLength` |
| ArcSampler.EvenlySpacedByArc | curve_demo/script.js:23-50 | the corrected result has between 1 and 1001 points and starts at P0 |
| ArcSampler.Overcount | curve_demo/script.js:41-45 | on four points a unit apart with `segmentLength = 5`, the code keeps the point 3 units along; the corrected rule keeps none |
| Edges.NewEdge | path_editor/src/edge.ts:25-30 | the constructor stores `from`, `to`, `ctrls` and `bezier` as given |
| Edges.NewEdgeDefaults | path_editor/src/edge.ts:25 | by default an edge has no control points and is curved |
| Edges.FindIndex | path_editor/src/edge.ts:38-39 | `find` returns the first node with the id, or nothing when no node has it |
| Edges.Segments | path_editor/src/edge.ts:47-72 | one segment for a straight, quadratic or cubic path and `ctrls.length + 1` for a polyline, the last always ending at the shifted `to` node |
| Edges.Draw | path_editor/src/edge.ts:32-83 | nothing is drawn when either end node is missing; otherwise the path starts at the first node with id `from`, passes the control points it uses in order and ends at the first node with id `to`, all shifted, and one shifted marker per control point appears only when markers are asked for |
| Edges.ShapeSelection | path_editor/src/edge.ts:47-72 | quadratic exactly for one control point, cubic for two, polyline for three or more, straight when `bezier` is off or there are none |
| Edges.ControlPolygon | path_editor/src/edge.ts:45-72 | whatever the shape, the path names the `from` node, the control points it uses in order, then the `to` node, all shifted |
| Edges.PolylineSegments | path_editor/src/edge.ts:64-69 | the polyline is `ctrls.length + 1` straight segments through the control points, ending at the `to` node |
| Edges.DrawTranslates | path_editor/src/edge.ts:45-80 | drawing with an offset equals drawing with none and then translating every coordinate by `-offset` |
| Edges.ToJson | path_editor/src/edge.ts:85-92 | the JSON object has exactly the keys `from`, `to`, `bezier`, `ctrls` |
| Edges.PointsToJson | path_editor/src/edge.ts:90 | one JSON object per control point |
| Edges.PointsRoundTrip | path_editor/src/edge.ts:90 | the control points read back from their JSON copies in order |
| Edges.EdgeJsonRoundTrip | path_editor/src/edge.ts:85-92 | an edge read back from its `toJSON` output is the same edge |
| Nodes.NewNode | path_editor/src/node.ts:15-20 | a new node has the given id and coordinates and no edges |
| Nodes.AddEdge | path_editor/src/node.ts:22-24 | the edge is appended last, earlier edges and all other fields are kept |
| Nodes.AddEdgesAppends | path_editor/src/node.ts:22-24 | successive `addEdge` calls append in call order |
| Nodes.SetX | path_editor/src/node.ts:57-59 | only `x` changes |
| Nodes.SetY | path_editor/src/node.ts:49-51 | only `y` changes |
| Nodes.SetId | path_editor/src/node.ts:65-67 | only the id changes |
| Nodes.SetEdges | path_editor/src/node.ts:41-43 | only the edge list changes, replaced wholesale |
| Nodes.SettersIdempotent | path_editor/src/node.ts:49-59 | writing the current value changes nothing, and a second write overrides the first |
| Nodes.ToJson | path_editor/src/node.ts:33-35 | the JSON object has exactly the keys `id`, `x`, `y` |
| Nodes.NodeJsonRoundTrip | path_editor/src/node.ts:33-35 | a node read back from its `toJSON` output keeps id and coordinates and loses its edges |
| Uuid.TemplateText | path_editor/src/functions.ts:3 | the template spells `xxxxxxxx-xxxx-4xxx-yxxx-xxxxxxxxxxxx` |
| Uuid.TemplateHoles | path_editor/src/functions.ts:3 | the template has 31 placeholders, so 31 random draws |
| Uuid.TemplateLayout | path_editor/src/functions.ts:3 | 36 characters, hyphens at 8, 13, 18 and 23, the version `4` at 14, `y` at 19, placeholders elsewhere |
| Uuid.HexDigit | path_editor/src/functions.ts:6 | `toString(16)` of a nibble is a lowercase hex digit |
| Uuid.HexValue | path_editor/src/functions.ts:6 | reading a hex digit back gives the nibble it was printed from |
| Uuid.Variant | path_editor/src/functions.ts:5 | the variant digit `(r & 0x3) OR 0x8` is 8 to 11 and keeps the low two bits of `r` |
| Uuid.Fill | path_editor/src/functions.ts:3-7 | only placeholders are replaced, each by a hex digit, and `y` by a variant digit |
| Uuid.FillEncodesNibbles | path_editor/src/functions.ts:3-7 | the placeholders of the result read back as the nibbles drawn, in order, with the variant bits forced at `y` |
| Uuid.EncodedKeepsRandomNibbles | path_editor/src/functions.ts:5 | where the template has no `y`, every nibble is kept unchanged |
| Uuid.HeadAndTail | path_editor/src/functions.ts:3 | the template is the head `xxxxxxxx-xxxx-4xxx`, the variant group `-y`, then the tail `xxx-xxxxxxxxxxxx` |
| Uuid.EncodedHalves | path_editor/src/functions.ts:3-5 | placeholders either side of the variant group keep their nibbles, and the `y` forces the variant bits |
| Uuid.EncodedTemplate | path_editor/src/functions.ts:3-5 | the template stands for the 31 draws with only the 16th forced to a variant |
| Uuid.UuidCarriesNibbles | path_editor/src/functions.ts:1-8 | the UUID carries all 31 draws in order, the 16th with its two high bits set to `10` |
| Uuid.GenerateUuid | path_editor/src/functions.ts:1-8 | 36 characters, hyphens at 8, 13, 18 and 23, version `4` at 14, a variant digit at 19, hex digits elsewhere |
| Editor.Init | path_editor/src/main.ts:9-34 | the initial globals satisfy the editor invariant, with no image and no points |
| Editor.ScreenToImage | path_editor/src/main.ts:163-164 | the click's conversion inverts the canvas transform set by `drawScene` |
| Editor.ScreenToImageInvertsDraw | path_editor/src/main.ts:163-164 | the canvas transform inverts the click's conversion |
| Editor.LoadImage | path_editor/src/main.ts:116-120 | a loaded image clears the points and resets zoom and pan, leaving drag state and calibration |
| Editor.LoadImageResetsView | path_editor/src/main.ts:116-120 | after loading, the image is drawn unscaled and unpanned, and a second load changes nothing more |
| Editor.Clamp | path_editor/src/main.ts:134 | the zoom lands in [0.1, 10], unchanged when already inside, at the nearer bound otherwise |
| Editor.Wheel | path_editor/src/main.ts:128-138 | the zoom stays in [0.1, 10], the image point under the cursor stays under it, scrolling down never zooms in and scrolling up never out, and nothing else changes |
| Editor.ZoomDirection | path_editor/src/main.ts:133-134 | scrolling down never zooms in, scrolling up never zooms out |
| Editor.AnchorKept | path_editor/src/main.ts:135-136 | the offset update keeps the cursor's image coordinate |
| Editor.WheelKeepsCursorPoint | path_editor/src/main.ts:128-138 | after zooming, the image point that was under the cursor is drawn at the cursor |
| Editor.MouseDown | path_editor/src/main.ts:140-144 | dragging starts at the cursor, and nothing else changes |
| Editor.MouseMove | path_editor/src/main.ts:146-156 | while dragging, the pan moves by the cursor's movement and the anchor follows; otherwise nothing changes |
| Editor.DragFollowsCursor | path_editor/src/main.ts:146-156 | the offset minus the drag anchor is kept, so two moves pan as far as one move to the final position |
| Editor.MouseUp | path_editor/src/main.ts:158-159 | `mouseup` and `mouseleave` stop dragging and change nothing else |
| Editor.Click | path_editor/src/main.ts:161-169 | without an image or while dragging nothing changes; otherwise exactly one new node `"test"` without edges is appended at the rounded map position of the cursor |
| Editor.ClickLandsUnderCursor | path_editor/src/main.ts:161-169 | without rounding, the new point is drawn exactly under the cursor that placed it |
| Editor.JsonInput | path_editor/src/main.ts:176-189 | the points are replaced, in order, by nodes `"test"` at the parsed coordinates when the text is an array whose every element has numeric `x` and `y`; otherwise nothing changes |
| Editor.PointsJson | path_editor/src/main.ts:106-108 | one JSON element per point |
| Editor.JsonInputOfOwnOutput | path_editor/src/main.ts:176-189 | feeding the text area's own output back in leaves a reachable state unchanged |
| Editor.Step | path_editor/src/main.ts:128-189 | every handler keeps the editor invariant and the calibration |
| Editor.RunStaysValid | path_editor/src/main.ts:128-189 | after any sequence of events the invariant holds, and in particular the zoom stays in [0.1, 10] |
| ClickGuard.StepGuarded | path_editor/src/main.ts:140-169 | with the corrected guard, a click after the pointer moved while pressed changes nothing; every other event acts exactly as the editor as written, and the invariant is kept |
| ClickGuard.RunGuarded | path_editor/src/main.ts:140-169 | a corrected session keeps the editor invariant |
| ClickGuard.PanThenClickAddsPoint | path_editor/src/main.ts:158-167 | as written, press, drag, release and the browser's click pan the view and also append a point |
| ClickGuard.PanThenClickKeepsPoints | path_editor/src/main.ts:158-167 | corrected, the same sequence pans the view and leaves the points as they were |
| ClickGuard.PlainClickAddsPoint | path_editor/src/main.ts:161-167 | corrected, a press and release without moving still places a point |

## Left out

- Canvas rendering is not modelled: colours, line widths, arcs, text, `clearRect` and the image itself. `Edge.draw` returns the path and the markers it would paint, and `drawScene` is reduced to where it paints a point (`Editor.DrawnAt`).
- `Node.draw` (node.ts:26-31) and `resizeCanvasToDisplaySize` (functions.ts:10-24) are left out, because they only paint or size the canvas.
- `renderRefPointsForm` and `updateRefPointsFromForm` (main.ts:36-60) are left out, because they only move numbers between the DOM and `refPoints`. No event changes the reference points in `Editor`.
- The two-stage file load is simplified. `FileReader` and `img.onload` become a single `LoadImage` event, so a click arriving between `img = new Image()` and `onload` is not modelled.
- JSON text is not parsed or printed. `JSON.parse` is replaced by its result, with `None` when it throws, and `JSON.stringify` by the value it prints.
- Floating point is not modelled: all numbers are reals, and there is no NaN, Infinity or rounding error.
- Calibration.ImgToMap requires image deltas that are non-zero, and Calibration.MapToImg requires non-zero map deltas. With equal reference coordinates the source divides by zero and yields Infinity or NaN.
- The browser's event order is not enforced. `Run` accepts any sequence of events, and the order in which a browser delivers `mouseup` and `click` appears only in the `ClickGuard` lemmas.
- Editor.Click: `parseFloat(v.toFixed(2))` is a `round` parameter, so the two-decimal rounding itself is not modelled.
- Editor.Wheel requires a positive current zoom. Every reachable state has one, because `Valid` keeps it in [0.1, 10].
- `Math.sqrt(dx*dx + dy*dy)` is a `dist` parameter, so no Euclidean geometry is proved. The spacing lemmas only assume that distances are not negative.
- `Math.random() * 16 | 0` is an input: `GenerateUuid` takes the 31 drawn nibbles.
- The `Node` in edge.ts (`Edges.Anchor`, with a numeric id) and the `Node` class in node.ts (string id) are separate types in the model, as in the source.
- The sampler is modelled as the code behaves, including where its output is not evenly spaced:
  - the accumulator adds distances from the last kept point at every step (see Findings);
  - `segmentLength <= 0` returns every fine point;
  - consecutive kept points can be closer than `segmentLength`, and `ArcSampler.Overcount` exhibits one such case.

## Findings

| source | as written | input that shows it | evidently intended | confidence | as-written member | corrected member |
|---|---|---|---|---|---|---|
| curve_demo/script.js:35-45 | each step adds `dist(lastKept, current)` to `distAcc`, so the distances from the last kept point are summed again at every step | fine points `(0,0) (1,0) (2,0) (3,0)`, `segmentLength = 5`: 1 + 2 + 3 = 6 reaches 5, so the point 3 units along is kept | keep a point once the polyline length walked since the last kept point reaches `segmentLength`, so points come roughly `segmentLength` apart along the curve | medium, not executed | Sampler.KeptIndices, ArcSampler.Overcount | ArcSampler.ArcKept |
| path_editor/src/main.ts:158-162 | `mouseup` clears `isDragging` before the browser delivers `click`, so the click guard `isDragging` is always false and never stops a click | press at (0, 0), drag to (10, 0), release: the view pans by 10 and a point is appended | a click that ends a pan does not place a point | medium, not executed | ClickGuard.PanThenClickAddsPoint | ClickGuard.StepGuarded, ClickGuard.PanThenClickKeepsPoints |
