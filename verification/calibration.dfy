/**
  Two-point, axis-aligned calibration between image pixels and map
  coordinates (`imgToMap` / `mapToImg` of the path editor).

  Each axis is an independent scale-plus-offset map fixed by two reference
  points A and B: the scale is the ratio of the map delta to the image delta,
  and the offset makes A land on A. There is no rotation or shear term.
*/
module Calibration {
  import opened Geometry

  /** One reference point: the same place in image pixels and in map units. */
  datatype RefPoint = RefPoint(imgX: real, imgY: real, mapX: real, mapY: real)

  /** The two reference points `refPoints[0]` (A) and `refPoints[1]` (B). */
  datatype Refs = Refs(a: RefPoint, b: RefPoint)

  /** The reference points the editor starts with. */
  function DefaultRefs(): (r: Refs)
    ensures ImageDeltasNonZero(r) && MapDeltasNonZero(r)
  {
    Refs(RefPoint(142.0, 178.0, -2466.0, 2331.0),
         RefPoint(1451.0, 1454.0, 2443.0, -2450.0))
  }

  /** The image → map scales are defined: A and B differ on both image axes. */
  predicate ImageDeltasNonZero(refs: Refs)
  {
    refs.b.imgX != refs.a.imgX && refs.b.imgY != refs.a.imgY
  }

  /** The map → image scales are defined: A and B differ on both map axes. */
  predicate MapDeltasNonZero(refs: Refs)
  {
    refs.b.mapX != refs.a.mapX && refs.b.mapY != refs.a.mapY
  }

  /** One axis of the calibration: the value on the target axis of the point
      whose source coordinate is `v`, given that `from0 ↦ to0` and
      `from1 ↦ to1`. The result is the unique point on the line through the
      two reference pairs. */
  function AxisMap(from0: real, from1: real, to0: real, to1: real, v: real): (r: real)
    requires from1 != from0
    ensures (r - to0) * (from1 - from0) == (v - from0) * (to1 - to0)
  {
    var scale := (to1 - to0) / (from1 - from0);
    to0 + (v - from0) * scale
  }

  /** The line equation of `AxisMap` has exactly one solution, so it fully
      characterises the axis map. */
  lemma AxisMapUnique(from0: real, from1: real, to0: real, to1: real, v: real, w: real)
    requires from1 != from0
    ensures (w - to0) * (from1 - from0) == (v - from0) * (to1 - to0)
        <==> w == AxisMap(from0, from1, to0, to1, v)
  {
    var r := AxisMap(from0, from1, to0, to1, v);
    if (w - to0) * (from1 - from0) == (v - from0) * (to1 - to0) {
      assert (w - r) * (from1 - from0) == 0.0;
    }
  }

  /** `imgToMap`: image pixels to map coordinates. */
  function ImgToMap(refs: Refs, x: real, y: real): (r: Point)
    requires ImageDeltasNonZero(refs)
    ensures (r.x - refs.a.mapX) * (refs.b.imgX - refs.a.imgX) == (x - refs.a.imgX) * (refs.b.mapX - refs.a.mapX)
    ensures (r.y - refs.a.mapY) * (refs.b.imgY - refs.a.imgY) == (y - refs.a.imgY) * (refs.b.mapY - refs.a.mapY)
  {
    Point(AxisMap(refs.a.imgX, refs.b.imgX, refs.a.mapX, refs.b.mapX, x),
          AxisMap(refs.a.imgY, refs.b.imgY, refs.a.mapY, refs.b.mapY, y))
  }

  /** `mapToImg`: map coordinates to image pixels. */
  function MapToImg(refs: Refs, mapX: real, mapY: real): (r: Point)
    requires MapDeltasNonZero(refs)
    ensures (r.x - refs.a.imgX) * (refs.b.mapX - refs.a.mapX) == (mapX - refs.a.mapX) * (refs.b.imgX - refs.a.imgX)
    ensures (r.y - refs.a.imgY) * (refs.b.mapY - refs.a.mapY) == (mapY - refs.a.mapY) * (refs.b.imgY - refs.a.imgY)
  {
    Point(AxisMap(refs.a.mapX, refs.b.mapX, refs.a.imgX, refs.b.imgX, mapX),
          AxisMap(refs.a.mapY, refs.b.mapY, refs.a.imgY, refs.b.imgY, mapY))
  }

  /** The calibration sends each reference point's image position to its
      map position. */
  lemma ImgToMapFixesReferences(refs: Refs)
    requires ImageDeltasNonZero(refs)
    ensures ImgToMap(refs, refs.a.imgX, refs.a.imgY) == Point(refs.a.mapX, refs.a.mapY)
    ensures ImgToMap(refs, refs.b.imgX, refs.b.imgY) == Point(refs.b.mapX, refs.b.mapY)
  {
    AxisMapUnique(refs.a.imgX, refs.b.imgX, refs.a.mapX, refs.b.mapX, refs.b.imgX, refs.b.mapX);
    AxisMapUnique(refs.a.imgY, refs.b.imgY, refs.a.mapY, refs.b.mapY, refs.b.imgY, refs.b.mapY);
  }

  /** The inverse direction sends each reference point's map position to its
      image position. */
  lemma MapToImgFixesReferences(refs: Refs)
    requires MapDeltasNonZero(refs)
    ensures MapToImg(refs, refs.a.mapX, refs.a.mapY) == Point(refs.a.imgX, refs.a.imgY)
    ensures MapToImg(refs, refs.b.mapX, refs.b.mapY) == Point(refs.b.imgX, refs.b.imgY)
  {
    AxisMapUnique(refs.a.mapX, refs.b.mapX, refs.a.imgX, refs.b.imgX, refs.b.mapX, refs.b.imgX);
    AxisMapUnique(refs.a.mapY, refs.b.mapY, refs.a.imgY, refs.b.imgY, refs.b.mapY, refs.b.imgY);
  }

  /** Swapping the roles of source and target axis inverts one axis map. */
  lemma AxisRoundTrip(from0: real, from1: real, to0: real, to1: real, v: real)
    requires from1 != from0 && to1 != to0
    ensures AxisMap(to0, to1, from0, from1, AxisMap(from0, from1, to0, to1, v)) == v
  {
    var w := AxisMap(from0, from1, to0, to1, v);
    var u := AxisMap(to0, to1, from0, from1, w);
    // Both line equations hold; multiply the first through to eliminate w.
    assert (u - from0) * (to1 - to0) == (w - to0) * (from1 - from0);
    assert (w - to0) * (from1 - from0) == (v - from0) * (to1 - to0);
    assert (u - v) * (to1 - to0) == 0.0;
  }

  /** `mapToImg(imgToMap(x, y)) == (x, y)`. */
  lemma MapToImgInvertsImgToMap(refs: Refs, x: real, y: real)
    requires ImageDeltasNonZero(refs) && MapDeltasNonZero(refs)
    ensures var m := ImgToMap(refs, x, y); MapToImg(refs, m.x, m.y) == Point(x, y)
  {
    AxisRoundTrip(refs.a.imgX, refs.b.imgX, refs.a.mapX, refs.b.mapX, x);
    AxisRoundTrip(refs.a.imgY, refs.b.imgY, refs.a.mapY, refs.b.mapY, y);
  }

  /** `imgToMap(mapToImg(x, y)) == (x, y)`. */
  lemma ImgToMapInvertsMapToImg(refs: Refs, mapX: real, mapY: real)
    requires ImageDeltasNonZero(refs) && MapDeltasNonZero(refs)
    ensures var p := MapToImg(refs, mapX, mapY); ImgToMap(refs, p.x, p.y) == Point(mapX, mapY)
  {
    AxisRoundTrip(refs.a.mapX, refs.b.mapX, refs.a.imgX, refs.b.imgX, mapX);
    AxisRoundTrip(refs.a.mapY, refs.b.mapY, refs.a.imgY, refs.b.imgY, mapY);
  }

  /** No coupling term: the map x depends only on the image x and the map y
      only on the image y, in both directions. */
  lemma AxesIndependent(refs: Refs, x: real, y: real, x': real, y': real)
    requires ImageDeltasNonZero(refs) && MapDeltasNonZero(refs)
    ensures ImgToMap(refs, x, y).x == ImgToMap(refs, x, y').x
    ensures ImgToMap(refs, x, y).y == ImgToMap(refs, x', y).y
    ensures MapToImg(refs, x, y).x == MapToImg(refs, x, y').x
    ensures MapToImg(refs, x, y).y == MapToImg(refs, x', y).y
  {
  }

  /** When each reference point has equal image and map coordinates, both
      directions are the identity. */
  lemma IdentityCalibration(refs: Refs, x: real, y: real)
    requires ImageDeltasNonZero(refs)
    requires refs.a.mapX == refs.a.imgX && refs.a.mapY == refs.a.imgY
    requires refs.b.mapX == refs.b.imgX && refs.b.mapY == refs.b.imgY
    ensures ImgToMap(refs, x, y) == Point(x, y)
    ensures MapToImg(refs, x, y) == Point(x, y)
  {
    AxisMapUnique(refs.a.imgX, refs.b.imgX, refs.a.mapX, refs.b.mapX, x, x);
    AxisMapUnique(refs.a.imgY, refs.b.imgY, refs.a.mapY, refs.b.mapY, y, y);
  }
}
