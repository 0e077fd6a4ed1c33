/**
  Value types shared by the two tools: a point in the plane over exact
  reals, and an optional value for lookups that may find nothing.
*/
module Geometry {

  /** A coordinate pair `{x, y}` in some space (image, map or screen). */
  datatype Point = Point(x: real, y: real)

  /** Absence of a value, as `undefined` is used in the TypeScript code. */
  datatype Option<+T> = None | Some(value: T)

  /** Translation of a point by `-offset`, the `p - offset` of the drawing code. */
  function Shift(p: Point, offset: Point): Point
  {
    Point(p.x - offset.x, p.y - offset.y)
  }

  /** Shifting every point of a sequence. */
  function ShiftAll(ps: seq<Point>, offset: Point): (r: seq<Point>)
    ensures |r| == |ps|
    ensures forall i :: 0 <= i < |ps| ==> r[i] == Shift(ps[i], offset)
  {
    seq(|ps|, i requires 0 <= i < |ps| => Shift(ps[i], offset))
  }
}
