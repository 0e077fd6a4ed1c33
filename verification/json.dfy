/**
  The parsed form of a JSON document, as produced by `JSON.parse` and
  consumed by `JSON.stringify`. Parsing and printing text are library calls
  and are not modelled; the editor receives the parsed value directly.
*/
module JsonValue {
  import opened Geometry

  /** A JSON value. Objects are maps: the parser has already resolved
      duplicate keys by the time the program looks at a value. */
  datatype Json =
    | Null
    | Bool(b: bool)
    | Num(n: real)
    | Str(s: string)
    | Arr(elems: seq<Json>)
    | Obj(fields: map<string, Json>)

  /** Property access `v.key`: only objects carry named properties. */
  function Get(v: Json, key: string): (r: Option<Json>)
    ensures r.Some? <==> v.Obj? && key in v.fields
  {
    if v.Obj? && key in v.fields then Some(v.fields[key]) else None
  }

  /** `typeof v.key === 'number'`. */
  predicate HasNumber(v: Json, key: string)
  {
    var f := Get(v, key);
    f.Some? && f.value.Num?
  }

  /** The number stored under `key`, for a value with `HasNumber(v, key)`. */
  function NumberAt(v: Json, key: string): real
    requires HasNumber(v, key)
  {
    Get(v, key).value.n
  }

  /** The JSON form `{x, y}` of a point. */
  function PointToJson(p: Point): Json
  {
    Obj(map["x" := Num(p.x), "y" := Num(p.y)])
  }

  /** Reading a point from a value whose `x` and `y` are both numbers
      (`typeof p.x === 'number' && typeof p.y === 'number'`); the inverse of
      `PointToJson`. */
  function PointOfJson(v: Json): (r: Option<Point>)
    ensures r.Some? <==> HasNumber(v, "x") && HasNumber(v, "y")
    ensures r.Some? ==> r.value.x == NumberAt(v, "x") && r.value.y == NumberAt(v, "y")
  {
    if HasNumber(v, "x") && HasNumber(v, "y")
    then Some(Point(NumberAt(v, "x"), NumberAt(v, "y")))
    else None
  }

  lemma PointRoundTrip(p: Point)
    ensures PointOfJson(PointToJson(p)) == Some(p)
  {
  }
}
