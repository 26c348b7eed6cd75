/** Points and sizes in the flat lat/lon plane (OverpassModels.swift). Coordinates are
    exact reals; the Euclidean distance is replaced by its square, which orders and
    compares points the same way. */
module Geometry {

  /** `OverpassPoint`: compared field by field. */
  datatype Point = Point(lat: real, lon: real)

  /** `OverpassSize`: extent in the same coordinate space. */
  datatype Size = Size(lat: real, lon: real)

  /** The square of `distance(to:)`: `pow(abs(d), 2)` is `d * d`, and the final `sqrt`
      is dropped. */
  function SqDistance(a: Point, b: Point): (r: real)
    ensures 0.0 <= r
    ensures a == b ==> r == 0.0
  {
    SquareSign(a.lat - b.lat);
    SquareSign(a.lon - b.lon);
    (a.lat - b.lat) * (a.lat - b.lat) + (a.lon - b.lon) * (a.lon - b.lon)
  }

  /** A square is never negative. */
  lemma SquareSign(x: real)
    ensures 0.0 <= x * x
  {
    if x < 0.0 {
      assert x * x == (-x) * (-x);
    }
  }

  /** Distance does not depend on the direction, and is zero from a point to itself. */
  lemma DistanceSymmetric(a: Point, b: Point)
    ensures SqDistance(a, b) == SqDistance(b, a)
    ensures SqDistance(a, a) == 0.0
  {
  }
}
