/** `OverpassBounds` (OverpassTypes.swift): the boundary variants with their
    containment and touch tests. */
module Bounds {
  import opened Wrappers
  import opened Geometry

  /** A boundary: a south/west/north/east box, a centre and radius, a polygon, or
      no boundary at all. Nothing forces `s <= n` or `w <= e`. */
  datatype Bounds =
    | Box(s: real, w: real, n: real, e: real)
    | Area(center: Point, radius: real)
    | Polygon(points: seq<Point>)
    | Arbitrary

  /** The source stops with `fatalError("not supported")`; the model returns this. */
  datatype BoundsError = NotSupported

  /** `init(point:size:)`: the point is the north-west corner and the size extends
      the box south and east. */
  function FromPointSize(point: Point, size: Size): (b: Bounds)
    ensures b.Box?
    ensures Point(b.n, b.w) == point
    ensures b.n - b.s == size.lat && b.e - b.w == size.lon
  {
    Box(point.lat - size.lat, point.lon, point.lat, point.lon + size.lon)
  }

  /** The box test of `contains`: strictly between one pair of opposite edges and
      between or on the other pair. */
  predicate BoxContains(s: real, w: real, n: real, e: real, p: Point) {
    || (p.lat > s && p.lat < n && p.lon >= w && p.lon <= e)
    || (p.lat >= s && p.lat <= n && p.lon > w && p.lon < e)
  }

  /** The box test of `touches`: on a south or north edge line and on a west or east
      edge line. */
  predicate BoxTouches(s: real, w: real, n: real, e: real, p: Point) {
    (p.lat == s || p.lat == n) && (p.lon == w || p.lon == e)
  }

  /** `distance(to: center) < area`, in squared form. The source's distance is the
      square root of `SqDistance`, which is below a radius exactly when the radius is
      non-negative and `SqDistance` is below its square. */
  predicate AreaContains(center: Point, radius: real, p: Point) {
    0.0 <= radius && SqDistance(p, center) < radius * radius
  }

  /** `distance(to: center) == area`, in squared form (see AreaContains). */
  predicate AreaTouches(center: Point, radius: real, p: Point) {
    0.0 <= radius && SqDistance(p, center) == radius * radius
  }

  /** `contains(point:)`. */
  function Contains(b: Bounds, p: Point): (r: Result<bool, BoundsError>)
    ensures r.Failure? <==> b.Polygon?
    ensures b.Arbitrary? ==> r == Success(true)
    ensures b.Box? ==> r == Success(BoxContains(b.s, b.w, b.n, b.e, p))
    ensures b.Area? ==> r == Success(AreaContains(b.center, b.radius, p))
  {
    match b
    case Box(s, w, n, e) => Success(BoxContains(s, w, n, e, p))
    case Area(center, radius) => Success(AreaContains(center, radius, p))
    case Polygon(_) => Failure(NotSupported)
    case Arbitrary => Success(true)
  }

  /** `touches(point:)`. */
  function Touches(b: Bounds, p: Point): (r: Result<bool, BoundsError>)
    ensures r.Failure? <==> b.Polygon?
    ensures b.Arbitrary? ==> r == Success(false)
    ensures b.Box? ==> r == Success(BoxTouches(b.s, b.w, b.n, b.e, p))
    ensures b.Area? ==> r == Success(AreaTouches(b.center, b.radius, p))
  {
    match b
    case Box(s, w, n, e) => Success(BoxTouches(s, w, n, e, p))
    case Area(center, radius) => Success(AreaTouches(center, radius, p))
    case Polygon(_) => Failure(NotSupported)
    case Arbitrary => Success(false)
  }

  /** The four corners of a box. */
  predicate IsCorner(s: real, w: real, n: real, e: real, p: Point) {
    p == Point(s, w) || p == Point(s, e) || p == Point(n, w) || p == Point(n, e)
  }

  /** Between or on all four edges. */
  predicate InClosedBox(s: real, w: real, n: real, e: real, p: Point) {
    s <= p.lat <= n && w <= p.lon <= e
  }

  /** No point is both contained and touching, for any boundary and point. */
  lemma ContainsTouchesExclusive(b: Bounds, p: Point)
    ensures !(Contains(b, p) == Success(true) && Touches(b, p) == Success(true))
  {
  }

  /** A box touches a point exactly at its four corners. */
  lemma BoxTouchesCorners(s: real, w: real, n: real, e: real, p: Point)
    ensures Touches(Box(s, w, n, e), p) == Success(true) <==> IsCorner(s, w, n, e, p)
  {
  }

  /** For a well-formed box, contained-or-touching is the closed box, and `contains`
      holds on the interior and on every edge point that is not a corner. */
  lemma BoxClosedExtent(s: real, w: real, n: real, e: real, p: Point)
    requires s <= n && w <= e
    ensures Contains(Box(s, w, n, e), p) == Success(true) || Touches(Box(s, w, n, e), p) == Success(true)
            <==> InClosedBox(s, w, n, e, p)
    ensures Contains(Box(s, w, n, e), p) == Success(true)
            <==> InClosedBox(s, w, n, e, p) && !IsCorner(s, w, n, e, p)
  {
  }

  /** No boundary at all: every point is inside and none is on the edge. */
  lemma ArbitraryContainsAll(p: Point)
    ensures Contains(Arbitrary, p) == Success(true)
    ensures Touches(Arbitrary, p) == Success(false)
  {
  }

  /** The box built from a point and a non-negative size covers exactly the points
      south-east of the point within the size, and the point is one of its corners. */
  lemma FromPointSizeExtent(point: Point, size: Size, p: Point)
    requires 0.0 <= size.lat && 0.0 <= size.lon
    ensures var b := FromPointSize(point, size);
      && Touches(b, point) == Success(true)
      && (Contains(b, p) == Success(true) || Touches(b, p) == Success(true)
          <==> point.lat - size.lat <= p.lat <= point.lat && point.lon <= p.lon <= point.lon + size.lon)
  {
    var b := FromPointSize(point, size);
    BoxClosedExtent(b.s, b.w, b.n, b.e, p);
  }
}
