/** `difference` and its private helper `boxMinusBox` (OverpassTypes.swift): the part
    of one box that is not inside another, as a list of boxes. */
module BoundsDifference {
  import opened Wrappers
  import opened Geometry
  import opened Seqs
  import opened Bounds

  /** Two corner points of a candidate rectangle, in the order they were paired. */
  datatype Corners = Corners(a: Point, b: Point)

  function Min(x: real, y: real): real { if x <= y then x else y }
  function Max(x: real, y: real): real { if x <= y then y else x }

  /** Contained in, or touching, a box (the first half of the test that keeps a grid
      point). */
  predicate InOrOn(b: Bounds, p: Point)
    requires b.Box?
  {
    BoxContains(b.s, b.w, b.n, b.e, p) || BoxTouches(b.s, b.w, b.n, b.e, p)
  }

  /** A grid point that is kept: in or on `lhs` and not contained by `rhs`. */
  predicate Kept(lhs: Bounds, rhs: Bounds, p: Point)
    requires lhs.Box? && rhs.Box?
  {
    InOrOn(lhs, p) && !BoxContains(rhs.s, rhs.w, rhs.n, rhs.e, p)
  }

  /** `q` differs from `p` in both coordinates: the pair spans a proper rectangle. */
  predicate Diagonal(p: Point, q: Point) {
    p.lat != q.lat && p.lon != q.lon
  }

  /** The box spanned by two corners (the `min`/`max` construction of the last loop). */
  function Span(c: Corners): (r: Bounds)
    ensures r.Box? && r.s <= r.n && r.w <= r.e
    ensures r.s in {c.a.lat, c.b.lat} && r.n in {c.a.lat, c.b.lat}
    ensures r.w in {c.a.lon, c.b.lon} && r.e in {c.a.lon, c.b.lon}
    ensures r.s <= c.a.lat && r.s <= c.b.lat && c.a.lat <= r.n && c.b.lat <= r.n
    ensures r.w <= c.a.lon && r.w <= c.b.lon && c.a.lon <= r.e && c.b.lon <= r.e
  {
    Box(Min(c.a.lat, c.b.lat), Min(c.a.lon, c.b.lon), Max(c.a.lat, c.b.lat), Max(c.a.lon, c.b.lon))
  }

  /** The nested `test` of the duplicate check: `x` is `y`, `y` reversed, or the other
      diagonal of `y` in either order. */
  function SameRect(x: Corners, y: Corners): (r: bool)
    ensures r ==> Span(x) == Span(y)
  {
    var c := Point(y.a.lat, y.b.lon);
    var d := Point(y.b.lat, y.a.lon);
    x == y || x == Corners(y.b, y.a) || x == Corners(c, d) || x == Corners(d, c)
  }

  /** For pairs that differ in both coordinates, the duplicate test of the source is
      exactly equality of the spanned boxes. */
  lemma SameRectIffSameSpan(x: Corners, y: Corners)
    requires Diagonal(x.a, x.b) && Diagonal(y.a, y.b)
    ensures SameRect(x, y) <==> Span(x) == Span(y)
  {
  }

  /** One column of the grid: every latitude at a fixed longitude. */
  function Column(lon: real, horizontal: seq<real>): (r: seq<Point>)
    ensures forall p :: p in r <==> p.lon == lon && p.lat in horizontal
  {
    if horizontal == [] then []
    else [Point(horizontal[0], lon)] + Column(lon, horizontal[1..])
  }

  /** The nested loops over sorted longitudes and latitudes: the full cross product,
      longitude-major. */
  function Grid(vertical: seq<real>, horizontal: seq<real>): (r: seq<Point>)
    ensures forall p :: p in r <==> p.lon in vertical && p.lat in horizontal
  {
    if vertical == [] then []
    else Column(vertical[0], horizontal) + Grid(vertical[1..], horizontal)
  }

  /** The points the first loop appends, in grid order. */
  function KeepPoints(grid: seq<Point>, lhs: Bounds, rhs: Bounds): (r: seq<Point>)
    requires lhs.Box? && rhs.Box?
    ensures forall p :: p in r <==> p in grid && Kept(lhs, rhs, p)
  {
    if grid == [] then []
    else
      var rest := KeepPoints(grid[1..], lhs, rhs);
      if Kept(lhs, rhs, grid[0]) then [grid[0]] + rest else rest
  }

  /** The point `firstIndex` finds after sorting by distance: a diagonal point at the
      smallest distance from `p`. Among equally near points the earliest one in grid
      order is taken, which assumes the sort is stable. The contracts that name the
      partner `Closest` returns (the converse of CollectRects and BoxMinusBox, and
      NearestPairEmitted) rely on that tie-break. */
  function Closest(p: Point, points: seq<Point>): (r: Option<Point>)
    ensures r.None? <==> forall q :: q in points ==> !Diagonal(p, q)
    ensures r.Some? ==> r.value in points && Diagonal(p, r.value)
    ensures r.Some? ==> forall q :: q in points && Diagonal(p, q) ==> SqDistance(p, r.value) <= SqDistance(p, q)
  {
    if points == [] then None
    else
      var rest := Closest(p, points[1..]);
      if !Diagonal(p, points[0]) then rest
      else if rest.Some? && SqDistance(p, rest.value) < SqDistance(p, points[0]) then rest
      else Some(points[0])
  }

  /** A rectangle paired from two kept points that differ in both coordinates. */
  predicate PairIn(c: Corners, points: seq<Point>) {
    c.a in points && c.b in points && Diagonal(c.a, c.b)
  }

  /** No two rectangles span the same box. */
  ghost predicate DistinctSpans(rects: seq<Corners>) {
    forall i, j :: 0 <= i < j < |rects| ==> Span(rects[i]) != Span(rects[j])
  }

  /** `rects.contains(where: test(...))`: when every rectangle is a proper one, the
      test holds exactly when some rectangle already spans the box of `c`. */
  function AnySameRect(rects: seq<Corners>, c: Corners): (r: bool)
    ensures r ==> SpannedBy(rects, c)
    ensures (forall x :: x in rects ==> Diagonal(x.a, x.b)) && Diagonal(c.a, c.b) ==>
      (r <==> SpannedBy(rects, c))
  {
    exists x :: x in rects && SameRect(x, c)
  }

  /** The second loop: pair every kept point with its nearest diagonal point and
      append the rectangle unless an equal one is already there. The source's
      "skip processed points" check never skips, since every point is in `points`. */
  function CollectRects(todo: seq<Point>, points: seq<Point>, acc: seq<Corners>): (r: seq<Corners>)
    requires forall p :: p in todo ==> p in points
    requires forall c :: c in acc ==> PairIn(c, points)
    requires DistinctSpans(acc)
    ensures forall c :: c in r ==> PairIn(c, points)
    ensures DistinctSpans(r)
    ensures forall c :: c in r ==> c in acc || (c.a in todo && Closest(c.a, points) == Some(c.b))
    decreases |todo|
  {
    if todo == [] then acc
    else
      var p := todo[0];
      var q := Closest(p, points);
      if q.None? || AnySameRect(acc, Corners(p, q.value)) then
        CollectRects(todo[1..], points, acc)
      else
        forall x | x in acc ensures Diagonal(x.a, x.b) {
          assert PairIn(x, points);
        }
        NewSpan(acc, Corners(p, q.value));
        CollectRects(todo[1..], points, acc + [Corners(p, q.value)])
  }

  /** A diagonal rectangle that is not the same as any earlier one spans a new box. */
  lemma NewSpan(acc: seq<Corners>, c: Corners)
    requires forall x :: x in acc ==> Diagonal(x.a, x.b)
    requires Diagonal(c.a, c.b)
    requires DistinctSpans(acc)
    requires !AnySameRect(acc, c)
    ensures DistinctSpans(acc + [c])
  {
    forall x | x in acc
      ensures Span(x) != Span(c)
    {
      SameRectIffSameSpan(x, c);
    }
    var r := acc + [c];
    forall i, j | 0 <= i < j < |r|
      ensures Span(r[i]) != Span(r[j])
    {
      if j == |acc| {
        assert r[i] in acc;
      }
    }
  }

  /** Some rectangle of `rects` spans the same box as `c`. */
  ghost predicate SpannedBy(rects: seq<Corners>, c: Corners) {
    exists x :: x in rects && Span(x) == Span(c)
  }

  /** No rectangle is lost: every one collected so far survives, and every processed
      point with a diagonal partner is paired with its nearest one in some rectangle,
      up to the duplicate test. */
  lemma {:induction false} CollectRectsCovers(todo: seq<Point>, points: seq<Point>, acc: seq<Corners>)
    requires forall p :: p in todo ==> p in points
    requires forall c :: c in acc ==> PairIn(c, points)
    requires DistinctSpans(acc)
    ensures forall c :: c in acc ==> c in CollectRects(todo, points, acc)
    ensures forall p :: p in todo && Closest(p, points).Some? ==>
      SpannedBy(CollectRects(todo, points, acc), Corners(p, Closest(p, points).value))
    decreases |todo|
  {
    if todo != [] {
      var p := todo[0];
      var q := Closest(p, points);
      var r := CollectRects(todo, points, acc);
      var next := if q.None? || AnySameRect(acc, Corners(p, q.value)) then acc else acc + [Corners(p, q.value)];
      if next != acc {
        forall x | x in acc ensures Diagonal(x.a, x.b) {
          assert PairIn(x, points);
        }
        NewSpan(acc, Corners(p, q.value));
      }
      assert r == CollectRects(todo[1..], points, next);
      CollectRectsCovers(todo[1..], points, next);
      if q.Some? {
        var c := Corners(p, q.value);
        if AnySameRect(acc, c) {
          var x :| x in acc && SameRect(x, c);
          assert PairIn(x, points);
          SameRectIffSameSpan(x, c);
          assert x in r;
        } else {
          assert c in next;
          assert c in r;
        }
      }
      forall p' | p' in todo && Closest(p', points).Some?
        ensures SpannedBy(r, Corners(p', Closest(p', points).value))
      {
        if p' != p {
          assert p' in todo[1..];
        }
      }
    }
  }

  /** The final loop: the spanned boxes, without any that equals `rhs`. */
  function Boxes(rects: seq<Corners>, rhs: Bounds): (r: seq<Bounds>)
    ensures forall b :: b in r <==> b != rhs && exists c :: c in rects && Span(c) == b
    ensures DistinctSpans(rects) ==> Distinct(r)
  {
    if rects == [] then []
    else
      var rest := Boxes(rects[1..], rhs);
      assert forall c :: c in rects <==> c == rects[0] || c in rects[1..];
      assert DistinctSpans(rects) ==> DistinctSpans(rects[1..]) && Span(rects[0]) !in rest by {
        if DistinctSpans(rects) {
          forall c | c in rects[1..] ensures Span(c) != Span(rects[0]) {
            var k :| 0 <= k < |rects[1..]| && rects[1..][k] == c;
            assert rects[k + 1] == c;
          }
        }
      }
      if Span(rects[0]) != rhs then [Span(rects[0])] + rest else rest
  }

  /** When every rectangle spans `rhs` itself, nothing is left. */
  lemma {:induction false} BoxesAllExcluded(rects: seq<Corners>, rhs: Bounds)
    requires forall c :: c in rects ==> Span(c) == rhs
    ensures Boxes(rects, rhs) == []
  {
    if rects != [] {
      BoxesAllExcluded(rects[1..], rhs);
    }
  }

  /** The latitude and longitude edges of two boxes, sorted. */
  function Latitudes(lhs: Bounds, rhs: Bounds): (r: seq<real>)
    requires lhs.Box? && rhs.Box?
    ensures Sorted(r) && multiset(r) == multiset([lhs.n, lhs.s, rhs.n, rhs.s])
  {
    Sort([lhs.n, lhs.s, rhs.n, rhs.s])
  }

  function Longitudes(lhs: Bounds, rhs: Bounds): (r: seq<real>)
    requires lhs.Box? && rhs.Box?
    ensures Sorted(r) && multiset(r) == multiset([lhs.e, lhs.w, rhs.e, rhs.w])
  {
    Sort([lhs.e, lhs.w, rhs.e, rhs.w])
  }

  /** The kept grid points of `boxMinusBox`. */
  function KeptGrid(lhs: Bounds, rhs: Bounds): (r: seq<Point>)
    requires lhs.Box? && rhs.Box?
    ensures forall p :: p in r <==>
      && p.lat in [lhs.n, lhs.s, rhs.n, rhs.s]
      && p.lon in [lhs.e, lhs.w, rhs.e, rhs.w]
      && Kept(lhs, rhs, p)
  {
    var horizontal := Latitudes(lhs, rhs);
    var vertical := Longitudes(lhs, rhs);
    assert forall x :: x in horizontal <==> x in [lhs.n, lhs.s, rhs.n, rhs.s] by {
      assert forall x :: x in horizontal <==> x in multiset(horizontal);
    }
    assert forall x :: x in vertical <==> x in [lhs.e, lhs.w, rhs.e, rhs.w] by {
      assert forall x :: x in vertical <==> x in multiset(vertical);
    }
    KeepPoints(Grid(vertical, horizontal), lhs, rhs)
  }

  /** The box `b` lies within the latitude and longitude ranges of box `outer`. */
  predicate WithinExtent(b: Bounds, outer: Bounds)
    requires b.Box? && outer.Box?
  {
    && Min(outer.s, outer.n) <= b.s && b.n <= Max(outer.s, outer.n)
    && Min(outer.w, outer.e) <= b.w && b.e <= Max(outer.w, outer.e)
  }

  /** A point in or on a box lies within its latitude and longitude ranges, whichever
      way round the edges were given. */
  lemma InOrOnExtent(b: Bounds, p: Point)
    requires b.Box? && InOrOn(b, p)
    ensures Min(b.s, b.n) <= p.lat <= Max(b.s, b.n)
    ensures Min(b.w, b.e) <= p.lon <= Max(b.w, b.e)
  {
  }

  /** What a rectangle paired from kept grid points spans: a proper box with input
      edges, inside `lhs`. */
  lemma SpanOfKeptPair(lhs: Bounds, rhs: Bounds, c: Corners)
    requires lhs.Box? && rhs.Box?
    requires PairIn(c, KeptGrid(lhs, rhs))
    ensures Span(c).s < Span(c).n && Span(c).w < Span(c).e
    ensures Span(c).s in [lhs.n, lhs.s, rhs.n, rhs.s] && Span(c).n in [lhs.n, lhs.s, rhs.n, rhs.s]
    ensures Span(c).w in [lhs.e, lhs.w, rhs.e, rhs.w] && Span(c).e in [lhs.e, lhs.w, rhs.e, rhs.w]
    ensures WithinExtent(Span(c), lhs)
  {
    InOrOnExtent(lhs, c.a);
    InOrOnExtent(lhs, c.b);
  }

  /** `boxMinusBox(lhs, rhs)`: the boxes spanned by kept grid points and their nearest
      diagonal kept partners, excluding `rhs`. Every result is a proper box whose edges
      are edges of the two inputs, inside `lhs`; none repeats. These boxes need not
      cover the part of `lhs` outside `rhs` (see RingLeavesStripUncovered). */
  function BoxMinusBox(lhs: Bounds, rhs: Bounds): (r: seq<Bounds>)
    requires lhs.Box? && rhs.Box?
    ensures forall b :: b in r ==> b.Box? && b.s < b.n && b.w < b.e
    ensures forall b :: b in r ==>
      && b.s in [lhs.n, lhs.s, rhs.n, rhs.s] && b.n in [lhs.n, lhs.s, rhs.n, rhs.s]
      && b.w in [lhs.e, lhs.w, rhs.e, rhs.w] && b.e in [lhs.e, lhs.w, rhs.e, rhs.w]
    ensures forall b :: b in r ==> WithinExtent(b, lhs)
    ensures forall b :: b in r ==> b != rhs
    ensures Distinct(r)
    ensures forall b :: b in r ==> exists p, q ::
      && p in KeptGrid(lhs, rhs) && Closest(p, KeptGrid(lhs, rhs)) == Some(q)
      && Span(Corners(p, q)) == b
  {
    var points := KeptGrid(lhs, rhs);
    var rects := CollectRects(points, points, []);
    var r := Boxes(rects, rhs);
    forall b | b in r
      ensures b.Box? && b.s < b.n && b.w < b.e && WithinExtent(b, lhs)
      ensures b.s in [lhs.n, lhs.s, rhs.n, rhs.s] && b.n in [lhs.n, lhs.s, rhs.n, rhs.s]
      ensures b.w in [lhs.e, lhs.w, rhs.e, rhs.w] && b.e in [lhs.e, lhs.w, rhs.e, rhs.w]
      ensures exists p, q :: p in points && Closest(p, points) == Some(q) && Span(Corners(p, q)) == b
    {
      var c :| c in rects && Span(c) == b;
      SpanOfKeptPair(lhs, rhs, c);
      assert c.a in points && Closest(c.a, points) == Some(c.b);
    }
    r
  }

  /** `difference(_:)`: only a box minus a box is computed; every other combination
      gives no boxes. */
  function Difference(self: Bounds, another: Bounds): (r: seq<Bounds>)
    ensures !(self.Box? && another.Box?) ==> r == []
    ensures forall b :: b in r ==> b.Box? && b.s < b.n && b.w < b.e && b != another
    ensures self.Box? ==> forall b :: b in r ==> WithinExtent(b, self)
    ensures Distinct(r)
    ensures self.Box? && another.Box? ==> r == BoxMinusBox(self, another)
  {
    match self
    case Box(_, _, _, _) =>
      (match another
       case Box(_, _, _, _) => BoxMinusBox(self, another)
       case _ => [])
    case _ => []
  }

  /** Two opposite corners of a well-formed box span the box itself. */
  lemma OppositeCornersSpan(b: Bounds, c: Corners)
    requires b.Box? && b.s <= b.n && b.w <= b.e
    requires BoxTouches(b.s, b.w, b.n, b.e, c.a) && BoxTouches(b.s, b.w, b.n, b.e, c.b)
    requires Diagonal(c.a, c.b)
    ensures Span(c) == b
  {
  }

  /** A well-formed box minus itself leaves nothing: the only kept points are its
      corners, and two opposite corners span the box itself. */
  lemma SelfDifferenceEmpty(b: Bounds)
    requires b.Box? && b.s <= b.n && b.w <= b.e
    ensures Difference(b, b) == []
  {
    var points := KeptGrid(b, b);
    var rects := CollectRects(points, points, []);
    assert Difference(b, b) == Boxes(rects, b);
    forall c | c in rects
      ensures Span(c) == b
    {
      assert PairIn(c, points);
      assert Kept(b, b, c.a) && Kept(b, b, c.b);
      OppositeCornersSpan(b, c);
    }
    BoxesAllExcluded(rects, b);
  }

  /** Among the grid points of the ring example, the nearest one to the origin that
      differs in both coordinates is (2, 2). */
  lemma NearestToOrigin(q: Point)
    requires q.lat in [10.0, 0.0, 8.0, 2.0] && q.lon in [10.0, 0.0, 8.0, 2.0]
    requires Diagonal(Point(0.0, 0.0), q)
    requires SqDistance(Point(0.0, 0.0), q) <= 8.0
    ensures q == Point(2.0, 2.0)
  {
  }

  /** Among points on the grid of the ring example that include (2, 2), the origin
      pairs with (2, 2). */
  lemma RingOriginPartner(points: seq<Point>)
    requires forall p :: p in points ==> p.lat in [10.0, 0.0, 8.0, 2.0] && p.lon in [10.0, 0.0, 8.0, 2.0]
    requires Point(2.0, 2.0) in points
    ensures Closest(Point(0.0, 0.0), points) == Some(Point(2.0, 2.0))
  {
    var o := Point(0.0, 0.0);
    var t := Point(2.0, 2.0);
    var q := Closest(o, points);
    assert q.Some?;
    assert SqDistance(o, q.value) <= SqDistance(o, t);
    NearestToOrigin(q.value);
  }

  /** Every kept grid point that has a diagonal partner contributes the box it spans
      with its nearest one, unless that box is `rhs`. */
  lemma NearestPairEmitted(lhs: Bounds, rhs: Bounds, p: Point, q: Point)
    requires lhs.Box? && rhs.Box?
    requires p in KeptGrid(lhs, rhs)
    requires Closest(p, KeptGrid(lhs, rhs)) == Some(q)
    requires Span(Corners(p, q)) != rhs
    ensures Span(Corners(p, q)) in BoxMinusBox(lhs, rhs)
  {
    var points := KeptGrid(lhs, rhs);
    var rects := CollectRects(points, points, []);
    CollectRectsCovers(points, points, []);
    assert SpannedBy(rects, Corners(p, q));
  }

  /** The ring of the outer box minus a box strictly inside it keeps the south-west
      corner square. */
  lemma RingKeepsCornerSquare(lhs: Bounds, rhs: Bounds)
    requires lhs == Box(0.0, 0.0, 10.0, 10.0) && rhs == Box(2.0, 2.0, 8.0, 8.0)
    ensures Box(0.0, 0.0, 2.0, 2.0) in Difference(lhs, rhs)
  {
    var points := KeptGrid(lhs, rhs);
    var o := Point(0.0, 0.0);
    var t := Point(2.0, 2.0);
    assert Kept(lhs, rhs, o) && Kept(lhs, rhs, t);
    assert o.lat in [lhs.n, lhs.s, rhs.n, rhs.s] && o.lon in [lhs.e, lhs.w, rhs.e, rhs.w];
    assert t.lat in [lhs.n, lhs.s, rhs.n, rhs.s] && t.lon in [lhs.e, lhs.w, rhs.e, rhs.w];
    assert o in points && t in points;
    assert [lhs.n, lhs.s, rhs.n, rhs.s] == [10.0, 0.0, 8.0, 2.0];
    assert [lhs.e, lhs.w, rhs.e, rhs.w] == [10.0, 0.0, 8.0, 2.0];
    RingOriginPartner(points);
    assert Span(Corners(o, t)) == Box(0.0, 0.0, 2.0, 2.0);
    NearestPairEmitted(lhs, rhs, o, t);
  }

  /** The grid edge two units away from `x` on the grid of the ring example. */
  function RingNeighbour(x: real): (r: real)
    requires x in [10.0, 0.0, 8.0, 2.0]
    ensures r in [10.0, 0.0, 8.0, 2.0]
    ensures (x - r) * (x - r) == 4.0
  {
    if x == 0.0 then 2.0 else if x == 2.0 then 0.0 else if x == 8.0 then 10.0 else 8.0
  }

  /** Two different edges of the ring grid are at least two units apart, and exactly
      two when their squared gap is at most four. */
  lemma RingEdgeGap(x: real, y: real)
    requires x in [10.0, 0.0, 8.0, 2.0] && y in [10.0, 0.0, 8.0, 2.0] && x != y
    ensures (x - y) * (x - y) >= 4.0
    ensures (x - y) * (x - y) <= 4.0 ==> Max(x, y) - Min(x, y) == 2.0
  {
  }

  /** Every point of the ring grid is kept: the inner box contains none of them. */
  lemma RingGridKept(lhs: Bounds, rhs: Bounds, p: Point)
    requires lhs == Box(0.0, 0.0, 10.0, 10.0) && rhs == Box(2.0, 2.0, 8.0, 8.0)
    requires p.lat in [10.0, 0.0, 8.0, 2.0] && p.lon in [10.0, 0.0, 8.0, 2.0]
    ensures p in KeptGrid(lhs, rhs)
  {
    assert Kept(lhs, rhs, p);
  }

  /** The nearest diagonal partner of a point is no farther than any other diagonal
      point; with a partner at squared distance 8 on the ring grid, both gaps are 2. */
  lemma SquareFromNearest(p: Point, q: Point)
    requires p.lat in [10.0, 0.0, 8.0, 2.0] && p.lon in [10.0, 0.0, 8.0, 2.0]
    requires q.lat in [10.0, 0.0, 8.0, 2.0] && q.lon in [10.0, 0.0, 8.0, 2.0]
    requires Diagonal(p, q) && SqDistance(p, q) <= 8.0
    ensures Span(Corners(p, q)).n - Span(Corners(p, q)).s == 2.0
    ensures Span(Corners(p, q)).e - Span(Corners(p, q)).w == 2.0
  {
    RingEdgeGap(p.lat, q.lat);
    RingEdgeGap(p.lon, q.lon);
    BothAtMostHalf((p.lat - q.lat) * (p.lat - q.lat), (p.lon - q.lon) * (p.lon - q.lon));
  }

  /** Two terms of at least 4 whose sum is at most 8 are both at most 4. */
  lemma BothAtMostHalf(x: real, y: real)
    requires 4.0 <= x && 4.0 <= y && x + y <= 8.0
    ensures x <= 4.0 && y <= 4.0
  {
  }

  /** On a set of points holding the whole ring grid, every point pairs with one two
      units away in each coordinate. */
  lemma GridPairsAreSquares(points: seq<Point>, p: Point, q: Point)
    requires forall x :: x in points ==> x.lat in [10.0, 0.0, 8.0, 2.0] && x.lon in [10.0, 0.0, 8.0, 2.0]
    requires forall x: Point :: x.lat in [10.0, 0.0, 8.0, 2.0] && x.lon in [10.0, 0.0, 8.0, 2.0] ==> x in points
    requires p in points && Closest(p, points) == Some(q)
    ensures Span(Corners(p, q)).n - Span(Corners(p, q)).s == 2.0
    ensures Span(Corners(p, q)).e - Span(Corners(p, q)).w == 2.0
    ensures Span(Corners(p, q)).s in [10.0, 0.0, 8.0, 2.0]
  {
    var w := Point(RingNeighbour(p.lat), RingNeighbour(p.lon));
    NeighbourDistance(p);
    assert w in points && Diagonal(p, w);
    assert q in points && SqDistance(p, q) <= SqDistance(p, w);
    SquareFromNearest(p, q);
  }

  /** The grid neighbour of a ring grid point is at squared distance 8. */
  lemma NeighbourDistance(p: Point)
    requires p.lat in [10.0, 0.0, 8.0, 2.0] && p.lon in [10.0, 0.0, 8.0, 2.0]
    ensures SqDistance(p, Point(RingNeighbour(p.lat), RingNeighbour(p.lon))) == 8.0
  {
  }

  /** In the ring example every kept grid point pairs with a point two units away in
      each coordinate, so every rectangle is a 2 by 2 square. */
  lemma RingPairsAreSquares(lhs: Bounds, rhs: Bounds, p: Point, q: Point)
    requires lhs == Box(0.0, 0.0, 10.0, 10.0) && rhs == Box(2.0, 2.0, 8.0, 8.0)
    requires p in KeptGrid(lhs, rhs) && Closest(p, KeptGrid(lhs, rhs)) == Some(q)
    ensures Span(Corners(p, q)).n - Span(Corners(p, q)).s == 2.0
    ensures Span(Corners(p, q)).e - Span(Corners(p, q)).w == 2.0
    ensures Span(Corners(p, q)).s in [10.0, 0.0, 8.0, 2.0]
  {
    var points := KeptGrid(lhs, rhs);
    assert [lhs.n, lhs.s, rhs.n, rhs.s] == [10.0, 0.0, 8.0, 2.0];
    assert [lhs.e, lhs.w, rhs.e, rhs.w] == [10.0, 0.0, 8.0, 2.0];
    forall x: Point | x.lat in [10.0, 0.0, 8.0, 2.0] && x.lon in [10.0, 0.0, 8.0, 2.0]
      ensures x in points
    {
      RingGridKept(lhs, rhs, x);
    }
    GridPairsAreSquares(points, p, q);
  }

  /** A 2 by 2 square with a southern edge on the ring grid misses the point (5, 1). */
  lemma SquareMissesStrip(b: Bounds)
    requires b.Box? && b.n - b.s == 2.0 && b.s in [10.0, 0.0, 8.0, 2.0]
    ensures !InOrOn(b, Point(5.0, 1.0))
  {
    if InOrOn(b, Point(5.0, 1.0)) {
      InOrOnExtent(b, Point(5.0, 1.0));
    }
  }

  /** Every box of the ring example is a 2 by 2 square with edges on the grid. */
  lemma RingBoxesAreSquares(lhs: Bounds, rhs: Bounds)
    requires lhs == Box(0.0, 0.0, 10.0, 10.0) && rhs == Box(2.0, 2.0, 8.0, 8.0)
    ensures forall b :: b in BoxMinusBox(lhs, rhs) ==>
      b.Box? && b.n - b.s == 2.0 && b.s in [10.0, 0.0, 8.0, 2.0]
  {
    forall b | b in BoxMinusBox(lhs, rhs)
      ensures b.Box? && b.n - b.s == 2.0 && b.s in [10.0, 0.0, 8.0, 2.0]
    {
      var p, q :| p in KeptGrid(lhs, rhs) && Closest(p, KeptGrid(lhs, rhs)) == Some(q) && Span(Corners(p, q)) == b;
      RingPairsAreSquares(lhs, rhs, p, q);
    }
  }

  /** No box of the ring example is in or on the point (5, 1). */
  lemma RingBoxesMissStrip(lhs: Bounds, rhs: Bounds)
    requires lhs == Box(0.0, 0.0, 10.0, 10.0) && rhs == Box(2.0, 2.0, 8.0, 8.0)
    ensures forall b :: b in BoxMinusBox(lhs, rhs) ==> !InOrOn(b, Point(5.0, 1.0))
  {
    RingBoxesAreSquares(lhs, rhs);
    forall b | b in BoxMinusBox(lhs, rhs)
      ensures !InOrOn(b, Point(5.0, 1.0))
    {
      SquareMissesStrip(b);
    }
  }

  /** The point (5, 1) lies inside the outer box of the ring example and neither in
      nor on the inner one. */
  lemma StripPointPlacement()
    ensures BoxContains(0.0, 0.0, 10.0, 10.0, Point(5.0, 1.0))
    ensures !InOrOn(Box(2.0, 2.0, 8.0, 8.0), Point(5.0, 1.0))
  {
  }

  /** The difference need not cover `lhs` minus `rhs`: in the ring example the point
      (5, 1) on the western strip lies inside the outer box and outside the inner one,
      yet in or on none of the boxes returned. */
  lemma RingLeavesStripUncovered(lhs: Bounds, rhs: Bounds)
    requires lhs == Box(0.0, 0.0, 10.0, 10.0) && rhs == Box(2.0, 2.0, 8.0, 8.0)
    ensures BoxContains(lhs.s, lhs.w, lhs.n, lhs.e, Point(5.0, 1.0))
    ensures !InOrOn(rhs, Point(5.0, 1.0))
    ensures forall b :: b in Difference(lhs, rhs) ==> !InOrOn(b, Point(5.0, 1.0))
  {
    StripPointPlacement();
    RingBoxesMissStrip(lhs, rhs);
    assert Difference(lhs, rhs) == BoxMinusBox(lhs, rhs);
  }
}
