/** ShapeContainer: one decomposed simple shape and its containment test
    (point tolerance, distance to a polyline, even-odd ray casting). */
module Shapes {
  import opened Spatial

  datatype ShapeType = ShapePoint | ShapeLineString | ShapeLinearRing | ShapePolygon | ShapeUnknown

  datatype ShapeContainer = ShapeContainer(shapeType: ShapeType, points: seq<Point>, boundingBox: Envelope)

  /** The display name of a shape type. */
  function ShapeDescription(t: ShapeType): (s: string)
    ensures s == "Unknown shape type" <==> t == ShapeUnknown
  {
    match t
    case ShapePolygon => "Polygon"
    case ShapeLinearRing => "LinearRing"
    case ShapeLineString => "LineString"
    case ShapePoint => "Point"
    case ShapeUnknown => "Unknown shape type"
  }

  lemma DescriptionsDistinct(s: ShapeType, t: ShapeType)
    requires s != t
    ensures ShapeDescription(s) != ShapeDescription(t)
  {
  }

  // ---------------------------------------------------------------------------
  // Distances. The original compares Euclidean distances obtained by sqrt;
  // the model compares their squares, which orders the same way.

  /** The identity on reals. It is only a proof device: `Sq` multiplies r by
      `Same(r)` instead of by r, so the verifier does not turn r * r into a
      power term, which it reasons about poorly. */
  function Same(r: real): (s: real)
    ensures s == r
  {
    r
  }

  function Sq(r: real): real { r * Same(r) }

  /** Squared Euclidean distance. */
  function SqDist(a: Point, b: Point): (d: real)
    ensures d >= 0.0
  {
    Sq(a.x - b.x) + Sq(a.y - b.y)
  }

  /** The point at parameter t on the line through start and end. */
  function Along(start: Point, end: Point, t: real): Point {
    Point(start.x + t * (end.x - start.x), start.y + t * (end.y - start.y))
  }

  /** (p - start) . (end - start) */
  function Dot(start: Point, end: Point, p: Point): real {
    (p.x - start.x) * (end.x - start.x) + (p.y - start.y) * (end.y - start.y)
  }

  /** |end - start|^2 */
  function SqLen(start: Point, end: Point): real {
    Sq(end.x - start.x) + Sq(end.y - start.y)
  }

  /** distance_to_segment, squared: a zero-length segment is its start point;
      otherwise the projection parameter t is clamped to the segment. */
  function SqDistanceToSegment(start: Point, end: Point, p: Point): (d: real)
    ensures d >= 0.0
    ensures start == end ==> d == SqDist(p, start)
  {
    var dx := end.x - start.x;
    var dy := end.y - start.y;
    if dx == 0.0 && dy == 0.0 then SqDist(p, start)
    else
      SqLenPositive(start, end);
      var t := Dot(start, end, p) / SqLen(start, end);
      if t > 1.0 then SqDist(p, end)
      else if t < 0.0 then SqDist(p, start)
      else SqDist(p, Along(start, end, t))
  }

  lemma MulPos(a: real, b: real)
    requires a > 0.0 && b > 0.0
    ensures a * b > 0.0
  {
  }

  lemma MulNonneg(a: real, b: real)
    requires a >= 0.0 && b >= 0.0
    ensures a * b >= 0.0
  {
  }

  lemma SqNonneg(a: real)
    ensures Sq(a) >= 0.0
  {
    if a != 0.0 {
      SqPos(a);
    }
  }

  lemma SqPos(a: real)
    requires a != 0.0
    ensures Sq(a) > 0.0
  {
    if a > 0.0 {
      MulPos(a, Same(a));
    } else {
      MulPos(-a, -Same(a));
      assert (-a) * (-Same(a)) == a * Same(a);
    }
  }

  lemma SqLenPositive(start: Point, end: Point)
    requires end.x - start.x != 0.0 || end.y - start.y != 0.0
    ensures SqLen(start, end) > 0.0
  {
    var dx, dy := end.x - start.x, end.y - start.y;
    SqNonneg(dx);
    SqNonneg(dy);
    if dx != 0.0 {
      SqPos(dx);
    } else {
      SqPos(dy);
    }
  }

  lemma SqOfDifference(a: real, b: real)
    ensures Sq(a - b) == Sq(a) - 2.0 * (a * b) + Sq(b)
  {
  }

  lemma SqOfProduct(t: real, d: real)
    ensures Sq(t * d) == Sq(t) * Sq(d)
  {
  }

  lemma Rearranges(a: real, b: real, c: real)
    ensures a * (b * c) == b * (a * c)
  {
  }

  /** Q(u) = s - 2uw + u^2 l: the squared distance from p to the point at
      parameter u, with s = |p - start|^2, w = (p - start).(end - start) and
      l = |end - start|^2. */
  function Quadratic(s: real, w: real, l: real, u: real): real {
    s - 2.0 * (u * w) + Sq(u) * l
  }

  /** One coordinate of the point at parameter t, squared. */
  lemma {:induction false} ComponentQuadratic(w: real, d: real, t: real)
    ensures Sq(w - t * d) == Quadratic(Sq(w), w * d, Sq(d), t)
  {
    SqOfDifference(w, t * d);
    SqOfProduct(t, d);
    Rearranges(w, t, d);
  }

  /** Quadratics in the same parameter add coefficient by coefficient. */
  lemma QuadraticSum(s1: real, w1: real, l1: real, s2: real, w2: real, l2: real, u: real)
    ensures Quadratic(s1, w1, l1, u) + Quadratic(s2, w2, l2, u) == Quadratic(s1 + s2, w1 + w2, l1 + l2, u)
  {
  }

  /** The squared distance to the point at parameter t is quadratic in t. */
  lemma {:induction false} AlongQuadratic(start: Point, end: Point, p: Point, t: real)
    ensures SqDist(p, Along(start, end, t)) == Quadratic(SqDist(p, start), Dot(start, end, p), SqLen(start, end), t)
  {
    var wx, wy := p.x - start.x, p.y - start.y;
    var dx, dy := end.x - start.x, end.y - start.y;
    assert SqDist(p, Along(start, end, t)) == Sq(wx - t * dx) + Sq(wy - t * dy);
    ComponentQuadratic(wx, dx, t);
    ComponentQuadratic(wy, dy, t);
    QuadraticSum(Sq(wx), wx * dx, Sq(dx), Sq(wy), wy * dy, Sq(dy), t);
  }

  /** The difference of a quadratic's values at t and u. */
  lemma QuadraticGap(s: real, w: real, l: real, t: real, u: real)
    ensures Quadratic(s, w, l, t) - Quadratic(s, w, l, u) == (t - u) * (l * (t + u) - 2.0 * w)
  {
  }

  /** With w = ts * l and l > 0 the quadratic decreases up to ts: over [0, 1]
      its minimum is at 1 when ts > 1, at 0 when ts < 0, and at ts otherwise. */
  lemma {:induction false} MinimumBeyondEnd(s: real, w: real, l: real, ts: real, t: real)
    requires l > 0.0 && w == ts * l && ts > 1.0 && 0.0 <= t <= 1.0
    ensures Quadratic(s, w, l, 1.0) <= Quadratic(s, w, l, t)
  {
    QuadraticGap(s, w, l, t, 1.0);
    var gap := 2.0 * ts - t - 1.0;
    assert (t - 1.0) * (l * (t + 1.0) - 2.0 * w) == (1.0 - t) * (l * gap);
    MulPos(l, gap);
    MulNonneg(1.0 - t, l * gap);
  }

  lemma {:induction false} MinimumBeforeStart(s: real, w: real, l: real, ts: real, t: real)
    requires l > 0.0 && w == ts * l && ts < 0.0 && 0.0 <= t <= 1.0
    ensures Quadratic(s, w, l, 0.0) <= Quadratic(s, w, l, t)
  {
    QuadraticGap(s, w, l, t, 0.0);
    var gap := t - 2.0 * ts;
    assert (t - 0.0) * (l * (t + 0.0) - 2.0 * w) == t * (l * gap);
    MulNonneg(l, gap);
    MulNonneg(t, l * gap);
  }

  lemma {:induction false} MinimumAtFoot(s: real, w: real, l: real, ts: real, t: real)
    requires l > 0.0 && w == ts * l
    ensures Quadratic(s, w, l, ts) <= Quadratic(s, w, l, t)
  {
    QuadraticGap(s, w, l, t, ts);
    assert (t - ts) * (l * (t + ts) - 2.0 * w) == l * Sq(t - ts);
    SqNonneg(t - ts);
    MulNonneg(l, Sq(t - ts));
  }

  /** The projection parameter, scaled back, is the dot product. */
  lemma FootParameter(start: Point, end: Point, p: Point)
    requires SqLen(start, end) > 0.0
    ensures Dot(start, end, p) == (Dot(start, end, p) / SqLen(start, end)) * SqLen(start, end)
  {
  }

  /** Comparing two points of the line through start and end by their distance
      to p is comparing the quadratic at their parameters. */
  lemma {:induction false} CloserAlong(start: Point, end: Point, p: Point, u: real, t: real)
    requires Quadratic(SqDist(p, start), Dot(start, end, p), SqLen(start, end), u) <=
             Quadratic(SqDist(p, start), Dot(start, end, p), SqLen(start, end), t)
    ensures SqDist(p, Along(start, end, u)) <= SqDist(p, Along(start, end, t))
  {
    AlongQuadratic(start, end, p, t);
    AlongQuadratic(start, end, p, u);
  }

  /** The foot of the perpendicular from p is the closest point of the whole line. */
  lemma {:induction false} FootIsClosest(start: Point, end: Point, p: Point, ts: real, t: real)
    requires SqLen(start, end) > 0.0 && ts == Dot(start, end, p) / SqLen(start, end)
    ensures SqDist(p, Along(start, end, ts)) <= SqDist(p, Along(start, end, t))
  {
    FootParameter(start, end, p);
    MinimumAtFoot(SqDist(p, start), Dot(start, end, p), SqLen(start, end), ts, t);
    CloserAlong(start, end, p, ts, t);
  }

  /** When the foot lies beyond end, end is the closest point of the segment. */
  lemma {:induction false} EndIsClosest(start: Point, end: Point, p: Point, ts: real, t: real)
    requires SqLen(start, end) > 0.0 && ts == Dot(start, end, p) / SqLen(start, end)
    requires ts > 1.0 && 0.0 <= t <= 1.0
    ensures SqDist(p, end) <= SqDist(p, Along(start, end, t))
  {
    FootParameter(start, end, p);
    MinimumBeyondEnd(SqDist(p, start), Dot(start, end, p), SqLen(start, end), ts, t);
    CloserAlong(start, end, p, 1.0, t);
    assert Along(start, end, 1.0) == end;
  }

  /** When the foot lies before start, start is the closest point of the segment. */
  lemma {:induction false} StartIsClosest(start: Point, end: Point, p: Point, ts: real, t: real)
    requires SqLen(start, end) > 0.0 && ts == Dot(start, end, p) / SqLen(start, end)
    requires ts < 0.0 && 0.0 <= t <= 1.0
    ensures SqDist(p, start) <= SqDist(p, Along(start, end, t))
  {
    FootParameter(start, end, p);
    MinimumBeforeStart(SqDist(p, start), Dot(start, end, p), SqLen(start, end), ts, t);
    CloserAlong(start, end, p, 0.0, t);
    assert Along(start, end, 0.0) == start;
  }

  /** No point of the segment is closer to p than the value distance_to_segment returns. */
  lemma {:induction false} SegmentDistanceIsMinimal(start: Point, end: Point, p: Point, t: real)
    requires 0.0 <= t <= 1.0
    ensures SqDistanceToSegment(start, end, p) <= SqDist(p, Along(start, end, t))
  {
    var dx, dy := end.x - start.x, end.y - start.y;
    if dx == 0.0 && dy == 0.0 {
      assert Along(start, end, t) == start;
    } else {
      SqLenPositive(start, end);
      var ts := Dot(start, end, p) / SqLen(start, end);
      if ts > 1.0 {
        EndIsClosest(start, end, p, ts, t);
      } else if ts < 0.0 {
        StartIsClosest(start, end, p, ts, t);
      } else {
        FootIsClosest(start, end, p, ts, t);
      }
    }
  }

  /** The value distance_to_segment returns is the distance to some point of the segment. */
  lemma SegmentDistanceIsAttained(start: Point, end: Point, p: Point) returns (t: real)
    ensures 0.0 <= t <= 1.0 && SqDistanceToSegment(start, end, p) == SqDist(p, Along(start, end, t))
  {
    var dx, dy := end.x - start.x, end.y - start.y;
    if dx == 0.0 && dy == 0.0 {
      t := 0.0;
      assert Along(start, end, 0.0) == start;
    } else {
      SqLenPositive(start, end);
      var ts := Dot(start, end, p) / SqLen(start, end);
      if ts > 1.0 {
        t := 1.0;
        assert Along(start, end, 1.0) == end;
      } else if ts < 0.0 {
        t := 0.0;
        assert Along(start, end, 0.0) == start;
      } else {
        t := ts;
      }
    }
  }

  // ---------------------------------------------------------------------------
  // The containment test as specification functions.

  /** within_point: strictly closer than the 4-unit tolerance to the first point. */
  predicate NearPoint(points: seq<Point>, p: Point) {
    |points| > 0 && SqDist(p, points[0]) < 16.0
  }

  /** within_line: some consecutive pair of points lies within distance 1 of p. */
  predicate NearPolyline(points: seq<Point>, p: Point) {
    exists i :: 0 <= i < |points| - 1 && SqDistanceToSegment(points[i], points[i + 1], p) <= 1.0
  }

  /** within_linearring: the polyline closed by repeating its first point. */
  predicate NearRing(points: seq<Point>, p: Point) {
    |points| > 0 && NearPolyline(points + [points[0]], p)
  }

  /** The bounding-box fast path of within_polygon. */
  predicate InBox(box: Envelope, p: Point) {
    box.topLeft.x <= p.x && box.topLeft.y <= p.y && box.bottomRight.x >= p.x && box.bottomRight.y >= p.y
  }

  /** The edge from a = points[i] to b = points[j] straddles the horizontal line
      through p, and crosses it to the right of p. */
  predicate EdgeCrosses(a: Point, b: Point, p: Point) {
    ((a.y > p.y) != (b.y > p.y)) && p.x < (b.x - a.x) * (p.y - a.y) / (b.y - a.y) + a.x
  }

  /** The index before i, wrapping to the last vertex. */
  function Prev(i: nat, n: nat): nat
    requires i < n
  {
    if i == 0 then n - 1 else i - 1
  }

  /** Number of i < k whose edge (points[i], points[i-1 wrapping]) crosses to the right of p. */
  function CrossCount(points: seq<Point>, p: Point, k: nat): nat
    requires k <= |points|
  {
    if k == 0 then 0
    else CrossCount(points, p, k - 1) + (if EdgeCrosses(points[k - 1], points[Prev(k - 1, |points|)], p) then 1 else 0)
  }

  /** Each further edge flips the parity of the count exactly when it crosses. */
  lemma ParityStep(points: seq<Point>, p: Point, k: nat)
    requires k < |points|
    ensures CrossCount(points, p, k + 1) % 2 == 1 <==>
            (CrossCount(points, p, k) % 2 == 1) != EdgeCrosses(points[k], points[Prev(k, |points|)], p)
  {
  }

  /** within_polygon: inside the bounding box and an odd number of crossings. */
  predicate InsidePolygon(s: ShapeContainer, p: Point) {
    |s.points| > 0 && InBox(s.boundingBox, p) && CrossCount(s.points, p, |s.points|) % 2 == 1
  }

  /** ShapeContainer::within, dispatched on the shape type. */
  predicate Within(s: ShapeContainer, p: Point) {
    match s.shapeType
    case ShapePoint => NearPoint(s.points, p)
    case ShapeLineString => NearPolyline(s.points, p)
    case ShapeLinearRing => NearRing(s.points, p)
    case ShapePolygon => InsidePolygon(s, p)
    case ShapeUnknown => false
  }

  // ---------------------------------------------------------------------------
  // The containment test as the original runs it.

  /** within_line: walks consecutive pairs and stops at the first one near p. */
  method WithinLine(points: seq<Point>, p: Point) returns (r: bool)
    ensures r <==> NearPolyline(points, p)
  {
    if |points| == 0 {
      return false;
    }
    var prev := 0;
    var k := 1;
    while k < |points|
      invariant 1 <= k <= |points|
      invariant prev == k - 1
      invariant forall i :: 0 <= i < k - 1 ==> SqDistanceToSegment(points[i], points[i + 1], p) > 1.0
    {
      if SqDistanceToSegment(points[prev], points[k], p) <= 1.0 {
        return true;
      }
      prev := k;
      k := k + 1;
    }
    return false;
  }

  /** within_linearring: copies the points, appends the first, and tests the line. */
  method WithinLinearRing(points: seq<Point>, p: Point) returns (r: bool)
    ensures r <==> NearRing(points, p)
  {
    if |points| == 0 {
      return false;
    }
    var tmp := points + [points[0]];
    r := WithinLine(tmp, p);
  }

  /** within_polygon: bounding-box reject, then even-odd ray casting with j = i-1 wrapping. */
  method WithinPolygon(s: ShapeContainer, p: Point) returns (r: bool)
    ensures r <==> InsidePolygon(s, p)
  {
    var points := s.points;
    if |points| == 0 {
      return false;
    }
    var box := s.boundingBox;
    if !(box.topLeft.x <= p.x && box.topLeft.y <= p.y && box.bottomRight.x >= p.x && box.bottomRight.y >= p.y) {
      return false;
    }
    var c := false;
    var nvert := |points|;
    var i, j := 0, nvert - 1;
    while i < nvert
      invariant 0 <= i <= nvert
      invariant j == if i == 0 then nvert - 1 else i - 1
      invariant c <==> CrossCount(points, p, i) % 2 == 1
    {
      ParityStep(points, p, i);
      if EdgeCrosses(points[i], points[j], p) {
        c := !c;
      }
      j := i;
      i := i + 1;
    }
    return c;
  }

  /** ShapeContainer::within. */
  method ShapeWithin(s: ShapeContainer, p: Point) returns (r: bool)
    ensures r <==> Within(s, p)
  {
    match s.shapeType {
      case ShapePoint =>
        r := |s.points| > 0 && SqDist(p, s.points[0]) < 16.0;
      case ShapeLineString =>
        r := WithinLine(s.points, p);
      case ShapeLinearRing =>
        r := WithinLinearRing(s.points, p);
      case ShapePolygon =>
        r := WithinPolygon(s, p);
      case ShapeUnknown =>
        r := false;
    }
  }

  // ---------------------------------------------------------------------------
  // Properties of the containment test.

  /** An empty point list and an unknown shape type never contain anything. */
  lemma EmptyNeverWithin(s: ShapeContainer, p: Point)
    requires |s.points| == 0 || s.shapeType == ShapeUnknown
    ensures !Within(s, p)
  {
  }

  /** The point at parameter t on segment i of the polyline lies within distance 1 of p. */
  predicate CloseAt(points: seq<Point>, p: Point, i: int, t: real) {
    0 <= i < |points| - 1 && 0.0 <= t <= 1.0 && SqDist(p, Along(points[i], points[i + 1], t)) <= 1.0
  }

  /** A polyline is near p exactly when some point on one of its segments is within distance 1. */
  lemma NearPolylineGeometric(points: seq<Point>, p: Point)
    ensures NearPolyline(points, p) <==> exists i, t :: CloseAt(points, p, i, t)
  {
    if NearPolyline(points, p) {
      var i :| 0 <= i < |points| - 1 && SqDistanceToSegment(points[i], points[i + 1], p) <= 1.0;
      var t := SegmentDistanceIsAttained(points[i], points[i + 1], p);
      assert CloseAt(points, p, i, t);
    }
    if exists i, t :: CloseAt(points, p, i, t) {
      var i, t :| CloseAt(points, p, i, t);
      SegmentDistanceIsMinimal(points[i], points[i + 1], p, t);
    }
  }

  /** A ring also tests its closing edge from the last point back to the first,
      which the same points as a line string do not. */
  lemma RingTestsClosingEdge(points: seq<Point>, p: Point)
    requires |points| > 0
    requires SqDistanceToSegment(points[|points| - 1], points[0], p) <= 1.0
    ensures Within(ShapeContainer(ShapeLinearRing, points, EmptyEnvelope()), p)
  {
    var tmp := points + [points[0]];
    assert tmp[|points| - 1] == points[|points| - 1] && tmp[|points|] == points[0];
  }

  /** A ring contains every point the same points as a line string contain. */
  lemma RingExtendsLine(points: seq<Point>, p: Point, box: Envelope)
    requires NearPolyline(points, p)
    ensures Within(ShapeContainer(ShapeLinearRing, points, box), p)
  {
    var i :| 0 <= i < |points| - 1 && SqDistanceToSegment(points[i], points[i + 1], p) <= 1.0;
    var tmp := points + [points[0]];
    assert tmp[i] == points[i] && tmp[i + 1] == points[i + 1];
  }

  /** A point shape is hit exactly when p lies strictly within 4 units of it,
      in particular always at the point itself. */
  lemma PointShapeTolerance(q: Point, p: Point, box: Envelope)
    ensures Within(ShapeContainer(ShapePoint, [q], box), p) <==> SqDist(p, q) < 16.0
    ensures Within(ShapeContainer(ShapePoint, [q], box), q)
  {
  }

  /** The pixel-space box of an axis-aligned rectangle: top-left (x0,y0), bottom-right (x1,y1). */
  function Rectangle(x0: real, y0: real, x1: real, y1: real): ShapeContainer {
    ShapeContainer(ShapePolygon, [Point(x0, y0), Point(x1, y0), Point(x1, y1), Point(x0, y1)],
                   Envelope(Point(x0, y0), Point(x1, y1), true))
  }

  /** Ray casting is exact for rectangles: every point strictly inside is within,
      every point outside the bounding box is not. */
  lemma RectangleContainment(x0: real, y0: real, x1: real, y1: real, p: Point)
    requires x0 < x1 && y0 < y1
    ensures x0 < p.x < x1 && y0 < p.y < y1 ==> Within(Rectangle(x0, y0, x1, y1), p)
    ensures !(x0 <= p.x <= x1 && y0 <= p.y <= y1) ==> !Within(Rectangle(x0, y0, x1, y1), p)
  {
    var pts := Rectangle(x0, y0, x1, y1).points;
    if x0 < p.x < x1 && y0 < p.y < y1 {
      assert !EdgeCrosses(pts[0], pts[3], p);
      assert !EdgeCrosses(pts[1], pts[0], p);
      assert EdgeCrosses(pts[2], pts[1], p);
      assert !EdgeCrosses(pts[3], pts[2], p);
      assert CrossCount(pts, p, 1) == 0;
      assert CrossCount(pts, p, 2) == 0;
      assert CrossCount(pts, p, 3) == 1;
      assert CrossCount(pts, p, 4) == 1;
    }
  }

  /** (v - u) x (p - u): positive when p lies to the left of the directed line u -> v. */
  function Cross(u: Point, v: Point, p: Point): real {
    (v.x - u.x) * (p.y - u.y) - (v.y - u.y) * (p.x - u.x)
  }

  /** An edge that straddles p's height crosses to the right of p exactly when
      p's side of the edge agrees with the edge's vertical direction. */
  lemma CrossingSide(u: Point, v: Point, p: Point)
    requires (u.y > p.y) != (v.y > p.y)
    ensures EdgeCrosses(u, v, p) <==> Cross(u, v, p) * (v.y - u.y) > 0.0
  {
    var d := v.y - u.y;
    var gap := (v.x - u.x) * (p.y - u.y) / d + u.x - p.x;
    assert gap * d == Cross(u, v, p);
    assert Cross(u, v, p) * d == gap * (d * d);
    assert d * d > 0.0 by {
      if d > 0.0 {
        MulPos(d, d);
      } else {
        MulPos(-d, -d);
        assert (-d) * (-d) == d * d;
      }
    }
    if gap > 0.0 {
      MulPos(gap, d * d);
    } else {
      MulNonneg(-gap, d * d);
    }
  }

  /** A convex combination of u, v, w with positive weights is at most their maximum,
      and strictly below it unless all three equal it. */
  lemma WeightedBelow(l: real, m: real, n: real, u: real, v: real, w: real, top: real)
    requires l > 0.0 && m > 0.0 && n > 0.0 && l + m + n == 1.0
    requires u <= top && v <= top && w <= top
    ensures l * u + m * v + n * w <= top
    ensures u < top || v < top || w < top ==> l * u + m * v + n * w < top
  {
    MulNonneg(l, top - u);
    MulNonneg(m, top - v);
    MulNonneg(n, top - w);
    if u < top {
      MulPos(l, top - u);
    }
    if v < top {
      MulPos(m, top - v);
    }
    if w < top {
      MulPos(n, top - w);
    }
    assert top - (l * u + m * v + n * w) == l * (top - u) + m * (top - v) + n * (top - w) by {
      assert (l + m + n) * top == top;
    }
  }

  /** The mirror image of WeightedBelow: at least the minimum. */
  lemma WeightedAbove(l: real, m: real, n: real, u: real, v: real, w: real, bottom: real)
    requires l > 0.0 && m > 0.0 && n > 0.0 && l + m + n == 1.0
    requires u >= bottom && v >= bottom && w >= bottom
    ensures l * u + m * v + n * w >= bottom
    ensures u > bottom || v > bottom || w > bottom ==> l * u + m * v + n * w > bottom
  {
    WeightedBelow(l, m, n, -u, -v, -w, -bottom);
    assert l * -u + m * -v + n * -w == -(l * u + m * v + n * w);
  }

  function Min3(a: real, b: real, c: real): real { Min(a, Min(b, c)) }
  function Max3(a: real, b: real, c: real): real { Max(a, Max(b, c)) }

  /** A triangle polygon shape in pixel space with its bounding box:
      top-left (least x, least y), bottom-right (greatest x, greatest y). */
  function Triangle(a: Point, b: Point, c: Point): ShapeContainer {
    ShapeContainer(ShapePolygon, [a, b, c],
                   Envelope(Point(Min3(a.x, b.x, c.x), Min3(a.y, b.y, c.y)),
                            Point(Max3(a.x, b.x, c.x), Max3(a.y, b.y, c.y)), true))
  }

  /** The point with barycentric weights l, m, n in the triangle a, b, c. */
  function Barycentric(a: Point, b: Point, c: Point, l: real, m: real, n: real): Point {
    Point(l * a.x + m * b.x + n * c.x, l * a.y + m * b.y + n * c.y)
  }

  /** The side of each edge that an interior point lies on is the triangle's
      orientation, scaled by the weight of the opposite vertex. */
  lemma BarycentricSides(a: Point, b: Point, c: Point, l: real, m: real, n: real)
    requires l + m + n == 1.0
    ensures Cross(a, c, Barycentric(a, b, c, l, m, n)) == -(m * Cross(a, b, c))
    ensures Cross(b, a, Barycentric(a, b, c, l, m, n)) == -(n * Cross(a, b, c))
    ensures Cross(c, b, Barycentric(a, b, c, l, m, n)) == -(l * Cross(a, b, c))
  {
    var p := Barycentric(a, b, c, l, m, n);
    assert p.x - a.x == m * (b.x - a.x) + n * (c.x - a.x);
    assert p.y - a.y == m * (b.y - a.y) + n * (c.y - a.y);
    assert p.x - b.x == l * (a.x - b.x) + n * (c.x - b.x);
    assert p.y - b.y == l * (a.y - b.y) + n * (c.y - b.y);
    assert p.x - c.x == l * (a.x - c.x) + m * (b.x - c.x);
    assert p.y - c.y == l * (a.y - c.y) + m * (b.y - c.y);
  }

  /** Two non-zero factors have a positive product exactly when their signs agree. */
  lemma ProductSign(x: real, y: real)
    requires x != 0.0 && y != 0.0
    ensures x * y > 0.0 <==> (x > 0.0 <==> y > 0.0)
  {
    if x > 0.0 && y > 0.0 {
      MulPos(x, y);
    } else if x < 0.0 && y < 0.0 {
      MulPos(-x, -y);
    } else if x > 0.0 {
      MulPos(x, -y);
    } else {
      MulPos(-x, y);
    }
  }

  /** Whether an edge crossing is counted, when p is strictly on one side of the edge:
      a straddling edge counts exactly when its direction matches that side. */
  lemma CrossingBySide(u: Point, v: Point, p: Point, left: bool)
    requires if left then Cross(u, v, p) > 0.0 else Cross(u, v, p) < 0.0
    ensures EdgeCrosses(u, v, p) <==> ((u.y > p.y) != (v.y > p.y) && (left <==> v.y > u.y))
  {
    if (u.y > p.y) != (v.y > p.y) {
      CrossingSide(u, v, p);
      ProductSign(Cross(u, v, p), v.y - u.y);
    }
  }

  /** When p is strictly on the same side of all three edges (a, c), (b, a), (c, b)
      and the vertices are not all on one side of p's height, exactly one edge
      crosses to the right of p. */
  lemma TriangleCrossings(a: Point, b: Point, c: Point, p: Point, left: bool)
    requires left ==> Cross(a, c, p) > 0.0 && Cross(b, a, p) > 0.0 && Cross(c, b, p) > 0.0
    requires !left ==> Cross(a, c, p) < 0.0 && Cross(b, a, p) < 0.0 && Cross(c, b, p) < 0.0
    requires !(a.y > p.y && b.y > p.y && c.y > p.y) && !(a.y <= p.y && b.y <= p.y && c.y <= p.y)
    ensures CrossCount([a, b, c], p, 3) == 1
  {
    CrossingBySide(a, c, p, left);
    CrossingBySide(b, a, p, left);
    CrossingBySide(c, b, p, left);
    var pts := [a, b, c];
    assert CrossCount(pts, p, 1) == if EdgeCrosses(a, c, p) then 1 else 0;
    assert CrossCount(pts, p, 2) == CrossCount(pts, p, 1) + if EdgeCrosses(b, a, p) then 1 else 0;
    assert CrossCount(pts, p, 3) == CrossCount(pts, p, 2) + if EdgeCrosses(c, b, p) then 1 else 0;
  }

  /** A point strictly inside a non-degenerate triangle neither lies below all
      three vertices nor at or above all three. */
  lemma TriangleStraddles(a: Point, b: Point, c: Point, l: real, m: real, n: real)
    requires Cross(a, b, c) != 0.0
    requires l > 0.0 && m > 0.0 && n > 0.0 && l + m + n == 1.0
    ensures var p := Barycentric(a, b, c, l, m, n);
      !(a.y > p.y && b.y > p.y && c.y > p.y) && !(a.y <= p.y && b.y <= p.y && c.y <= p.y)
  {
    var p := Barycentric(a, b, c, l, m, n);
    if a.y > p.y && b.y > p.y && c.y > p.y {
      WeightedAbove(l, m, n, a.y, b.y, c.y, p.y);
    }
    if a.y <= p.y && b.y <= p.y && c.y <= p.y {
      WeightedBelow(l, m, n, a.y, b.y, c.y, p.y);
    }
  }

  /** A point strictly inside a triangle lies in the triangle's bounding box. */
  lemma BarycentricInBox(a: Point, b: Point, c: Point, l: real, m: real, n: real)
    requires l > 0.0 && m > 0.0 && n > 0.0 && l + m + n == 1.0
    ensures InBox(Triangle(a, b, c).boundingBox, Barycentric(a, b, c, l, m, n))
  {
    WeightedBelow(l, m, n, a.x, b.x, c.x, Max3(a.x, b.x, c.x));
    WeightedBelow(l, m, n, a.y, b.y, c.y, Max3(a.y, b.y, c.y));
    WeightedAbove(l, m, n, a.x, b.x, c.x, Min3(a.x, b.x, c.x));
    WeightedAbove(l, m, n, a.y, b.y, c.y, Min3(a.y, b.y, c.y));
  }

  /** A point strictly inside a non-degenerate triangle is strictly on the same
      side of its three edges (a, c), (b, a), (c, b), opposite to the orientation of a, b, c. */
  lemma BarycentricSameSide(a: Point, b: Point, c: Point, l: real, m: real, n: real)
    requires Cross(a, b, c) != 0.0
    requires l > 0.0 && m > 0.0 && n > 0.0 && l + m + n == 1.0
    ensures var p := Barycentric(a, b, c, l, m, n);
      Cross(a, b, c) < 0.0 ==> Cross(a, c, p) > 0.0 && Cross(b, a, p) > 0.0 && Cross(c, b, p) > 0.0
    ensures var p := Barycentric(a, b, c, l, m, n);
      Cross(a, b, c) > 0.0 ==> Cross(a, c, p) < 0.0 && Cross(b, a, p) < 0.0 && Cross(c, b, p) < 0.0
  {
    BarycentricSides(a, b, c, l, m, n);
    var D := Cross(a, b, c);
    if D < 0.0 {
      MulPos(m, -D);
      MulPos(n, -D);
      MulPos(l, -D);
    } else {
      MulPos(m, D);
      MulPos(n, D);
      MulPos(l, D);
    }
  }

  /** Ray casting is exact for triangles, whatever the vertex order: every point
      strictly inside a non-degenerate triangle is within it, and a point outside
      its bounding box is not. */
  lemma TriangleContainment(a: Point, b: Point, c: Point, l: real, m: real, n: real, q: Point)
    requires Cross(a, b, c) != 0.0
    requires l > 0.0 && m > 0.0 && n > 0.0 && l + m + n == 1.0
    ensures Within(Triangle(a, b, c), Barycentric(a, b, c, l, m, n))
    ensures !InBox(Triangle(a, b, c).boundingBox, q) ==> !Within(Triangle(a, b, c), q)
  {
    var p := Barycentric(a, b, c, l, m, n);
    BarycentricInBox(a, b, c, l, m, n);
    TriangleStraddles(a, b, c, l, m, n);
    BarycentricSameSide(a, b, c, l, m, n);
    TriangleCrossings(a, b, c, p, Cross(a, b, c) < 0.0);
  }

  /** A polygon whose box is still in geodetic orientation (top-left y above
      bottom-right y, as when its conversion to pixels failed) is never hit:
      the box check of within_polygon rejects every point. */
  lemma GeodeticBoxNeverHit(s: ShapeContainer, p: Point)
    requires s.shapeType == ShapePolygon
    requires s.boundingBox.topLeft.y > s.boundingBox.bottomRight.y
    ensures !Within(s, p)
  {
  }

  /** The square [(0,0),(10,0),(10,10),(0,10)] contains (5,5) but not (15,15). */
  lemma UnitSquareExample()
    ensures Within(Rectangle(0.0, 0.0, 10.0, 10.0), Point(5.0, 5.0))
    ensures !Within(Rectangle(0.0, 0.0, 10.0, 10.0), Point(15.0, 15.0))
  {
    RectangleContainment(0.0, 0.0, 10.0, 10.0, Point(5.0, 5.0));
  }
}
