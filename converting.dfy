/** The converter: maps geodetic coordinates to a map projection and the
    projection to device pixels through a six-coefficient affine, and
    converts flattened shapes to pixels in place. */
module Converting {
  import opened Wrappers
  import opened Spatial
  import opened Shapes
  import opened Projections

  /** A coordinate transformation between two reference systems, applied to
      one coordinate pair; None when the pair cannot be transformed. It is
      supplied by the projection library and not modelled further. */
  type Transform = (real, real) -> Option<(real, real)>

  /** The affine map pixel -> projected: (c0 + x*c1 + y*c2, c3 + x*c4 + y*c5). */
  datatype GeoTransform = GeoTransform(c0: real, c1: real, c2: real, c3: real, c4: real, c5: real)

  const Zero: GeoTransform := GeoTransform(0.0, 0.0, 0.0, 0.0, 0.0, 0.0)

  // ---------------------------------------------------------------------------
  // The affine and its inverse.

  /** The (int) conversion of the original: truncation toward zero. */
  function TruncToInt(r: real): (n: int)
    ensures r >= 0.0 ==> 0 <= n && n as real <= r < n as real + 1.0
    ensures r < 0.0 ==> n <= 0 && n as real - 1.0 < r <= n as real
  {
    if r >= 0.0 then r.Floor else -((-r).Floor)
  }

  /** Truncating a whole number gives it back. */
  lemma TruncWhole(n: int)
    ensures TruncToInt(n as real) == n
  {
  }

  /** An axis-aligned affine with non-zero scale on both axes. */
  predicate Invertible(gt: GeoTransform) {
    gt.c2 == 0.0 && gt.c4 == 0.0 && gt.c1 != 0.0 && gt.c5 != 0.0
  }

  /** The closed-form inverse of an invertible axis-aligned affine. */
  function InverseOf(gt: GeoTransform): GeoTransform
    requires Invertible(gt)
  {
    GeoTransform(-gt.c0 / gt.c1, 1.0 / gt.c1, 0.0, -gt.c3 / gt.c5, 0.0, 1.0 / gt.c5)
  }

  /** GDALInvGeoTransform on an affine without rotation terms: the inverse
      when one exists; otherwise the output coefficients are left as they were. */
  function InvGeoTransform(gt: GeoTransform, prev: GeoTransform): (inv: GeoTransform)
    requires gt.c2 == 0.0 && gt.c4 == 0.0
    ensures Invertible(gt) ==> inv == InverseOf(gt)
    ensures !Invertible(gt) ==> inv == prev
  {
    if gt.c1 != 0.0 && gt.c5 != 0.0 then InverseOf(gt) else prev
  }

  /** to_projected: the pixel (x, y) as the pair (lat, lon) = (c3 + x*c4 + y*c5, c0 + x*c1 + y*c2). */
  function ToProjectedOf(adf: GeoTransform, x: int, y: int): (real, real) {
    (adf.c3 + x as real * adf.c4 + y as real * adf.c5, adf.c0 + x as real * adf.c1 + y as real * adf.c2)
  }

  /** from_projected: (lat, lon) to the truncated pixel (inv0 + inv1*lat, inv3 + inv5*lon). */
  function FromProjectedOf(inv: GeoTransform, lat: real, lon: real): (int, int) {
    (TruncToInt(inv.c0 + inv.c1 * lat), TruncToInt(inv.c3 + inv.c5 * lon))
  }

  lemma MulZero(a: real, b: real)
    requires b == 0.0
    ensures a * b == 0.0
  {
  }

  /** Scaling back an offset coordinate by its own scale recovers it. */
  lemma ScaleBack(c0: real, c1: real, v: real, w: real)
    requires c1 != 0.0 && w == c0 + v * c1
    ensures -c0 / c1 + (1.0 / c1) * w == v
  {
  }

  /** The inverse undoes the affine on every pixel. to_projected names its
      results (lat, lon) and from_projected takes them the other way round,
      which is how to_latlon and from_latlon pass them. */
  lemma {:induction false} AffineRoundTrip(adf: GeoTransform, x: int, y: int)
    requires Invertible(adf)
    ensures FromProjectedOf(InverseOf(adf), ToProjectedOf(adf, x, y).1, ToProjectedOf(adf, x, y).0) == (x, y)
  {
    var inv := InverseOf(adf);
    var p := ToProjectedOf(adf, x, y);
    MulZero(y as real, adf.c2);
    MulZero(x as real, adf.c4);
    assert p.1 == adf.c0 + x as real * adf.c1;
    assert p.0 == adf.c3 + y as real * adf.c5;
    ScaleBack(adf.c0, adf.c1, x as real, p.1);
    ScaleBack(adf.c3, adf.c5, y as real, p.0);
    var u, v := inv.c0 + inv.c1 * p.1, inv.c3 + inv.c5 * p.0;
    assert u == x as real && v == y as real;
    TruncWhole(x);
    TruncWhole(y);
    assert TruncToInt(u) == x && TruncToInt(v) == y;
    assert FromProjectedOf(inv, p.1, p.0).0 == TruncToInt(u);
    assert FromProjectedOf(inv, p.1, p.0).1 == TruncToInt(v);
  }

  /** The corner pair after the transform; a pair that fails to transform is kept. */
  function Through(g: Transform, a: real, b: real): (real, real) {
    match g(a, b)
    case Some(r) => r
    case None => (a, b)
  }

  /** The coefficients change_projection sets for a view: the view's corners
      (minLat, maxLon) and (maxLat, minLon) are transformed, and the affine
      maps pixel (0, 0) to the first and (width, height) to the second. */
  function ViewTransform(view: ProjectionView, g: Transform): (adf: GeoTransform)
    requires view.width != 0 && view.height != 0
    ensures adf.c2 == 0.0 && adf.c4 == 0.0
  {
    var topLeft := Through(g, view.minLat, view.maxLon);
    var bottomRight := Through(g, view.maxLat, view.minLon);
    GeoTransform(topLeft.0, (bottomRight.0 - topLeft.0) / view.width as real, 0.0,
                 topLeft.1, 0.0, -(topLeft.1 - bottomRight.1) / view.height as real)
  }

  /** Without a projection (a transform that returns its input), the
      coefficients are (minLat, (maxLat-minLat)/width, 0, maxLon, 0, -(maxLon-minLon)/height). */
  lemma IdentityViewTransform(view: ProjectionView, g: Transform)
    requires view.width != 0 && view.height != 0
    requires g(view.minLat, view.maxLon) == Some((view.minLat, view.maxLon))
    requires g(view.maxLat, view.minLon) == Some((view.maxLat, view.minLon))
    ensures ViewTransform(view, g) ==
      GeoTransform(view.minLat, (view.maxLat - view.minLat) / view.width as real, 0.0,
                   view.maxLon, 0.0, -(view.maxLon - view.minLon) / view.height as real)
  {
  }

  /** n shares of span / n make up the span. */
  lemma Unscale(span: real, n: int)
    requires n != 0
    ensures n as real * (span / n as real) == span
  {
  }

  /** A projected coordinate n scale steps from the origin maps back to pixel n. */
  lemma PixelAt(c0: real, c1: real, n: int, w: real)
    requires c1 != 0.0 && w == c0 + n as real * c1
    ensures TruncToInt(-c0 / c1 + (1.0 / c1) * w) == n
  {
    ScaleBack(c0, c1, n as real, w);
    TruncWhole(n);
  }

  /** On one axis: with scale `step` and origin `near`, the inverse sends
      `near` to pixel 0 and `far`, n steps away, to pixel n. */
  lemma AxisCorners(near: real, far: real, n: int, step: real)
    requires step != 0.0 && n as real * step == far - near
    ensures TruncToInt(-near / step + (1.0 / step) * near) == 0
    ensures TruncToInt(-near / step + (1.0 / step) * far) == n
  {
    PixelAt(near, step, 0, near);
    PixelAt(near, step, n, far);
  }

  /** The projected corners of the view land on the corners of the viewport:
      the top-left on pixel (0, 0) and the bottom-right on (width, height). */
  lemma {:induction false} ViewCornersToViewport(view: ProjectionView, g: Transform)
    requires view.width != 0 && view.height != 0
    requires Invertible(ViewTransform(view, g))
    ensures var inv := InverseOf(ViewTransform(view, g));
            var tl := Through(g, view.minLat, view.maxLon);
            var br := Through(g, view.maxLat, view.minLon);
            FromProjectedOf(inv, tl.0, tl.1) == (0, 0) &&
            FromProjectedOf(inv, br.0, br.1) == (view.width, view.height)
  {
    var adf := ViewTransform(view, g);
    var tl := Through(g, view.minLat, view.maxLon);
    var br := Through(g, view.maxLat, view.minLon);
    Unscale(br.0 - tl.0, view.width);
    Unscale(-(tl.1 - br.1), view.height);
    AxisCorners(tl.0, br.0, view.width, adf.c1);
    AxisCorners(tl.1, br.1, view.height, adf.c5);
    var inv := InverseOf(adf);
    assert FromProjectedOf(inv, tl.0, tl.1) == (0, 0);
    assert FromProjectedOf(inv, br.0, br.1).0 == view.width;
    assert FromProjectedOf(inv, br.0, br.1).1 == view.height;
  }

  // ---------------------------------------------------------------------------
  // transform_points, per container, as functions.

  /** One point through the geodetic-to-projected transform. */
  function TransformPoint(g: Transform, p: Point): Option<Point> {
    match g(p.x, p.y)
    case Some(r) => Some(Point(r.0, r.1))
    case None => None
  }

  /** The first pass: a point that fails to transform stays as it was. */
  function Moved(g: Transform, p: Point): Point {
    match TransformPoint(g, p)
    case Some(q) => q
    case None => p
  }

  /** The transformed points that survive, in their original order. */
  function Projected(pts: seq<Point>, g: Transform): seq<Point> {
    if |pts| == 0 then []
    else
      (match TransformPoint(g, pts[0]) case Some(q) => [q] case None => []) + Projected(pts[1..], g)
  }

  /** The removal list: indices of the points that fail, in increasing order. */
  function Failed(pts: seq<Point>, g: Transform): seq<int> {
    if |pts| == 0 then []
    else Failed(pts[..|pts| - 1], g) + (if TransformPoint(g, pts[|pts| - 1]).None? then [|pts| - 1] else [])
  }

  /** A projected point as a whole pixel. */
  function PixelOf(inv: GeoTransform, q: Point): Point {
    var px := FromProjectedOf(inv, q.x, q.y);
    Point(px.0 as real, px.1 as real)
  }

  function Pixels(inv: GeoTransform, pts: seq<Point>): (r: seq<Point>)
    ensures |r| == |pts| && forall k :: 0 <= k < |pts| ==> r[k] == PixelOf(inv, pts[k])
  {
    seq(|pts|, k requires 0 <= k < |pts| => PixelOf(inv, pts[k]))
  }

  /** The bounding box: both corners to pixels, marked converted, when both
      transform; the bottom-right corner alone in projected units when only it
      transforms; untouched when it does not. */
  function ConvertBox(box: Envelope, g: Transform, inv: GeoTransform): Envelope {
    match TransformPoint(g, box.bottomRight)
    case None => box
    case Some(br) =>
      match TransformPoint(g, box.topLeft)
      case None => box.(bottomRight := br)
      case Some(tl) => Envelope(PixelOf(inv, tl), PixelOf(inv, br), true)
  }

  /** One container after transform_points. */
  function ConvertShape(s: ShapeContainer, g: Transform, inv: GeoTransform): ShapeContainer {
    ShapeContainer(s.shapeType, Pixels(inv, Projected(s.points, g)), ConvertBox(s.boundingBox, g, inv))
  }

  function ConvertAll(shapes: seq<ShapeContainer>, g: Transform, inv: GeoTransform): (r: seq<ShapeContainer>)
    ensures |r| == |shapes| && forall k :: 0 <= k < |shapes| ==> r[k] == ConvertShape(shapes[k], g, inv)
  {
    seq(|shapes|, k requires 0 <= k < |shapes| => ConvertShape(shapes[k], g, inv))
  }

  // ---------------------------------------------------------------------------
  // Properties of the per-container conversion.

  predicate Fails(g: Transform, p: Point) {
    TransformPoint(g, p).None?
  }

  lemma {:induction false} ProjectedConcat(xs: seq<Point>, ys: seq<Point>, g: Transform)
    ensures Projected(xs + ys, g) == Projected(xs, g) + Projected(ys, g)
  {
    if |xs| > 0 {
      assert (xs + ys)[1..] == xs[1..] + ys;
      ProjectedConcat(xs[1..], ys, g);
    } else {
      assert xs + ys == ys;
    }
  }

  /** When no point fails, the survivors are the moved points, one for one. */
  lemma {:induction false} ProjectedNoneFail(pts: seq<Point>, g: Transform)
    requires forall k :: 0 <= k < |pts| ==> !Fails(g, pts[k])
    ensures |Projected(pts, g)| == |pts|
    ensures forall k :: 0 <= k < |pts| ==> Projected(pts, g)[k] == Moved(g, pts[k])
  {
    if |pts| > 0 {
      ProjectedNoneFail(pts[1..], g);
    }
  }

  /** The removal list holds exactly the failing indices, strictly increasing. */
  lemma {:induction false} FailedIndices(pts: seq<Point>, g: Transform)
    ensures forall k :: 0 <= k < |Failed(pts, g)| ==> 0 <= Failed(pts, g)[k] < |pts| && Fails(g, pts[Failed(pts, g)[k]])
    ensures forall k, l :: 0 <= k < l < |Failed(pts, g)| ==> Failed(pts, g)[k] < Failed(pts, g)[l]
    ensures forall j :: 0 <= j < |pts| && Fails(g, pts[j]) ==> j in Failed(pts, g)
  {
    if |pts| > 0 {
      var init := pts[..|pts| - 1];
      FailedIndices(init, g);
      assert forall j :: 0 <= j < |init| ==> init[j] == pts[j];
    }
  }

  /** The indices of the points that transform, in increasing order. */
  function Kept(pts: seq<Point>, g: Transform): seq<int> {
    if |pts| == 0 then []
    else Kept(pts[..|pts| - 1], g) + (if Fails(g, pts[|pts| - 1]) then [] else [|pts| - 1])
  }

  /** Survivors keep their relative order: the k-th survivor is the transform
      of the point at Kept[k], these indices increase, and they are exactly
      the points that do not fail. */
  lemma {:induction false} SurvivorsInOrder(pts: seq<Point>, g: Transform)
    ensures |Kept(pts, g)| == |Projected(pts, g)|
    ensures forall k :: 0 <= k < |Kept(pts, g)| ==>
      0 <= Kept(pts, g)[k] < |pts| && TransformPoint(g, pts[Kept(pts, g)[k]]) == Some(Projected(pts, g)[k])
    ensures forall k, l :: 0 <= k < l < |Kept(pts, g)| ==> Kept(pts, g)[k] < Kept(pts, g)[l]
    ensures forall j :: 0 <= j < |pts| && !Fails(g, pts[j]) ==> j in Kept(pts, g)
  {
    if |pts| > 0 {
      var init, last := pts[..|pts| - 1], pts[|pts| - 1];
      SurvivorsInOrder(init, g);
      assert pts == init + [last];
      ProjectedConcat(init, [last], g);
      assert forall j :: 0 <= j < |init| ==> init[j] == pts[j];
      var kept, projected := Kept(init, g), Projected(init, g);
      if Fails(g, last) {
        assert Kept(pts, g) == kept;
        assert Projected(pts, g) == projected;
      } else {
        assert Kept(pts, g) == kept + [|init|];
        assert Projected(pts, g) == projected + [TransformPoint(g, last).value];
      }
    }
  }

  /** The survivors number the points less the removal list. */
  lemma {:induction false} SurvivorCount(pts: seq<Point>, g: Transform)
    ensures |Projected(pts, g)| == |pts| - |Failed(pts, g)|
  {
    if |pts| > 0 {
      var init := pts[..|pts| - 1];
      SurvivorCount(init, g);
      assert pts == init + [pts[|pts| - 1]];
      ProjectedConcat(init, [pts[|pts| - 1]], g);
    }
  }

  /** The box is marked converted exactly when it already was or both corners
      transform, and then both corners are whole pixels. */
  lemma BoxConvertedIff(box: Envelope, g: Transform, inv: GeoTransform)
    ensures ConvertBox(box, g, inv).converted <==> box.converted || (!Fails(g, box.bottomRight) && !Fails(g, box.topLeft))
    ensures !Fails(g, box.bottomRight) && !Fails(g, box.topLeft) ==>
            var r := ConvertBox(box, g, inv);
            r.topLeft.x == r.topLeft.x.Floor as real && r.topLeft.y == r.topLeft.y.Floor as real &&
            r.bottomRight.x == r.bottomRight.x.Floor as real && r.bottomRight.y == r.bottomRight.y.Floor as real
  {
  }

  /** Every point of a converted container is a whole pixel, and the container
      keeps its shape type. */
  lemma ConvertedPointsWhole(s: ShapeContainer, g: Transform, inv: GeoTransform)
    ensures ConvertShape(s, g, inv).shapeType == s.shapeType
    ensures forall k :: 0 <= k < |ConvertShape(s, g, inv).points| ==>
            var q := ConvertShape(s, g, inv).points[k]; q.x == q.x.Floor as real && q.y == q.y.Floor as real
  {
  }

  // ---------------------------------------------------------------------------
  // The geodetic <-> pixel conversions as functions.

  /** to_latlon: the pixel to projected coordinates, then the projected-to-geodetic
      transform on (lon, lat); the pair stays projected when that fails. */
  function PixelToGeodetic(h: Transform, adf: GeoTransform, x: int, y: int): (bool, real, real) {
    var p := ToProjectedOf(adf, x, y);
    match h(p.1, p.0)
    case Some(r) => (true, r.1, r.0)
    case None => (false, p.0, p.1)
  }

  /** from_latlon: the geodetic-to-projected transform on (lon, lat), then the
      pixel of the result; the pixel is computed even when the transform fails. */
  function GeodeticToPixel(g: Transform, inv: GeoTransform, lat: real, lon: real): (bool, int, int) {
    var q := Through(g, lon, lat);
    var px := FromProjectedOf(inv, q.0, q.1);
    (g(lon, lat).Some?, px.0, px.1)
  }

  /** When the two transforms undo each other at a pixel's projected point,
      converting the pixel to geodetic and back gives the same pixel. */
  lemma {:induction false} PixelGeodeticRoundTrip(g: Transform, h: Transform, adf: GeoTransform, x: int, y: int)
    requires Invertible(adf)
    requires var p := ToProjectedOf(adf, x, y);
             h(p.1, p.0).Some? && g(h(p.1, p.0).value.0, h(p.1, p.0).value.1) == Some((p.1, p.0))
    ensures var r := PixelToGeodetic(h, adf, x, y);
            r.0 && GeodeticToPixel(g, InverseOf(adf), r.1, r.2) == (true, x, y)
  {
    AffineRoundTrip(adf, x, y);
  }

  // ---------------------------------------------------------------------------

  /** Converter: the current view and reference systems, the transform pair,
      the forward affine and its inverse. */
  class Converter {
    var view: ProjectionView
    var sourceSrs: Srs
    var targetSrs: Srs
    var geoToProj: Option<Transform>
    var projToGeo: Option<Transform>
    var adf: GeoTransform
    var inv: GeoTransform
    var interrupted: bool
    /** OGRCreateCoordinateTransformation: None when no transformation exists. */
    const build: (Srs, Srs) -> Option<Transform>

    /** The affine has no rotation terms, the view has a non-empty viewport,
        and the inverse matches the affine whenever the affine is invertible. */
    predicate Configured()
      reads this
    {
      view.width != 0 && view.height != 0 && adf.c2 == 0.0 && adf.c4 == 0.0 &&
      (Invertible(adf) ==> inv == InverseOf(adf))
    }

    /** Configured, and both transforms exist. */
    predicate Valid()
      reads this
    {
      Configured() && geoToProj.Some? && projToGeo.Some?
    }

    /** Whether a reference-system argument differs from the stored one. */
    predicate Rebuilds(src: Option<Srs>, dst: Option<Srs>)
      reads this
    {
      (src.Some? && src.value != sourceSrs) || (dst.Some? && dst.value != targetSrs)
    }

    /** Whether change_projection has anything to recalculate. */
    predicate Changes(newView: ProjectionView, src: Option<Srs>, dst: Option<Srs>)
      reads this
    {
      !ViewEquals(newView, view) || Rebuilds(src, dst)
    }

    /** The constructor builds both transforms for (src, dst) and sets the
        affine for the view. If either transform cannot be built the original
        throws; here the converter is then not Valid(). The inverse starts at
        zero where the original leaves it uninitialised. */
    constructor (initialView: ProjectionView, src: Srs, dst: Srs, factory: (Srs, Srs) -> Option<Transform>)
      requires initialView.width != 0 && initialView.height != 0
      ensures view == initialView && sourceSrs == src && targetSrs == dst && build == factory && !interrupted
      ensures geoToProj == factory(src, dst) && projToGeo == factory(dst, src)
      ensures Configured()
      ensures Valid() <==> factory(src, dst).Some? && factory(dst, src).Some?
      ensures Valid() ==> adf == ViewTransform(initialView, geoToProj.value)
    {
      build := factory;
      view := initialView;
      sourceSrs := src;
      targetSrs := dst;
      interrupted := false;
      geoToProj := factory(src, dst);
      projToGeo := factory(dst, src);
      adf := Zero;
      inv := Zero;
      new;
      if geoToProj.Some? && projToGeo.Some? {
        adf := ViewTransform(view, geoToProj.value);
        inv := InvGeoTransform(adf, inv);
      }
    }

    /** change_projection: stores a view that differs and reference systems
        that are given and differ; rebuilds the transforms when a reference
        system changed (failing when either cannot be built); then sets the
        affine from the view's transformed corners and inverts it. Nothing is
        touched when nothing changed. */
    method ChangeProjection(newView: ProjectionView, src: Option<Srs>, dst: Option<Srs>) returns (ok: bool)
      requires Configured() && newView.width != 0 && newView.height != 0
      requires geoToProj.Some? || Rebuilds(src, dst) || !Changes(newView, src, dst)
      modifies this
      ensures Configured()
      ensures ok && (old(Valid()) || old(Rebuilds(src, dst))) ==> Valid()
      ensures !old(Changes(newView, src, dst)) ==> ok && unchanged(this)
      ensures old(Changes(newView, src, dst)) ==>
        view == newView &&
        sourceSrs == (if src.Some? then src.value else old(sourceSrs)) &&
        targetSrs == (if dst.Some? then dst.value else old(targetSrs))
      ensures old(Rebuilds(src, dst)) ==>
        geoToProj == build(sourceSrs, targetSrs) && projToGeo == build(targetSrs, sourceSrs)
      ensures !old(Rebuilds(src, dst)) ==> geoToProj == old(geoToProj) && projToGeo == old(projToGeo)
      ensures ok <==> !old(Rebuilds(src, dst)) || (geoToProj.Some? && projToGeo.Some?)
      ensures ok && old(Changes(newView, src, dst)) ==>
        geoToProj.Some? && adf == ViewTransform(newView, geoToProj.value) && inv == InvGeoTransform(adf, old(inv))
      ensures !ok ==> adf == old(adf) && inv == old(inv)
      ensures interrupted == old(interrupted)
    {
      var recalculate := 0;
      if !ViewEquals(newView, view) {
        view := newView;
        recalculate := 1;
      }
      if src.Some? && src.value != sourceSrs {
        sourceSrs := src.value;
        recalculate := 2;
      }
      if dst.Some? && dst.value != targetSrs {
        targetSrs := dst.value;
        recalculate := 2;
      }
      if recalculate == 0 {
        return true;
      }
      if recalculate == 2 {
        geoToProj := build(sourceSrs, targetSrs);
        projToGeo := build(targetSrs, sourceSrs);
        if geoToProj.None? || projToGeo.None? {
          return false;
        }
      }
      SetAffine();
      ok := true;
    }

    /** The tail of change_projection: transforms the view's corners (a corner
        that fails keeps its geodetic value), sets the six coefficients from
        them and inverts the affine. */
    method SetAffine()
      requires view.width != 0 && view.height != 0 && geoToProj.Some?
      modifies this
      ensures view == old(view) && sourceSrs == old(sourceSrs) && targetSrs == old(targetSrs)
      ensures geoToProj == old(geoToProj) && projToGeo == old(projToGeo) && interrupted == old(interrupted)
      ensures adf == ViewTransform(view, geoToProj.value) && inv == InvGeoTransform(adf, old(inv))
    {
      var g := geoToProj.value;
      var minLat, maxLon := view.minLat, view.maxLon;
      var maxLat, minLon := view.maxLat, view.minLon;
      match g(minLat, maxLon) {
        case Some(r) => minLat, maxLon := r.0, r.1;
        case None =>
      }
      match g(maxLat, minLon) {
        case Some(r) => maxLat, minLon := r.0, r.1;
        case None =>
      }
      adf := GeoTransform(minLat, (maxLat - minLat) / view.width as real, 0.0,
                          maxLon, 0.0, -(maxLon - minLon) / view.height as real);
      inv := InvGeoTransform(adf, inv);
    }

    /** change_projection with the current view. */
    method ChangeReferenceSystems(src: Option<Srs>, dst: Option<Srs>) returns (ok: bool)
      requires Configured()
      modifies this
      ensures Configured() && view == old(view) && interrupted == old(interrupted)
      ensures !old(Rebuilds(src, dst)) ==> ok && unchanged(this)
      ensures old(Rebuilds(src, dst)) ==>
        sourceSrs == (if src.Some? then src.value else old(sourceSrs)) &&
        targetSrs == (if dst.Some? then dst.value else old(targetSrs))
      ensures old(Rebuilds(src, dst)) ==>
        geoToProj == build(sourceSrs, targetSrs) && projToGeo == build(targetSrs, sourceSrs)
      ensures ok <==> !old(Rebuilds(src, dst)) || (geoToProj.Some? && projToGeo.Some?)
      ensures ok && old(Rebuilds(src, dst)) ==>
        Valid() && adf == ViewTransform(view, geoToProj.value) && inv == InvGeoTransform(adf, old(inv))
      ensures !ok ==> adf == old(adf) && inv == old(inv)
    {
      ok := ChangeProjection(view, src, dst);
    }

    /** to_projected. */
    method ToProjected(x: int, y: int) returns (lat: real, lon: real)
      requires Configured()
      ensures (lat, lon) == ToProjectedOf(adf, x, y)
      ensures Invertible(adf) ==> FromProjectedOf(inv, lon, lat) == (x, y)
    {
      var p := ToProjectedOf(adf, x, y);
      lat, lon := p.0, p.1;
      if Invertible(adf) {
        AffineRoundTrip(adf, x, y);
      }
    }

    /** from_projected. */
    method FromProjected(lat: real, lon: real) returns (x: int, y: int)
      ensures (x, y) == FromProjectedOf(inv, lat, lon)
      ensures x as real <= inv.c0 + inv.c1 * lat + 1.0 && y as real <= inv.c3 + inv.c5 * lon + 1.0
      ensures inv.c0 + inv.c1 * lat < x as real + 1.0 && inv.c3 + inv.c5 * lon < y as real + 1.0
    {
      var px := FromProjectedOf(inv, lat, lon);
      x, y := px.0, px.1;
    }

    /** to_latlon. */
    method ToLatLon(x: int, y: int) returns (ok: bool, lat: real, lon: real)
      requires Valid()
      ensures (ok, lat, lon) == PixelToGeodetic(projToGeo.value, adf, x, y)
    {
      lat, lon := ToProjected(x, y);
      match projToGeo.value(lon, lat) {
        case Some(r) =>
          lon, lat := r.0, r.1;
          ok := true;
        case None =>
          ok := false;
      }
    }

    /** from_latlon. */
    method FromLatLon(lat: real, lon: real) returns (ok: bool, x: int, y: int)
      requires Valid()
      ensures (ok, x, y) == GeodeticToPixel(geoToProj.value, inv, lat, lon)
    {
      var plon, plat := lon, lat;
      match geoToProj.value(plon, plat) {
        case Some(r) =>
          plon, plat := r.0, r.1;
          ok := true;
        case None =>
          ok := false;
      }
      x, y := FromProjected(plon, plat);
    }

    /** The first pass of transform_points over a container's points: each
        point is transformed in place, and the indices of those that fail are
        noted in increasing order. */
    method MovePoints(points: seq<Point>) returns (pts: seq<Point>, removal: seq<int>)
      requires Valid() && !interrupted
      ensures |pts| == |points| && forall k :: 0 <= k < |pts| ==> pts[k] == Moved(geoToProj.value, points[k])
      ensures removal == Failed(points, geoToProj.value)
    {
      var g := geoToProj.value;
      pts := points;
      removal := [];
      var i := 0;
      while i < |pts| && !interrupted
        invariant 0 <= i <= |pts| == |points|
        invariant removal == Failed(points[..i], g)
        invariant forall k :: 0 <= k < i ==> pts[k] == Moved(g, points[k])
        invariant forall k :: i <= k < |pts| ==> pts[k] == points[k]
      {
        assert points[..i + 1][..i] == points[..i];
        match TransformPoint(g, pts[i]) {
          case Some(q) => pts := pts[i := q];
          case None => removal := removal + [i];
        }
        i := i + 1;
      }
      assert points[..i] == points;
    }

    /** The box step of transform_points: both corners to pixels and marked
        converted when both transform; the bottom-right corner is tried first. */
    method MoveBox(box: Envelope) returns (r: Envelope)
      requires Valid()
      ensures r == ConvertBox(box, geoToProj.value, inv)
    {
      var g := geoToProj.value;
      r := box;
      match TransformPoint(g, r.bottomRight) {
        case Some(br) =>
          r := r.(bottomRight := br);
          match TransformPoint(g, r.topLeft) {
            case Some(tl) =>
              r := r.(topLeft := tl);
              var x, y := FromProjected(r.bottomRight.x, r.bottomRight.y);
              r := r.(bottomRight := Point(x as real, y as real));
              x, y := FromProjected(r.topLeft.x, r.topLeft.y);
              r := r.(topLeft := Point(x as real, y as real));
              r := r.(converted := true);
            case None =>
          }
        case None =>
      }
    }

    /** The second pass: erases the noted indices from the last to the first,
        which leaves the transformed survivors in their original order. */
    method ErasePoints(pts: seq<Point>, removal: seq<int>, ghost points: seq<Point>) returns (out: seq<Point>)
      requires Valid() && !interrupted
      requires |pts| == |points| && forall k :: 0 <= k < |pts| ==> pts[k] == Moved(geoToProj.value, points[k])
      requires removal == Failed(points, geoToProj.value)
      ensures out == Projected(points, geoToProj.value)
    {
      var g := geoToProj.value;
      FailedIndices(points, g);
      out := pts;
      var k := |removal|;
      ghost var b := |points|;
      assert pts[..b] == pts;
      while k > 0 && !interrupted
        invariant 0 <= k <= |removal|
        invariant b == if k == |removal| then |points| else removal[k]
        invariant out == pts[..b] + Projected(points[b..], g)
      {
        var at := removal[k - 1];
        EraseStep(pts, points, g, removal, k);
        out := out[..at] + out[at + 1..];
        k := k - 1;
        b := at;
      }
      ErasedAll(pts, points, g, removal, b);
    }

    /** The third pass: every remaining point becomes its truncated pixel. */
    method PixelPoints(pts: seq<Point>) returns (out: seq<Point>)
      requires !interrupted
      ensures out == Pixels(inv, pts)
    {
      out := pts;
      var j := 0;
      while j < |out| && !interrupted
        invariant 0 <= j <= |out| == |pts|
        invariant forall n :: 0 <= n < j ==> out[n] == PixelOf(inv, pts[n])
        invariant forall n :: j <= n < |out| ==> out[n] == pts[n]
      {
        var x, y := FromProjected(out[j].x, out[j].y);
        out := out[j := Point(x as real, y as real)];
        j := j + 1;
      }
    }

    /** One container of transform_points: the three passes and the box. */
    method TransformContainer(s: ShapeContainer) returns (r: ShapeContainer)
      requires Valid() && !interrupted
      ensures r == ConvertShape(s, geoToProj.value, inv)
    {
      var pts, removal := MovePoints(s.points);
      var box := MoveBox(s.boundingBox);
      pts := ErasePoints(pts, removal, s.points);
      pts := PixelPoints(pts);
      r := ShapeContainer(s.shapeType, pts, box);
    }

    /** transform_points: converts every container in place, unless interrupted. */
    method TransformPoints(shapes: array<ShapeContainer>)
      requires Valid()
      modifies shapes
      ensures interrupted ==> shapes[..] == old(shapes[..])
      ensures !interrupted ==> shapes[..] == ConvertAll(old(shapes[..]), geoToProj.value, inv)
    {
      var i := 0;
      while i < shapes.Length && !interrupted
        invariant 0 <= i <= shapes.Length
        invariant forall k :: 0 <= k < i ==> shapes[k] == ConvertShape(old(shapes[k]), geoToProj.value, inv)
        invariant forall k :: i <= k < shapes.Length ==> shapes[k] == old(shapes[k])
        invariant interrupted ==> i == 0
      {
        var c := TransformContainer(shapes[i]);
        shapes[i] := c;
        i := i + 1;
      }
      if interrupted {
        assert shapes[..] == old(shapes[..]);
      } else {
        assert shapes[..] == ConvertAll(old(shapes[..]), geoToProj.value, inv);
      }
    }

    /** interrupt: raises the flag the conversion loops poll. */
    method Interrupt()
      modifies this
      ensures interrupted
      ensures view == old(view) && sourceSrs == old(sourceSrs) && targetSrs == old(targetSrs)
      ensures geoToProj == old(geoToProj) && projToGeo == old(projToGeo) && adf == old(adf) && inv == old(inv)
    {
      interrupted := true;
    }
  }

  /** A value strictly between consecutive entries of an increasing
      sequence, or below its first or above its last, is not an entry. */
  lemma NotBetween(r: seq<int>, k: int, j: int)
    requires forall m, n :: 0 <= m < n < |r| ==> r[m] < r[n]
    requires 0 <= k <= |r|
    requires k > 0 ==> r[k - 1] < j
    requires k < |r| ==> j < r[k]
    ensures j !in r
  {
    forall m | 0 <= m < |r|
      ensures r[m] != j
    {
      if m < k - 1 {
        assert r[m] < r[k - 1];
      } else if m > k {
        assert r[k] < r[m];
      }
    }
  }

  /** No point strictly between two consecutive entries of the removal list
      (or after the last one) fails, while the entry itself does. */
  lemma NoFailureBetween(src: seq<Point>, g: Transform, removal: seq<int>, k: int)
    requires removal == Failed(src, g) && 0 < k <= |removal|
    ensures var b := if k == |removal| then |src| else removal[k];
            0 <= removal[k - 1] < b <= |src| && Fails(g, src[removal[k - 1]]) &&
            forall j :: removal[k - 1] < j < b ==> !Fails(g, src[j])
  {
    FailedIndices(src, g);
    var b := if k == |removal| then |src| else removal[k];
    forall j | removal[k - 1] < j < b
      ensures !Fails(g, src[j])
    {
      NotBetween(removal, k, j);
    }
  }

  /** No point below the first entry of the removal list fails. */
  lemma NoFailureBelow(src: seq<Point>, g: Transform, removal: seq<int>)
    requires removal == Failed(src, g)
    ensures var b := if |removal| == 0 then |src| else removal[0];
            0 <= b <= |src| && forall j :: 0 <= j < b ==> !Fails(g, src[j])
  {
    FailedIndices(src, g);
    var b := if |removal| == 0 then |src| else removal[0];
    forall j | 0 <= j < b
      ensures !Fails(g, src[j])
    {
      NotBetween(removal, 0, j);
    }
  }

  /** Removing index `at` from a prefix-plus-tail sequence. */
  lemma SpliceOut(moved: seq<Point>, tail: seq<Point>, at: int, b: int)
    requires 0 <= at < b <= |moved|
    ensures (moved[..b] + tail)[..at] + (moved[..b] + tail)[at + 1..] == moved[..at] + (moved[at + 1..b] + tail)
  {
    var whole := moved[..b] + tail;
    assert whole[..at] == moved[..at];
    assert whole[at + 1..] == moved[at + 1..b] + tail;
  }

  /** One erase step of the second pass: removing the failing point at
      removal[k-1] extends the projected tail down to that index. */
  lemma {:induction false} EraseStep(moved: seq<Point>, src: seq<Point>, g: Transform, removal: seq<int>, k: int)
    requires |moved| == |src| && removal == Failed(src, g)
    requires forall n :: 0 <= n < |src| ==> moved[n] == Moved(g, src[n])
    requires 0 < k <= |removal|
    ensures var b := if k == |removal| then |src| else removal[k];
            var at := removal[k - 1];
            0 <= at < b <= |src| &&
            (moved[..b] + Projected(src[b..], g))[..at] + (moved[..b] + Projected(src[b..], g))[at + 1..] ==
            moved[..at] + Projected(src[at..], g)
  {
    NoFailureBetween(src, g, removal, k);
    var b := if k == |removal| then |src| else removal[k];
    var at := removal[k - 1];
    var middle := src[at + 1..b];
    assert forall n :: 0 <= n < |middle| ==> middle[n] == src[at + 1 + n];
    ProjectedNoneFail(middle, g);
    SkipFailing(src, g, at, b);
    SpliceOut(moved, Projected(src[b..], g), at, b);
    assert moved[at + 1..b] == Projected(middle, g);
  }

  /** The survivors from a failing index on are those after it. */
  lemma SkipFailing(src: seq<Point>, g: Transform, at: int, b: int)
    requires 0 <= at < b <= |src| && Fails(g, src[at])
    ensures Projected(src[at..], g) == Projected(src[at + 1..b], g) + Projected(src[b..], g)
  {
    var middle := src[at + 1..b];
    assert src[at..] == [src[at]] + (middle + src[b..]);
    ProjectedConcat([src[at]], middle + src[b..], g);
    ProjectedConcat(middle, src[b..], g);
    assert Projected([src[at]], g) == [];
  }

  /** After the last erase step the points below the lowest removed index
      have all transformed, so what remains is exactly the survivors. */
  lemma {:induction false} ErasedAll(moved: seq<Point>, src: seq<Point>, g: Transform, removal: seq<int>, b: int)
    requires |moved| == |src| && removal == Failed(src, g)
    requires forall n :: 0 <= n < |src| ==> moved[n] == Moved(g, src[n])
    requires b == if |removal| == 0 then |src| else removal[0]
    ensures 0 <= b <= |src|
    ensures moved[..b] + Projected(src[b..], g) == Projected(src, g)
  {
    NoFailureBelow(src, g, removal);
    ProjectedNoneFail(src[..b], g);
    assert src == src[..b] + src[b..];
    ProjectedConcat(src[..b], src[b..], g);
  }
}
