/** The geometry importer: holds a parsed geometry tree and flattens it into
    the ordered sequence of simple shapes the viewer draws and hit-tests. */
module Importing {
  import opened Wrappers
  import opened Spatial
  import opened Shapes

  /** A node's reported type, with the 2.5-D flag already stripped. */
  datatype GeometryType =
    | WkbPoint
    | WkbLineString
    | WkbLinearRing
    | WkbPolygon
    | WkbMultiPoint
    | WkbMultiLineString
    | WkbMultiPolygon
    | WkbGeometryCollection
    | WkbOther(code: int)

  /** A parsed geometry: its reported type, its own vertices (points, line
      strings and rings), its envelope, and its members (a polygon's rings,
      exterior first, or a collection's parts). */
  datatype Geometry = Geometry(kind: GeometryType, vertices: seq<Point>, envelope: OgrEnvelope, members: seq<Geometry>)

  /** A point carries exactly one vertex and a polygon has an exterior ring,
      throughout the tree. */
  predicate WellFormed(g: Geometry) {
    (g.kind == WkbPoint ==> |g.vertices| == 1) &&
    (g.kind == WkbPolygon ==> |g.members| >= 1) &&
    forall i :: 0 <= i < |g.members| ==> WellFormed(g.members[i])
  }

  predicate IsCollection(t: GeometryType) {
    t == WkbMultiPoint || t == WkbMultiLineString || t == WkbMultiPolygon || t == WkbGeometryCollection
  }

  /** The vertices from the last index down to the first. */
  function Reversed(s: seq<Point>): seq<Point> {
    if |s| == 0 then [] else Reversed(s[1..]) + [s[0]]
  }

  lemma {:induction false} ReversedAt(s: seq<Point>)
    ensures |Reversed(s)| == |s|
    ensures forall k :: 0 <= k < |s| ==> Reversed(s)[k] == s[|s| - 1 - k]
  {
    if |s| > 0 {
      ReversedAt(s[1..]);
    }
  }

  /** Reversing from index i on is reversing from i+1 on, then taking vertex i. */
  lemma ReversedStep(s: seq<Point>, i: nat)
    requires i < |s|
    ensures Reversed(s[i..]) == Reversed(s[i + 1..]) + [s[i]]
  {
    assert s[i..][1..] == s[i + 1..];
  }

  /** The box of a line, ring or polygon container: the sentinel envelope with
      its corners taken from the engine's envelope. */
  function RingBox(e: OgrEnvelope): Envelope {
    Remap(EmptyEnvelope(), e)
  }

  /** extract_points as a function of the tree and the interrupt flag. */
  function Flatten(g: Geometry, interrupted: bool): seq<ShapeContainer>
    requires WellFormed(g)
    decreases g, 1, 0
  {
    match g.kind
    case WkbPoint =>
      [ShapeContainer(ShapePoint, [g.vertices[0]], Envelope(g.vertices[0], g.vertices[0], false))]
    case WkbLineString =>
      [ShapeContainer(ShapeLineString, if interrupted then [] else Reversed(g.vertices), RingBox(g.envelope))]
    case WkbLinearRing =>
      [ShapeContainer(ShapeLinearRing, if interrupted then [] else Reversed(g.vertices), RingBox(g.envelope))]
    case WkbPolygon =>
      var ring := g.members[0];
      [ShapeContainer(ShapePolygon, Reversed(ring.vertices), RingBox(ring.envelope))] +
      (if interrupted then [] else FlattenMembers(g, 1, |g.members|, interrupted))
    case _ =>
      if IsCollection(g.kind) && !interrupted then FlattenMembers(g, 0, |g.members|, interrupted) else []
  }

  /** The flattening of members lo .. hi-1 of g, in index order. */
  function FlattenMembers(g: Geometry, lo: nat, hi: nat, interrupted: bool): seq<ShapeContainer>
    requires WellFormed(g) && lo <= hi <= |g.members|
    decreases g, 0, hi - lo
  {
    if hi == lo then [] else FlattenMembers(g, lo, hi - 1, interrupted) + Flatten(g.members[hi - 1], interrupted)
  }

  /** Importer: the parsed geometry (absent when parsing failed or the data
      was taken) and the interrupt flag its loops poll. */
  class Importer {
    var geometry: Option<Geometry>
    var interrupted: bool

    predicate Valid()
      reads this
    {
      geometry.Some? ==> WellFormed(geometry.value)
    }

    /** A new importer holding what the foreign parser produced. */
    constructor (parsed: Option<Geometry>)
      requires parsed.Some? ==> WellFormed(parsed.value)
      ensures Valid() && geometry == parsed && !interrupted
    {
      geometry := parsed;
      interrupted := false;
    }

    /** Vertices from last to first; a guarded loop stops once interrupted. */
    method CollectReversed(vertices: seq<Point>, guarded: bool) returns (pts: seq<Point>)
      ensures guarded && interrupted ==> pts == []
      ensures !(guarded && interrupted) ==> pts == Reversed(vertices)
    {
      pts := [];
      var stop := guarded && interrupted;
      var i := |vertices| - 1;
      while i >= 0 && !stop
        invariant -1 <= i < |vertices|
        invariant pts == Reversed(vertices[i + 1..])
        invariant stop ==> i == |vertices| - 1
      {
        ReversedStep(vertices, i);
        pts := pts + [vertices[i]];
        i := i - 1;
      }
      if stop {
        assert |vertices[i + 1..]| == 0;
        assert pts == [];
      } else {
        assert i == -1 && vertices[0..] == vertices;
        assert pts == Reversed(vertices);
      }
    }

    /** extract_points: appends the containers of g to shapes. */
    method ExtractPoints(g: Geometry, shapes: seq<ShapeContainer>) returns (out: seq<ShapeContainer>)
      requires WellFormed(g)
      ensures out == shapes + Flatten(g, interrupted)
      decreases g, 1
    {
      var kind := g.kind;
      if kind == WkbPoint {
        var v := g.vertices[0];
        out := shapes + [ShapeContainer(ShapePoint, [v], Envelope(v, v, false))];
      } else if kind == WkbLineString || kind == WkbLinearRing {
        var box := RingBox(g.envelope);
        var pts := CollectReversed(g.vertices, true);
        var t := if kind == WkbLineString then ShapeLineString else ShapeLinearRing;
        out := shapes + [ShapeContainer(t, pts, box)];
      } else if kind == WkbPolygon {
        var ring := g.members[0];
        var pts := CollectReversed(ring.vertices, false);
        out := shapes + [ShapeContainer(ShapePolygon, pts, RingBox(ring.envelope))];
        out := ExtractMembers(g, 1, out);
      } else if IsCollection(kind) {
        out := ExtractMembers(g, 0, shapes);
      } else {
        out := shapes;
      }
    }

    /** The member loop of extract_points, from member lo on, stopping once interrupted. */
    method ExtractMembers(g: Geometry, lo: nat, shapes: seq<ShapeContainer>) returns (out: seq<ShapeContainer>)
      requires WellFormed(g) && lo <= |g.members|
      ensures out == shapes + (if interrupted then [] else FlattenMembers(g, lo, |g.members|, interrupted))
      decreases g, 0
    {
      out := shapes;
      var i := lo;
      while i < |g.members| && !interrupted
        invariant lo <= i <= |g.members|
        invariant out == shapes + FlattenMembers(g, lo, i, interrupted)
        invariant interrupted ==> i == lo
      {
        out := ExtractPoints(g.members[i], out);
        i := i + 1;
      }
    }

    /** get_points: the flattened geometry, or nothing when there is none. */
    method GetPoints(shapes: seq<ShapeContainer>) returns (out: seq<ShapeContainer>)
      requires Valid()
      ensures geometry.None? ==> out == shapes
      ensures geometry.Some? ==> out == shapes + Flatten(geometry.value, interrupted)
    {
      if geometry.Some? {
        out := ExtractPoints(geometry.value, shapes);
      } else {
        out := shapes;
      }
    }

    /** get_envelope: overwrites the corners with the geometry's envelope,
        keeps the converted flag, and leaves env alone without a geometry. */
    method GetEnvelope(env: Envelope) returns (out: Envelope)
      ensures geometry.None? ==> out == env
      ensures geometry.Some? ==>
        out.topLeft == Point(geometry.value.envelope.minX, geometry.value.envelope.maxY) &&
        out.bottomRight == Point(geometry.value.envelope.maxX, geometry.value.envelope.minY) &&
        out.converted == env.converted
    {
      out := env;
      if geometry.Some? {
        var e := geometry.value.envelope;
        out := out.(topLeft := Point(e.minX, e.maxY));
        out := out.(bottomRight := Point(e.maxX, e.minY));
      }
    }

    /** steal_data: hands over the geometry and forgets it. */
    method StealData() returns (g: Option<Geometry>)
      requires Valid()
      modifies this
      ensures g == old(geometry) && geometry.None? && interrupted == old(interrupted)
      ensures Valid()
    {
      g := geometry;
      geometry := None;
    }

    /** interrupt: raises the flag the flattening loops poll. */
    method Interrupt()
      modifies this
      ensures interrupted && geometry == old(geometry)
    {
      interrupted := true;
    }
  }

  // ---------------------------------------------------------------------------
  // Properties of the flattening.

  /** A point becomes one Point container whose box corners both equal the point. */
  lemma FlattenPoint(v: Point, e: OgrEnvelope, interrupted: bool)
    ensures Flatten(Geometry(WkbPoint, [v], e, []), interrupted) ==
            [ShapeContainer(ShapePoint, [v], Envelope(v, v, false))]
  {
  }

  /** A line string or ring becomes one container holding its vertices in
      reverse index order, with box (MinX, MaxY)-(MaxX, MinY). */
  lemma FlattenLine(g: Geometry)
    requires WellFormed(g) && (g.kind == WkbLineString || g.kind == WkbLinearRing)
    ensures |Flatten(g, false)| == 1
    ensures Flatten(g, false)[0].shapeType == (if g.kind == WkbLineString then ShapeLineString else ShapeLinearRing)
    ensures |Flatten(g, false)[0].points| == |g.vertices|
    ensures forall k :: 0 <= k < |g.vertices| ==> Flatten(g, false)[0].points[k] == g.vertices[|g.vertices| - 1 - k]
    ensures Flatten(g, false)[0].boundingBox ==
            Envelope(Point(g.envelope.minX, g.envelope.maxY), Point(g.envelope.maxX, g.envelope.minY), false)
  {
    ReversedAt(g.vertices);
  }

  /** Flattening members lo .. hi-1 is flattening lo .. mid-1 then mid .. hi-1. */
  lemma {:induction false} FlattenMembersSplit(g: Geometry, lo: nat, mid: nat, hi: nat, interrupted: bool)
    requires WellFormed(g) && lo <= mid <= hi <= |g.members|
    ensures FlattenMembers(g, lo, hi, interrupted) ==
            FlattenMembers(g, lo, mid, interrupted) + FlattenMembers(g, mid, hi, interrupted)
    decreases hi - mid
  {
    if hi > mid {
      FlattenMembersSplit(g, lo, mid, hi - 1, interrupted);
    }
  }

  /** Members that are all rings flatten to one ring container each, in member order. */
  lemma {:induction false} FlattenRings(g: Geometry, lo: nat, hi: nat)
    requires WellFormed(g) && lo <= hi <= |g.members|
    requires forall i :: lo <= i < hi ==> g.members[i].kind == WkbLinearRing
    ensures |FlattenMembers(g, lo, hi, false)| == hi - lo
    ensures forall i :: lo <= i < hi ==>
      FlattenMembers(g, lo, hi, false)[i - lo] ==
      ShapeContainer(ShapeLinearRing, Reversed(g.members[i].vertices), RingBox(g.members[i].envelope))
    decreases hi - lo
  {
    if hi > lo {
      FlattenRings(g, lo, hi - 1);
    }
  }

  /** A polygon yields its reversed exterior ring as a Polygon container first,
      then one ring container per interior ring, in ring order. */
  lemma PolygonOrder(g: Geometry)
    requires WellFormed(g) && g.kind == WkbPolygon
    requires forall i :: 1 <= i < |g.members| ==> g.members[i].kind == WkbLinearRing
    ensures |Flatten(g, false)| == |g.members|
    ensures Flatten(g, false)[0] ==
            ShapeContainer(ShapePolygon, Reversed(g.members[0].vertices), RingBox(g.members[0].envelope))
    ensures forall i :: 1 <= i < |g.members| ==>
            Flatten(g, false)[i] ==
            ShapeContainer(ShapeLinearRing, Reversed(g.members[i].vertices), RingBox(g.members[i].envelope))
  {
    FlattenRings(g, 1, |g.members|);
  }

  /** The polygon ((0,0),(10,0),(10,10),(0,10),(0,0)) with the hole
      ((2,2),(4,2),(4,4),(2,4),(2,2)) flattens to the exterior ring, reversed,
      as a Polygon, followed by the hole, reversed, as a LinearRing. */
  lemma PolygonWithOneHole()
    ensures
      var outer := [Point(0.0, 0.0), Point(10.0, 0.0), Point(10.0, 10.0), Point(0.0, 10.0), Point(0.0, 0.0)];
      var inner := [Point(2.0, 2.0), Point(4.0, 2.0), Point(4.0, 4.0), Point(2.0, 4.0), Point(2.0, 2.0)];
      var eo := OgrEnvelope(0.0, 10.0, 0.0, 10.0);
      var ei := OgrEnvelope(2.0, 4.0, 2.0, 4.0);
      var poly := Geometry(WkbPolygon, [], eo, [Geometry(WkbLinearRing, outer, eo, []), Geometry(WkbLinearRing, inner, ei, [])]);
      WellFormed(poly) &&
      Flatten(poly, false) ==
        [ShapeContainer(ShapePolygon, [outer[4], outer[3], outer[2], outer[1], outer[0]],
                        Envelope(Point(0.0, 10.0), Point(10.0, 0.0), false)),
         ShapeContainer(ShapeLinearRing, [inner[4], inner[3], inner[2], inner[1], inner[0]],
                        Envelope(Point(2.0, 4.0), Point(4.0, 2.0), false))]
  {
    var outer := [Point(0.0, 0.0), Point(10.0, 0.0), Point(10.0, 10.0), Point(0.0, 10.0), Point(0.0, 0.0)];
    var inner := [Point(2.0, 2.0), Point(4.0, 2.0), Point(4.0, 4.0), Point(2.0, 4.0), Point(2.0, 2.0)];
    var eo := OgrEnvelope(0.0, 10.0, 0.0, 10.0);
    var ei := OgrEnvelope(2.0, 4.0, 2.0, 4.0);
    var poly := Geometry(WkbPolygon, [], eo, [Geometry(WkbLinearRing, outer, eo, []), Geometry(WkbLinearRing, inner, ei, [])]);
    assert WellFormed(poly.members[0]) && WellFormed(poly.members[1]);
    PolygonOrder(poly);
    ReversedAt(outer);
    ReversedAt(inner);
    assert Reversed(outer) == [outer[4], outer[3], outer[2], outer[1], outer[0]];
    assert Reversed(inner) == [inner[4], inner[3], inner[2], inner[1], inner[0]];
  }

  /** Once interrupted, flattening yields at most one container: a point, an
      empty line or ring, or a polygon's exterior ring without its holes. */
  lemma InterruptedFlatten(g: Geometry)
    requires WellFormed(g)
    ensures |Flatten(g, true)| <= 1
    ensures g.kind == WkbLineString || g.kind == WkbLinearRing ==> Flatten(g, true)[0].points == []
  {
  }

  /** Types other than points, lines, rings, polygons and collections yield nothing. */
  lemma OtherTypesIgnored(g: Geometry, interrupted: bool)
    requires WellFormed(g) && g.kind.WkbOther?
    ensures Flatten(g, interrupted) == []
  {
  }
}
