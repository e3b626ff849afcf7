/** Primitive values of the spatial viewer: points, envelopes (axis-aligned
    boxes with a "not yet set" sentinel) and projection views. */
module Spatial {

  /** A 2-D coordinate; degrees, projected metres or pixels depending on the stage. */
  datatype Point = Point(x: real, y: real)

  /** A box given by its top-left and bottom-right corners. In geodetic space
      the top-left corner holds the smallest x and the LARGEST y. */
  datatype Envelope = Envelope(topLeft: Point, bottomRight: Point, converted: bool)

  /** The native envelope reported by the geometry engine. */
  datatype OgrEnvelope = OgrEnvelope(minX: real, maxX: real, minY: real, maxY: real)

  /** The geodetic extent shown on a width x height pixel viewport. */
  datatype ProjectionView = ProjectionView(minLat: real, maxLat: real, minLon: real, maxLon: real,
                                           width: int, height: int)

  /** The default-constructed envelope: the inverted box (180,-90)-(-180,90). */
  function EmptyEnvelope(): (e: Envelope)
    ensures !e.converted
    ensures e.topLeft.x > e.bottomRight.x && e.topLeft.y < e.bottomRight.y
  {
    Envelope(Point(180.0, -90.0), Point(-180.0, 90.0), false)
  }

  /** The four-argument constructor: it stores its arguments and then
      overwrites all four with the sentinel values. */
  function EnvelopeFromCorners(left: real, top: real, right: real, bottom: real): (e: Envelope)
    ensures e == EmptyEnvelope()
  {
    var e := Envelope(Point(left, top), Point(right, bottom), false);
    e.(topLeft := Point(180.0, -90.0), bottomRight := Point(-180.0, 90.0))
  }

  /** Whether the envelope holds data: every coordinate differs from its sentinel. */
  function IsInit(e: Envelope): (r: bool)
    ensures r ==> !EnvelopeEquals(e, EmptyEnvelope())
  {
    e.topLeft.x != 180.0 && e.topLeft.y != -90.0 && e.bottomRight.x != -180.0 && e.bottomRight.y != 90.0
  }

  /** Envelope equality compares the corners and ignores the converted flag. */
  function EnvelopeEquals(a: Envelope, b: Envelope): (r: bool)
    ensures r <==> a.(converted := false) == b.(converted := false)
  {
    a.bottomRight == b.bottomRight && a.topLeft == b.topLeft
  }

  /** View equality compares the six fields one by one. */
  function ViewEquals(v1: ProjectionView, v2: ProjectionView): (r: bool)
    ensures r <==> v1 == v2
  {
    v1.maxLat == v2.maxLat && v1.maxLon == v2.maxLon && v1.minLat == v2.minLat &&
    v1.minLon == v2.minLon && v1.height == v2.height && v1.width == v2.width
  }

  /** `outer` contains `inner` in the geodetic convention (top-left is min x, max y). */
  predicate Covers(outer: Envelope, inner: Envelope) {
    outer.topLeft.x <= inner.topLeft.x && outer.topLeft.y >= inner.topLeft.y &&
    outer.bottomRight.x >= inner.bottomRight.x && outer.bottomRight.y <= inner.bottomRight.y
  }

  function Min(a: real, b: real): real { if a < b then a else b }
  function Max(a: real, b: real): real { if a > b then a else b }

  /** extend_env: the union of two envelopes; the first keeps its converted flag.
      The result is the smallest envelope covering both. */
  function Extend(env: Envelope, env2: Envelope): (r: Envelope)
    ensures Covers(r, env) && Covers(r, env2) && r.converted == env.converted
    ensures forall c :: Covers(c, env) && Covers(c, env2) ==> Covers(c, r)
  {
    env.(topLeft := Point(Min(env.topLeft.x, env2.topLeft.x), Max(env.topLeft.y, env2.topLeft.y)),
         bottomRight := Point(Max(env.bottomRight.x, env2.bottomRight.x), Min(env.bottomRight.y, env2.bottomRight.y)))
  }

  /** Rewrites the corners of `env` from the engine's envelope:
      top-left (MinX, MaxY), bottom-right (MaxX, MinY). */
  function Remap(env: Envelope, e: OgrEnvelope): Envelope {
    env.(topLeft := Point(e.minX, e.maxY), bottomRight := Point(e.maxX, e.minY))
  }

  /** The engine's own union of two native envelopes. */
  function Merge(a: OgrEnvelope, b: OgrEnvelope): OgrEnvelope {
    OgrEnvelope(Min(a.minX, b.minX), Max(a.maxX, b.maxX), Min(a.minY, b.minY), Max(a.maxY, b.maxY))
  }

  /** An envelope whose corners lie inside the geodetic sentinel range. */
  predicate InGeodeticRange(e: Envelope) {
    e.topLeft.x <= 180.0 && e.topLeft.y >= -90.0 && e.bottomRight.x >= -180.0 && e.bottomRight.y <= 90.0
  }

  lemma ExtendSelf(e: Envelope)
    ensures Extend(e, e) == e
  {
  }

  lemma ExtendCommutes(a: Envelope, b: Envelope)
    ensures Extend(a, b).(converted := false) == Extend(b, a).(converted := false)
  {
  }

  lemma ExtendAssociates(a: Envelope, b: Envelope, c: Envelope)
    ensures Extend(Extend(a, b), c) == Extend(a, Extend(b, c))
  {
  }

  /** Extending never shrinks: whatever the first envelope covered, the union covers. */
  lemma ExtendNeverShrinks(a: Envelope, b: Envelope, inner: Envelope)
    requires Covers(a, inner)
    ensures Covers(Extend(a, b), inner)
  {
  }

  /** The sentinel is neutral for extension of envelopes in the geodetic range,
      so starting a layer from it and extending gives exactly the features' union. */
  lemma ExtendEmpty(e: Envelope)
    requires InGeodeticRange(e)
    ensures Extend(e, EmptyEnvelope()) == e
    ensures Extend(EmptyEnvelope(), e) == e.(converted := false)
  {
  }

  /** is_init on a layer envelope: the sentinel extended by a box holds data exactly
      when the box reaches strictly inside the sentinel on all four sides. */
  lemma InitAfterExtend(e: Envelope)
    ensures !IsInit(EmptyEnvelope())
    ensures IsInit(Extend(EmptyEnvelope(), e)) <==>
      e.topLeft.x < 180.0 && e.topLeft.y > -90.0 && e.bottomRight.x > -180.0 && e.bottomRight.y < 90.0
  {
  }

  /** Remapping turns the engine's merge into extend_env: the two unions agree. */
  lemma ExtendIsMerge(env: Envelope, env2: Envelope, a: OgrEnvelope, b: OgrEnvelope)
    ensures Extend(Remap(env, a), Remap(env2, b)) == Remap(env, Merge(a, b))
  {
  }
}
