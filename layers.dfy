/** Layers and features: a layer owns an append-only list of features, keeps
    the union of their envelopes, renders them through a converter while
    reporting progress, and answers which feature lies under a pixel. */
module Layers {
  import opened Wrappers
  import opened Spatial
  import opened Shapes
  import opened Importing
  import opened Converting

  /** What a converter does to freshly flattened shapes: nothing when it is
      interrupted, the per-container conversion otherwise. */
  function Converted(shapes: seq<ShapeContainer>, c: Converter): seq<ShapeContainer>
    reads c
    requires c.Valid()
  {
    if c.interrupted then shapes else ConvertAll(shapes, c.geoToProj.value, c.inv)
  }

  /** Adding one more step to i steps gives i + 1 steps. */
  lemma ProgressStep(i: int, step: real)
    ensures i as real * step + step == (i + 1) as real * step
  {
  }

  /** n shares of 1/n make up the whole. */
  lemma ProgressComplete(n: int)
    requires n > 0
    ensures n as real * (1.0 / n as real) == 1.0
  {
  }

  /** One row of the layer's data: its geometry and, once rendered, its
      shapes in pixel coordinates. */
  class Feature {
    const owner: Layer
    const rowId: int
    const importer: Importer
    var shapes: seq<ShapeContainer>

    /** The shapes the importer yields right now. */
    function Extracted(): seq<ShapeContainer>
      reads importer
      requires importer.Valid()
    {
      if importer.geometry.Some? then Flatten(importer.geometry.value, importer.interrupted) else []
    }

    /** The feature's envelope as the layer sees it: the corners of the
        geometry's envelope written into a default envelope, or the
        sentinel when there is no geometry. */
    function EnvelopeOf(): Envelope
      reads importer
    {
      if importer.geometry.Some? then Remap(EmptyEnvelope(), importer.geometry.value.envelope)
      else EmptyEnvelope()
    }

    /** Some rendered shape contains p. */
    predicate Hit(p: Point)
      reads this
    {
      exists k :: 0 <= k < |shapes| && Shapes.Within(shapes[k], p)
    }

    /** The geometry comes from the foreign parser as `parsed`. */
    constructor (layer: Layer, row: int, parsed: Option<Geometry>)
      requires parsed.Some? ==> WellFormed(parsed.value)
      ensures owner == layer && rowId == row && shapes == []
      ensures fresh(importer) && importer.Valid() && importer.geometry == parsed && !importer.interrupted
    {
      owner := layer;
      rowId := row;
      importer := new Importer(parsed);
      shapes := [];
    }

    /** get_envelope: overwrites env's corners with the geometry's envelope. */
    method GetEnvelope(env: Envelope) returns (out: Envelope)
      ensures importer.geometry.None? ==> out == env
      ensures importer.geometry.Some? ==> out == Remap(env, importer.geometry.value.envelope)
    {
      out := importer.GetEnvelope(env);
    }

    /** render: flattens the geometry into a scratch list, converts the list
        to pixels and keeps it as the feature's shapes. */
    method Render(converter: Converter)
      requires importer.Valid() && converter.Valid()
      modifies this
      ensures shapes == Converted(Extracted(), converter)
    {
      var tmp := importer.GetPoints([]);
      var buffer := new ShapeContainer[|tmp|](i requires 0 <= i < |tmp| => tmp[i]);
      assert buffer[..] == tmp;
      converter.TransformPoints(buffer);
      shapes := buffer[..];
    }

    /** within: the shapes are tried in order until one contains p, as long
        as the owning layer is not interrupted. */
    method Within(p: Point) returns (r: bool)
      ensures r <==> !owner.interrupted && Hit(p)
    {
      var i := 0;
      while i < |shapes| && !owner.interrupted
        invariant 0 <= i <= |shapes|
        invariant forall k :: 0 <= k < i ==> !Shapes.Within(shapes[k], p)
      {
        var hit := ShapeWithin(shapes[i], p);
        if hit {
          return true;
        }
        i := i + 1;
      }
      return false;
    }

    /** interrupt: forwarded to the importer. */
    method Interrupt()
      modifies importer
      ensures importer.interrupted && importer.geometry == old(importer.geometry)
    {
      importer.Interrupt();
    }
  }

  /** A layer of features drawn in one colour. */
  class Layer {
    const layerId: int
    var features: seq<Feature>
    var envelope: Envelope
    var renderProgress: real
    var interrupted: bool
    var show: bool

    function Importers(): set<Importer>
      reads this
    {
      set f | f in features :: f.importer
    }

    /** Every feature belongs to this layer, holds a well-formed geometry,
        and lies inside the layer's envelope. */
    predicate Valid()
      reads this, features, Importers()
    {
      forall k :: 0 <= k < |features| ==>
        features[k].owner == this && features[k].importer.Valid() &&
        Covers(envelope, features[k].EnvelopeOf())
    }

    /** A new layer is empty, hidden, not interrupted, and starts from the
        sentinel envelope. Render progress starts at zero. */
    constructor (id: int)
      ensures layerId == id && features == [] && envelope == EmptyEnvelope()
      ensures !show && !interrupted && renderProgress == 0.0
      ensures Valid()
    {
      layerId := id;
      features := [];
      envelope := Envelope(Point(180.0, -90.0), Point(-180.0, 90.0), false);
      renderProgress := 0.0;
      interrupted := false;
      show := false;
    }

    /** hidden: the layer is not shown. */
    predicate Hidden()
      reads this
    {
      !show
    }

    /** set_show: stores the flag; loading the rows when shown is left to the
        data source. */
    method SetShow(flag: bool)
      modifies this
      ensures show == flag && Hidden() == !flag
      ensures features == old(features) && envelope == old(envelope) && interrupted == old(interrupted)
      ensures renderProgress == old(renderProgress)
    {
      show := flag;
    }

    /** add_feature: appends a new feature for the row and extends the
        layer's envelope by the feature's envelope. */
    method AddFeature(row: int, parsed: Option<Geometry>) returns (f: Feature)
      requires Valid()
      requires parsed.Some? ==> WellFormed(parsed.value)
      modifies this
      ensures fresh(f) && fresh(f.importer)
      ensures f.owner == this && f.rowId == row && f.importer.geometry == parsed && f.shapes == []
      ensures features == old(features) + [f]
      ensures envelope == Extend(old(envelope), f.EnvelopeOf())
      ensures Covers(envelope, old(envelope)) && Covers(envelope, f.EnvelopeOf())
      ensures interrupted == old(interrupted) && show == old(show) && renderProgress == old(renderProgress)
      ensures Valid()
    {
      f := new Feature(this, row, parsed);
      var env := f.GetEnvelope(EmptyEnvelope());
      forall k | 0 <= k < |features|
        ensures Covers(Extend(envelope, env), features[k].EnvelopeOf())
      {
        ExtendNeverShrinks(envelope, env, features[k].EnvelopeOf());
      }
      envelope := Extend(envelope, env);
      features := features + [f];
    }

    /** render: progress restarts at zero, and each feature rendered before
        an interrupt adds 1/n, so a complete pass ends at exactly one. */
    method Render(converter: Converter)
      requires Valid() && converter.Valid()
      modifies this, features
      ensures features == old(features) && envelope == old(envelope)
      ensures interrupted == old(interrupted) && show == old(show)
      ensures renderProgress == if !interrupted && |features| > 0 then 1.0 else 0.0
      ensures !interrupted ==>
        forall k :: 0 <= k < |features| ==> features[k].shapes == Converted(features[k].Extracted(), converter)
      ensures interrupted ==> forall k :: 0 <= k < |features| ==> features[k].shapes == old(features[k].shapes)
      ensures Valid()
    {
      renderProgress := 0.0;
      var fs := features;
      var n := |fs|;
      var step := if n == 0 then 0.0 else 1.0 / n as real;
      var i := 0;
      while i < n && !interrupted
        invariant 0 <= i <= n
        invariant features == fs && envelope == old(envelope) && show == old(show)
        invariant interrupted == old(interrupted) && (interrupted ==> i == 0)
        invariant renderProgress == i as real * step
        invariant Valid()
        invariant forall k :: 0 <= k < i ==> fs[k].shapes == Converted(fs[k].Extracted(), converter)
        invariant i == 0 ==> forall k :: 0 <= k < n ==> fs[k].shapes == old(fs[k].shapes)
      {
        fs[i].Render(converter);
        ProgressStep(i, step);
        renderProgress := renderProgress + step;
        i := i + 1;
      }
      if n > 0 && !interrupted {
        ProgressComplete(n);
      }
    }

    /** feature_within: the first feature, in insertion order, that contains
        p; null when none does or the layer is interrupted. */
    method FeatureWithin(p: Point) returns (r: Feature?)
      requires Valid()
      ensures r == null <==> interrupted || forall k :: 0 <= k < |features| ==> !features[k].Hit(p)
      ensures r != null ==> exists k :: 0 <= k < |features| && features[k] == r && r.Hit(p) &&
                                       forall j :: 0 <= j < k ==> !features[j].Hit(p)
    {
      var i := 0;
      while i < |features| && !interrupted
        invariant 0 <= i <= |features|
        invariant forall j :: 0 <= j < i ==> !features[j].Hit(p)
      {
        var hit := features[i].Within(p);
        if hit {
          return features[i];
        }
        i := i + 1;
      }
      return null;
    }

    /** interrupt: raises the layer's flag and every feature's importer flag. */
    method Interrupt()
      requires Valid()
      modifies this, Importers()
      ensures interrupted && features == old(features) && envelope == old(envelope)
      ensures show == old(show) && renderProgress == old(renderProgress)
      ensures forall k :: 0 <= k < |features| ==> features[k].importer.interrupted
      ensures forall k :: 0 <= k < |features| ==>
        features[k].importer.geometry == old(features[k].importer.geometry)
      ensures Valid()
    {
      interrupted := true;
      var i := 0;
      while i < |features|
        invariant 0 <= i <= |features|
        invariant features == old(features) && envelope == old(envelope)
        invariant interrupted && show == old(show) && renderProgress == old(renderProgress)
        invariant forall k :: 0 <= k < i ==> features[k].importer.interrupted
        invariant forall k :: 0 <= k < |features| ==>
          features[k].importer.geometry == old(features[k].importer.geometry)
      {
        features[i].Interrupt();
        i := i + 1;
      }
    }
  }
}
