# Spatial viewer core, modelled in Dafny

This project models the core of the spatial-data viewer in MySQL Workbench
(`backend/wbpublic/grt/spatial_handler.cpp`): the part that turns a parsed
geometry into flat, drawable shapes, converts them to screen pixels through a
map projection and an affine view transform, and answers which feature lies
under the mouse.

- **Envelopes** (`spatial.dfy`, module `Spatial`). An envelope is a box given by its
  top-left and bottom-right corners. The default one is the inverted sentinel
  (180,-90)-(-180,90). `is_init` is true when no coordinate still holds its
  sentinel value. `extend_env` is the union of two envelopes. View and envelope
  equality are modelled too.
- **Containment** (`shapes.dfy`, module `Shapes`). A `ShapeContainer` is a
  shape type, a list of points and a bounding box. `within` dispatches on the type:
  - a point is hit within 4 pixels;
  - a line string is hit within 1 pixel of one of its segments;
  - a ring counts as a line string closed by its first point;
  - a polygon is decided by even-odd ray casting after a bounding-box check.

  Distances are compared squared (`< 4` becomes `< 16`). The point-to-segment
  distance is proved to be the exact minimum over the segment.
  Ray casting is proved to accept every point strictly inside a triangle,
  whatever its vertex order.
- **Projection lookup** (`projections.dfy`, module `Projections`). This maps a
  projection kind to its reference system. An unsupported kind is an error
  carrying the original message.
- **Flattening** (`importing.dfy`, module `Importing`). A geometry tree is an
  inductive `Geometry` value. Each node carries its reported type, its vertices,
  its envelope and its members. `Importer` is a class whose `ExtractPoints`
  appends containers in place, recursively. Vertices come out last to first. A
  polygon's exterior ring comes first, then each interior ring. Collections are
  walked member by member, and other types add nothing. The interrupt flag stops
  the guarded loops.
- **Conversion** (`converting.dfy`, module `Converting`). `Converter` is a class
  holding the view, the two reference systems, the two coordinate
  transformations, the six affine coefficients and their inverse.
  - `ChangeProjection` detects a no-op, rebuilds the transformations when a
    reference system changes, and recomputes the affine and its inverse.
  - `TransformPoints` converts an array of containers in place. Failing points
    are erased and the survivors keep their order. Survivors are truncated to
    pixels. A box is marked converted only when both of its corners transform.
- **Layers** (`layers.dfy`, module `Layers`). `Feature` and `Layer` are classes.
  - A layer appends features and extends its envelope by each new one.
  - `Render` renders each feature and advances the progress by 1/n per feature.
  - `FeatureWithin` returns the first feature in insertion order that contains
    the point.
  - `Interrupt` raises the layer's flag and every feature importer's flag.

`wrappers.dfy` holds the `Option` and `Result` datatypes.

Modelling conventions:
- Coordinates are `real`.
- The C `(int)` cast is `TruncToInt`, which truncates toward zero.
- A coordinate transformation is a function value
  `(real, real) -> Option<(real, real)>`, and `None` means it failed.
- Creating a transformation between two reference systems is the converter's
  `build` function. It gives `None` where the original throws.
- Interrupt flags are plain fields that loops read at their heads. A call
  cannot change them while it runs, so each guarded loop either runs to the end
  or does not start.

## Model

| member | source | states |
|---|---|---|
| Spatial.EmptyEnvelope | backend/wbpublic/grt/spatial_handler.cpp:64-70 | The default envelope is not converted, and its corners are inverted (top-left x above bottom-right x, top-left y below bottom-right y). |
| Spatial.EnvelopeFromCorners | backend/wbpublic/grt/spatial_handler.cpp:72-82 | The four-argument constructor ignores its arguments: for every input the result is the default sentinel envelope. |
| Spatial.IsInit | backend/wbpublic/grt/spatial_handler.cpp:84-87 | An envelope that `is_init` accepts never equals the default sentinel. |
| Spatial.InitAfterExtend | backend/wbpublic/grt/spatial_handler.cpp:64-87 | The sentinel is not `is_init`. The sentinel extended by a box is `is_init` exactly when the box lies strictly inside the sentinel on all four sides. |
| Spatial.EnvelopeEquals | backend/wbpublic/grt/spatial_handler.cpp:54-62 | Envelopes are equal exactly when they agree apart from the converted flag. |
| Spatial.ViewEquals | backend/wbpublic/grt/spatial_handler.cpp:40-52 | Field-by-field view comparison holds exactly when the two views are the same value. |
| Spatial.Extend | backend/wbpublic/grt/spatial_handler.cpp:829-835 | The union covers both envelopes, keeps the first one's converted flag, and is covered by every envelope that covers both. So it is the least union. |
| Spatial.ExtendSelf | backend/wbpublic/grt/spatial_handler.cpp:829-835 | Extending an envelope by itself changes nothing. |
| Spatial.ExtendCommutes | backend/wbpublic/grt/spatial_handler.cpp:829-835 | Extension is commutative on the corners. |
| Spatial.ExtendAssociates | backend/wbpublic/grt/spatial_handler.cpp:829-835 | Extension is associative, so the order of adding features does not change a layer's envelope. |
| Spatial.ExtendNeverShrinks | backend/wbpublic/grt/spatial_handler.cpp:829-835 | Whatever an envelope covered, its extension still covers. |
| Spatial.ExtendEmpty | backend/wbpublic/grt/spatial_handler.cpp:829-846 | The sentinel is neutral for extension of boxes inside the geodetic range, so a layer's envelope is exactly the union of its features' envelopes. |
| Spatial.ExtendIsMerge | backend/wbpublic/grt/spatial_handler.cpp:417-428 | Writing engine envelopes into corners turns the engine's own merge into `extend_env`. |
| Shapes.ShapeDescription | backend/wbpublic/grt/spatial_handler.cpp:205-223 | The description is "Unknown shape type" exactly for the unknown type. |
| Shapes.DescriptionsDistinct | backend/wbpublic/grt/spatial_handler.cpp:205-223 | Different shape types have different descriptions. |
| Shapes.SqDistanceToSegment | backend/wbpublic/grt/spatial_handler.cpp:117-142 | The squared distance is non-negative. For a degenerate segment (start equals end) it is the distance to start. |
| Shapes.EndIsClosest | backend/wbpublic/grt/spatial_handler.cpp:126-130 | When the projection parameter exceeds 1, the end point is at least as close as any point of the segment. |
| Shapes.StartIsClosest | backend/wbpublic/grt/spatial_handler.cpp:131-135 | When the parameter is below 0, the start point is at least as close as any point of the segment. |
| Shapes.FootIsClosest | backend/wbpublic/grt/spatial_handler.cpp:136-140 | The foot of the perpendicular is at least as close as any point on the line. |
| Shapes.SegmentDistanceIsMinimal | backend/wbpublic/grt/spatial_handler.cpp:117-142 | The returned distance is at most the distance to every point of the segment. |
| Shapes.SegmentDistanceIsAttained | backend/wbpublic/grt/spatial_handler.cpp:117-142 | The returned distance is the distance to some point of the segment. With the row above, it is the exact minimum. |
| Shapes.WithinLine | backend/wbpublic/grt/spatial_handler.cpp:144-166 | The loop answers true exactly when some pair of consecutive points is within 1.0 of p. An empty or one-point list is never hit. |
| Shapes.NearPolylineGeometric | backend/wbpublic/grt/spatial_handler.cpp:144-166 | A line is hit exactly when some point on one of its segments lies within 1.0 of p. |
| Shapes.WithinLinearRing | backend/wbpublic/grt/spatial_handler.cpp:106-114 | A ring is hit exactly when the line on its points with the first point appended is hit. An empty ring is never hit. |
| Shapes.RingTestsClosingEdge | backend/wbpublic/grt/spatial_handler.cpp:106-114 | A point near the closing edge (last vertex back to first) hits the ring. |
| Shapes.RingExtendsLine | backend/wbpublic/grt/spatial_handler.cpp:106-114 | Whatever hits the open line also hits the ring. |
| Shapes.WithinPolygon | backend/wbpublic/grt/spatial_handler.cpp:168-185 | The answer is false for no points or p outside the bounding box. Otherwise it is the parity of the edges (i, i-1 wrapping) that straddle p.y and cross to the right of p. |
| Shapes.RectangleContainment | backend/wbpublic/grt/spatial_handler.cpp:168-185 | On a rectangle the parity rule accepts every interior point and rejects every point outside the box. |
| Shapes.TriangleContainment | backend/wbpublic/grt/spatial_handler.cpp:168-185 | For a non-degenerate triangle in any vertex order, every point strictly inside (all three barycentric weights positive) is within the polygon shape. Every point outside its bounding box is not. |
| Shapes.GeodeticBoxNeverHit | backend/wbpublic/grt/spatial_handler.cpp:172-174 | A polygon whose box still has top-left y above bottom-right y, as when converting it to pixels failed, is never hit. |
| Shapes.UnitSquareExample | backend/wbpublic/grt/spatial_handler.cpp:168-185 | A square contains its centre and not a point outside it. |
| Shapes.PointShapeTolerance | backend/wbpublic/grt/spatial_handler.cpp:187-198 | A point shape is hit exactly when p is closer than 4 to its point. The point hits itself. |
| Shapes.ShapeWithin | backend/wbpublic/grt/spatial_handler.cpp:89-104 | `within` dispatches on the shape type to the four checks above, and the unknown type gives false. |
| Shapes.EmptyNeverWithin | backend/wbpublic/grt/spatial_handler.cpp:89-104 | An empty point list or an unknown type is never hit, whatever the branch. |
| Projections.GetProjection | backend/wbpublic/grt/spatial_handler.cpp:306-323 | The lookup fails exactly for an unsupported kind, and then with the message "Specified projection type is unsupported\n". |
| Projections.AuthorityCode | backend/wbpublic/grt/spatial_handler.cpp:239-295 | Among the returned systems, authority code 4326 identifies exactly the geodetic one. |
| Projections.KindOf | backend/wbpublic/grt/spatial_handler.cpp:306-323 | Every reference system comes from a supported kind. |
| Projections.LookupRoundTrip | backend/wbpublic/grt/spatial_handler.cpp:306-323 | The lookup and `KindOf` are inverse on the supported kinds. |
| Projections.LookupInjective | backend/wbpublic/grt/spatial_handler.cpp:306-323 | Different supported kinds give different systems with different authority codes. |
| Importing.ReversedAt | backend/wbpublic/grt/spatial_handler.cpp:353-354 | Reading from the last index down yields element k = s[n-1-k], with the same length. |
| Importing.Importer.constructor | backend/wbpublic/grt/spatial_handler.cpp:430-432 | A new importer holds the parsed geometry and is not interrupted. |
| Importing.Importer.CollectReversed | backend/wbpublic/grt/spatial_handler.cpp:353-354 | The vertex loop yields the vertices last to first. A guarded loop yields nothing once interrupted. |
| Importing.Importer.ExtractPoints | backend/wbpublic/grt/spatial_handler.cpp:325-409 | Flattening appends exactly `Flatten(g)` to the given list, in order. |
| Importing.Importer.ExtractMembers | backend/wbpublic/grt/spatial_handler.cpp:398-407 | The member loop appends the members' flattenings in index order, or nothing when interrupted. |
| Importing.Importer.GetPoints | backend/wbpublic/grt/spatial_handler.cpp:411-415 | With a geometry the list gets its flattening appended. Without one it is unchanged. |
| Importing.Importer.GetEnvelope | backend/wbpublic/grt/spatial_handler.cpp:417-428 | With a geometry the corners become (MinX, MaxY) and (MaxX, MinY), keeping the converted flag. Without one env is unchanged. |
| Importing.Importer.StealData | backend/wbpublic/grt/spatial_handler.cpp:434-439 | Returns the geometry and leaves the importer without one. |
| Importing.Importer.Interrupt | backend/wbpublic/grt/spatial_handler.cpp:545-548 | Raises the flag and keeps the geometry. |
| Importing.FlattenPoint | backend/wbpublic/grt/spatial_handler.cpp:329-337 | A point gives one container holding the point, with both box corners equal to it. |
| Importing.FlattenLine | backend/wbpublic/grt/spatial_handler.cpp:339-376 | A line string or ring gives one container of its type, with the vertices in reverse index order and box (MinX, MaxY)-(MaxX, MinY). |
| Importing.FlattenMembersSplit | backend/wbpublic/grt/spatial_handler.cpp:398-407 | Flattening a run of members is the concatenation of flattening its two halves. |
| Importing.FlattenRings | backend/wbpublic/grt/spatial_handler.cpp:398-399 | Interior rings give one reversed ring container each, in index order. |
| Importing.PolygonOrder | backend/wbpublic/grt/spatial_handler.cpp:378-400 | A polygon gives its reversed exterior ring as a polygon container first, then each interior ring in index order. |
| Importing.PolygonWithOneHole | backend/wbpublic/grt/spatial_handler.cpp:378-400 | A square with a square hole flattens to the outer polygon followed by the hole's ring, both reversed. |
| Importing.InterruptedFlatten | backend/wbpublic/grt/spatial_handler.cpp:353-406 | Once interrupted, at most one container comes out, and a line or ring container is empty. |
| Importing.OtherTypesIgnored | backend/wbpublic/grt/spatial_handler.cpp:402-409 | Any other geometry type adds nothing. |
| Converting.TruncToInt | backend/wbpublic/grt/spatial_handler.cpp:658-659 | The `(int)` cast truncates toward zero: the result is the whole number between 0 and r closest to r. |
| Converting.InvGeoTransform | backend/wbpublic/grt/spatial_handler.cpp:645 | The inverse is the closed form (-c0/c1, 1/c1, 0, -c3/c5, 0, 1/c5) when both scales are non-zero. Otherwise the previous inverse is kept. |
| Converting.AffineRoundTrip | backend/wbpublic/grt/spatial_handler.cpp:648-660 | from_projected undoes to_projected on every pixel when called with the two outputs swapped, as `to_latlon` and `from_latlon` call them. |
| Converting.ViewTransform | backend/wbpublic/grt/spatial_handler.cpp:620-644 | The coefficients have no rotation terms. |
| Converting.IdentityViewTransform | backend/wbpublic/grt/spatial_handler.cpp:639-644 | Without a projection the coefficients are (minLat, (maxLat-minLat)/width, 0, maxLon, 0, -(maxLon-minLon)/height). |
| Converting.ViewCornersToViewport | backend/wbpublic/grt/spatial_handler.cpp:620-645 | The view's transformed top-left corner maps to pixel (0, 0) and its bottom-right corner to (width, height). |
| Converting.Pixels | backend/wbpublic/grt/spatial_handler.cpp:721-727 | Every point is replaced by its truncated pixel, one for one. |
| Converting.ConvertAll | backend/wbpublic/grt/spatial_handler.cpp:688-729 | Every container is converted, one for one. |
| Converting.ProjectedConcat | backend/wbpublic/grt/spatial_handler.cpp:695-719 | Filtering distributes over concatenation. |
| Converting.ProjectedNoneFail | backend/wbpublic/grt/spatial_handler.cpp:695-719 | When no point fails, every point survives in place. |
| Converting.FailedIndices | backend/wbpublic/grt/spatial_handler.cpp:694-699 | The removal list holds exactly the failing indices, strictly increasing. |
| Converting.SurvivorsInOrder | backend/wbpublic/grt/spatial_handler.cpp:694-719 | The k-th survivor is the transform of the k-th non-failing point. These indices increase and cover every non-failing point. |
| Converting.SurvivorCount | backend/wbpublic/grt/spatial_handler.cpp:694-719 | Survivors number the points less the removal list. |
| Converting.BoxConvertedIff | backend/wbpublic/grt/spatial_handler.cpp:701-712 | A box ends converted exactly when it already was or both corners transform. In that case both corners are whole pixels. |
| Converting.ConvertedPointsWhole | backend/wbpublic/grt/spatial_handler.cpp:721-727 | A converted container keeps its type, and all its points are whole pixels. |
| Converting.PixelGeodeticRoundTrip | backend/wbpublic/grt/spatial_handler.cpp:662-674 | When the two transformations are inverse on a pixel's projected point, from_latlon(to_latlon(x, y)) gives back (x, y) and both report success. |
| Converting.Converter.constructor | backend/wbpublic/grt/spatial_handler.cpp:550-556 | The constructor stores the view and systems and builds both transformations. It is usable exactly when both exist, and then the affine is the view's. |
| Converting.Converter.ChangeProjection | backend/wbpublic/grt/spatial_handler.cpp:581-646 | A call with an equal view and null or unchanged systems changes nothing. Otherwise it stores the view and the non-null systems, rebuilds the transformations only when a system changed, fails when one cannot be built, and sets the affine for the view with its inverse. A view-only change needs only the forward transformation, so it is accepted after a failed rebuild that built that one. |
| Converting.Converter.SetAffine | backend/wbpublic/grt/spatial_handler.cpp:620-645 | Sets the view's affine and its GDAL-style inverse, and nothing else. |
| Converting.Converter.ChangeReferenceSystems | backend/wbpublic/grt/spatial_handler.cpp:576-579 | The two-argument form keeps the view and the interrupt flag. With null or unchanged systems it changes nothing. Otherwise it stores the given systems, rebuilds both transformations, fails exactly when one cannot be built, and on success is usable with the affine and inverse recomputed for the kept view. On failure the affine and inverse are kept. |
| Converting.Converter.ToProjected | backend/wbpublic/grt/spatial_handler.cpp:648-653 | Applies the affine, and from_projected inverts it. |
| Converting.Converter.FromProjected | backend/wbpublic/grt/spatial_handler.cpp:655-660 | Applies the inverse, and each result is within one unit of the exact value. |
| Converting.Converter.ToLatLon | backend/wbpublic/grt/spatial_handler.cpp:662-667 | Pixel to projected, then projected to geodetic with the pair swapped. |
| Converting.Converter.FromLatLon | backend/wbpublic/grt/spatial_handler.cpp:669-674 | Geodetic to projected with the pair swapped, then to a pixel. Reports whether the transform succeeded. |
| Converting.Converter.MovePoints | backend/wbpublic/grt/spatial_handler.cpp:694-699 | Every point that transforms is moved, the others stay, and the removal list is the failing indices in order. |
| Converting.Converter.MoveBox | backend/wbpublic/grt/spatial_handler.cpp:701-712 | The box follows the corner rule, including a stale bottom-right corner when only it transforms. |
| Converting.Converter.ErasePoints | backend/wbpublic/grt/spatial_handler.cpp:717-719 | Erasing the removal list from the back leaves exactly the survivors, in order. |
| Converting.Converter.PixelPoints | backend/wbpublic/grt/spatial_handler.cpp:721-727 | Every point becomes its truncated pixel. |
| Converting.Converter.TransformContainer | backend/wbpublic/grt/spatial_handler.cpp:694-727 | One container becomes its converted form: the survivors as pixels, with the box by the corner rule. |
| Converting.Converter.TransformPoints | backend/wbpublic/grt/spatial_handler.cpp:688-729 | The array is converted container by container in place. It is untouched when interrupted. |
| Converting.Converter.Interrupt | backend/wbpublic/grt/spatial_handler.cpp:731-734 | Raises the flag and changes nothing else. |
| Converting.EraseStep | backend/wbpublic/grt/spatial_handler.cpp:718-719 | Erasing the last pending index extends the filtered tail down to that index. |
| Converting.ErasedAll | backend/wbpublic/grt/spatial_handler.cpp:717-719 | After the last erase, what remains equals the survivors. |
| Layers.Feature.constructor | backend/wbpublic/grt/spatial_handler.cpp:738-745 | A feature records its layer and row, and owns a fresh importer holding the parsed geometry. |
| Layers.Feature.GetEnvelope | backend/wbpublic/grt/spatial_handler.cpp:751-754 | Delegates to the importer: the corners come from the geometry's envelope, or env is unchanged. |
| Layers.Feature.Render | backend/wbpublic/grt/spatial_handler.cpp:756-762 | The shapes become the converter's conversion of the importer's flattening. |
| Layers.Feature.Within | backend/wbpublic/grt/spatial_handler.cpp:765-773 | True exactly when the layer is not interrupted and some shape contains p. |
| Layers.Feature.Interrupt | backend/wbpublic/grt/spatial_handler.cpp:775-778 | Raises the importer's flag and keeps its geometry. |
| Layers.Layer.constructor | backend/wbpublic/grt/spatial_handler.cpp:838-846 | A new layer is empty, hidden, not interrupted, and starts at the sentinel envelope. |
| Layers.Layer.SetShow | backend/wbpublic/grt/spatial_handler.cpp:871-886 | Stores the flag, so `hidden` answers its negation. |
| Layers.Layer.AddFeature | backend/wbpublic/grt/spatial_handler.cpp:888-895 | Appends a fresh feature at the end and extends the envelope by the feature's envelope. The envelope never shrinks and still covers every feature. |
| Layers.Layer.Render | backend/wbpublic/grt/spatial_handler.cpp:922-932 | Progress restarts at 0 and ends at exactly 1 after a full pass over a non-empty layer, or at 0 if interrupted or empty. Every feature is rendered unless the layer is interrupted. |
| Layers.Layer.FeatureWithin | backend/wbpublic/grt/spatial_handler.cpp:934-942 | Returns the first feature in insertion order that contains p. Returns null exactly when the layer is interrupted or no feature contains p. |
| Layers.Layer.Interrupt | backend/wbpublic/grt/spatial_handler.cpp:864-869 | Raises the layer's flag and every feature importer's flag, and keeps the features and geometries. |

## Left out

- Parsing and export through the geometry engine are not modelled: `import_from_mysql`, `import_from_wkt`, `as_wkt`, `as_kml`, `as_json`, `as_gml` and `dec_to_dms` call a foreign library. A parsed geometry is given to the importer and feature constructors as a `Geometry` value.
- The projections' WKT definitions and their import are foreign library calls. Only the kind-to-system map and the unsupported-kind error are kept.
- Coordinate transformations are opaque functions. A failing transform is modelled as leaving its coordinates unchanged. The library may write partial results.
- `Converting.InvGeoTransform`: GDAL's determinant threshold (1e-15) and its general formula with rotation terms are not modelled. The converter never sets rotation terms. An exact zero scale stands in for the threshold.
- `Converting.Converter.ChangeProjection`: the transformation-creation failure is a `false` result and the converter stops being `Valid()`, where the original throws. The transformations that were built stay stored, so a later view-only change still works when the forward one exists, as in the original. Failed corner transforms are logged in the original. Here they leave the corner untransformed, as the original then computes with it.
- `Converting.Converter.constructor`: the original leaves the view and the inverse coefficients uninitialised and passes possibly-null reference systems. The model takes non-null systems, always builds both transformations, and starts the inverse at zero.
- Views with zero width or height are excluded by a precondition. The original divides by zero in floating point.
- IEEE floating point is not modelled: rounding, NaN, infinity, and the `1.0f/0` step of an empty layer (whose loop never runs, so progress stays 0 as in the model). Neither is the `float` accumulation of render progress, which in floating point reaches 1 only approximately.
- `Converting.TruncToInt`: the overflow of a C `int` on very large coordinates is not modelled.
- `Layers.Layer.Render`: `_render_progress` is uninitialised before the first render in the original. The model starts it at 0.
- Empty geometries are excluded by `WellFormed`. For a point without coordinates the original emits one point container at the engine's default coordinates (0, 0). For a polygon without an exterior ring it dereferences the null ring the engine returns.
- `Shapes.RectangleContainment` and `Shapes.TriangleContainment`: interior points are proved within only for axis-aligned rectangles (one vertex order) and for triangles (any vertex order). Convex polygons with more vertices are not covered.
- An interior ring is flattened by its reported type. The geometry engine may report a ring as a line string, and then it comes out as a line-string container.
- Drawing (`Feature::repaint`, `Layer::repaint`), colours and `fill_polygons` are drawing-surface calls, so they are not modelled.
- `load_data`, which `set_show` calls to fetch the rows from the data source, is not modelled. Only the `_show` flag is kept.
- The mutex, logging, error handler and cross-thread interruption are not modelled. The interrupt flags are plain fields, so an interrupt cannot arrive during a call.
- `from_latlon_to_proj` and `from_proj_to_latlon` (lines 676-686) are single transform calls. They are inlined into `ToLatLon` and `FromLatLon`.
- `Layer::get_envelope`, `query_render_progress`, `layer_id` and `hidden` only read a field. They are the fields `envelope`, `renderProgress` and `layerId` and the predicate `Hidden`.
- Deques of containers are sequences passed in and returned, except in `TransformPoints`, which works on an array in place.
