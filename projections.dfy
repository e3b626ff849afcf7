/** The projection registry: the five reference systems the viewer can draw
    in, looked up by projection kind. */
module Projections {
  import opened Wrappers

  /** The projection kinds a caller may request. An enumerator value outside
      the five named ones is ProjUnsupported. */
  datatype ProjectionType =
    | ProjMercator
    | ProjEquirectangular
    | ProjBonne
    | ProjRobinson
    | ProjGeodetic
    | ProjUnsupported(code: int)

  /** The registry's reference systems; two references are the same system
      exactly when they are the same registry entry. */
  datatype Srs = MercatorSrs | EquirectangularSrs | BonneSrs | RobinsonSrs | GeodeticSrs

  /** The authority code each definition carries. */
  function AuthorityCode(s: Srs): (code: int)
    ensures code == 4326 <==> s == GeodeticSrs
  {
    match s
    case MercatorSrs => 54004
    case EquirectangularSrs => 54002
    case BonneSrs => 54024
    case RobinsonSrs => 54030
    case GeodeticSrs => 4326
  }

  const UnsupportedMessage: string := "Specified projection type is unsupported\n"

  /** get_projection: the registry entry of a supported kind; any other kind fails. */
  function GetProjection(t: ProjectionType): (r: Result<Srs, string>)
    ensures r.Err? <==> t.ProjUnsupported?
    ensures r.Err? ==> r.error == UnsupportedMessage
  {
    match t
    case ProjMercator => Ok(MercatorSrs)
    case ProjEquirectangular => Ok(EquirectangularSrs)
    case ProjBonne => Ok(BonneSrs)
    case ProjRobinson => Ok(RobinsonSrs)
    case ProjGeodetic => Ok(GeodeticSrs)
    case ProjUnsupported(_) => Err(UnsupportedMessage)
  }

  /** The kind under which a reference system is registered. */
  function KindOf(s: Srs): (t: ProjectionType)
    ensures !t.ProjUnsupported?
  {
    match s
    case MercatorSrs => ProjMercator
    case EquirectangularSrs => ProjEquirectangular
    case BonneSrs => ProjBonne
    case RobinsonSrs => ProjRobinson
    case GeodeticSrs => ProjGeodetic
  }

  /** Every reference system is reachable, under its own kind, and every
      supported kind yields the system registered under it. */
  lemma LookupRoundTrip(s: Srs, t: ProjectionType)
    ensures GetProjection(KindOf(s)) == Ok(s)
    ensures GetProjection(t).Ok? ==> KindOf(GetProjection(t).value) == t
  {
  }

  /** Distinct supported kinds yield distinct reference systems, and the
      definitions carry distinct authority codes. */
  lemma LookupInjective(t: ProjectionType, u: ProjectionType)
    requires GetProjection(t).Ok? && GetProjection(u).Ok? && t != u
    ensures GetProjection(t).value != GetProjection(u).value
    ensures AuthorityCode(GetProjection(t).value) != AuthorityCode(GetProjection(u).value)
  {
  }
}
