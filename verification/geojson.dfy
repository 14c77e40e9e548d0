/**
 The GeoJSON values the pipeline passes around: a FeatureCollection of
 Features, each with an optional Geometry that may carry a `coordinates`
 tree of any nesting depth.
 */
module GeoJson {
  import opened Wrappers

  /** A JSON-like coordinate node: a number, an array, or anything else
      (string, object, boolean, null), which the traversal never looks into. */
  datatype J = JNum(n: real) | JArr(elems: seq<J>) | JOther

  /** A geometry. Its `type` tag is carried but never inspected; a
      GeometryCollection has no `coordinates` field, so `coordinates` is `None`. */
  datatype Geometry = Geometry(kind: string, coordinates: Option<J>)

  /** A feature; `properties` are opaque and not represented. */
  datatype Feature = Feature(geometry: Option<Geometry>)

  datatype FeatureCollection = FeatureCollection(features: seq<Feature>)

  /** The coordinate tree the bounding-box pass visits for one feature, if any:
      both `feature.geometry` and `feature.geometry.coordinates` must be present. */
  function CoordinatesOf(f: Feature): (r: Option<J>)
    ensures r.Some? <==> f.geometry.Some? && f.geometry.value.coordinates.Some?
    ensures r.Some? ==> r == f.geometry.value.coordinates
  {
    match f.geometry
    case None => None
    case Some(g) => g.coordinates
  }
}
