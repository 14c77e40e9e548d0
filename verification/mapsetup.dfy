/**
 The map component's `onLoad` callback as the ordered list of commands it
 issues to the map: first the viewport (fit the box, or fall back to a fixed
 centre and zoom), then the GeoJSON overlay when there is data, then the
 overlay style.
 */
module MapSetup {
  import opened Wrappers
  import opened GeoJson
  import opened Extent
  import opened FileName
  import opened Upload
  import opened App

  datatype LatLng = LatLng(lat: real, lng: real)

  datatype Style = Style(fillColor: string, strokeColor: string, strokeWeight: int)

  datatype Command =
    | FitBounds(corner1: LatLng, corner2: LatLng)
    | SetCenter(center: LatLng)
    | SetZoom(zoom: int)
    | AddGeoJson(data: FeatureCollection)
    | SetStyle(style: Style)

  /** The view used when there is no box. */
  const FallbackCenter: LatLng := LatLng(37.0902, -95.7129)
  const FallbackZoom: int := 4

  /** The `center` and `zoom` props the map is created with. */
  const InitialCenter: LatLng := LatLng(37.0902, -95.7129)
  const InitialZoom: int := 4

  /** No fill, a chrome-yellow outline three pixels wide. */
  const OverlayStyle: Style := Style("transparent", "#FFD700", 3)

  predicate IsViewportCommand(c: Command)
  {
    c.FitBounds? || c.SetCenter? || c.SetZoom?
  }

  /** The viewport part: a box is fitted through its north-west and
      south-east corners; without one the fallback view is set. */
  function Viewport(box: Option<Box>): (r: seq<Command>)
    ensures 0 < |r| <= 2
    ensures forall i :: 0 <= i < |r| ==> IsViewportCommand(r[i])
  {
    match box
    case Some(b) => [FitBounds(LatLng(b.north, b.west), LatLng(b.south, b.east))]
    case None => [SetCenter(FallbackCenter), SetZoom(FallbackZoom)]
  }

  /** `onLoad`. */
  function OnLoad(box: Option<Box>, data: Option<FeatureCollection>): (r: seq<Command>)
    // the style is set exactly once, last
    ensures |r| > 0 && r[|r| - 1] == SetStyle(OverlayStyle)
    ensures forall i :: 0 <= i < |r| - 1 ==> !r[i].SetStyle?
    // a box is fitted exactly once, first, and no other viewport command follows
    ensures box.Some? ==>
      && r[0] == FitBounds(LatLng(box.value.north, box.value.west), LatLng(box.value.south, box.value.east))
      && (forall i :: 1 <= i < |r| ==> !IsViewportCommand(r[i]))
    // without a box, the fallback centre then zoom, each once, and never a fit
    ensures box.None? ==>
      && |r| >= 2 && r[0] == SetCenter(FallbackCenter) && r[1] == SetZoom(FallbackZoom)
      && (forall i :: 2 <= i < |r| ==> !IsViewportCommand(r[i]))
    // the data is added if and only if present, once, after every viewport command
    ensures (exists i :: 0 <= i < |r| && r[i].AddGeoJson?) <==> data.Some?
    ensures forall i :: 0 <= i < |r| && r[i].AddGeoJson? ==>
      && r[i].data == data.value
      && (forall k :: 0 <= k < |r| && k != i ==> !r[k].AddGeoJson?)
      && (forall k :: i < k < |r| ==> !IsViewportCommand(r[k]))
  {
    var overlay := match data case Some(d) => [AddGeoJson(d)] case None => [];
    var r := Viewport(box) + overlay + [SetStyle(OverlayStyle)];
    assert data.Some? ==> r[|Viewport(box)|].AddGeoJson?;
    r
  }

  /** The fallback view is the view the map starts in. */
  lemma FallbackIsInitialView(data: Option<FeatureCollection>)
    ensures OnLoad(None, data)[0] == SetCenter(InitialCenter)
    ensures OnLoad(None, data)[1] == SetZoom(InitialZoom)
  {
  }

  /** End to end: a successful upload of data with at least one latitude
      shows the map fitted to the data's extent and carrying the data. */
  lemma UploadThenLoad(s: AppState, name: string, text: string, parse: string -> ParseOutcome, fc: FeatureCollection)
    requires parse(text) == Returned(Some(fc))
    requires IsKmlName(name) && |fc.features| > 0 && AllLats(fc.features) != {}
    ensures var s' := Deliver(s, Notify(HandleFileChange(Some(name), Loaded(text), parse)));
      && s'.modalOpen
      && var v := RenderMap(None, true, s');
      && v.MapView?
      && var cmds := OnLoad(v.box, v.data);
      && cmds[0].FitBounds?
      && cmds[1] == AddGeoJson(fc)
      && IsMaxOf(cmds[0].corner1.lat, -90.0, AllLats(fc.features))
      && IsMinOf(cmds[0].corner2.lat, 90.0, AllLats(fc.features))
      && IsMinOf(cmds[0].corner1.lng, 180.0, AllLngs(fc.features))
      && IsMaxOf(cmds[0].corner2.lng, -180.0, AllLngs(fc.features))
  {
  }
}
