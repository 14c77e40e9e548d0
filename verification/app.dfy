/**
 The application's four pieces of state and the three handlers that change
 them, plus the `renderMap` dispatch that decides what the map area shows.
 */
module App {
  import opened Wrappers
  import opened GeoJson
  import opened Extent
  import opened Upload

  datatype AppState = AppState(modalOpen: bool, data: Option<FeatureCollection>, bounds: Option<Box>, error: Option<string>)

  /** Closed, with no data, no bounds and no error. */
  const Initial: AppState := AppState(false, None, None, None)

  /** What reachable states have in common: an open map never shows next to
      an error, an error never keeps data or bounds, bounds never outlive
      their data, and the map only opens over data. */
  ghost predicate Inv(s: AppState)
  {
    && (s.modalOpen ==> s.error.None? && s.data.Some?)
    && (s.error.Some? ==> s.data.None? && s.bounds.None?)
    && (s.data.None? ==> s.bounds.None?)
  }

  /** `handleFileProcessed`: clear the error, store data and bounds, open the map. */
  function HandleFileProcessed(s: AppState, data: FeatureCollection, bounds: Option<Box>): (r: AppState)
    ensures Inv(r)
    ensures r.modalOpen && r.data == Some(data) && r.bounds == bounds
  {
    AppState(true, Some(data), bounds, None)
  }

  /** `handleUploadError`: clear data and bounds, close the map, keep the message. */
  function HandleUploadError(s: AppState, message: string): (r: AppState)
    ensures Inv(r)
    ensures !r.modalOpen && r.error == Some(message)
  {
    AppState(false, None, None, Some(message))
  }

  /** `handleCloseModal`: close the map and touch nothing else. */
  function HandleCloseModal(s: AppState): (r: AppState)
    ensures Inv(s) ==> Inv(r)
    ensures !r.modalOpen && r.data == s.data && r.bounds == s.bounds && r.error == s.error
  {
    s.(modalOpen := false)
  }

  /** The callbacks the upload component can fire, and closing the map. */
  datatype Event = FileProcessed(data: FeatureCollection, bounds: Option<Box>) | UploadFailed(message: string) | CloseModal

  function Step(s: AppState, e: Event): AppState
  {
    match e
    case FileProcessed(d, b) => HandleFileProcessed(s, d, b)
    case UploadFailed(m) => HandleUploadError(s, m)
    case CloseModal => HandleCloseModal(s)
  }

  function Run(s: AppState, events: seq<Event>): AppState
    decreases |events|
  {
    if events == [] then s else Run(Step(s, events[0]), events[1..])
  }

  ghost predicate Reachable(s: AppState)
  {
    exists events: seq<Event> :: Run(Initial, events) == s
  }

  lemma {:induction false} RunPreservesInv(s: AppState, events: seq<Event>)
    requires Inv(s)
    ensures Inv(Run(s, events))
    decreases |events|
  {
    if events != [] {
      RunPreservesInv(Step(s, events[0]), events[1..]);
    }
  }

  /** The invariant holds exactly on the states some sequence of events
      reaches from the initial state. */
  lemma ReachableIffInv(s: AppState)
    ensures Reachable(s) <==> Inv(s)
  {
    if Reachable(s) {
      var events :| Run(Initial, events) == s;
      RunPreservesInv(Initial, events);
    }
    if Inv(s) {
      var events := Witness(s);
      assert Run(Initial, events) == s;
    }
  }

  /** Events that lead from the initial state to a state satisfying the invariant. */
  function Witness(s: AppState): (events: seq<Event>)
    requires Inv(s)
    ensures Run(Initial, events) == s
    ensures |events| <= 2
  {
    if s.error.Some? then
      var events := [UploadFailed(s.error.value)];
      assert Run(Initial, events) == Run(Step(Initial, events[0]), []);
      events
    else if s.data.None? then []
    else if s.modalOpen then
      var events := [FileProcessed(s.data.value, s.bounds)];
      assert Run(Initial, events) == Run(Step(Initial, events[0]), []);
      events
    else
      var events := [FileProcessed(s.data.value, s.bounds), CloseModal];
      var shown := HandleFileProcessed(Initial, s.data.value, s.bounds);
      assert Run(shown, events[1..]) == Run(HandleCloseModal(shown), []) by {
        assert events[1..][1..] == [];
      }
      events
  }

  /** Closing the map twice is closing it once. */
  lemma CloseIdempotent(s: AppState)
    ensures HandleCloseModal(HandleCloseModal(s)) == HandleCloseModal(s)
  {
  }

  /** What the upload handler's callback does to the application state. */
  function Deliver(s: AppState, c: Option<Call>): (r: AppState)
    ensures Inv(s) ==> Inv(r)
    ensures c.Some? && c.value.OnError? ==> r.data.None? && r.bounds.None? && !r.modalOpen
    ensures c.Some? && c.value.OnError? ==> r.error == Some(c.value.message)
    ensures c.Some? && c.value.OnFileProcessed? ==> r == HandleFileProcessed(s, c.value.data, c.value.box)
    ensures c.None? ==> r == s
  {
    match c
    case None => s
    case Some(OnError(m)) => HandleUploadError(s, m)
    case Some(OnFileProcessed(d, b)) => HandleFileProcessed(s, d, b)
  }

  /** Any file selection keeps the application in a reachable state; an error
      outcome leaves no earlier data or map on show. */
  lemma UploadKeepsReachable(s: AppState, fileName: Option<string>, read: ReadOutcome, parse: string -> ParseOutcome)
    requires Reachable(s)
    ensures var r := Deliver(s, Notify(HandleFileChange(fileName, read, parse)));
      && Reachable(r)
      && (fileName.None? ==> r == s)
  {
    ReachableIffInv(s);
    ReachableIffInv(Deliver(s, Notify(HandleFileChange(fileName, read, parse))));
  }

  /** What the map area shows. */
  datatype View = LoadErrorView(message: string) | LoadingView | MapView(data: Option<FeatureCollection>, box: Option<Box>)

  /** `renderMap`: a script-load error wins, then the loading notice, and only
      a loaded script without error gives the map, fed from the state. */
  function RenderMap(loadError: Option<string>, isLoaded: bool, s: AppState): (v: View)
    ensures v.LoadErrorView? <==> loadError.Some?
    ensures v.LoadingView? <==> loadError.None? && !isLoaded
    ensures v.MapView? <==> loadError.None? && isLoaded
    ensures v.MapView? ==> v.data == s.data && v.box == s.bounds
  {
    if loadError.Some? then LoadErrorView(loadError.value)
    else if !isLoaded then LoadingView
    else MapView(s.data, s.bounds)
  }
}
