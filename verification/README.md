# KML map overlay: a Dafny model of the data pipeline

The application lets a user pick a `.kml` file. It converts the file to
GeoJSON, and computes the bounding box of the coordinate pairs it finds.
Features whose geometry is missing or has no `coordinates` field (a
GeometryCollection, for example) are skipped. It then opens a
full-screen map. The map is fitted to that box and draws the features as a
yellow outline with no fill.

This project models the decision logic of that pipeline as pure functions
over immutable values, and proves what the code promises:

- `Extent` (from `calculateBoundingBox` / `processCoords`): a shape-driven
  descent of a JSON-like coordinate tree (`JNum | JArr | JOther`). An array
  is a coordinate pair when its first element is a number and it has at
  least two elements. Pairs are folded into four accumulators that start at
  the inverted sentinels north -90, south 90, east -180, west 180. The
  result is `null` when north and south are still at their sentinels. The
  fold is proved against an independent reference: the sets `Lats`/`Lngs`
  of ordinates the descent visits. Each bound is the max (or min) of its
  sentinel and the visited values. From that follow:
  - null exactly when no numeric latitude is visited;
  - north >= south and east >= west whenever the box is non-null;
  - the exact extent for in-range data;
  - independence from feature order;
  - the altitude is ignored;
  - concrete examples.
- `FileName` (the `.kml` gate): ASCII lowercasing plus a suffix test. It is
  proved equal to a character-by-character reading of the extension.
- `Upload` (`handleFileChange`): classifies one file selection. The outcomes
  are no file, invalid type, read error, parse error, no features, or
  processed with an optional box. The file reader's outcome is an input
  value. The KML-to-GeoJSON conversion is an arbitrary function parameter
  that may throw.
- `App` (the application's state and handlers): the three handlers as
  transitions over `(modalOpen, data, bounds, error)`, plus the `renderMap`
  dispatch. The state invariant is proved to hold exactly on the states
  reachable from the initial one by calling the three handlers with
  arbitrary arguments. The upload component passes narrower arguments (a
  non-empty collection and its own bounding box), so it reaches only some
  of those states.
- `MapSetup` (`onLoad` of the map component): the ordered list of commands
  issued to the map.

## Model

| member | source | states |
|---|---|---|
| Extent.ProcessCoords | src/components/FileUpload.js:8-22 | Ending accumulators are the max/min of the starting accumulators and the ordinates of every pair the descent visits; non-arrays and non-pair leaves add nothing |
| Extent.ProcessEach | src/components/FileUpload.js:18-21 | Walking an array element by element folds the union of the elements' visited ordinates |
| Extent.ProcessFeatures | src/components/FileUpload.js:24-28 | Walking the features folds exactly the ordinates of features that have both a geometry and coordinates |
| Extent.CalculateBoundingBox | src/components/FileUpload.js:5-33 | Null iff no numeric latitude was visited; otherwise each bound is the max/min of its sentinel and the visited values, with north >= south and east >= west even for out-of-range ordinates |
| Extent.LatImpliesLngNode | src/components/FileUpload.js:12-17 | A node that visits a latitude also visits some longitude, since a latitude is only read from a pair whose first element is a numeric longitude |
| Extent.NullIffNoPairVisited | src/components/FileUpload.js:6-30 | When every pair has a numeric latitude, the result is null exactly when no coordinate pair was visited |
| Extent.InRangeIsExact | src/components/FileUpload.js:6-17 | For ordinates in [-90,90] and [-180,180], every bound of a non-null box is a visited ordinate, so the sentinels never show |
| Extent.AltitudeIgnored | src/components/FileUpload.js:12-13 | Elements after index 1 of a pair (an altitude) never change the result |
| Extent.NonPairsContributeNothing | src/components/FileUpload.js:9-20 | A bare number, a non-array value, an empty array and a one-number array leave the accumulators unchanged |
| Extent.FeatureOrderIrrelevant | src/components/FileUpload.js:24-28 | Any reordering of the features gives the same result |
| Extent.NestedOrderIrrelevant | src/components/FileUpload.js:18-20 | Reordering the elements of a nested array gives the same result, provided neither order makes the array a pair |
| Extent.ReorderCanMakePair | src/components/FileUpload.js:12-20 | Without that proviso reordering matters: `[[1,2],5]` folds (1,2), while `[5,[1,2]]` is a pair with a non-numeric latitude |
| Extent.UncoordinatedFeatureIgnored | src/components/FileUpload.js:24-28 | A feature without geometry, or whose geometry has no coordinates (a GeometryCollection), changes nothing |
| Extent.PointExamples | src/components/FileUpload.js:6-32 | Point (10,20) gives {20,20,10,10}; a lone point at longitude 200 gives east 200, west 180 (the sentinel takes part) |
| Extent.PolygonExample | src/components/FileUpload.js:8-32 | The square ring (0,0)…(10,0) as a Polygon gives {10,0,10,0} |
| FileName.Lower | src/components/FileUpload.js:43 | Lowercasing keeps the length and maps each character through ASCII lowercasing |
| FileName.IsKmlNameCharacterized | src/components/FileUpload.js:43 | The case-insensitive `.kml` suffix test holds iff the last four characters are `.`, k/K, m/M, l/L |
| FileName.AnyCaseKmlAccepted | src/components/FileUpload.js:43 | Any name ending in `.kml` in any mix of cases passes |
| FileName.TxtRejected | src/components/FileUpload.js:43 | A name ending in `.txt` never passes |
| Upload.HandleFileChange | src/components/FileUpload.js:38-76 | No file gives no action; a failed name test gives invalid type; a passed test with a failed read gives read error; a passed test with loaded text gives what the parse outcome of that text decides (parse error, no features, or processed); a processed result has at least one feature and the box the extent promises |
| Upload.HandleLoaded | src/components/FileUpload.js:49-68 | A throwing parse gives the parse error; a falsy or empty collection gives no features; otherwise processed with the data and its bounding box |
| Upload.Notify | src/components/FileUpload.js:40-73 | Only a missing file calls nothing; a processed result calls `onFileProcessed` with its data and box; invalid type, read error, parse error and no features each call `onError` with their own fixed message |
| Upload.RejectedBeforeRead | src/components/FileUpload.js:43-46 | For a rejected name the outcome is invalid type whatever the file holds and whatever the parser does |
| Upload.TxtFileRejected | src/components/FileUpload.js:43-46 | A `.txt` file is rejected regardless of content |
| Upload.EmptyCollectionIsNotParseError | src/components/FileUpload.js:58-61 | A well-formed collection with zero features gives the no-features message, not the parse error |
| Upload.UncoordinatedFeaturesGiveNullBox | src/components/FileUpload.js:58-64 | Features that carry no coordinates are still handed on, with a null box |
| Upload.MessagesDistinct | src/components/FileUpload.js:44-72 | The four user messages are pairwise distinct |
| App.HandleFileProcessed | src/App.js:25-30 | Opens the map with the given data and bounds, and establishes the state invariant from any state |
| App.HandleUploadError | src/App.js:32-37 | Closes the map and stores the message, and establishes the invariant from any state |
| App.HandleCloseModal | src/App.js:39-41 | Closes the map, leaves data, bounds and error unchanged, and preserves the invariant |
| App.CloseIdempotent | src/App.js:39-41 | Closing twice equals closing once |
| App.RunPreservesInv | src/App.js:12-41 | Any sequence of handler calls preserves the invariant |
| App.Witness | src/App.js:12-41 | Every state satisfying the invariant is reached from the initial state by at most two handler calls with arbitrary arguments |
| App.ReachableIffInv | src/App.js:12-41 | A state is reachable from (closed, null, null, null) by handler calls with arbitrary arguments iff: open implies no error and data present; an error implies no data and no bounds; no data implies no bounds |
| App.Deliver | src/App.js:61-64 | `onFileProcessed(data, box)` runs the processed handler with exactly those arguments; `onError(message)` clears data and bounds, closes the map and stores the message; no callback changes nothing; the invariant is preserved |
| App.UploadKeepsReachable | src/App.js:61-64 | Any file selection leaves a reachable state reachable, and selecting no file changes nothing |
| App.RenderMap | src/App.js:43-53 | A load error wins over not-loaded; the map is shown iff loaded with no load error, fed the state's data and bounds |
| MapSetup.OnLoad | src/components/GoogleMapComponent.js:19-46 | With a box: one FitBounds first, corners (north, west) and (south, east), and no other viewport command. Without: SetCenter(37.0902,-95.7129) then SetZoom(4), each once, and no FitBounds. AddGeoJson iff data, once, after the viewport. SetStyle(transparent, #FFD700, 3) exactly once, last |
| MapSetup.FallbackIsInitialView | src/components/GoogleMapComponent.js:28-56 | The fallback centre and zoom equal the map's initial `center` and `zoom` props |
| MapSetup.UploadThenLoad | src/components/GoogleMapComponent.js:23-37 | A successful upload with at least one latitude opens the map. The map is fitted to the data's extent (both corners, both axes) and then carries the data |

## Left out

- The map overlay panel (`MapModal.js`), all markup and class names: presentation only.
- `useLoadScript`, `useRef`/`useCallback` memoisation and `onUnmount`: React lifecycle and library hooks. `renderMap` takes the script's load state as inputs.
- FileReader and its asynchronous callbacks: the read outcome is an input value (`Loaded(text)` or `ReadFailed`). The race where a stale read finishes after a newer selection is concurrency and is not modelled.
- DOMParser and the KML-to-GeoJSON converter: a library whose behaviour is not visible here. It is a function parameter that may throw or return a value. No claim is made about which message malformed XML produces.
- Google Maps semantics: `LatLngBounds.extend` (including antimeridian handling), the zoom maths of `fitBounds`, tiles and projection. Only the issued commands are modelled.
- Overlays accumulating across repeated `onLoad` calls: a lifecycle concern beyond a single call.
- NaN and IEEE floating point: ordinates are exact reals, since the code only compares them.
- JavaScript coercion of a non-numeric latitude: the model treats every non-number latitude (`JOther` or an array) as comparing false, like NaN. In JavaScript `null`, booleans and numeric strings coerce to numbers, and so do some arrays (`[7]` compares as 7, `[]` as 0), so such latitudes can move north and south there but not in the model.
- Array-like objects (an object with numeric keys and a `length`): `JOther` is never array-like.
- Malformed collections: a `null` entry in `features` or a missing `features` array would throw inside the `try` and show the parse error. The model's collections always have a sequence of feature objects.
- FileName.Lower: lowercases ASCII letters only. JavaScript's `toLowerCase` also maps, for example, U+212A KELVIN SIGN to `k`, so a name ending in a dot, U+212A, `m`, `l` passes in the browser but not in the model.
- Feature `properties`: opaque and never inspected, so not represented.

Three behaviours of the code worth stating:
- The code tells a leaf from a nested array by runtime shape, not by geometry type.
- With numeric, non-NaN ordinates, a non-null result always has north >= south and east >= west. This holds even for out-of-range values. A NaN longitude breaks it: `[NaN, 5]` moves north and south but leaves east at -180 and west at 180.
- A pair whose second element compares as NaN leaves north and south alone. Such elements include `undefined`, an object, a non-numeric string and an array like `[1,2]`. So a file whose only pairs look like that gives a `null` box. Values that JavaScript coerces to numbers (`null`, booleans, numeric strings) are covered under the coercion line above.
