/**
 The decision logic of the upload handler `handleFileChange`: gate on the
 file name, read the file, parse it, reject an empty result, and otherwise
 hand the data and its bounding box to the application.

 Reading the file and the KML-to-GeoJSON conversion happen outside the
 model: the read outcome is an input value and the conversion is an
 arbitrary function that may throw.
 */
module Upload {
  import opened Wrappers
  import opened GeoJson
  import opened Extent
  import opened FileName

  /** What the file reader delivered: the text (`onload`) or a failure (`onerror`). */
  datatype ReadOutcome = Loaded(text: string) | ReadFailed

  /** What the conversion did: threw, or returned a value (`None` for a falsy one). */
  datatype ParseOutcome = Threw | Returned(data: Option<FeatureCollection>)

  /** How one file selection ends. */
  datatype UploadResult =
    | NoFile
    | InvalidType
    | ReadError
    | ParseError
    | NoFeatures
    | Processed(data: FeatureCollection, box: Option<Box>)

  /** The callbacks the handler invokes. */
  datatype Call = OnError(message: string) | OnFileProcessed(data: FeatureCollection, box: Option<Box>)

  const InvalidTypeMessage: string := "Invalid file type. Please upload a .kml file."
  const NoFeaturesMessage: string := "KML file parsed successfully, but no geometric features were found."
  const ParseErrorMessage: string := "Could not parse the KML file. It may be corrupt or invalid XML."
  const ReadErrorMessage: string := "Error reading file."

  /** The handler for one file selection; `fileName` is `None` when no file was chosen. */
  function HandleFileChange(fileName: Option<string>, read: ReadOutcome, parse: string -> ParseOutcome): (r: UploadResult)
    ensures r.NoFile? <==> fileName.None?
    ensures r.InvalidType? <==> fileName.Some? && !IsKmlName(fileName.value)
    ensures r.ReadError? <==> fileName.Some? && IsKmlName(fileName.value) && read.ReadFailed?
    ensures fileName.Some? && IsKmlName(fileName.value) && read.Loaded? ==> r == HandleLoaded(parse(read.text))
    ensures r.Processed? ==>
      && |r.data.features| > 0
      && (r.box.None? <==> AllLats(r.data.features) == {})
      && (r.box.Some? ==> Folded(r.box.value, Sentinels, AllLats(r.data.features), AllLngs(r.data.features)))
  {
    match fileName
    case None => NoFile
    case Some(name) =>
      if !IsKmlName(name) then InvalidType
      else
        match read
        case ReadFailed => ReadError
        case Loaded(text) => HandleLoaded(parse(text))
  }

  /** The `onload` body: everything inside the `try`. */
  function HandleLoaded(p: ParseOutcome): (r: UploadResult)
    ensures r.ParseError? <==> p.Threw?
    ensures r.NoFeatures? <==> p.Returned? && (p.data.None? || |p.data.value.features| == 0)
    ensures r.Processed? <==> p.Returned? && p.data.Some? && |p.data.value.features| > 0
    ensures r.Processed? ==> r.data == p.data.value && r.box == CalculateBoundingBox(r.data)
  {
    match p
    case Threw => ParseError
    case Returned(d) =>
      if d.None? || |d.value.features| == 0 then NoFeatures
      else Processed(d.value, CalculateBoundingBox(d.value))
  }

  /** The callback each result triggers, with its message. */
  function Notify(r: UploadResult): (c: Option<Call>)
    ensures c.None? <==> r.NoFile?
    ensures c.Some? && c.value.OnFileProcessed? <==> r.Processed?
    ensures r.Processed? ==> c == Some(OnFileProcessed(r.data, r.box))
    ensures r.InvalidType? ==> c == Some(OnError(InvalidTypeMessage))
    ensures r.ReadError? ==> c == Some(OnError(ReadErrorMessage))
    ensures r.ParseError? ==> c == Some(OnError(ParseErrorMessage))
    ensures r.NoFeatures? ==> c == Some(OnError(NoFeaturesMessage))
  {
    match r
    case NoFile => None
    case InvalidType => Some(OnError(InvalidTypeMessage))
    case ReadError => Some(OnError(ReadErrorMessage))
    case ParseError => Some(OnError(ParseErrorMessage))
    case NoFeatures => Some(OnError(NoFeaturesMessage))
    case Processed(d, b) => Some(OnFileProcessed(d, b))
  }

  /** A rejected name decides the outcome before anything is read or parsed:
      the result is the same whatever the file holds and whatever the parser does. */
  lemma RejectedBeforeRead(name: string, read1: ReadOutcome, read2: ReadOutcome, parse1: string -> ParseOutcome, parse2: string -> ParseOutcome)
    requires !IsKmlName(name)
    ensures HandleFileChange(Some(name), read1, parse1) == HandleFileChange(Some(name), read2, parse2) == InvalidType
    ensures Notify(InvalidType) == Some(OnError(InvalidTypeMessage))
  {
  }

  /** A `.txt` file is rejected whatever its content. */
  lemma TxtFileRejected(base: string, read: ReadOutcome, parse: string -> ParseOutcome)
    ensures HandleFileChange(Some(base + ".txt"), read, parse) == InvalidType
  {
    TxtRejected(base);
  }

  /** A well-formed file with zero features is reported as empty, not as a
      parse failure, and the data is never handed on. */
  lemma EmptyCollectionIsNotParseError(name: string, text: string, parse: string -> ParseOutcome)
    requires IsKmlName(name)
    requires parse(text) == Returned(Some(FeatureCollection([])))
    ensures HandleFileChange(Some(name), Loaded(text), parse) == NoFeatures
    ensures Notify(NoFeatures) == Some(OnError(NoFeaturesMessage))
  {
  }

  /** A collection whose features carry no coordinates is still processed,
      with a `null` box. */
  lemma UncoordinatedFeaturesGiveNullBox(fs: seq<Feature>)
    requires |fs| > 0
    requires forall f :: f in fs ==> CoordinatesOf(f).None?
    ensures HandleLoaded(Returned(Some(FeatureCollection(fs)))) == Processed(FeatureCollection(fs), None)
  {
    assert AllLats(fs) == {};
  }

  /** The four error messages are pairwise distinct, so a broken file, an
      empty file, a wrong type and a read failure can be told apart. */
  lemma MessagesDistinct()
    ensures InvalidTypeMessage != NoFeaturesMessage && InvalidTypeMessage != ParseErrorMessage
    ensures InvalidTypeMessage != ReadErrorMessage && NoFeaturesMessage != ParseErrorMessage
    ensures NoFeaturesMessage != ReadErrorMessage && ParseErrorMessage != ReadErrorMessage
  {
    assert |InvalidTypeMessage| == 45 && |NoFeaturesMessage| == 67;
    assert |ParseErrorMessage| == 63 && |ReadErrorMessage| == 19;
  }
}
