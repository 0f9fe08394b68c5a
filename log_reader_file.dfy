/**
 * file.go of package log_reader: the descriptor of one file to track and the
 * checks `LogFile.UnmarshalJSON` applies once the JSON library has filled it
 * in, plus what `ParseFileList` returns for a decoded file list.
 */
module LogFiles {
  import opened Wrappers
  import opened Formats

  /** One entry of the file list: the file to follow and the format of its lines. */
  datatype LogFile = LogFile(fullPath: string, format: string)

  /** The ways `UnmarshalJSON` can fail, in the order it checks them. */
  datatype FileError =
    | MalformedJson(reason: string)
    | EmptyPath
    | InvalidFormat(format: string)

  function FileErrorMessage(e: FileError): string
  {
    match e
    case MalformedJson(reason) => reason
    case EmptyPath => "path to file is empty"
    case InvalidFormat(format) => "invalid log format: " + format
  }

  /** The path error and a format error never read alike, and a format error names the format. */
  lemma FileErrorMessagesDistinct(format: string)
    ensures FileErrorMessage(EmptyPath) != FileErrorMessage(InvalidFormat(format))
    ensures var m := FileErrorMessage(InvalidFormat(format));
            |format| <= |m| && m[|m| - |format|..] == format
  {
    assert FileErrorMessage(EmptyPath)[0] == 'p';
    assert FileErrorMessage(InvalidFormat(format))[0] == 'i';
  }

  /** A descriptor the tracker may be given: a path is named and the format is registered. */
  predicate Valid(l: LogFile)
  {
    |l.fullPath| > 0 && IsRegistered(l.format)
  }

  /** The checks of `UnmarshalJSON` after decoding: the path first, then the format. */
  function Check(l: LogFile): (err: Option<FileError>)
    ensures err.None? <==> Valid(l)
    ensures l.fullPath == [] ==> err == Some(EmptyPath)
    ensures l.fullPath != [] && !IsRegistered(l.format) ==> err == Some(InvalidFormat(l.format))
  {
    if |l.fullPath| == 0 then
      Some(EmptyPath)
    else if l.format != FirstFormat && l.format != SecondFormat then
      Some(InvalidFormat(l.format))
    else
      None
  }

  /** What decoding one JSON object into the plain struct produced. */
  datatype DecodedEntry = Fields(file: LogFile) | JsonFailure(reason: string)

  /**
   * `LogFile.UnmarshalJSON`: a decoding failure is passed on unchanged, then
   * the checks run; an accepted entry is exactly what was decoded.
   */
  function UnmarshalLogFile(entry: DecodedEntry): (r: Result<LogFile, FileError>)
    ensures r.Ok? <==> entry.Fields? && Valid(entry.file)
    ensures r.Ok? ==> r.value == entry.file
    ensures entry.JsonFailure? ==> r == Err(MalformedJson(entry.reason))
    ensures entry.Fields? && r.Err? ==> Some(r.error) == Check(entry.file)
  {
    match entry
    case JsonFailure(reason) => Err(MalformedJson(reason))
    case Fields(file) =>
      match Check(file)
      case Some(e) => Err(e)
      case None => Ok(file)
  }

  /**
   * Decoding the `files` array: entries are decoded in order and the first
   * entry that fails aborts the whole decoding with its error.
   */
  function DecodeEntries(entries: seq<DecodedEntry>): (r: Result<seq<LogFile>, FileError>)
    ensures r.Ok? <==> forall i :: 0 <= i < |entries| ==> UnmarshalLogFile(entries[i]).Ok?
    ensures r.Ok? ==> |r.value| == |entries|
    ensures r.Ok? ==> forall i :: 0 <= i < |entries| ==> entries[i] == Fields(r.value[i]) && Valid(r.value[i])
    ensures r.Err? ==> exists i :: 0 <= i < |entries| && UnmarshalLogFile(entries[i]) == Err(r.error)
  {
    if entries == [] then
      Ok([])
    else
      match UnmarshalLogFile(entries[0])
      case Err(e) => Err(e)
      case Ok(file) =>
        match DecodeEntries(entries[1..])
        case Err(e) =>
          assert forall i :: 1 <= i < |entries| ==> entries[1..][i - 1] == entries[i];
          Err(e)
        case Ok(files) =>
          assert forall i :: 1 <= i < |entries| ==> entries[1..][i - 1] == entries[i];
          Ok([file] + files)
  }

  /** The error a failing entry reports is that of the first entry that fails. */
  lemma {:induction false} DecodeEntriesFirstError(entries: seq<DecodedEntry>, k: nat)
    requires k < |entries| && UnmarshalLogFile(entries[k]).Err?
    requires forall j :: 0 <= j < k ==> UnmarshalLogFile(entries[j]).Ok?
    ensures DecodeEntries(entries) == Err(UnmarshalLogFile(entries[k]).error)
  {
    if k > 0 {
      assert forall j :: 0 <= j < k - 1 ==> entries[1..][j] == entries[j + 1];
      DecodeEntriesFirstError(entries[1..], k - 1);
    }
  }

  /** What reading the list file and decoding its JSON document produced. */
  datatype FileListSource =
    | Unreadable(reason: string)
    | NotJson(reason: string)
    | Entries(entries: seq<DecodedEntry>)

  datatype ListError = ReadError(reason: string) | MarshalError(cause: FileError)

  /**
   * `ParseFileList` after the file has been read and the document parsed:
   * a list is returned only when every entry was accepted.
   */
  function ParseFileList(source: FileListSource): (r: Result<seq<LogFile>, ListError>)
    ensures r.Ok? <==> source.Entries? && forall i :: 0 <= i < |source.entries| ==> UnmarshalLogFile(source.entries[i]).Ok?
    ensures r.Ok? ==> |r.value| == |source.entries| && forall f :: f in r.value ==> Valid(f)
    ensures r.Ok? ==> forall i :: 0 <= i < |source.entries| ==> source.entries[i] == Fields(r.value[i])
    ensures source.Unreadable? ==> r == Err(ReadError(source.reason))
    ensures source.NotJson? ==> r == Err(MarshalError(MalformedJson(source.reason)))
    ensures source.Entries? && r.Err? ==> r.error.MarshalError? && DecodeEntries(source.entries) == Err(r.error.cause)
  {
    match source
    case Unreadable(reason) => Err(ReadError(reason))
    case NotJson(reason) => Err(MarshalError(MalformedJson(reason)))
    case Entries(entries) =>
      match DecodeEntries(entries)
      case Err(e) => Err(MarshalError(e))
      case Ok(files) => Ok(files)
  }
}
