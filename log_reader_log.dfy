/** The two registered log formats (log.go of package log_reader, lines 13-16). */
module Formats {

  const FirstFormat: string := "first_format"
  const SecondFormat: string := "second_format"

  /** The closed set of formats a descriptor may name. */
  predicate IsRegistered(format: string)
  {
    format == FirstFormat || format == SecondFormat
  }
}

/**
 * log.go of package log_reader: the two line parsers, the choice of parser a
 * tracker makes from its descriptor, and the supervisor that starts one
 * tracker per descriptor.
 */
module LogReader {
  import opened Wrappers
  import opened Strings
  import opened Formats
  import opened LogFiles

  /** The field separator of both formats. */
  const Separator: string := " | "

  /** The time.Parse layouts of the two formats. */
  const FirstLayout: string := "Jan 2, 2006 at 3:04:05pm (MST)"
  const SecondLayout: string := "2006-02-01T15:04:05Z"

  /** A parsed timestamp. Its calendar meaning is whatever the time parser gives it. */
  datatype Time = Time(unixNano: int, zone: string)

  /** Go's `time.Parse(layout, value)`, given from outside; None stands for a non-nil error. */
  type TimeParser = (string, string) -> Option<Time>

  /** One parsed line. */
  datatype Log = Log(logTime: Time, logMsg: string, fileName: string, logFormat: string)

  /** The two things a parser can fail at: the number of fields, or the timestamp. */
  datatype ErrKind = UnparsableText | UnparsableTime

  /** A parse error: its kind, the format tag it names and the offending line. */
  datatype ParseError = ParseError(kind: ErrKind, format: string, line: string)

  function ParseErrorMessage(e: ParseError): string
  {
    var what := match e.kind
      case UnparsableText => ": unable to parse text string: "
      case UnparsableTime => ": unable to parse string to time: ";
    e.format + what + e.line
  }

  /**
   * The two kinds of parse error read differently for the same format and
   * line, and every message ends with the offending line.
   */
  lemma ParseErrorMessagesDistinct(format: string, line: string)
    ensures ParseErrorMessage(ParseError(UnparsableText, format, line))
         != ParseErrorMessage(ParseError(UnparsableTime, format, line))
    ensures forall k: ErrKind ::
              var m := ParseErrorMessage(ParseError(k, format, line));
              |line| <= |m| && m[|m| - |line|..] == line
  {
  }

  /** Go's `Result` struct: a `*Log` and an `error`, each of which may be nil. */
  datatype ParseResult = ParseResult(log: Option<Log>, err: Option<ParseError>)
  {
    predicate ExactlyOne()
    {
      log.Some? != err.Some?
    }
  }

  function Failure(kind: ErrKind, format: string, line: string): ParseResult
  {
    ParseResult(None, Some(ParseError(kind, format, line)))
  }

  /** `parseLineFirstFormat`. */
  function ParseLineFirstFormat(parseTime: TimeParser, line: string, path: string): (r: ParseResult)
    ensures r.ExactlyOne()
    ensures r.err.Some? ==> r.err.value.format == FirstFormat && r.err.value.line == line
    ensures r.err.Some? ==> (r.err.value.kind == UnparsableText <==> Count(line, Separator) != 1)
    ensures r.log.Some? ==> Count(line, Separator) == 1
    ensures r.log.Some? ==> r.log.value.fileName == path && r.log.value.logFormat == FirstFormat
    ensures r.log.Some? ==> !Contains(r.log.value.logMsg, Separator)
    ensures r.log.Some? ==> exists ts :: line == ts + Separator + r.log.value.logMsg
                                      && parseTime(FirstLayout, ts) == Some(r.log.value.logTime)
  {
    var parts := Split(line, Separator);
    SplitLength(line, Separator);
    if |parts| != 2 then
      Failure(UnparsableText, FirstFormat, line)
    else
      match parseTime(FirstLayout, parts[0])
      case None => Failure(UnparsableTime, FirstFormat, line)
      case Some(t) =>
        SplitJoin(line, Separator);
        SplitPartsFree(line, Separator);
        assert line == parts[0] + Separator + parts[1];
        ParseResult(Some(Log(t, parts[1], path, FirstFormat)), None)
  }

  /**
   * `parseLineSecondFormat` as written: its timestamp error is tagged with
   * the first format's name.
   */
  function ParseLineSecondFormat(parseTime: TimeParser, line: string, path: string): (r: ParseResult)
    ensures r.ExactlyOne()
    ensures r.err.Some? ==> r.err.value.line == line
    ensures r.err.Some? ==> (r.err.value.kind == UnparsableText <==> Count(line, Separator) != 1)
    ensures r.err.Some? ==> r.err.value.format == (if r.err.value.kind == UnparsableText then SecondFormat else FirstFormat)
    ensures r.log.Some? ==> Count(line, Separator) == 1
    ensures r.log.Some? ==> r.log.value.fileName == path && r.log.value.logFormat == SecondFormat
    ensures r.log.Some? ==> !Contains(r.log.value.logMsg, Separator)
    ensures r.log.Some? ==> exists ts :: line == ts + Separator + r.log.value.logMsg
                                      && parseTime(SecondLayout, ts) == Some(r.log.value.logTime)
  {
    var parts := Split(line, Separator);
    SplitLength(line, Separator);
    if |parts| != 2 then
      Failure(UnparsableText, SecondFormat, line)
    else
      match parseTime(SecondLayout, parts[0])
      case None => Failure(UnparsableTime, FirstFormat, line)
      case Some(t) =>
        SplitJoin(line, Separator);
        SplitPartsFree(line, Separator);
        assert line == parts[0] + Separator + parts[1];
        ParseResult(Some(Log(t, parts[1], path, SecondFormat)), None)
  }

  /** `parseLineSecondFormat` with every error naming the format that produced it. */
  function ParseLineSecondFormatCorrected(parseTime: TimeParser, line: string, path: string): (r: ParseResult)
    ensures r.ExactlyOne()
    ensures r.err.Some? ==> r.err.value.format == SecondFormat && r.err.value.line == line
    ensures r.err.Some? ==> (r.err.value.kind == UnparsableText <==> Count(line, Separator) != 1)
    ensures r.log.Some? ==> Count(line, Separator) == 1
    ensures r.log.Some? ==> r.log.value.fileName == path && r.log.value.logFormat == SecondFormat
    ensures r.log.Some? ==> !Contains(r.log.value.logMsg, Separator)
    ensures r.log.Some? ==> exists ts :: line == ts + Separator + r.log.value.logMsg
                                      && parseTime(SecondLayout, ts) == Some(r.log.value.logTime)
  {
    var parts := Split(line, Separator);
    SplitLength(line, Separator);
    if |parts| != 2 then
      Failure(UnparsableText, SecondFormat, line)
    else
      match parseTime(SecondLayout, parts[0])
      case None => Failure(UnparsableTime, SecondFormat, line)
      case Some(t) =>
        SplitJoin(line, Separator);
        SplitPartsFree(line, Separator);
        assert line == parts[0] + Separator + parts[1];
        ParseResult(Some(Log(t, parts[1], path, SecondFormat)), None)
  }

  /**
   * A line without exactly one separator (none, or two or more) is a field
   * count error for every parser, whatever the time parser: the timestamp is
   * never looked at.
   */
  lemma FieldCountError(parseTime: TimeParser, line: string, path: string)
    requires Count(line, Separator) != 1
    ensures ParseLineFirstFormat(parseTime, line, path) == Failure(UnparsableText, FirstFormat, line)
    ensures ParseLineSecondFormat(parseTime, line, path) == Failure(UnparsableText, SecondFormat, line)
    ensures ParseLineSecondFormatCorrected(parseTime, line, path) == Failure(UnparsableText, SecondFormat, line)
  {
  }

  /** A line with no separator at all, the empty line included, is a field count error. */
  lemma NoSeparatorIsFieldCountError(parseTime: TimeParser, line: string, path: string)
    requires !Contains(line, Separator)
    ensures ParseLineFirstFormat(parseTime, line, path) == Failure(UnparsableText, FirstFormat, line)
    ensures ParseLineSecondFormat(parseTime, line, path) == Failure(UnparsableText, SecondFormat, line)
  {
    FieldCountError(parseTime, line, path);
  }

  /**
   * A line made of two separator-free fields around one separator: the first
   * field is the timestamp. If its layout rejects it the error is a time
   * error (tagged first_format by both parsers as written); if it accepts it
   * the record carries the second field verbatim.
   */
  lemma {:induction false} TwoFieldOutcome(parseTime: TimeParser, ts: string, msg: string, path: string)
    requires forall i :: 0 <= i < |ts| ==> !OccursAt(ts + Separator, Separator, i)
    requires !Contains(msg, Separator)
    ensures ParseLineFirstFormat(parseTime, ts + Separator + msg, path)
         == match parseTime(FirstLayout, ts)
            case None => Failure(UnparsableTime, FirstFormat, ts + Separator + msg)
            case Some(t) => ParseResult(Some(Log(t, msg, path, FirstFormat)), None)
    ensures ParseLineSecondFormat(parseTime, ts + Separator + msg, path)
         == match parseTime(SecondLayout, ts)
            case None => Failure(UnparsableTime, FirstFormat, ts + Separator + msg)
            case Some(t) => ParseResult(Some(Log(t, msg, path, SecondFormat)), None)
    ensures ParseLineSecondFormatCorrected(parseTime, ts + Separator + msg, path)
         == match parseTime(SecondLayout, ts)
            case None => Failure(UnparsableTime, SecondFormat, ts + Separator + msg)
            case Some(t) => ParseResult(Some(Log(t, msg, path, SecondFormat)), None)
  {
    SplitInTwo(ts, msg, Separator);
  }

  /**
   * Round trip: a timestamp the layout accepts, joined to a separator-free
   * message, parses back to that time and that message.
   */
  lemma RoundTrip(parseTime: TimeParser, ts: string, msg: string, path: string, t: Time)
    requires forall i :: 0 <= i < |ts| ==> !OccursAt(ts + Separator, Separator, i)
    requires !Contains(msg, Separator)
    requires parseTime(FirstLayout, ts) == Some(t)
    ensures ParseLineFirstFormat(parseTime, ts + Separator + msg, path) == ParseResult(Some(Log(t, msg, path, FirstFormat)), None)
  {
    TwoFieldOutcome(parseTime, ts, msg, path);
  }

  /**
   * Every line with exactly one separator is two fields that meet the
   * conditions of `TwoFieldOutcome`: together with `FieldCountError` this
   * settles the outcome of every line.
   */
  lemma CountOneDecomposes(line: string)
    requires Count(line, Separator) == 1
    ensures var parts := Split(line, Separator);
            |parts| == 2 && line == parts[0] + Separator + parts[1]
            && (forall i :: 0 <= i < |parts[0]| ==> !OccursAt(parts[0] + Separator, Separator, i))
            && !Contains(parts[1], Separator)
  {
    var m := Index(line, Separator);
    var head, rest := line[..m], line[m + |Separator|..];
    assert Count(rest, Separator) == 0;
    SplitFree(rest, Separator);
    assert Split(line, Separator) == [head, rest];
    assert line[..m + |Separator|] == head + Separator;
    forall i | 0 <= i < |head|
      ensures !OccursAt(head + Separator, Separator, i)
    {
      assert !OccursAt(line, Separator, i);
      if i + |Separator| <= |head + Separator| {
        assert (head + Separator)[i..i + |Separator|] == line[i..i + |Separator|];
      }
    }
    assert line == head + Separator + rest;
  }

  /**
   * A separator-free timestamp is not enough for the round trip: a timestamp
   * ending in " |" forms a separator with the inserted one.
   */
  lemma StraddlingSeparator()
    ensures !Contains("x |", Separator) && !Contains(" y", Separator)
    ensures Split("x |" + Separator + " y", Separator) == ["x", "|  y"]
  {
    assert ("x |")[0..3][0] != Separator[0];
    var s := "x |" + Separator + " y";
    assert s == "x | |  y";
    assert !OccursAt(s, Separator, 0);
    assert OccursAt(s, Separator, 1);
    assert Index(s, Separator) == 1;
    var rest := s[4..];
    assert rest == "|  y";
    assert rest[0..3][0] != Separator[0];
    assert rest[1..4][1] != Separator[1];
    assert !Contains(rest, Separator);
    SplitFree(rest, Separator);
    assert s[..1] == "x";
    assert s[1 + |Separator|..] == rest;
    assert Split(s, Separator) == [s[..1]] + Split(rest, Separator);
  }

  /**
   * The second parser as written reports a rejected timestamp under the
   * first format's name.
   */
  lemma SecondFormatTimeErrorNamesFirst()
    ensures ParseLineSecondFormat((layout: string, value: string) => None, "a | b", "/tmp/b.log").err
         == Some(ParseError(UnparsableTime, FirstFormat, "a | b"))
  {
    assert ("a" + Separator)[0..3][0] != Separator[0];
    assert !OccursAt("b", Separator, 0);
    assert "a" + Separator + "b" == "a | b";
    TwoFieldOutcome((layout: string, value: string) => None, "a", "b", "/tmp/b.log");
  }

  /** The two versions of the second parser differ only in the format an error names. */
  lemma SecondFormatCorrectionOnlyRetags(parseTime: TimeParser, line: string, path: string)
    ensures ParseLineSecondFormatCorrected(parseTime, line, path).log == ParseLineSecondFormat(parseTime, line, path).log
    ensures ParseLineSecondFormat(parseTime, line, path).err.Some? ==>
              ParseLineSecondFormatCorrected(parseTime, line, path).err
              == Some(ParseLineSecondFormat(parseTime, line, path).err.value.(format := SecondFormat))
  {
  }

  /** The parser a tracker picks for its file (the choice `trackFile` makes). */
  datatype LineParser = FirstFormatParser | SecondFormatParser

  /** Any format other than the first is handed to the second parser. */
  function ParserFor(format: string): (p: LineParser)
    ensures p == FirstFormatParser <==> format == FirstFormat
  {
    if format == FirstFormat then FirstFormatParser else SecondFormatParser
  }

  /** The format tag a parser's records carry. */
  function FormatOf(p: LineParser): string
  {
    match p
    case FirstFormatParser => FirstFormat
    case SecondFormatParser => SecondFormat
  }

  /**
   * The parse a started tracker applies to each line it reads, with the
   * corrected second parser: every result names the parser's own format.
   */
  function ParseLine(parseTime: TimeParser, p: LineParser, line: string, path: string): (r: ParseResult)
    ensures r.ExactlyOne()
    ensures r.log.Some? ==> r.log.value.logFormat == FormatOf(p) && r.log.value.fileName == path
    ensures r.err.Some? ==> r.err.value.format == FormatOf(p) && r.err.value.line == line
  {
    match p
    case FirstFormatParser => ParseLineFirstFormat(parseTime, line, path)
    case SecondFormatParser => ParseLineSecondFormatCorrected(parseTime, line, path)
  }

  /**
   * The parse a started tracker applies to each line as the program is
   * written: the second parser tags its timestamp errors `first_format`.
   */
  function ParseLineAsWritten(parseTime: TimeParser, p: LineParser, line: string, path: string): (r: ParseResult)
    ensures r.ExactlyOne()
    ensures r.log.Some? ==> r.log.value.logFormat == FormatOf(p) && r.log.value.fileName == path
    ensures r.err.Some? ==> r.err.value.line == line
    ensures r.err.Some? ==> r.err.value.format
                            == if p == SecondFormatParser && r.err.value.kind == UnparsableTime then FirstFormat
                               else FormatOf(p)
  {
    match p
    case FirstFormatParser => ParseLineFirstFormat(parseTime, line, path)
    case SecondFormatParser => ParseLineSecondFormat(parseTime, line, path)
  }

  /**
   * As written, a validated descriptor's records carry its own format and
   * path, and its errors name its format, except that a `second_format`
   * file's timestamp errors name `first_format`.
   */
  lemma AsWrittenDescriptorTagsResults(parseTime: TimeParser, file: LogFile, line: string)
    requires Valid(file)
    ensures var r := ParseLineAsWritten(parseTime, ParserFor(file.format), line, file.fullPath);
            r.ExactlyOne()
            && (r.log.Some? ==> r.log.value.logFormat == file.format && r.log.value.fileName == file.fullPath)
            && (r.err.Some? ==> r.err.value.line == line)
            && (r.err.Some? ==> r.err.value.format
                                == if file.format == SecondFormat && r.err.value.kind == UnparsableTime then FirstFormat
                                   else file.format)
  {
  }

  /**
   * With the corrected second parser, for a descriptor the validation
   * accepted, every result of its tracker names the descriptor's own format and, on success, its path: no record
   * carries an unregistered or foreign format tag.
   */
  lemma ValidDescriptorTagsResults(parseTime: TimeParser, file: LogFile, line: string)
    requires Valid(file)
    ensures ParseLine(parseTime, ParserFor(file.format), line, file.fullPath).ExactlyOne()
    ensures var r := ParseLine(parseTime, ParserFor(file.format), line, file.fullPath);
            r.log.Some? ==> r.log.value.logFormat == file.format && r.log.value.fileName == file.fullPath
    ensures var r := ParseLine(parseTime, ParserFor(file.format), line, file.fullPath);
            r.err.Some? ==> r.err.value.format == file.format && r.err.value.line == line
  {
  }

  /** What `tail.TailFile` did for a path: a handle on the followed file, or an error. */
  datatype TailOutcome = Tailing(handle: nat) | TailFailed(reason: string)

  /** `tail.TailFile`, given from outside. */
  type Tailer = string -> TailOutcome

  /** A started tracker: the followed file and the parser its lines go through. */
  datatype LogStream = LogStream(handle: nat, file: LogFile, parser: LineParser)

  datatype StartOutcome = Started(stream: LogStream) | StartFailed(reason: string)

  /**
   * `trackFile` up to the point it hands back its channel: follow the file,
   * then pick the parser by the descriptor's format.
   */
  function TrackFile(tailFile: Tailer, file: LogFile): (r: StartOutcome)
    ensures r.Started? <==> tailFile(file.fullPath).Tailing?
    ensures r.StartFailed? ==> r.reason == tailFile(file.fullPath).reason
    ensures r.Started? ==> r.stream.file == file && r.stream.handle == tailFile(file.fullPath).handle
    ensures r.Started? ==> (r.stream.parser == FirstFormatParser <==> file.format == FirstFormat)
  {
    match tailFile(file.fullPath)
    case TailFailed(reason) => StartFailed(reason)
    case Tailing(handle) => Started(LogStream(handle, file, ParserFor(file.format)))
  }

  /** A descriptor the supervisor skipped, with the error it logged for it. */
  datatype Skip = Skip(file: LogFile, reason: string)

  /** The streams of the descriptors whose tracker started, in descriptor order. */
  function StartedStreams(tailFile: Tailer, files: seq<LogFile>): seq<LogStream>
  {
    if files == [] then []
    else
      var init := StartedStreams(tailFile, files[..|files| - 1]);
      match TrackFile(tailFile, files[|files| - 1])
      case Started(s) => init + [s]
      case StartFailed(_) => init
  }

  /** The descriptors whose tracker failed to start, in descriptor order. */
  function Skipped(tailFile: Tailer, files: seq<LogFile>): seq<Skip>
  {
    if files == [] then []
    else
      var last := files[|files| - 1];
      var init := Skipped(tailFile, files[..|files| - 1]);
      match TrackFile(tailFile, last)
      case Started(_) => init
      case StartFailed(reason) => init + [Skip(last, reason)]
  }

  /** Every descriptor is either started or skipped, never both and never neither. */
  lemma {:induction false} StartedOrSkipped(tailFile: Tailer, files: seq<LogFile>)
    ensures |StartedStreams(tailFile, files)| + |Skipped(tailFile, files)| == |files|
  {
    if files != [] {
      StartedOrSkipped(tailFile, files[..|files| - 1]);
    }
  }

  /** A failed start does not stop the loop: the streams of a concatenation concatenate. */
  lemma {:induction false} StartedStreamsAppend(tailFile: Tailer, a: seq<LogFile>, b: seq<LogFile>)
    ensures StartedStreams(tailFile, a + b) == StartedStreams(tailFile, a) + StartedStreams(tailFile, b)
    ensures Skipped(tailFile, a + b) == Skipped(tailFile, a) + Skipped(tailFile, b)
    decreases |b|
  {
    if b == [] {
      assert a + b == a;
    } else {
      var b' := b[..|b| - 1];
      assert (a + b)[..|a + b| - 1] == a + b';
      assert (a + b)[|a + b| - 1] == b[|b| - 1];
      StartedStreamsAppend(tailFile, a, b');
    }
  }

  /** Every collected stream belongs to one of the descriptors and is that descriptor's started tracker. */
  lemma {:induction false} StartedStreamsSound(tailFile: Tailer, files: seq<LogFile>)
    ensures forall s :: s in StartedStreams(tailFile, files) ==> s.file in files && TrackFile(tailFile, s.file) == Started(s)
  {
    if files != [] {
      StartedStreamsSound(tailFile, files[..|files| - 1]);
      assert forall f :: f in files[..|files| - 1] ==> f in files;
    }
  }

  /** No stream is collected exactly when no descriptor's file could be followed (an empty list included). */
  lemma {:induction false} NoStreamsIffNoneStarted(tailFile: Tailer, files: seq<LogFile>)
    ensures StartedStreams(tailFile, files) == []
        <==> forall i :: 0 <= i < |files| ==> tailFile(files[i].fullPath).TailFailed?
  {
    if files != [] {
      var init := files[..|files| - 1];
      NoStreamsIffNoneStarted(tailFile, init);
      assert forall i :: 0 <= i < |init| ==> init[i] == files[i];
    }
  }

  /** What the supervisor hands back: the fanned-in streams, or the no-streams error. */
  datatype Tracking = FannedIn(streams: seq<LogStream>) | NoLogStreams

  /**
   * `trackFiles` (and `TrackFiles`, which passes its outcome through): start
   * a tracker per descriptor, log and skip the ones that fail, and fail only
   * when none started.
   */
  method TrackFiles(tailFile: Tailer, files: seq<LogFile>) returns (tracking: Tracking, logged: seq<Skip>)
    ensures tracking == if StartedStreams(tailFile, files) == [] then NoLogStreams
                        else FannedIn(StartedStreams(tailFile, files))
    ensures logged == Skipped(tailFile, files)
    ensures tracking.NoLogStreams? <==> forall i :: 0 <= i < |files| ==> tailFile(files[i].fullPath).TailFailed?
  {
    var logStreams: seq<LogStream> := [];
    logged := [];
    for i := 0 to |files|
      invariant logStreams == StartedStreams(tailFile, files[..i])
      invariant logged == Skipped(tailFile, files[..i])
    {
      assert files[..i + 1][..i] == files[..i];
      match TrackFile(tailFile, files[i])
      case StartFailed(reason) =>
        logged := logged + [Skip(files[i], reason)];
      case Started(s) =>
        logStreams := logStreams + [s];
    }
    assert files[..|files|] == files;
    NoStreamsIffNoneStarted(tailFile, files);
    if |logStreams| == 0 {
      tracking := NoLogStreams;
    } else {
      tracking := FannedIn(logStreams);
    }
  }
}
