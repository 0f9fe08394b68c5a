# file_log_reader: log line parsing, descriptor validation and tracker start-up

This project models the sequential core of the `log_reader` package of
file_log_reader, a tool that follows a set of append-only log files and turns
every new line into a structured record or a parse error.

- **Line parsers** (`parseLineFirstFormat`, `parseLineSecondFormat`). A line
  is split on `" | "` with Go's `strings.Split`. Exactly two parts are
  required. The first part is parsed as a timestamp with the format's own
  layout. The result is Go's `Result` struct: a `*Log` and an `error`, each
  possibly nil. `Result` keeps both fields as options, so "exactly one is
  set" is a property proved about the parsers, not a fact built into a type.
- **`strings.Split`** (module `Strings`) follows Go's `genSplit`. It looks for
  the leftmost occurrence with `Index`, cuts, and repeats on the rest. The
  parts are the text between non-overlapping occurrences. `Join` is the
  inverse the properties are stated against.
- **Dispatch and supervisor**. `trackFile` follows the file and then picks a
  parser. `first_format` gets the first parser and every other string gets
  the second. `trackFiles` starts one tracker per descriptor. It logs and
  skips the ones that fail. It returns `ErrNoLogStreams` when none started,
  and otherwise the fanned-in streams.
- **Descriptor validation** (`LogFile.UnmarshalJSON`, `ParseFileList`). After
  JSON decoding, an empty path is rejected first. Then any format other than
  the two registered ones is rejected. A file list is returned only when
  every entry is accepted.

`time.Parse` and `tail.TailFile` are library calls whose behaviour is not
modelled. Each one is a function-typed parameter (`TimeParser`, `Tailer`), so
every property holds for every possible time parser and file follower.

The round trip "a timestamp the layout accepts, then `" | "`, then a message
parses back to that message" needs more than "neither part contains the
separator". A timestamp ending in `" |"` forms a separator with the inserted
one: `"x |" + " | " + " y"` splits into `"x"` and `"|  y"`
(`StraddlingSeparator`). `RoundTrip` therefore requires that no separator
starts inside the timestamp. Go's two real layouts end in `)` and `Z`, so
such timestamps are rejected in practice. With an opaque time parser the
condition has to be stated.

## Model

| member | source | states |
|---|---|---|
| `Strings.Index` | src/github.com/rpg999/file_log_reader/log_reader/log.go:133 | Returns -1 exactly when the separator does not occur. Otherwise it returns a position where the separator occurs, and no occurrence starts earlier. |
| `Strings.Count` | src/github.com/rpg999/file_log_reader/log_reader/log.go:133 | The number of non-overlapping occurrences is zero exactly when the separator does not occur. |
| `Strings.Split` | src/github.com/rpg999/file_log_reader/log_reader/log.go:133 | Always yields at least one part, so an empty line gives one part. |
| `Strings.SplitLength` | src/github.com/rpg999/file_log_reader/log_reader/log.go:133 | The number of parts is the number of non-overlapping occurrences plus one. |
| `Strings.SplitJoin` | src/github.com/rpg999/file_log_reader/log_reader/log.go:133 | Joining the parts with the separator gives back the line. |
| `Strings.SplitPartsFree` | src/github.com/rpg999/file_log_reader/log_reader/log.go:133 | No part contains the separator. |
| `Strings.SplitInTwo` | src/github.com/rpg999/file_log_reader/log_reader/log.go:133 | `a + sep + b` splits into exactly `[a, b]` when `b` has no separator and none starts inside `a`. |
| `LogFiles.Check` | src/github.com/rpg999/file_log_reader/log_reader/file.go:20-28 | Accepts exactly the descriptors with a non-empty path and a registered format. An empty path reports the path error even when the format is also bad. A bad format with a path reports the format error naming that format. |
| `LogFiles.FileErrorMessagesDistinct` | src/github.com/rpg999/file_log_reader/log_reader/file.go:20-26 | The empty-path message never equals an invalid-format message, and the invalid-format message ends with the offending format. |
| `LogFiles.UnmarshalLogFile` | src/github.com/rpg999/file_log_reader/log_reader/file.go:14-29 | A JSON decoding error is passed on unchanged. Otherwise the result is the validation's error, or the decoded descriptor itself, unchanged. |
| `LogFiles.DecodeEntries` | src/github.com/rpg999/file_log_reader/log_reader/file.go:41-44 | The list decodes exactly when every entry is accepted. The list is then the decoded entries, in order, all valid. A failure reports the error of one of the entries. |
| `LogFiles.DecodeEntriesFirstError` | src/github.com/rpg999/file_log_reader/log_reader/file.go:41-44 | The error reported is that of the first rejected entry. |
| `LogFiles.ParseFileList` | src/github.com/rpg999/file_log_reader/log_reader/file.go:31-46 | Returns a list only when the file was read, parsed, and every entry was accepted. The list is then the decoded entries themselves, in order, all valid. A read failure is reported as a read error. A document that is not JSON is a marshalling error carrying the decoder's reason. A rejected entry is a marshalling error carrying that entry's error. |
| `LogReader.ParseLineFirstFormat` | src/github.com/rpg999/file_log_reader/log_reader/log.go:131-155 | Exactly one of log and error is set. An error names `first_format` and the line. It is a field-count error exactly when the line does not hold exactly one separator. A record carries the path and `first_format` and holds exactly one separator. Its message has no separator. The line is some timestamp text, then the separator, then the message, and the layout parses that timestamp text to the record's time. |
| `LogReader.ParseLineSecondFormat` | src/github.com/rpg999/file_log_reader/log_reader/log.go:158-182 | As for the first parser with the second layout and `second_format` records. The field-count error names `second_format`, but the timestamp error names `first_format`. |
| `LogReader.ParseLineSecondFormatCorrected` | src/github.com/rpg999/file_log_reader/log_reader/log.go:158-182 | The second parser with every error naming `second_format`. |
| `LogReader.ParseErrorMessagesDistinct` | src/github.com/rpg999/file_log_reader/log_reader/log.go:135-142 | For the same format and line, the field-count message differs from the timestamp message. Every parse-error message ends with the offending line. |
| `LogReader.FieldCountError` | src/github.com/rpg999/file_log_reader/log_reader/log.go:133-164 | A line without exactly one separator is a field-count error for every parser, whatever the time parser. The timestamp is never consulted. |
| `LogReader.NoSeparatorIsFieldCountError` | src/github.com/rpg999/file_log_reader/log_reader/log.go:133-137 | A line with no separator, the empty line included, is a field-count error. |
| `LogReader.TwoFieldOutcome` | src/github.com/rpg999/file_log_reader/log_reader/log.go:138-179 | For a two-field line, a rejected timestamp gives a timestamp error, distinct from the field-count error. An accepted one gives a record with that time, the second field verbatim, the path and the parser's format. |
| `LogReader.RoundTrip` | src/github.com/rpg999/file_log_reader/log_reader/log.go:133-152 | An accepted timestamp, then the separator, then a separator-free message parses back to that time and message. |
| `LogReader.CountOneDecomposes` | src/github.com/rpg999/file_log_reader/log_reader/log.go:133-137 | A line with exactly one separator is its two split parts joined by the separator, and those parts meet the conditions of `TwoFieldOutcome`. Together with `FieldCountError`, this fixes the outcome of every line. |
| `LogReader.StraddlingSeparator` | src/github.com/rpg999/file_log_reader/log_reader/log.go:133 | Two separator-free fields can still split differently when joined: a timestamp `"x"` plus space plus bar, then the separator, then `" y"`, splits into `"x"` and a different message. |
| `LogReader.SecondFormatTimeErrorNamesFirst` | src/github.com/rpg999/file_log_reader/log_reader/log.go:167-170 | The second parser as written reports a rejected timestamp of the line `"a"` + separator + `"b"` under `first_format`. |
| `LogReader.SecondFormatCorrectionOnlyRetags` | src/github.com/rpg999/file_log_reader/log_reader/log.go:158-182 | The corrected second parser gives the same record as the original. Any error it gives is the original's with the format renamed to `second_format`. |
| `LogReader.ParserFor` | src/github.com/rpg999/file_log_reader/log_reader/log.go:74-79 | The first parser is chosen exactly for `first_format`. Every other string, unregistered ones included, gets the second. |
| `LogReader.ParseLine` | src/github.com/rpg999/file_log_reader/log_reader/log.go:74-91 | The per-line parse of a started tracker, using the corrected second parser. Exactly one of log and error is set. Records carry the parser's format and the path. Errors name the parser's format and the line. |
| `LogReader.ParseLineAsWritten` | src/github.com/rpg999/file_log_reader/log_reader/log.go:74-91 | The per-line parse of a started tracker as the program is written. Exactly one of log and error is set. Records carry the parser's format and the path. Errors name the line and the parser's format, except that the second parser's timestamp errors name `first_format`. |
| `LogReader.AsWrittenDescriptorTagsResults` | src/github.com/rpg999/file_log_reader/log_reader/log.go:74-79 | As written, for a descriptor the validation accepts: records carry the descriptor's own format and path. Errors name the line and the descriptor's format, except that a `second_format` descriptor's timestamp errors name `first_format`. |
| `LogReader.ValidDescriptorTagsResults` | src/github.com/rpg999/file_log_reader/log_reader/log.go:74-79 | With the corrected second parser, for a descriptor the validation accepts: every result has exactly one of log and error set. Records carry the descriptor's own format and path. Errors name its format and the line. |
| `LogReader.TrackFile` | src/github.com/rpg999/file_log_reader/log_reader/log.go:68-79 | Starts exactly when the file can be followed, and otherwise fails with the follower's error. A started tracker holds the follower's handle and the descriptor. It uses the first parser exactly for `first_format`. |
| `LogReader.StartedOrSkipped` | src/github.com/rpg999/file_log_reader/log_reader/log.go:52-58 | Every descriptor is either collected as a stream or logged as skipped. |
| `LogReader.StartedStreamsAppend` | src/github.com/rpg999/file_log_reader/log_reader/log.go:52-58 | Collected streams and logged skips of a concatenated list are the concatenations, in order. A failure does not stop the loop. |
| `LogReader.StartedStreamsSound` | src/github.com/rpg999/file_log_reader/log_reader/log.go:52-58 | Every collected stream is the started tracker of one of the descriptors. |
| `LogReader.NoStreamsIffNoneStarted` | src/github.com/rpg999/file_log_reader/log_reader/log.go:60-62 | Nothing is collected exactly when no descriptor's file could be followed, the empty list included. |
| `LogReader.TrackFiles` | src/github.com/rpg999/file_log_reader/log_reader/log.go:38-65 | Returns `ErrNoLogStreams` exactly when no stream was collected, which is exactly when no file could be followed. Otherwise it returns the started streams in descriptor order. Every skipped descriptor is logged with its error, in order. |

## Findings

| source | as written | input that shows it | evidently intended | confidence | as-written member | corrected member |
|---|---|---|---|---|---|---|
| src/github.com/rpg999/file_log_reader/log_reader/log.go:167-170 | the second parser's timestamp error is tagged `first_format` | a `second_format` line `"a"` + separator + `"b"` whose timestamp the layout rejects | the error names `second_format`, as the same parser's field-count error does at line 162 | high; not executed | `LogReader.SecondFormatTimeErrorNamesFirst` | `LogReader.ParseLineSecondFormatCorrected` |

`ParseLine`, the parse a started tracker applies to its lines, uses the
corrected second parser. `ParseLineAsWritten` is the same dispatch over the
parsers as written, and `AsWrittenDescriptorTagsResults` states the one
exception it makes.

## Left out

- `fanIn` and the merging of tracker channels: goroutines, a wait group and channel close are concurrency. A successful `TrackFiles` returns the list of streams that would be fanned in.
- The goroutine body of `trackFile` (log.go:82-94): reading lines from the follower, sending parse results and stopping on `done` are concurrent. Only the start outcome and the parser choice are modelled.
- `tail.TailFile`, the file follower: modelled as the parameter `Tailer`, which either gives a handle or fails with a reason.
- `time.Parse` and the calendar meaning of the two layouts: modelled as the parameter `TimeParser`, which is given the layout and the text.
- `log.Printf` in `trackFiles`: the logged descriptor and error are returned as the `logged` sequence. The message text is not modelled.
- The exact text of the errors built with `fmt.Errorf` and of `ErrNoLogStreams` is only partly modelled. `ParseErrorMessage` and `FileErrorMessage` build the parse and validation messages, and lemmas state that their kinds read differently and name the offending line or format. The wrapping text of `ParseFileList`'s errors and the text of `ErrNoLogStreams` are not modelled.
- Reading the list file and JSON decoding in `ParseFileList` and `UnmarshalJSON`: both are I/O or library code. Their outcomes are the inputs `FileListSource` and `DecodedEntry`.
- `strings.Split` with an empty separator: the parsers only split on `" | "`, so `Split` requires a non-empty separator.
- main.go: flag parsing, `os.Stat` and draining the output are the entry point, not the core.
- file_log_reader/log.go: an older variant whose `trackFiles` is empty. It is superseded by the package modelled here.
