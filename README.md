# httpfromtcp: a verified model of the HTTP/1.1 core

This Dafny project models the protocol core of `httpfromtcp`, a hand-written
HTTP/1.1 implementation in Go. The core has three cooperating pieces.

- **The header collection** (`internal/headers/headers.go`).
  - `Headers` is a map from lower-cased field names to values.
  - `Set` combines a repeated name with `", "` (section 5.3 of RFC 9110).
  - `Parse` is resumable. It consumes one `name: value CRLF` field line, or
    the empty line that ends the section, from the front of a byte window.
  - `checkFieldName` checks names against the token octets of section 5.6.2
    of RFC 9110.
- **The incremental request parser** (`internal/request/request.go`).
  - `requestLineFromString` validates the request line (section 3 of
    RFC 9112).
  - `parseSingle` and `parse` drive the phases
    `Initialized → ParsingHeaders → Done`.
  - `RequestFromReader` reads into a byte buffer. The buffer starts at 8
    octets, doubles when full, and is compacted after every parse.
- **Response framing** (`internal/response/writer.go`,
  `internal/response/response.go`).
  - A phase-guarded `Writer` emits the status line (section 4 of RFC 9112),
    the header section, a plain or chunked body (section 7.1 of RFC 9112),
    and trailers.
  - The free functions write a status line or a header section in one go,
    and build the default headers.

## Modules

| file | module | models |
|---|---|---|
| wrappers.dfy | `Wrappers` | `Option` and `Result` |
| octets.dfy | `Octets` | the byte helpers the Go code calls: `bytes.Index` for CRLF, `strings.Split`, `bytes.SplitN(…, 2)`, `strings.TrimRight`, ASCII `TrimSpace` and `ToLower`, and `%d` / `%x` formatting, with their inverses |
| streams.dfy | `Streams` | `io.Reader` as a sequence of chunks that ends in end-of-stream or in a read error; `io.Writer` as a sink that appends each write or fails |
| fieldlines.dfy | `FieldLines` | the token rule and the verdict `Headers.Parse` reaches on its window |
| headers.dfy | `HeaderCollection` | `checkFieldName`, `Headers` with `Set` and `Parse` |
| requestline.dfy | `RequestLines` | `RequestLine` and `requestLineFromString` |
| request.dfy | `RequestParser` | `parseRequestLine`, `parseSingle`, `parse`, `Request`, `RequestFromReader` |
| response.dfy | `ResponseFormat` | status codes, the free `WriteStatusLine`, `GetDefaultHeaders` and the free `WriteHeaders` |
| writer.dfy | `ResponseWriter` | `Writer` and its six phase-guarded methods |
| roundtrip.dfy | `RoundTrip` | the header section that `WriteHeaders` emits, parsed back by repeated `Headers.Parse` |
| requestroundtrip.dfy | `RequestRoundTrip` | a whole request head (request line, then header section) parsed back by `parse` and by `RequestFromReader` |

## Modelling choices

- **Bytes.** Octets and Go strings are both `seq<char>`, one character per
  octet.
- **Pure and imperative parts.**
  - Pure logic is a function, and each stateful Go operation is a method
    proved against it.
  - `Headers.Parse` is specified by `ScanFieldLine`.
  - `parseSingle` is specified by `Step`.
  - `parse` is specified by `Drive(Step, …)`.
  - `RequestFromReader` is specified by `ParseStream` of the concatenated
    input.
- **The reader.**
  - `Reader` holds the chunks still to be delivered, and a flag saying
    whether the stream ends with a read error or with end-of-stream.
  - A read copies as much of the head chunk as fits in the free part of the
    buffer.
- **The sink.**
  - `Sink.written` is the output so far.
  - Each write either appends all its octets or fails and appends nothing.
    The choice is nondeterministic, so every property holds for every
    failure pattern.
- **Map iteration order.**
  - Go ranges over a map in an unspecified order.
  - Each loop over a map picks any unvisited key, and returns the visiting
    order as a ghost value.
  - The emitted bytes are stated in terms of that order. Every property
    holds for every order.

## Model

| member | source | states |
|---|---|---|
| HeaderCollection.CheckFieldName | internal/headers/headers.go:16-31 | the loop returns true exactly when every octet is a letter, a digit or one of the 15 listed token octets (the empty name passes); the listed octets and the token predicate are shown to be the same set |
| HeaderCollection.SetFieldEffect | internal/headers/headers.go:33-39 | after `Set` the keys are the old keys plus the lower-cased name; that key holds value when it was absent and old value + ", " + value when present; every other key keeps its value |
| HeaderCollection.SetCombinesSpellings | internal/headers/headers.go:33-39 | setting "Foo" to "a" and then "FOO" to "b" yields the single entry foo = "a, b" |
| HeaderCollection.SetEachCombines | internal/headers/headers.go:33-39 | after a sequence of `Set` calls on an empty collection, a key is present exactly when some call used a name that lower-cases to it, and its value is those calls' values in call order joined by ", " |
| HeaderCollection.Headers.constructor | internal/headers/headers.go:12-14 | a new collection is empty |
| HeaderCollection.Headers.Set | internal/headers/headers.go:33-39 | updates the map in place to the combined map described by SetFieldEffect |
| HeaderCollection.Headers.Parse | internal/headers/headers.go:41-65 | returns (n, done, err) and the new map as the line verdict dictates: (0, false, nil) with the map unchanged when no CRLF; (2, true, nil) unchanged on a leading CRLF; an error with the map unchanged on a bad line; otherwise line length + 2, done false, and `Set` applied to trimmed name and value |
| HeaderCollection.SplitLine | internal/headers/headers.go:50-61 | splitting and trimming one complete line agrees with the line verdict: an error is the verdict's error, a field is the verdict's name and value |
| FieldLines.ScanLine | internal/headers/headers.go:50-61 | the verdict on a complete line is never "need more" nor "section end", and an accepted line consumes itself and its CRLF |
| FieldLines.ScanLineVerdict | internal/headers/headers.go:50-64 | a complete line is accepted or refused, never left pending; an accepted line consumes itself and its CRLF and yields a token name and a value without surrounding white space |
| FieldLines.ScanFieldLine | internal/headers/headers.go:41-64 | a field line consumes more than its CRLF and no more than the window |
| FieldLines.ScanFieldLineVerdict | internal/headers/headers.go:41-64 | "need more" exactly when the window holds no CRLF; "section end" exactly when it starts with CRLF; a field consumes up to and including the first CRLF and has a token name and a trimmed value; a refusal only happens on a non-empty complete line |
| FieldLines.ScanLineAccepts | internal/headers/headers.go:50-64 | a line whose name has no trailing space before the colon and is a token after trimming (leading spaces allowed) is accepted with the trimmed name and the trimmed value after the first colon |
| FieldLines.ScanLineAcceptsExactly | internal/headers/headers.go:50-62 | a complete line is accepted if and only if it has a colon, the part before the first colon has no trailing space, and that part is a token once trimmed |
| FieldLines.SpaceBeforeColonRefused | internal/headers/headers.go:50-54 | a window whose first line has a space right before its first colon is refused with the invalid-field-line-format error naming the untrimmed name |
| FieldLines.SpacedNameRefused | internal/headers/headers.go:50-54 | the window `Foo : bar` with its CRLF is refused with the invalid-field-line-format error on `Foo ` |
| FieldLines.ScanCompleteLine | internal/headers/headers.go:46-61 | once a non-empty line is complete the verdict is final, and a line without a colon is refused |
| FieldLines.ScanFieldLineAsWritten | internal/headers/headers.go:41-64 | the Go step as written; it panics only on a complete line that has no colon |
| FieldLines.AsWrittenDiffersOnlyByPanic | internal/headers/headers.go:50-61 | the Go code as written agrees with the model on every window except a complete line without a colon whose name passes the checks, where it indexes past the split result |
| FieldLines.BareNamePanics | internal/headers/headers.go:50-61 | the line `Host` with its CRLF makes the code as written index out of range, while the model refuses it with a missing-colon error |
| RequestLines.RequestLineFromString | internal/request/request.go:34-73 | an accepted line has one of the eight methods, a non-empty target and version "1.1" |
| RequestLines.RequestLineAccepted | internal/request/request.go:46-72 | an accepted line is valid and is exactly "method target HTTP/1.1", so nothing in it was ignored |
| RequestLines.VersionVerdict | internal/request/request.go:58-72 | with three parts, a known method, a non-empty target and version token "HTTP/x", the line is accepted exactly when x is "1.1", and otherwise refused with x as the invalid version |
| RequestLines.FormatParts | internal/request/request.go:46-58 | a formatted request line splits at spaces into exactly the method, the target and "HTTP/" + version |
| RequestLines.RequestLineRoundTrip | internal/request/request.go:34-73 | every valid request line formats to text that parses back to the same request line |
| RequestLines.OtherVersionRefused | internal/request/request.go:65-67 | a well-formed line with any version other than 1.1 (HTTP/1.0 included) is refused with that version |
| RequestLines.MethodsAreUpper | internal/request/request.go:35-44 | all eight method names are upper-case letters |
| RequestLines.MethodsHaveNoSpace | internal/request/request.go:35-44 | no method name contains a space, so a method is always one split part |
| RequestParser.ParseRequestLine | internal/request/request.go:75-86 | a found line consumes at least its CRLF and no more than the window |
| RequestParser.ParseRequestLineVerdict | internal/request/request.go:75-86 | "no line" exactly when the window holds no CRLF; a found line ends at the first CRLF and is valid |
| RequestParser.ParseRequestLineText | internal/request/request.go:75-86 | the consumed octets are exactly the formatted request line followed by CRLF |
| RequestParser.ParseRequestLineOfText | internal/request/request.go:75-86 | a valid request line followed by CRLF and any further octets is found, consuming its length + 2 |
| RequestParser.Step | internal/request/request.go:88-115 | a step consumes no more than its window, and a step that consumes nothing leaves the state unchanged |
| RequestParser.StepPhases | internal/request/request.go:88-115 | a step fails with "read in done state" exactly in Done; it consumes nothing exactly when no line is complete; a consuming step in Initialized moves to ParsingHeaders with a valid request line and the headers untouched; in ParsingHeaders it keeps the request line, never returns to Initialized, and reaches Done exactly on the empty line |
| RequestParser.StepConsistent | internal/request/request.go:88-115 | a step keeps the parser consistent: no headers before a request line, and a valid request line after it |
| RequestParser.StepExtend | internal/request/request.go:88-115 | a step that consumes or fails gives the same verdict however many octets follow in the window |
| RequestParser.StepLaws | internal/request/request.go:88-115 | `parseSingle` is bounded by its window, decided by the octets it reads, and keeps the parser consistent |
| RequestParser.Drive | internal/request/request.go:117-130 | `parse` consumes no more than its window |
| RequestParser.DriveOnce | internal/request/request.go:117-130 | outside Done, `parse` stops with the first step's error, returns 0 when the first step consumes nothing, and otherwise continues on the rest of the window with the consumed count added |
| RequestParser.DriveSettles | internal/request/request.go:117-130 | when `parse` returns, parsing the unconsumed rest again consumes nothing and changes nothing |
| RequestParser.DriveAppendStopped | internal/request/request.go:117-130 | an error found in a window is found again when more octets follow |
| RequestParser.DriveAppend | internal/request/request.go:117-130 | parsing a window followed by more octets equals parsing the window, then parsing its unconsumed rest followed by the new octets |
| RequestParser.DriveConsistent | internal/request/request.go:117-130 | `parse` keeps the parser consistent, at a stop as well as at an error |
| RequestParser.ParseStreamComplete | internal/request/request.go:140-170 | a stream that parses ends in Done with a valid request line |
| RequestParser.Request.constructor | internal/request/request.go:135-138 | a new request is Initialized with an empty header collection |
| RequestParser.Request.ParseSingle | internal/request/request.go:88-115 | the request's new state and the reply are the step function's; on an error nothing is consumed and the state is unchanged |
| RequestParser.Request.Parse | internal/request/request.go:117-130 | the consumed count, the error and the new state are those of the driver over the step function |
| RequestParser.FeedsStart | internal/request/request.go:133-139 | before any read, the empty buffer followed by all input parses as the whole stream does |
| RequestParser.FeedsRead | internal/request/request.go:146-156 | moving octets from the reader to the end of the buffer keeps "buffer then rest of input parses as the whole stream" |
| RequestParser.FeedsEnd | internal/request/request.go:147-154 | when the input ends before Done and the buffer holds nothing usable, the whole stream fails with the incomplete-request error (end of stream) or the read error |
| RequestParser.FeedsDone | internal/request/request.go:140-170 | once the parser is Done, the whole stream parses to the current request |
| RequestParser.FeedsParse | internal/request/request.go:158-167 | parsing the buffer either finds the stream's own error or leaves a state and an unconsumed rest that still parse as the whole stream does |
| RequestParser.FeedsParsed | internal/request/request.go:158-167 | the same, stated for the reply of `parse` |
| RequestParser.FinishShift | internal/request/request.go:117-130 | the verdict on a stream does not depend on how many octets were consumed before |
| RequestParser.Grow | internal/request/request.go:141-145 | the new buffer is fresh, twice as long, and starts with the old contents |
| RequestParser.Compact | internal/request/request.go:163-167 | the octets from n to readToIndex move, in order, to the front of the buffer |
| RequestParser.MakeRoom | internal/request/request.go:141-145 | a buffer with room is kept; a full one is replaced by a fresh one twice as long whose first octets are the old ones |
| RequestParser.Refill | internal/request/request.go:140-156 | keeps the buffer while it has room; when it is full, moves to a fresh one twice as long; then reads; a read error or the end of input ends the loop with the whole stream's verdict; otherwise the new buffered octets are the old ones followed by those read, those read are taken from the front of the input, and the input left strictly shrinks |
| RequestParser.Consume | internal/request/request.go:158-167 | parses the buffered octets and compacts; a parse error is the whole stream's error; otherwise it returns the count n that `parse` consumed, the buffer holds exactly the buffered octets after the first n, readToIndex drops by n, and those octets parse as the whole stream does |
| RequestParser.RequestFromReader | internal/request/request.go:132-171 | the result is the request or the error that the concatenated input parses to, so it does not depend on how the input is cut into reads |
| Streams.FlattenAfterRead | internal/request/request.go:146 | taking m octets from the head chunk leaves input that, after those m octets, is the same octet stream |
| Streams.Reader.Read | internal/request/request.go:146-155 | with input left, copies min(head chunk, free room) octets into the buffer and changes no other slot; with none left, reports end of stream or the read error and changes nothing |
| Streams.Sink.Write | internal/response/writer.go:50 | a write appends all its octets or fails and appends nothing |
| Octets.DecimalRoundTrip | internal/response/response.go:30 | `%d` of any integer reads back to it; it is non-empty, starts with `-` exactly for a negative number, and is digits after that sign; neither a positive number nor the digits of a negative one start with `0` |
| Octets.HexRoundTrip | internal/response/writer.go:84 | `%x` of a length is lower-case hex digits that read back to the length |
| Octets.JoinSplit | internal/request/request.go:46 | joining the parts of `strings.Split` gives back the text |
| Octets.SplitJoin | internal/request/request.go:46 | splitting a join of separator-free parts gives back the parts |
| ResponseFormat.ReasonPhrase | internal/response/response.go:19-29 | the reason is non-empty exactly for 200, 400 and 500, and never contains CR or LF |
| ResponseFormat.StatusLineIsOneLine | internal/response/response.go:30 | the status line's only CRLF is its last two octets |
| ResponseFormat.StatusLineReadsBack | internal/response/response.go:30 | the status line starts with "HTTP/1.1 ", and its first space-separated word after that reads back to the status code |
| ResponseFormat.FieldLinesSnoc | internal/response/response.go:49-51 | visiting one more key appends exactly that key's "k: v" line |
| ResponseFormat.WriteStatusLine | internal/response/response.go:18-37 | one write of the status line; on failure the error is a write failure and nothing is appended |
| ResponseFormat.FieldLinesOf | internal/response/response.go:48-51 | the loop visits every key exactly once in some order and builds the "k: v" lines in that order |
| ResponseFormat.WriteHeaders | internal/response/response.go:47-59 | for some order that visits every key once, one write of the header section (the field lines and the closing CRLF); on failure nothing is appended |
| ResponseFormat.GetDefaultHeaders | internal/response/response.go:39-45 | a fresh collection with exactly content-length = the decimal length, connection = close and content-type = text/plain |
| ResponseWriter.ChunkReadsBack | internal/response/writer.go:83-103 | a chunk reads back: its first CRLF ends a lower-case hex size equal to the payload length, the payload follows, and CRLF ends it |
| ResponseWriter.ChunkedExample | internal/response/writer.go:78-118 | the chunk for "abc" followed by the last chunk is exactly "3\r\nabc\r\n0\r\n" |
| ResponseWriter.WriteFieldLines | internal/response/writer.go:60-65 | writes "k: v" lines for distinct keys in some order; the output is exactly those lines; it stops at the first failure, and when none fails every key was written |
| ResponseWriter.WriteFieldSection | internal/response/writer.go:60-68 | after the field lines, the closing CRLF; on success the output is the header section for an order visiting every key once; on failure it is the lines written so far |
| ResponseWriter.Writer.constructor | internal/response/writer.go:24-29 | a new writer is in the status-line phase |
| ResponseWriter.Writer.WriteStatusLine | internal/response/writer.go:31-52 | outside the status-line phase: an error, nothing written, phase kept; inside: the status line is written or the write fails, and the phase becomes headers either way |
| ResponseWriter.Writer.WriteHeaders | internal/response/writer.go:54-69 | outside the headers phase: an error, nothing written, phase kept; inside: the header section for some order, or its prefix up to a failed write, and the phase becomes body either way |
| ResponseWriter.Writer.WriteBody | internal/response/writer.go:71-76 | outside the body phase: an error and nothing written; inside: the octets verbatim and their count, or a failed write and 0; the phase stays body |
| ResponseWriter.Writer.WriteChunkedBody | internal/response/writer.go:78-104 | outside the body phase: an error and nothing written; inside: a prefix of the chunk ending at a part boundary; its length is the count returned, and it is the whole chunk exactly when there is no error |
| ResponseWriter.Writer.WriteChunkedBodyDone | internal/response/writer.go:106-118 | outside the body phase: an error, nothing written, phase kept; inside: "0\r\n" or a failed write, returning 0, and the phase becomes trailers either way |
| ResponseWriter.Writer.WriteTrailers | internal/response/writer.go:120-135 | outside the trailers phase: an error, nothing written, phase kept; inside: a header section as for the headers, then the phase returns to body, not to an end phase |
| RoundTrip.ScanLineOfFieldLine | internal/headers/headers.go:50-64 | the text "k: v" of a token name and a trimmed value is accepted with exactly that name and value |
| RoundTrip.ScanFieldLineOfFieldLine | internal/headers/headers.go:41-64 | a field line "k: v\r\n" at the front of any window is consumed whole and yields that name and value |
| RoundTrip.FieldLineStep | internal/headers/headers.go:41-64 | parsing a field line then the rest of a section is parsing the rest from the map updated by `Set` |
| RoundTrip.ScanSectionEnd | internal/headers/headers.go:46-48 | a leading CRLF ends the section after 2 octets with the map unchanged |
| RoundTrip.ExtendAll | internal/response/response.go:49-51 | adding m's entry for every key of m, once each in any order, to an empty collection gives back m |
| RoundTrip.ScanSectionOf | internal/response/response.go:49-52 | the field lines of distinct lower-case token keys plus CRLF parse from any fresh-keyed map to that map extended by the lines, consuming all of them |
| RoundTrip.SectionRoundTrip | internal/response/response.go:47-59 | the header section written for a map with lower-case token keys and trimmed CRLF-free values, in any order and followed by anything, parses back with repeated `Headers.Parse` (internal/headers/headers.go lines 41-65) to exactly the map, ends with done, and consumes exactly the section |
| RequestRoundTrip.StepSectionEnd | internal/request/request.go:101-109 | in the headers phase, a window starting with CRLF moves the parser to Done after 2 octets, the request line and the collection kept |
| RequestRoundTrip.StepFieldLine | internal/request/request.go:101-109 | in the headers phase, an accepted field line is `Set` into the collection and consumed with its CRLF, the phase kept |
| RequestRoundTrip.DriveSection | internal/request/request.go:117-130 | once the request line is in, `parse` over a header section that ends well stops in Done with the collection the section builds, having consumed exactly the section |
| RequestRoundTrip.DriveRequest | internal/request/request.go:88-130 | a valid request line and CRLF, then a header section that ends well, are parsed by `parse` to Done with that request line and that collection, consuming exactly both |
| RequestRoundTrip.RequestHeadRoundTrip | internal/request/request.go:88-130 | a request head written out (a valid request line, CRLF, the header section of writable fields in any order), followed by anything, is parsed by `parse` to Done with that request line and exactly that map, consuming the head and nothing more |
| RequestRoundTrip.ParseStreamOfRequest | internal/request/request.go:132-171 | the same head as a whole stream parses to that request, whether the stream ends at end of file or in a read error |
| RequestRoundTrip.HostSection | internal/headers/headers.go:41-64 | the section `Host: a` CRLF CRLF parses to the single entry host = "a" in 11 octets |
| RequestRoundTrip.GetWithHost | internal/request/request.go:117-130 | `GET / HTTP/1.1` CRLF `Host: a` CRLF CRLF is parsed by `parse` to Done with method GET, target `/`, version 1.1 and {host: a}, consuming all 27 octets |
| RequestRoundTrip.GetWithHostStream | internal/request/request.go:132-171 | the same input as a whole stream parses to that request |

## Left out

- `strings.TrimSpace`, `bytes.TrimSpace` and `strings.ToLower` are ASCII
  only: space, tab, LF, VT, FF and CR are white space, and A-Z are mapped
  to a-z. Unicode white space and case mapping are not modelled.
- **Streams.**
  - Short writes and a read that returns data together with an error are
    not modelled. A sink write appends everything or nothing, and a read
    returns data or an error.
  - Because of this, `Writer.WriteChunkedBody` returns the byte count of
    the whole parts written before a failure, never a partial part.
- **Errors.**
  - Error texts (`fmt.Errorf` messages) are not modelled. Each error is a
    constructor of `RequestError`, `FieldError` or `ResponseError`.
  - Any reader error other than `io.EOF` is the single `ReadFailed`.
- **Unreachable parts of the request parser.**
  - The `default` branch of `parseSingle` ("unknown status") cannot be
    reached, because `ParseStatus` has three values.
  - The `break` in `RequestFromReader`'s end-of-stream branch cannot be
    reached, because the loop only runs before Done.
  - The index that `parseRequestLine` returns alongside an error is
    discarded by its only caller, so `ParseRequestLine` does not return
    it.
- **Go maps are references.** `GetDefaultHeaders` returns a fresh
  collection, and `Headers` is a class, so aliasing between a caller's map
  and the collection is not modelled.
- **Sink.Write and the free `WriteHeaders`.** The free `WriteHeaders`
  builds the whole section and then writes it once. Its failure appends
  nothing, because the sink is all-or-nothing.
- **Other files.** `internal/server/server.go`, `cmd/httpserver/main.go`,
  `cmd/tcplistener/main.go`, `cmd/udpsender/main.go` and `main.go` are not
  part of this model. They hold TCP and UDP I/O, goroutines, demo handlers
  and a line splitter.
- **The wrapped error text of the free functions.** The free
  `WriteStatusLine` and `WriteHeaders` wrap the sink's error in a message.
  The model returns `WriteFailed`.

## Findings

| source | as written | input that shows it | evidently intended | confidence | as-written member | corrected member |
|---|---|---|---|---|---|---|
| internal/headers/headers.go:50-61 | a complete field line without a colon, whose name passes the trailing-space and token checks, reaches `parts[1]` while `bytes.SplitN` returned one part, an index out of range | the header window `Host\r\n\r\n` (for example, `GET / HTTP/1.1\r\nHost\r\n\r\n` as a request) | refuse the line with an error, as every other malformed line is | not executed | FieldLines.BareNamePanics | FieldLines.AsWrittenDiffersOnlyByPanic |

- The as-written member is `FieldLines.ScanFieldLineAsWritten`. It follows
  the Go code and yields `IndexPanic` on the input above, as
  `FieldLines.BareNamePanics` shows.
- The corrected definition is `FieldLines.ScanFieldLine`. It refuses the
  same line with `MissingColon`. `FieldLines.AsWrittenDiffersOnlyByPanic`
  proves that this is the only difference between the two.
- `Headers.Parse` and the request parser use the corrected definition.
