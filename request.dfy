/**
 * The incremental request parser: a status machine that consumes the request
 * line and then the header section from a window of buffered octets, and the
 * read loop that feeds it from a byte source through a growing buffer.
 *
 * The pure part states what parsing a window does (`Step`, `Drive`) and what
 * a whole stream parses to (`ParseStream`); the `Request` class and
 * `RequestFromReader` are proved against it.
 */
module RequestParser {
  import opened Wrappers
  import opened Octets
  import opened FieldLines
  import opened HeaderCollection
  import opened RequestLines
  import opened Streams

  /** What `parseRequestLine` finds at the front of its window. */
  datatype LineParse =
    | NoLine                                    // no CRLF yet
    | GotLine(line: RequestLine, consumed: nat) // an accepted line of `consumed` octets, CRLF included
    | BadLine(error: RequestError)              // the first line is refused

  /**
   * `parseRequestLine`: nothing until a CRLF arrives, then the verdict on the
   * text before the first CRLF.
   */
  function ParseRequestLine(data: string): (r: LineParse)
    ensures r.GotLine? ==> 2 <= r.consumed <= |data|
  {
    var idx := FindCrlf(data);
    if idx == -1 then NoLine
    else
      match RequestLineFromString(data[..idx])
      case Failure(e) => BadLine(e)
      case Success(line) => GotLine(line, idx + 2)
  }

  /**
   * `parseRequestLine` waits exactly while no CRLF has arrived; an accepted
   * line is valid and ends at the first CRLF.
   */
  lemma ParseRequestLineVerdict(data: string)
    ensures ParseRequestLine(data) == NoLine <==> NoCrlf(data)
    ensures ParseRequestLine(data).GotLine? ==>
              CrlfAt(data, ParseRequestLine(data).consumed - 2)
              && NoCrlfBefore(data, ParseRequestLine(data).consumed - 2)
              && ValidRequestLine(ParseRequestLine(data).line)
  {
    var idx := FindCrlf(data);
    if idx >= 0 {
      assert !NoCrlfBefore(data, |data|) by { assert CrlfAt(data, idx); }
      if RequestLineFromString(data[..idx]).Success? {
        RequestLineAccepted(data[..idx]);
      }
    }
  }

  /** An accepted request line consumes exactly its own text and the CRLF. */
  lemma ParseRequestLineText(data: string)
    requires ParseRequestLine(data).GotLine?
    ensures data[..ParseRequestLine(data).consumed]
            == FormatRequestLine(ParseRequestLine(data).line) + CRLF
  {
    var idx := FindCrlf(data);
    var line := data[..idx];
    assert ParseRequestLine(data) == GotLine(RequestLineFromString(line).value, idx + 2);
    RequestLineAccepted(line);
    CrlfPrefix(data, idx);
  }

  /** Printing a valid request line and a CRLF in front of anything reads it back. */
  lemma ParseRequestLineOfText(r: RequestLine, rest: string)
    requires ValidRequestLine(r) && '\r' !in r.requestTarget
    ensures ParseRequestLine(FormatRequestLine(r) + CRLF + rest)
            == GotLine(r, |FormatRequestLine(r)| + 2)
  {
    var line := FormatRequestLine(r);
    MethodsAreUpper(r.httpMethod);
    assert line == r.httpMethod + " " + r.requestTarget + " HTTP/" + r.httpVersion;
    assert '\r' !in line;
    FindCrlfOfLine(line, rest);
    assert (line + CRLF + rest)[..|line|] == line;
    RequestLineRoundTrip(r);
  }

  /** The initial size of the read buffer. */
  const BufferSize: nat := 8

  /** `parseStatus`: the phase of the parser. */
  datatype ParseStatus = Initialized | ParsingHeaders | Done

  /** Everything the parser knows: its phase, the request line, the header map. */
  datatype ParseState = ParseState(status: ParseStatus, requestLine: RequestLine, fields: map<string, string>)

  /** A fresh request: no request line yet and no headers. */
  const Initial: ParseState := ParseState(Initialized, RequestLine("", "", ""), map[])

  /**
   * What the parser's state may be: headers only after an accepted request
   * line.
   */
  predicate Consistent(st: ParseState)
  {
    (st.status == Initialized ==> st.fields == map[])
    && (st.status != Initialized ==> ValidRequestLine(st.requestLine))
  }

  /** The outcome of one `parseSingle` call. */
  datatype StepResult = Stepped(next: ParseState, consumed: nat) | Failed(error: RequestError)

  /**
   * `parseSingle`: one request line or one header line, by phase.  A failing
   * step leaves the state as it was.
   */
  function Step(st: ParseState, data: string): (r: StepResult)
    ensures r.Stepped? ==> r.consumed <= |data| && (r.consumed == 0 ==> r.next == st)
  {
    match st.status
    case Initialized =>
      (match ParseRequestLine(data)
       case NoLine => Stepped(st, 0)
       case BadLine(e) => Failed(e)
       case GotLine(line, n) => Stepped(st.(status := ParsingHeaders, requestLine := line), n))
    case ParsingHeaders =>
      var scan := ScanFieldLine(data);
      if scan.Rejected? then Failed(InvalidHeader(scan.error))
      else
        var (n, done, _) := Reply(scan);
        Stepped(st.(status := if done then Done else ParsingHeaders,
                    fields := AfterScan(st.fields, scan)), n)
    case Done => Failed(ReadInDoneState)
  }

  /**
   * The phase machine of `parseSingle`: only a Done parser refuses outright;
   * a step consumes nothing exactly while no CRLF has arrived; an accepted
   * request line moves to ParsingHeaders, and the empty line that ends the
   * header section moves to Done; the request line is kept once set.
   */
  lemma StepPhases(st: ParseState, data: string)
    ensures Step(st, data) == Failed(ReadInDoneState) <==> st.status == Done
    ensures Step(st, data) == Stepped(st, 0) <==> st.status != Done && NoCrlf(data)
    ensures Step(st, data).Stepped? && st.status == Initialized && Step(st, data).consumed > 0 ==>
              Step(st, data).next.status == ParsingHeaders
              && ValidRequestLine(Step(st, data).next.requestLine)
              && Step(st, data).next.fields == st.fields
    ensures Step(st, data).Stepped? && st.status == ParsingHeaders ==>
              Step(st, data).next.requestLine == st.requestLine
              && Step(st, data).next.status != Initialized
              && (Step(st, data).next.status == Done <==> CrlfAt(data, 0))
  {
    ParseRequestLineVerdict(data);
    ScanFieldLineVerdict(data);
  }

  /** A step keeps the parser consistent. */
  lemma StepConsistent(st: ParseState, data: string)
    requires Consistent(st) && Step(st, data).Stepped?
    ensures Consistent(Step(st, data).next)
  {
    ParseRequestLineVerdict(data);
  }

  /**
   * Once a step has found its CRLF, more octets after the window do not
   * change it: a step that consumes or fails is decided by its window.
   */
  lemma StepExtend(st: ParseState, a: string, b: string)
    requires Step(st, a).Failed? || Step(st, a).consumed > 0
    ensures Step(st, a + b) == Step(st, a)
  {
    if st.status != Done {
      var idx := FindCrlf(a);
      assert idx >= 0;
      FindCrlfExtend(a, b);
      assert (a + b)[..idx] == a[..idx];
      if st.status == ParsingHeaders {
        assert CrlfAt(a + b, 0) <==> CrlfAt(a, 0);
      }
    }
  }

  /** What `parse` reaches on a window: a state and a count, or an error. */
  datatype DriveResult = Reached(state: ParseState, consumed: nat) | Stopped(error: RequestError, at: ParseState)

  /** A step function of the shape of `parseSingle`. */
  type Stepper = (ParseState, string) -> StepResult

  /** A step never consumes more than its window. */
  ghost predicate Bounded(step: Stepper)
  {
    forall st, data :: step(st, data).Stepped? ==> step(st, data).consumed <= |data|
  }

  /** A step that consumes or fails is decided by its window alone. */
  ghost predicate Decided(step: Stepper)
  {
    forall st, a, b :: step(st, a).Failed? || step(st, a).consumed > 0 ==> step(st, a + b) == step(st, a)
  }

  /** A step never takes a consistent parser to an inconsistent one. */
  ghost predicate KeepsConsistent(step: Stepper)
  {
    forall st, data :: Consistent(st) && step(st, data).Stepped? ==> Consistent(step(st, data).next)
  }

  /** `parseSingle` is a bounded, decided step that keeps the parser consistent. */
  lemma StepLaws()
    ensures Bounded(Step) && Decided(Step) && KeepsConsistent(Step)
  {
    forall st, a, b | Step(st, a).Failed? || Step(st, a).consumed > 0
      ensures Step(st, a + b) == Step(st, a)
    {
      StepExtend(st, a, b);
    }
    forall st, data | Consistent(st) && Step(st, data).Stepped?
      ensures Consistent(Step(st, data).next)
    {
      StepConsistent(st, data);
    }
  }

  /** A result after n more octets consumed in front of it. */
  function Shift(d: DriveResult, n: nat): DriveResult
  {
    match d
    case Reached(s, m) => Reached(s, m + n)
    case Stopped(_, _) => d
  }

  /**
   * `parse`: steps until the header section is done or a step consumes
   * nothing, and stops at the first error.  The model of `parse` is
   * `Drive(Step, ...)`; the driver is stated for any bounded step so that
   * its laws do not depend on how one step parses.
   */
  function Drive(step: Stepper, st: ParseState, data: string): (r: DriveResult)
    requires Bounded(step)
    ensures r.Reached? ==> r.consumed <= |data|
    decreases |data|, 1
  {
    if st.status == Done then Reached(st, 0)
    else Resume(step, st, data)
  }

  /** The driver from a state that is not done: one step, then the rest. */
  function Resume(step: Stepper, st: ParseState, data: string): (d: DriveResult)
    requires Bounded(step)
    ensures d.Reached? ==> d.consumed <= |data|
    decreases |data|, 0
  {
    match step(st, data)
    case Failed(e) => Stopped(e, st)
    case Stepped(next, n) =>
      if n == 0 then Reached(st, 0)
      else Shift(Drive(step, next, data[n..]), n)
  }

  /** One turn of the driver, by what the step does. */
  lemma DriveOnce(step: Stepper, st: ParseState, data: string)
    requires Bounded(step) && st.status != Done
    ensures step(st, data).Failed? ==> Drive(step, st, data) == Stopped(step(st, data).error, st)
    ensures step(st, data).Stepped? && step(st, data).consumed == 0 ==>
              Drive(step, st, data) == Reached(st, 0)
    ensures step(st, data).Stepped? && step(st, data).consumed > 0 ==>
              Drive(step, st, data)
              == Shift(Drive(step, step(st, data).next, data[step(st, data).consumed..]),
                       step(st, data).consumed)
  {
  }

  /**
   * The loop of `parse` after one more consuming step: the whole window
   * still drives to where the rest, after the octets consumed so far, does.
   */
  lemma DriveAdvance(step: Stepper, start: ParseState, data: string, st: ParseState, rest: string, total: nat)
    requires Bounded(step) && st.status != Done
    requires Drive(step, start, data) == Shift(Drive(step, st, rest), total)
    requires step(st, rest).Stepped? && step(st, rest).consumed > 0
    ensures Drive(step, start, data)
            == Shift(Drive(step, step(st, rest).next, rest[step(st, rest).consumed..]),
                     total + step(st, rest).consumed)
  {
    ShiftShift(Drive(step, step(st, rest).next, rest[step(st, rest).consumed..]),
               step(st, rest).consumed, total);
  }

  /** The Go triple (count, error) and the state `parse` leaves behind. */
  function DriveReply(d: DriveResult): (nat, Option<RequestError>, ParseState)
  {
    match d
    case Reached(s, n) => (n, None, s)
    case Stopped(e, s) => (0, Some(e), s)
  }

  /**
   * Where `parse` stops it stays: from the state it reached, the unconsumed
   * rest of the window drives nowhere.
   */
  lemma {:induction false} DriveSettles(step: Stepper, st: ParseState, data: string)
    requires Bounded(step) && Drive(step, st, data).Reached?
    ensures Drive(step, Drive(step, st, data).state, data[Drive(step, st, data).consumed..])
            == Reached(Drive(step, st, data).state, 0)
    decreases |data|
  {
    if st.status != Done {
      match step(st, data)
      case Stepped(next, n) =>
        if n > 0 {
          var d := Drive(step, next, data[n..]);
          DriveSettles(step, next, data[n..]);
          assert data[n..][d.consumed..] == data[n + d.consumed..];
        } else {
          assert data[0..] == data;
        }
    } else {
      assert data[0..] == data;
    }
  }

  /** Shifting twice is shifting by the sum. */
  lemma ShiftShift(d: DriveResult, m: nat, n: nat)
    ensures Shift(Shift(d, m), n) == Shift(d, m + n)
  {
  }

  /** An error found in a window is found, at the same state, in any longer one. */
  lemma {:induction false} DriveAppendStopped(step: Stepper, st: ParseState, a: string, b: string)
    requires Bounded(step) && Decided(step) && Drive(step, st, a).Stopped?
    ensures Drive(step, st, a + b) == Drive(step, st, a)
    decreases |a|
  {
    assert step(st, a + b) == step(st, a);
    match step(st, a)
    case Failed(e) =>
    case Stepped(next, n) =>
      assert (a + b)[n..] == a[n..] + b;
      DriveAppendStopped(step, next, a[n..], b);
  }

  /**
   * Parsing a longer window first does what parsing the shorter one did, and
   * then carries on from where that stopped.
   */
  lemma {:induction false} DriveAppend(step: Stepper, st: ParseState, a: string, b: string)
    requires Bounded(step) && Decided(step) && Drive(step, st, a).Reached?
    ensures Drive(step, st, a + b)
            == Shift(Drive(step, Drive(step, st, a).state, a[Drive(step, st, a).consumed..] + b),
                     Drive(step, st, a).consumed)
    decreases |a|
  {
    if st.status == Done {
      assert a[0..] + b == a + b;
    } else {
      match step(st, a)
      case Stepped(next, n) =>
        if n == 0 {
          assert a[0..] == a;
        } else {
          assert step(st, a + b) == step(st, a);
          assert (a + b)[n..] == a[n..] + b;
          DriveAppend(step, next, a[n..], b);
          var d := Drive(step, next, a[n..]);
          assert a[n..][d.consumed..] == a[n + d.consumed..];
          ShiftShift(Drive(step, d.state, a[n + d.consumed..] + b), d.consumed, n);
        }
    }
  }

  /** Every state the parser reaches from a consistent one is consistent. */
  lemma {:induction false} DriveConsistent(step: Stepper, st: ParseState, data: string)
    requires Bounded(step) && KeepsConsistent(step) && Consistent(st)
    ensures Drive(step, st, data).Reached? ==> Consistent(Drive(step, st, data).state)
    ensures Drive(step, st, data).Stopped? ==> Consistent(Drive(step, st, data).at)
    decreases |data|
  {
    if st.status != Done {
      match step(st, data)
      case Failed(_) =>
      case Stepped(next, n) =>
        if n > 0 {
          DriveConsistent(step, next, data[n..]);
        }
    }
  }

  /**
   * The verdict on a whole stream: the request once the header section is
   * done, the first error, or, when the stream ends first, the read error
   * (failsAtEnd) or the incomplete-request error (end of stream).
   */
  function Finish(d: DriveResult, failsAtEnd: bool): Result<ParseState, RequestError>
  {
    match d
    case Stopped(e, _) => Failure(e)
    case Reached(s, _) =>
      if s.status == Done then Success(s)
      else Failure(if failsAtEnd then ReadFailed else IncompleteRequest)
  }

  /** The request a whole stream of octets parses to, however it is delivered. */
  function ParseStream(data: string, failsAtEnd: bool): Result<ParseState, RequestError>
  {
    StepLaws();
    Finish(Drive(Step, Initial, data), failsAtEnd)
  }

  /**
   * A stream that parses holds a complete head: the request line is valid
   * and the header section is done.
   */
  lemma ParseStreamComplete(data: string, failsAtEnd: bool)
    requires ParseStream(data, failsAtEnd).Success?
    ensures ParseStream(data, failsAtEnd).value.status == Done
    ensures ValidRequestLine(ParseStream(data, failsAtEnd).value.requestLine)
  {
    StepLaws();
    DriveConsistent(Step, Initial, data);
  }

  /** `Request`: the request line, the header collection and the phase. */
  class Request {
    var requestLine: RequestLine
    const headers: Headers
    var status: ParseStatus

    /** The parser state the object holds. */
    function State(): ParseState
      reads this, headers
    {
      ParseState(status, requestLine, headers.fields)
    }

    /** A request before any octet has been parsed. */
    constructor ()
      ensures State() == Initial && fresh(headers)
    {
      requestLine := RequestLine("", "", "");
      headers := new Headers();
      status := Initialized;
    }

    /**
     * `parseSingle`: one step on the window; on an error nothing changes and
     * nothing counts as consumed.
     */
    method ParseSingle(data: string) returns (n: nat, err: Option<RequestError>)
      modifies this, headers
      ensures Step(old(State()), data) == if err.Some? then Failed(err.value) else Stepped(State(), n)
      ensures err.Some? ==> n == 0 && State() == old(State())
    {
      match status
      case Initialized =>
        var parsed := ParseRequestLine(data);
        match parsed {
          case BadLine(e) =>
            return 0, Some(e);
          case NoLine =>
            return 0, None;
          case GotLine(line, k) =>
            requestLine := line;
            status := ParsingHeaders;
            return k, None;
        }
      case ParsingHeaders =>
        var k, done, e := headers.Parse(data);
        if e.Some? {
          return 0, Some(InvalidHeader(e.value));
        }
        if done {
          status := Done;
        }
        return k, None;
      case Done =>
        return 0, Some(ReadInDoneState);
    }

    /**
     * `parse`: steps over the window until the header section is done or a
     * step consumes nothing; the count is the octets consumed, and an error
     * discards it.
     */
    method Parse(data: string) returns (n: nat, err: Option<RequestError>)
      modifies this, headers
      ensures Bounded(Step) && (n, err, State()) == DriveReply(Drive(Step, old(State()), data))
    {
      StepLaws();
      ghost var start := State();
      // rest is the unparsed window data[total..]
      var rest := data;
      var total := 0;
      assert Shift(Drive(Step, start, data), 0) == Drive(Step, start, data);
      while status != Done
        invariant total + |rest| == |data|
        invariant Drive(Step, start, data) == Shift(Drive(Step, State(), rest), total)
        decreases |rest|
      {
        ghost var before := State();
        var k, e := ParseSingle(rest);
        if e.Some? {
          DriveOnce(Step, before, rest);
          return 0, e;
        }
        if k == 0 {
          DriveOnce(Step, before, rest);
          return total, None;
        }
        DriveAdvance(Step, start, data, before, rest, total);
        rest := rest[k..];
        total := total + k;
      }
      return total, None;
    }
  }

  /**
   * The read loop's view of a stream: parsing the buffered octets followed
   * by everything the source has still to deliver ends as the whole stream
   * does.
   */
  ghost predicate Feeds(st: ParseState, buffered: string, chunks: seq<string>, failsAtEnd: bool, stream: string)
  {
    Bounded(Step)
    && Finish(Drive(Step, st, buffered + Flatten(chunks)), failsAtEnd) == ParseStream(stream, failsAtEnd)
  }

  /** The buffered octets are exactly those the parser could not use yet. */
  ghost predicate Settled(st: ParseState, buffered: string)
  {
    Bounded(Step) && Drive(Step, st, buffered) == Reached(st, 0)
  }

  /** Before anything is read, the whole stream is still to come. */
  lemma FeedsStart(chunks: seq<string>, failsAtEnd: bool)
    ensures Feeds(Initial, [], chunks, failsAtEnd, Flatten(chunks))
    ensures Settled(Initial, [])
  {
    StepLaws();
    StepPhases(Initial, []);
    assert [] + Flatten(chunks) == Flatten(chunks);
  }

  /** Moving octets from the source into the buffer changes nothing. */
  lemma FeedsRead(st: ParseState, kept: string, piece: string, chunks: seq<string>, after: seq<string>,
                  failsAtEnd: bool, stream: string)
    requires Feeds(st, kept, chunks, failsAtEnd, stream)
    requires Flatten(chunks) == piece + Flatten(after)
    ensures Feeds(st, kept + piece, after, failsAtEnd, stream)
    ensures (kept + piece)[..|kept|] == kept && (kept + piece)[|kept|..] == piece
  {
    assert kept + piece + Flatten(after) == kept + Flatten(chunks);
  }

  /** When the source is used up before the header section ends, the stream fails. */
  lemma FeedsEnd(st: ParseState, buffered: string, failsAtEnd: bool, stream: string)
    requires Feeds(st, buffered, [], failsAtEnd, stream) && Settled(st, buffered) && st.status != Done
    ensures ParseStream(stream, failsAtEnd) == Failure(if failsAtEnd then ReadFailed else IncompleteRequest)
  {
    assert buffered + Flatten([]) == buffered;
  }

  /** A parser that is done holds what the whole stream parses to. */
  lemma FeedsDone(st: ParseState, buffered: string, chunks: seq<string>, failsAtEnd: bool, stream: string)
    requires Feeds(st, buffered, chunks, failsAtEnd, stream) && st.status == Done
    ensures ParseStream(stream, failsAtEnd) == Success(st)
  {
  }

  /**
   * Parsing the buffer: an error is the stream's error; otherwise the
   * unconsumed octets are still to be parsed, from the state reached, and
   * the parser can do nothing more with them alone.
   */
  lemma FeedsParse(st: ParseState, window: string, chunks: seq<string>, failsAtEnd: bool, stream: string)
    requires Feeds(st, window, chunks, failsAtEnd, stream)
    ensures Bounded(Step)
    ensures Drive(Step, st, window).Stopped? ==>
              ParseStream(stream, failsAtEnd) == Failure(Drive(Step, st, window).error)
    ensures Drive(Step, st, window).Reached? ==>
              Feeds(Drive(Step, st, window).state, window[Drive(Step, st, window).consumed..], chunks, failsAtEnd, stream)
              && Settled(Drive(Step, st, window).state, window[Drive(Step, st, window).consumed..])
  {
    StepLaws();
    var rest := Flatten(chunks);
    var d := Drive(Step, st, window);
    if d.Stopped? {
      DriveAppendStopped(Step, st, window, rest);
    } else {
      DriveAppend(Step, st, window, rest);
      DriveSettles(Step, st, window);
      FinishShift(Drive(Step, d.state, window[d.consumed..] + rest), d.consumed, failsAtEnd);
    }
  }

  /** What one call of `parse` on the buffer means for the stream. */
  lemma FeedsParsed(st: ParseState, window: string, chunks: seq<string>, failsAtEnd: bool, stream: string,
                    n: nat, err: Option<RequestError>, next: ParseState)
    requires Feeds(st, window, chunks, failsAtEnd, stream)
    requires Bounded(Step) && (n, err, next) == DriveReply(Drive(Step, st, window))
    ensures err.Some? ==> ParseStream(stream, failsAtEnd) == Failure(err.value)
    ensures err.None? ==> n <= |window| && Feeds(next, window[n..], chunks, failsAtEnd, stream)
                          && Settled(next, window[n..])
  {
    FeedsParse(st, window, chunks, failsAtEnd, stream);
  }

  /** A driver result counts the same however many octets were consumed before it. */
  lemma FinishShift(d: DriveResult, n: nat, failsAtEnd: bool)
    ensures Finish(Shift(d, n), failsAtEnd) == Finish(d, failsAtEnd)
  {
  }

  /** `make` and `copy`: a buffer of twice the size that starts with the old one. */
  method Grow(buf: array<char>) returns (bigger: array<char>)
    ensures fresh(bigger) && bigger.Length == 2 * buf.Length
    ensures forall i :: 0 <= i < buf.Length ==> bigger[i] == buf[i]
  {
    bigger := new char[2 * buf.Length];
    forall i | 0 <= i < buf.Length {
      bigger[i] := buf[i];
    }
  }

  /**
   * `if readToIndex >= len(buf)`: a buffer with room is kept; a full one is
   * replaced by one twice as long that starts with the same octets.
   */
  method MakeRoom(buf: array<char>, readToIndex: nat) returns (next: array<char>)
    requires 0 < buf.Length && readToIndex <= buf.Length
    ensures readToIndex < buf.Length ==> next == buf
    ensures readToIndex == buf.Length ==> fresh(next) && next.Length == 2 * buf.Length
    ensures readToIndex < next.Length
    ensures forall i :: 0 <= i < readToIndex ==> next[i] == buf[i]
  {
    next := buf;
    if readToIndex >= buf.Length {
      next := Grow(buf);
    }
  }

  /**
   * The read half of the loop of `RequestFromReader`: a full buffer is
   * first replaced by one of twice the size that starts with the same
   * octets, then the reader fills the room after the buffered ones.  A read
   * error ends the request with the stream's own verdict; otherwise the
   * octets read move from the source to the buffer.
   */
  method Refill(reader: Reader, buf: array<char>, readToIndex: nat, ghost buffered: string,
                ghost st: ParseState, ghost stream: string)
    returns (next: array<char>, nextIndex: nat, ghost nextBuffered: string, stop: Option<RequestError>)
    requires 0 < buf.Length && |buffered| == readToIndex <= buf.Length
    requires forall i :: 0 <= i < readToIndex ==> buf[i] == buffered[i]
    requires st.status != Done
    requires Feeds(st, buffered, reader.chunks, reader.failsAtEnd, stream) && Settled(st, buffered)
    modifies reader, buf
    ensures readToIndex < buf.Length ==> next == buf
    ensures readToIndex == buf.Length ==> fresh(next) && next.Length == 2 * buf.Length
    ensures stop.Some? ==> ParseStream(stream, reader.failsAtEnd) == Failure(stop.value)
    ensures stop.None? ==>
              (next == buf || fresh(next)) && 0 < next.Length
              && |nextBuffered| == nextIndex <= next.Length
              && (forall i :: 0 <= i < nextIndex ==> next[i] == nextBuffered[i])
              && Feeds(st, nextBuffered, reader.chunks, reader.failsAtEnd, stream)
              && (|Flatten(reader.chunks)| < |Flatten(old(reader.chunks))|
                  || (|Flatten(reader.chunks)| == |Flatten(old(reader.chunks))| && |reader.chunks| < |old(reader.chunks)|))
    ensures stop.None? ==>
              readToIndex <= nextIndex && nextBuffered[..readToIndex] == buffered
              && Flatten(old(reader.chunks)) == nextBuffered[readToIndex..] + Flatten(reader.chunks)
  {
    ghost var rest := reader.chunks;
    next := MakeRoom(buf, readToIndex);
    var n, readErr := reader.Read(next, readToIndex);
    if readErr.Some? {
      FeedsEnd(st, buffered, reader.failsAtEnd, stream);
      if readErr.value == EndOfStream {
        return next, 0, [], Some(IncompleteRequest);
      }
      return next, 0, [], Some(ReadFailed);
    }
    ghost var piece := rest[0][..n];
    FeedsRead(st, buffered, piece, rest, reader.chunks, reader.failsAtEnd, stream);
    assert n == 0 ==> |rest[0]| == 0 && reader.chunks == rest[1..];
    nextBuffered := buffered + piece;
    nextIndex := readToIndex + n;
    stop := None;
  }

  /** `copy(buf, buf[from:to])`: moves buf[from..to] to the front. */
  method Compact(buf: array<char>, from: nat, to: nat)
    requires from <= to <= buf.Length
    modifies buf
    ensures forall i :: 0 <= i < to - from ==> buf[i] == old(buf[from + i])
  {
    forall i | 0 <= i < to - from {
      buf[i] := buf[from + i];
    }
  }

  /**
   * The parse half of the loop: `parse` on the buffered octets, then, when
   * it consumed some, the unconsumed ones moved to the front of the buffer
   * (`copy(buf, buf[n:readToIndex])`).
   */
  method Consume(request: Request, buf: array<char>, readToIndex: nat, ghost buffered: string,
                 ghost chunks: seq<string>, ghost failsAtEnd: bool, ghost stream: string)
    returns (n: nat, nextIndex: nat, ghost nextBuffered: string, stop: Option<RequestError>)
    requires |buffered| == readToIndex <= buf.Length
    requires forall i :: 0 <= i < readToIndex ==> buf[i] == buffered[i]
    requires Feeds(request.State(), buffered, chunks, failsAtEnd, stream)
    modifies request, request.headers, buf
    ensures stop.Some? ==> ParseStream(stream, failsAtEnd) == Failure(stop.value)
    ensures stop.None? ==>
              |nextBuffered| == nextIndex <= buf.Length
              && (forall i :: 0 <= i < nextIndex ==> buf[i] == nextBuffered[i])
              && Feeds(request.State(), nextBuffered, chunks, failsAtEnd, stream)
              && Settled(request.State(), nextBuffered)
    ensures stop.None? ==> n <= |buffered| && nextBuffered == buffered[n..] && nextIndex == readToIndex - n
  {
    ghost var st := request.State();
    assert buf[..readToIndex] == buffered;
    var consumed, parseErr := request.Parse(buf[..readToIndex]);
    FeedsParsed(st, buffered, chunks, failsAtEnd, stream, consumed, parseErr, request.State());
    if parseErr.Some? {
      return 0, 0, [], parseErr;
    }
    n := consumed;
    nextIndex := readToIndex;
    if consumed != 0 {
      nextIndex := readToIndex - consumed;
      Compact(buf, consumed, readToIndex);
    }
    nextBuffered := buffered[consumed..];
    assert forall i :: 0 <= i < nextIndex ==> buf[i] == buffered[consumed + i];
    stop := None;
  }

  /**
   * `RequestFromReader`: reads into a buffer that starts at `BufferSize`
   * octets and doubles whenever it is full, parses the buffered window after
   * every read, and moves the unconsumed octets to the front.  Whatever the
   * chunking of the stream, the result is what the whole stream parses to.
   */
  method RequestFromReader(reader: Reader) returns (req: Request?, err: Option<RequestError>)
    modifies reader
    ensures ParseStream(Flatten(old(reader.chunks)), reader.failsAtEnd).Success? ==>
              err == None && req != null
              && req.State() == ParseStream(Flatten(old(reader.chunks)), reader.failsAtEnd).value
    ensures ParseStream(Flatten(old(reader.chunks)), reader.failsAtEnd).Failure? ==>
              req == null && err == Some(ParseStream(Flatten(old(reader.chunks)), reader.failsAtEnd).error)
  {
    ghost var stream := Flatten(reader.chunks);
    var buf := new char[BufferSize];
    var readToIndex := 0;
    var request := new Request();
    // the octets buf[..readToIndex] holds, as a value
    ghost var buffered: string := [];
    FeedsStart(reader.chunks, reader.failsAtEnd);
    while request.status != Done
      invariant fresh(buf) && 0 < buf.Length
      invariant |buffered| == readToIndex <= buf.Length
      invariant forall i :: 0 <= i < readToIndex ==> buf[i] == buffered[i]
      invariant Feeds(request.State(), buffered, reader.chunks, reader.failsAtEnd, stream)
      invariant Settled(request.State(), buffered)
      decreases |Flatten(reader.chunks)|, |reader.chunks|
    {
      var stop;
      buf, readToIndex, buffered, stop := Refill(reader, buf, readToIndex, buffered, request.State(), stream);
      if stop.Some? {
        return null, stop;
      }
      var n;
      n, readToIndex, buffered, stop := Consume(request, buf, readToIndex, buffered, reader.chunks, reader.failsAtEnd, stream);
      if stop.Some? {
        return null, stop;
      }
    }
    FeedsDone(request.State(), buffered, reader.chunks, reader.failsAtEnd, stream);
    return request, None;
  }
}
