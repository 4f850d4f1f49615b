/**
 * The phase-guarded response writer: the status line, then the header
 * section, then a body written plainly or in chunks (section 7.1 of RFC
 * 9112), then trailers.  A method called outside its phase writes nothing,
 * keeps the phase and returns an error; a method called in its phase moves
 * on to its next phase even when the sink refuses a write.
 */
module ResponseWriter {
  import opened Wrappers
  import opened Octets
  import opened Streams
  import opened ResponseFormat

  /** `WriterState`: the phase of the response being written. */
  datatype WriterState = WritingStatusLine | WritingHeaders | WritingBody | WritingTrailers

  /**
   * One chunk of a chunked body: the size of the data in lower-case hex,
   * CRLF, the data, CRLF.
   */
  function Chunk(p: string): string
  {
    LowerHex(|p|) + CRLF + p + CRLF
  }

  /** The last chunk, of size zero, that ends a chunked body. */
  const LastChunk: string := "0" + CRLF

  /**
   * A chunk reads back: the text before its first CRLF is the hex size,
   * which reads back as the length of the data, and the data follows that
   * CRLF and is followed by the closing CRLF.
   */
  lemma ChunkReadsBack(p: string)
    ensures FindCrlf(Chunk(p)) == |LowerHex(|p|)|
    ensures DigitsValue(Chunk(p)[..FindCrlf(Chunk(p))], 16) == |p|
    ensures Chunk(p)[FindCrlf(Chunk(p)) + 2..|Chunk(p)| - 2] == p
    ensures Chunk(p)[|Chunk(p)| - 2..] == CRLF
  {
    var size := LowerHex(|p|);
    var rest := p + CRLF;
    assert Chunk(p) == size + CRLF + rest;
    assert '\r' !in size by {
      forall i | 0 <= i < |size|
        ensures size[i] != '\r'
      {
        assert IsLowerHexDigit(size[i]);
      }
    }
    NoCrNoCrlf(size);
    FindCrlfOfLine(size, rest);
    assert Chunk(p)[..|size|] == size;
    HexRoundTrip(|p|);
  }

  /** A body of "abc" in one chunk, then the last chunk. */
  lemma ChunkedExample()
    ensures Chunk("abc") + LastChunk == "3\r\nabc\r\n0\r\n"
  {
    assert LowerHex(3) == "3";
  }

  /**
   * The range loop of `WriteHeaders` and `WriteTrailers`: one write per
   * field line, in the order the map happens to be visited.  It stops at
   * the first refused write; what was written by then is the field lines of
   * the keys visited so far.
   */
  method WriteFieldLines(sink: Sink, fields: map<string, string>) returns (ghost order: seq<string>, failed: bool)
    modifies sink
    ensures Distinct(order) && forall k :: k in order ==> k in fields
    ensures !failed ==> IsEnumeration(order, fields)
    ensures sink.written == old(sink.written) + FieldLinesText(fields, order)
  {
    order := [];
    var remaining := fields.Keys;
    while remaining != {}
      invariant remaining <= fields.Keys
      invariant forall k :: k in order ==> k in fields && k !in remaining
      invariant forall k :: k in fields && k !in remaining ==> k in order
      invariant Distinct(order)
      invariant sink.written == old(sink.written) + FieldLinesText(fields, order)
      decreases |remaining|
    {
      var key :| key in remaining;
      failed := sink.Write(FieldLine(key, fields[key]));
      if failed {
        return;
      }
      DistinctSnoc(order, key);
      FieldLinesSnoc(fields, order, key);
      assert old(sink.written) + FieldLinesText(fields, order) + FieldLine(key, fields[key])
             == old(sink.written) + (FieldLinesText(fields, order) + FieldLine(key, fields[key]));
      order := order + [key];
      remaining := remaining - {key};
    }
    failed := false;
  }

  /**
   * The field lines, then the empty line that ends the section; a refused
   * write stops it.
   */
  method WriteFieldSection(sink: Sink, fields: map<string, string>) returns (ghost order: seq<string>, err: Option<ResponseError>)
    modifies sink
    ensures Distinct(order) && forall k :: k in order ==> k in fields
    ensures err == None || err == Some(WriteFailed)
    ensures err == None ==>
              IsEnumeration(order, fields) && sink.written == old(sink.written) + HeaderSection(fields, order)
    ensures err != None ==> sink.written == old(sink.written) + FieldLinesText(fields, order)
  {
    var failed;
    order, failed := WriteFieldLines(sink, fields);
    if failed {
      return order, Some(WriteFailed);
    }
    failed := sink.Write(CRLF);
    if failed {
      return order, Some(WriteFailed);
    }
    return order, None;
  }

  /** `Writer`: the phase and the sink the response goes to. */
  class Writer {
    var state: WriterState
    const sink: Sink

    /** `NewWriter`: a writer at the start of a response. */
    constructor (sink: Sink)
      ensures state == WritingStatusLine && this.sink == sink
    {
      state := WritingStatusLine;
      this.sink := sink;
    }

    /**
     * `WriteStatusLine`: only at the start; writes the status line and moves
     * to the header phase, also when the write fails.
     */
    method WriteStatusLine(code: int) returns (err: Option<ResponseError>)
      modifies this, sink
      ensures old(state) != WritingStatusLine ==>
                err == Some(StatusLineNotAllowed) && state == old(state) && sink.written == old(sink.written)
      ensures old(state) == WritingStatusLine ==>
                state == WritingHeaders && (err == None || err == Some(WriteFailed))
                && sink.written == old(sink.written) + (if err == None then StatusLine(code) else [])
    {
      if state != WritingStatusLine {
        return Some(StatusLineNotAllowed);
      }
      var status := "HTTP/1.1 " + Decimal(code) + " " + ReasonPhrase(code) + CRLF;
      var failed := sink.Write(status);
      state := WritingHeaders;
      if failed {
        return Some(WriteFailed);
      }
      return None;
    }

    /**
     * `WriteHeaders`: only after the status line; writes the header section
     * and moves to the body phase, also when a write fails.
     */
    method WriteHeaders(fields: map<string, string>) returns (ghost order: seq<string>, err: Option<ResponseError>)
      modifies this, sink
      ensures old(state) != WritingHeaders ==>
                err == Some(HeadersNotAllowed) && state == old(state) && sink.written == old(sink.written)
      ensures old(state) == WritingHeaders ==>
                state == WritingBody && (err == None || err == Some(WriteFailed))
                && Distinct(order) && (forall k :: k in order ==> k in fields)
                && (err == None ==> IsEnumeration(order, fields)
                                    && sink.written == old(sink.written) + HeaderSection(fields, order))
                && (err != None ==> sink.written == old(sink.written) + FieldLinesText(fields, order))
    {
      if state != WritingHeaders {
        return [], Some(HeadersNotAllowed);
      }
      order, err := WriteFieldSection(sink, fields);
      state := WritingBody;
    }

    /** `WriteBody`: only in the body phase, which it keeps; writes p as it is. */
    method WriteBody(p: string) returns (n: nat, err: Option<ResponseError>)
      modifies sink
      ensures old(state) != WritingBody ==>
                n == 0 && err == Some(BodyNotAllowed) && sink.written == old(sink.written)
      ensures old(state) == WritingBody ==>
                (err == None || err == Some(WriteFailed)) && (n == if err == None then |p| else 0)
                && sink.written == old(sink.written) + (if err == None then p else [])
    {
      if state != WritingBody {
        return 0, Some(BodyNotAllowed);
      }
      var failed := sink.Write(p);
      if failed {
        return 0, Some(WriteFailed);
      }
      return |p|, None;
    }

    /**
     * `WriteChunkedBody`: only in the body phase, which it keeps; writes p as
     * one chunk in three writes and counts the octets written.  A refused
     * write stops it, having written the first n octets of the chunk.
     */
    method WriteChunkedBody(p: string) returns (n: nat, err: Option<ResponseError>)
      modifies sink
      ensures old(state) != WritingBody ==>
                n == 0 && err == Some(BodyNotAllowed) && sink.written == old(sink.written)
      ensures old(state) == WritingBody ==>
                (err == None || err == Some(WriteFailed))
                && n <= |Chunk(p)| && (err == None <==> n == |Chunk(p)|)
                && sink.written == old(sink.written) + Chunk(p)[..n]
    ensures old(state) == WritingBody && err.Some? ==>
              n == 0 || n == |LowerHex(|p|)| + 2 || n == |LowerHex(|p|)| + 2 + |p|
    {
      if state != WritingBody {
        return 0, Some(BodyNotAllowed);
      }
      var total := 0;
      var num := LowerHex(|p|) + CRLF;
      assert Chunk(p) == num + p + CRLF;
      var failed := sink.Write(num);
      if failed {
        return 0, Some(WriteFailed);
      }
      total := total + |num|;
      assert Chunk(p)[..total] == num;
      failed := sink.Write(p);
      if failed {
        return total, Some(WriteFailed);
      }
      total := total + |p|;
      assert Chunk(p)[..total] == num + p;
      failed := sink.Write(CRLF);
      if failed {
        return total, Some(WriteFailed);
      }
      total := total + 2;
      assert Chunk(p)[..total] == Chunk(p);
      return total, None;
    }

    /**
     * `WriteChunkedBodyDone`: only in the body phase; writes the last chunk
     * and moves to the trailer phase, also when the write fails.  The count
     * it returns is always 0.
     */
    method WriteChunkedBodyDone() returns (n: nat, err: Option<ResponseError>)
      modifies this, sink
      ensures n == 0
      ensures old(state) != WritingBody ==>
                err == Some(BodyNotAllowed) && state == old(state) && sink.written == old(sink.written)
      ensures old(state) == WritingBody ==>
                state == WritingTrailers && (err == None || err == Some(WriteFailed))
                && sink.written == old(sink.written) + (if err == None then LastChunk else [])
    {
      if state != WritingBody {
        return 0, Some(BodyNotAllowed);
      }
      var failed := sink.Write(LastChunk);
      state := WritingTrailers;
      if failed {
        return 0, Some(WriteFailed);
      }
      return 0, None;
    }

    /**
     * `WriteTrailers`: only after the last chunk; writes the trailer fields
     * and the empty line, and moves back to the body phase, also when a
     * write fails.
     */
    method WriteTrailers(fields: map<string, string>) returns (ghost order: seq<string>, err: Option<ResponseError>)
      modifies this, sink
      ensures old(state) != WritingTrailers ==>
                err == Some(TrailersNotAllowed) && state == old(state) && sink.written == old(sink.written)
      ensures old(state) == WritingTrailers ==>
                state == WritingBody && (err == None || err == Some(WriteFailed))
                && Distinct(order) && (forall k :: k in order ==> k in fields)
                && (err == None ==> IsEnumeration(order, fields)
                                    && sink.written == old(sink.written) + HeaderSection(fields, order))
                && (err != None ==> sink.written == old(sink.written) + FieldLinesText(fields, order))
    {
      if state != WritingTrailers {
        return [], Some(TrailersNotAllowed);
      }
      order, err := WriteFieldSection(sink, fields);
      state := WritingBody;
    }
  }
}
