/**
 * The stateless response helpers: the status line (section 4 of RFC 9112),
 * the header section written from a map, and the default header set.  The
 * phase-guarded writer in module ResponseWriter is built on the same
 * formats.
 */
module ResponseFormat {
  import opened Wrappers
  import opened Octets
  import opened HeaderCollection
  import opened Streams

  /** `StatusCode`: any Go int; three of them have names. */
  const OK: int := 200
  const BadRequest: int := 400
  const InternalServerError: int := 500

  /** Why a response write returns an error. */
  datatype ResponseError =
    | WriteFailed          // the sink refused a write
    | StatusLineNotAllowed // `WriteStatusLine` outside its phase
    | HeadersNotAllowed    // `WriteHeaders` outside its phase
    | BodyNotAllowed       // a body write outside the body phase
    | TrailersNotAllowed   // `WriteTrailers` outside its phase

  /**
   * The reason phrase of the switch on the status code: a phrase for the
   * three named codes and the empty string for every other code.
   */
  function ReasonPhrase(code: int): (r: string)
    ensures r != "" <==> code == OK || code == BadRequest || code == InternalServerError
    ensures '\r' !in r && '\n' !in r
  {
    if code == OK then "OK"
    else if code == BadRequest then "Bad Request"
    else if code == InternalServerError then "Internal Server Error"
    else ""
  }

  /** `fmt.Sprintf("HTTP/1.1 %d %s\r\n", code, reason)`. */
  function StatusLine(code: int): string
  {
    "HTTP/1.1 " + Decimal(code) + " " + ReasonPhrase(code) + CRLF
  }

  /** The decimal text of a code holds no space and no CR. */
  lemma DecimalPlain(code: int)
    ensures ' ' !in Decimal(code) && '\r' !in Decimal(code)
  {
    DecimalRoundTrip(code);
    var d := Decimal(code);
    assert forall i :: 0 <= i < |d| ==> d[i] == '-' || IsDigit(d[i]) by {
      forall i | 0 <= i < |d|
        ensures d[i] == '-' || IsDigit(d[i])
      {
        if i == 0 && code >= 0 {
          DecimalDigits(code);
        }
      }
    }
  }

  /** Text without a CR holds no CRLF and does not end in a CR. */
  lemma NoCrNoCrlf(text: string)
    requires '\r' !in text
    ensures NoCrlf(text) && (|text| == 0 || text[|text| - 1] != '\r')
  {
    forall j | 0 <= j < |text|
      ensures !CrlfAt(text, j)
    {
      assert text[j] in text;
    }
    if |text| > 0 {
      assert text[|text| - 1] in text;
    }
  }

  /** A status line is one line: its only CRLF is the one that ends it. */
  lemma StatusLineIsOneLine(code: int)
    ensures FindCrlf(StatusLine(code)) == |StatusLine(code)| - 2
  {
    var text := "HTTP/1.1 " + Decimal(code) + " " + ReasonPhrase(code);
    DecimalPlain(code);
    assert StatusLine(code) == text + CRLF + [];
    assert '\r' !in "HTTP/1.1 " && '\r' !in " ";
    NoCrNoCrlf(text);
    FindCrlfOfLine(text, []);
  }

  /** The status line is the version and a space, then the rest. */
  lemma StatusLineTail(code: int)
    ensures StatusLine(code)[..9] == "HTTP/1.1 "
    ensures StatusLine(code)[9..] == Decimal(code) + [' '] + (ReasonPhrase(code) + CRLF)
  {
    var tail := Decimal(code) + [' '] + (ReasonPhrase(code) + CRLF);
    assert StatusLine(code) == "HTTP/1.1 " + tail;
  }

  /**
   * A status line reads back: after the version and a space comes the
   * code's text, which runs to the next space and reads back as the code,
   * and then the reason phrase and the CRLF.
   */
  lemma StatusLineReadsBack(code: int)
    ensures StatusLine(code)[..9] == "HTTP/1.1 "
    ensures SplitFirst(StatusLine(code)[9..], ' ') == [Decimal(code), ReasonPhrase(code) + CRLF]
    ensures DecimalValue(SplitFirst(StatusLine(code)[9..], ' ')[0]) == code
  {
    var d := Decimal(code);
    StatusLineTail(code);
    DecimalPlain(code);
    DecimalRoundTrip(code);
    Locate(d, ' ', ReasonPhrase(code) + CRLF);
  }

  /** `fmt.Sprintf("%s: %s\r\n", key, value)`: one field line. */
  function FieldLine(name: string, value: string): string
  {
    name + ": " + value + CRLF
  }

  /** No key occurs twice. */
  predicate Distinct(order: seq<string>)
  {
    forall i, j :: 0 <= i < j < |order| ==> order[i] != order[j]
  }

  /** A key not yet visited can be visited next. */
  lemma DistinctSnoc(order: seq<string>, key: string)
    requires Distinct(order) && key !in order
    ensures Distinct(order + [key])
  {
  }

  /** An order in which a map's range loop may visit its keys: each key once. */
  predicate IsEnumeration(order: seq<string>, m: map<string, string>)
  {
    Distinct(order) && (forall k :: k in order ==> k in m) && (forall k :: k in m ==> k in order)
  }

  /** The field lines of the keys of order, in that order. */
  function FieldLinesText(m: map<string, string>, order: seq<string>): string
    requires forall k :: k in order ==> k in m
  {
    if |order| == 0 then "" else FieldLine(order[0], m[order[0]]) + FieldLinesText(m, order[1..])
  }

  /** Writing one more field line extends the text at its end. */
  lemma {:induction false} FieldLinesSnoc(m: map<string, string>, order: seq<string>, key: string)
    requires forall k :: k in order ==> k in m
    requires key in m
    ensures FieldLinesText(m, order + [key]) == FieldLinesText(m, order) + FieldLine(key, m[key])
    decreases |order|
  {
    if |order| > 0 {
      assert (order + [key])[1..] == order[1..] + [key];
      FieldLinesSnoc(m, order[1..], key);
    } else {
      assert order + [key] == [key];
    }
  }

  /** A header section: its field lines, then the empty line. */
  function HeaderSection(m: map<string, string>, order: seq<string>): string
    requires forall k :: k in order ==> k in m
  {
    FieldLinesText(m, order) + CRLF
  }

  /**
   * The free `WriteStatusLine`: the status line in a single write; a failed
   * write writes nothing and is reported.
   */
  method WriteStatusLine(sink: Sink, code: int) returns (err: Option<ResponseError>)
    modifies sink
    ensures err == None || err == Some(WriteFailed)
    ensures sink.written == old(sink.written) + (if err == None then StatusLine(code) else [])
  {
    var status := "HTTP/1.1 " + Decimal(code) + " " + ReasonPhrase(code) + CRLF;
    var failed := sink.Write(status);
    if failed {
      return Some(WriteFailed);
    }
    return None;
  }

  /**
   * The text the range loop over a map builds: one field line per key, in
   * the order the loop visits them, which it returns.
   */
  method FieldLinesOf(headers: map<string, string>) returns (data: string, ghost order: seq<string>)
    ensures IsEnumeration(order, headers)
    ensures data == FieldLinesText(headers, order)
  {
    data := "";
    order := [];
    var remaining := headers.Keys;
    while remaining != {}
      invariant remaining <= headers.Keys
      invariant forall k :: k in order ==> k in headers && k !in remaining
      invariant forall k :: k in headers && k !in remaining ==> k in order
      invariant Distinct(order)
      invariant data == FieldLinesText(headers, order)
      decreases |remaining|
    {
      var key :| key in remaining;
      FieldLinesSnoc(headers, order, key);
      data := data + FieldLine(key, headers[key]);
      order := order + [key];
      remaining := remaining - {key};
    }
  }

  /**
   * The free `WriteHeaders`: builds the whole header section, in the order
   * the map happens to be visited, and writes it at once.
   */
  method WriteHeaders(sink: Sink, headers: map<string, string>) returns (ghost order: seq<string>, err: Option<ResponseError>)
    modifies sink
    ensures IsEnumeration(order, headers)
    ensures err == None || err == Some(WriteFailed)
    ensures sink.written == old(sink.written) + (if err == None then HeaderSection(headers, order) else [])
  {
    var data;
    data, order := FieldLinesOf(headers);
    data := data + CRLF;
    var failed := sink.Write(data);
    if failed {
      return order, Some(WriteFailed);
    }
    return order, None;
  }

  /** The map `GetDefaultHeaders(n)` holds. */
  function DefaultFields(contentLen: int): map<string, string>
  {
    map["content-length" := Decimal(contentLen), "connection" := "close", "content-type" := "text/plain"]
  }

  /**
   * `GetDefaultHeaders`: a fresh collection holding exactly the three
   * default fields under their lower-cased names.
   */
  method GetDefaultHeaders(contentLen: int) returns (h: Headers)
    ensures fresh(h)
    ensures h.fields == DefaultFields(contentLen)
  {
    h := new Headers();
    ToLowerAt("Content-Length");
    ToLowerAt("Connection");
    ToLowerAt("Content-Type");
    assert ToLower("Content-Length") == "content-length";
    assert ToLower("Connection") == "connection";
    assert ToLower("Content-Type") == "content-type";
    h.Set("Content-Length", Decimal(contentLen));
    h.Set("Connection", "close");
    h.Set("Content-Type", "text/plain");
  }
}
