/**
 * A whole request head written out and parsed back: the request line, the
 * header section and the phase machine of `parse` together.
 */
module RequestRoundTrip {
  import opened Wrappers
  import opened Octets
  import opened FieldLines
  import opened HeaderCollection
  import opened RequestLines
  import opened RequestParser
  import opened ResponseFormat
  import opened RoundTrip

  /** A header step on a window that starts with the empty line: Done, after its two octets. */
  lemma StepSectionEnd(r: RequestLine, acc: map<string, string>, data: string)
    requires CrlfAt(data, 0)
    ensures Step(ParseState(ParsingHeaders, r, acc), data) == Stepped(ParseState(Done, r, acc), 2)
  {
    ScanFieldLineVerdict(data);
  }

  /** A header step on an accepted field line: the field `Set`, after the line and its CRLF. */
  lemma StepFieldLine(r: RequestLine, acc: map<string, string>, data: string)
    requires ScanFieldLine(data).Field?
    ensures Step(ParseState(ParsingHeaders, r, acc), data)
            == Stepped(ParseState(ParsingHeaders, r,
                                  SetField(acc, ScanFieldLine(data).name, ScanFieldLine(data).value)),
                       ScanFieldLine(data).consumed)
  {
  }

  /** A section that ends well after an accepted line ends well on what the line leaves. */
  lemma SectionFromParses(m: map<string, string>, data: string, name: string, value: string, consumed: nat,
                          m': map<string, string>, n: nat)
    requires 0 < consumed <= |data|
    requires SectionFrom(m, data, Field(name, value, consumed)) == Some((m', n))
    ensures consumed <= n && Parses(SetField(m, name, value), data[consumed..], m', n - consumed)
  {
  }

  /** A section that ends well on a window starting with the empty line ends right there. */
  lemma DriveSectionEnd(r: RequestLine, acc: map<string, string>, data: string,
                        m': map<string, string>, n: nat)
    requires Bounded(Step)
    requires CrlfAt(data, 0) && Parses(acc, data, m', n)
    ensures Drive(Step, ParseState(ParsingHeaders, r, acc), data) == Reached(ParseState(Done, r, m'), n)
  {
    ScanSectionUnfold(acc, data);
    StepSectionEnd(r, acc, data);
    DriveOnce(Step, ParseState(ParsingHeaders, r, acc), data);
    assert Drive(Step, ParseState(Done, r, acc), data[2..]) == Reached(ParseState(Done, r, acc), 0);
  }

  /**
   * A section that ends well on a window not starting with the empty line
   * starts with an accepted field line, and ends well on what it leaves.
   */
  lemma SectionFieldStep(acc: map<string, string>, data: string, m': map<string, string>, n: nat)
    requires !CrlfAt(data, 0) && Parses(acc, data, m', n)
    ensures ScanFieldLine(data).Field? && ScanFieldLine(data).consumed <= n
    ensures Parses(SetField(acc, ScanFieldLine(data).name, ScanFieldLine(data).value),
                   data[ScanFieldLine(data).consumed..], m', n - ScanFieldLine(data).consumed)
  {
    ScanSectionUnfold(acc, data);
    SectionStepUnfold(acc, data);
    var scan := ScanFieldLine(data);
    SectionLineUnfold(acc, data, scan);
    ScanFieldLineVerdict(data);
    SectionFromParses(acc, data, scan.name, scan.value, scan.consumed, m', n);
  }

  /**
   * Once the request line is in, `parse` on a header section that ends
   * well adds its fields one `Set` at a time and stops in Done right after
   * the empty line, with the request line kept.
   */
  lemma {:induction false} DriveSection(r: RequestLine, acc: map<string, string>, data: string,
                                        m': map<string, string>, n: nat)
    requires Bounded(Step)
    requires Parses(acc, data, m', n)
    ensures Drive(Step, ParseState(ParsingHeaders, r, acc), data) == Reached(ParseState(Done, r, m'), n)
    decreases |data|
  {
    if CrlfAt(data, 0) {
      DriveSectionEnd(r, acc, data, m', n);
    } else {
      SectionFieldStep(acc, data, m', n);
      var scan := ScanFieldLine(data);
      StepFieldLine(r, acc, data);
      DriveOnce(Step, ParseState(ParsingHeaders, r, acc), data);
      DriveSection(r, SetField(acc, scan.name, scan.value), data[scan.consumed..], m', n - scan.consumed);
    }
  }

  /**
   * A valid request line and its CRLF, then a header section that ends
   * well: `parse` takes the request line, then the section, and stops in
   * Done after exactly those octets, holding that request line and the
   * collection the section builds.
   */
  lemma DriveRequest(r: RequestLine, section: string, m': map<string, string>, n: nat)
    requires Bounded(Step)
    requires ValidRequestLine(r) && '\r' !in r.requestTarget
    requires Parses(map[], section, m', n)
    ensures Drive(Step, Initial, FormatRequestLine(r) + CRLF + section)
            == Reached(ParseState(Done, r, m'), |FormatRequestLine(r)| + 2 + n)
  {
    var data := FormatRequestLine(r) + CRLF + section;
    ParseRequestLineOfText(r, section);
    DriveOnce(Step, Initial, data);
    assert data[|FormatRequestLine(r)| + 2..] == section;
    DriveSection(r, map[], section, m', n);
  }

  /**
   * A request head written out (a valid request line, CRLF, then the
   * header section of writable fields in any order) parses, whatever
   * follows it, to Done with that request line and exactly that map, and
   * `parse` consumes the head and nothing after it.
   */
  lemma RequestHeadRoundTrip(r: RequestLine, m: map<string, string>, order: seq<string>, rest: string)
    requires Bounded(Step)
    requires ValidRequestLine(r) && '\r' !in r.requestTarget
    requires IsEnumeration(order, m)
    requires forall k :: k in m ==> Writable(m, k)
    ensures Drive(Step, Initial, FormatRequestLine(r) + CRLF + HeaderSection(m, order) + rest)
            == Reached(ParseState(Done, r, m), |FormatRequestLine(r)| + 2 + |HeaderSection(m, order)|)
  {
    SectionRoundTrip(m, order, rest);
    assert FormatRequestLine(r) + CRLF + HeaderSection(m, order) + rest
           == FormatRequestLine(r) + CRLF + (HeaderSection(m, order) + rest);
    DriveRequest(r, HeaderSection(m, order) + rest, m, |HeaderSection(m, order)|);
  }

  /** The same head as a whole stream: the request it parses to, however the stream ends. */
  lemma ParseStreamOfRequest(r: RequestLine, m: map<string, string>, order: seq<string>, rest: string,
                             failsAtEnd: bool)
    requires ValidRequestLine(r) && '\r' !in r.requestTarget
    requires IsEnumeration(order, m)
    requires forall k :: k in m ==> Writable(m, k)
    ensures ParseStream(FormatRequestLine(r) + CRLF + HeaderSection(m, order) + rest, failsAtEnd)
            == Success(ParseState(Done, r, m))
  {
    StepLaws();
    RequestHeadRoundTrip(r, m, order, rest);
  }

  /** The field line `Host: a`, then the empty line, sets the field under its name as written. */
  lemma HostLineStep()
    ensures Parses(map[], "Host: a\r\n\r\n", SetField(map[], "Host", "a"), 11)
  {
    var data := "Host: a\r\n\r\n";
    assert CrlfAt(data, 7);
    assert NoCrlfBefore(data, 7);
    assert FindCrlf(data) == 7;
    assert data[..7] == "Host: a";
    Locate("Host", ':', " a");
    assert "Host: a" == "Host" + [':'] + " a";
    assert SplitFirst("Host: a", ':') == ["Host", " a"];
    assert ValidFieldName("Host");
    ScanLineAcceptsName("Host: a", "Host", " a", "a");
    ScanSectionEnd(SetField(map[], "Host", "a"), "");
    assert data[9..] == CRLF + "";
    ScanSectionStep(map[], data, "Host", "a", 9, CRLF + "", SetField(map[], "Host", "a"), 2);
  }

  /** `Host` lower-cases to `host`. */
  lemma HostLowered()
    ensures ToLower("Host") == "host"
  {
    ToLowerAt("Host");
    assert LowerChar('H') == 'h';
    assert ToLower("Host")[0] == 'h';
    assert ToLower("Host")[1..] == "ost";
  }

  /** The header section `Host: a`, then the empty line: one field, under the lower-cased name. */
  lemma HostSection()
    ensures Parses(map[], "Host: a\r\n\r\n", map["host" := "a"], 11)
  {
    HostLineStep();
    HostLowered();
    assert SetField(map[], "Host", "a") == map["host" := "a"];
  }

  /** `GET / HTTP/1.1` is a valid request line. */
  lemma GetLine()
    ensures ValidRequestLine(RequestLine("1.1", "/", "GET")) && '\r' !in "/"
    ensures FormatRequestLine(RequestLine("1.1", "/", "GET")) + CRLF == "GET / HTTP/1.1\r\n"
  {
    assert FormatRequestLine(RequestLine("1.1", "/", "GET")) == "GET / HTTP/1.1";
  }

  /**
   * `GET / HTTP/1.1`, the field `Host: a` and the empty line: `parse` stops
   * in Done with method GET, target `/`, version 1.1 and the collection
   * {host: a}, having consumed every octet of the input.
   */
  lemma GetWithHost()
    requires Bounded(Step)
    ensures Drive(Step, Initial, "GET / HTTP/1.1\r\n" + "Host: a\r\n\r\n")
            == Reached(ParseState(Done, RequestLine("1.1", "/", "GET"), map["host" := "a"]), 27)
  {
    GetLine();
    HostSection();
    DriveRequest(RequestLine("1.1", "/", "GET"), "Host: a\r\n\r\n", map["host" := "a"], 11);
  }

  /** The same input as a whole stream parses to that request, however the stream ends. */
  lemma GetWithHostStream(failsAtEnd: bool)
    ensures ParseStream("GET / HTTP/1.1\r\n" + "Host: a\r\n\r\n", failsAtEnd)
            == Success(ParseState(Done, RequestLine("1.1", "/", "GET"), map["host" := "a"]))
  {
    StepLaws();
    GetWithHost();
  }
}
