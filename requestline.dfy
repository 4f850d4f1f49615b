/**
 * The request line of an HTTP/1.1 request (section 3 of RFC 9112):
 * `method SP request-target SP HTTP/1.1`.
 */
module RequestLines {
  import opened Wrappers
  import opened Octets
  import opened FieldLines

  /** The parsed request line; the version is kept without its `HTTP/` prefix. */
  datatype RequestLine = RequestLine(httpVersion: string, requestTarget: string, httpMethod: string)

  /** Everything that can stop a request from being parsed. */
  datatype RequestError =
    | InvalidStructure                 // the line does not split into three parts
    | InvalidMethod                    // the method is not one of the eight
    | InvalidTarget                    // the target is empty
    | InvalidVersionShape              // the version does not split at '/' into two parts
    | InvalidVersionName(name: string) // the part before '/' is not "HTTP"
    | InvalidVersion(number: string)   // the part after '/' is not "1.1"
    | InvalidHeader(cause: FieldError)   // a field line was refused
    | ReadInDoneState                  // parsing was asked for after the end of the headers
    | IncompleteRequest                // the stream ended before the end of the headers
    | ReadFailed                       // the stream failed before the end of the headers

  /** The eight methods the parser accepts. */
  const Methods: set<string> := {"GET", "HEAD", "POST", "PUT", "DELETE", "CONNECT", "OPTIONS", "TRACE"}

  /**
   * `requestLineFromString`: split at single spaces into exactly three parts,
   * check the method, the target and the version, in that order.
   */
  function RequestLineFromString(line: string): (r: Result<RequestLine, RequestError>)
    ensures r.Success? ==> r.value.httpMethod in Methods && r.value.requestTarget != []
                           && r.value.httpVersion == "1.1"
  {
    var parts := Split(line, ' ');
    if |parts| != 3 then Failure(InvalidStructure)
    else if parts[0] !in Methods then Failure(InvalidMethod)
    else if |parts[1]| == 0 then Failure(InvalidTarget)
    else
      var version := Split(parts[2], '/');
      if |version| != 2 then Failure(InvalidVersionShape)
      else if version[0] != "HTTP" then Failure(InvalidVersionName(version[0]))
      else if version[1] != "1.1" then Failure(InvalidVersion(version[1]))
      else Success(RequestLine(version[1], parts[1], parts[0]))
  }

  /** A request line the parser accepts: the line it is printed as reads back as it. */
  predicate ValidRequestLine(r: RequestLine)
  {
    r.httpMethod in Methods && r.requestTarget != [] && ' ' !in r.requestTarget && r.httpVersion == "1.1"
  }

  /** The text of a request line, CRLF excluded. */
  function FormatRequestLine(r: RequestLine): string
  {
    r.httpMethod + " " + r.requestTarget + " HTTP/" + r.httpVersion
  }

  /** Every accepted line is exactly the text of the request line it yields. */
  lemma RequestLineAccepted(line: string)
    requires RequestLineFromString(line).Success?
    ensures ValidRequestLine(RequestLineFromString(line).value)
    ensures FormatRequestLine(RequestLineFromString(line).value) == line
  {
    var parts := Split(line, ' ');
    var version := Split(parts[2], '/');
    var r := RequestLineFromString(line).value;
    assert |parts| == 3 && |version| == 2;
    assert r == RequestLine("1.1", parts[1], parts[0]) && version == ["HTTP", "1.1"];
    JoinSplit(line, ' ');
    JoinThree(parts, ' ');
    SplitPiecesFree(line, ' ');
    assert ' ' !in parts[1];
    JoinSplit(parts[2], '/');
    JoinTwo(version, '/');
    assert parts[2] == version[0] + ['/'] + version[1];
    FormatText(parts[0], parts[1]);
  }

  /** The text of an HTTP/1.1 request line, piece by piece. */
  lemma FormatText(m: string, t: string)
    ensures FormatRequestLine(RequestLine("1.1", t, m)) == m + [' '] + t + [' '] + ("HTTP" + ['/'] + "1.1")
  {
  }

  /** The eight method names are spelled in upper-case letters only. */
  lemma MethodsAreUpper(m: string)
    requires m in Methods
    ensures forall i :: 0 <= i < |m| ==> 'A' <= m[i] <= 'Z'
  {
  }

  /** Hence a method name holds no space. */
  lemma MethodsHaveNoSpace(m: string)
    requires m in Methods
    ensures ' ' !in m
  {
    MethodsAreUpper(m);
  }

  /** The verdict on a line whose three parts have a valid method and target and an `HTTP/` version. */
  lemma VersionVerdict(line: string, m: string, t: string, v: string, number: string)
    requires Split(line, ' ') == [m, t, v] && m in Methods && t != []
    requires Split(v, '/') == ["HTTP", number]
    ensures RequestLineFromString(line)
            == if number == "1.1" then Success(RequestLine(number, t, m)) else Failure(InvalidVersion(number))
  {
  }

  /** The three space-separated parts of a printed request line. */
  lemma FormatParts(r: RequestLine)
    requires r.httpMethod in Methods && ' ' !in r.requestTarget && ' ' !in r.httpVersion
    ensures Split(FormatRequestLine(r), ' ') == [r.httpMethod, r.requestTarget, "HTTP/" + r.httpVersion]
    ensures Split("HTTP/" + r.httpVersion, '/') == ["HTTP", r.httpVersion] || '/' in r.httpVersion
  {
    MethodsHaveNoSpace(r.httpMethod);
    var v := "HTTP/" + r.httpVersion;
    assert FormatRequestLine(r) == r.httpMethod + [' '] + r.requestTarget + [' '] + v;
    assert ' ' !in v;
    SplitThree(r.httpMethod, ' ', r.requestTarget, v);
    if '/' !in r.httpVersion {
      assert v == "HTTP" + ['/'] + r.httpVersion;
      SplitTwo("HTTP", '/', r.httpVersion);
    }
  }

  /** Every valid request line is read back from its text. */
  lemma RequestLineRoundTrip(r: RequestLine)
    requires ValidRequestLine(r)
    ensures RequestLineFromString(FormatRequestLine(r)) == Success(r)
  {
    FormatParts(r);
    VersionVerdict(FormatRequestLine(r), r.httpMethod, r.requestTarget, "HTTP/" + r.httpVersion, r.httpVersion);
  }

  /**
   * The version token must be exactly `HTTP/1.1`: any other version number,
   * `HTTP/1.0` among them, is refused and reported.
   */
  lemma OtherVersionRefused(r: RequestLine)
    requires r.httpMethod in Methods && r.requestTarget != [] && ' ' !in r.requestTarget
    requires ' ' !in r.httpVersion && '/' !in r.httpVersion && r.httpVersion != "1.1"
    ensures RequestLineFromString(FormatRequestLine(r)) == Failure(InvalidVersion(r.httpVersion))
  {
    FormatParts(r);
    VersionVerdict(FormatRequestLine(r), r.httpMethod, r.requestTarget, "HTTP/" + r.httpVersion, r.httpVersion);
  }
}
