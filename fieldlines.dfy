/**
 * One field line of the header section (section 5 of RFC 9112): the token
 * rule for names and the verdict the parser reaches on the front of its
 * window.
 */
module FieldLines {
  import opened Octets

  /** The 15 non-alphanumeric octets allowed in a token (section 5.6.2 of RFC 9110). */
  const TokenChars: seq<char> := ['!', '#', '$', '%', '&', '\'', '*', '+', '-', '.', '^', '_', '`', '|', '~']

  predicate IsTokenChar(c: char)
  {
    'A' <= c <= 'Z' || 'a' <= c <= 'z' || '0' <= c <= '9'
    || c == '!' || c == '#' || c == '$' || c == '%' || c == '&' || c == '\'' || c == '*' || c == '+'
    || c == '-' || c == '.' || c == '^' || c == '_' || c == '`' || c == '|' || c == '~'
  }

  /** Every octet of name is a token octet (so the empty name qualifies). */
  predicate ValidFieldName(name: string)
  {
    forall i :: 0 <= i < |name| ==> IsTokenChar(name[i])
  }

  datatype FieldError =
    | InvalidFieldLineFormat(key: string)  // a space between the name and the colon
    | ForbiddenSymbol(key: string)         // a name octet outside the token set
    | MissingColon(line: string)           // a complete line without a colon

  /** What one call of the field-line parser finds at the front of its window. */
  datatype LineScan =
    | NeedMore                                          // no CRLF yet
    | SectionEnd                                        // the window starts with CRLF
    | Field(name: string, value: string, consumed: nat) // a field line of `consumed` octets
    | Rejected(error: FieldError)

  /**
   * The verdict on the text of one complete line (its CRLF excluded): split
   * at the first colon, refuse a name followed by a space, trim the name and
   * check it against the token set, trim the value.
   */
  function ScanLine(line: string): (r: LineScan)
    ensures !r.NeedMore? && !r.SectionEnd?
    ensures r.Field? ==> r.consumed == |line| + 2
  {
    var parts := SplitFirst(line, ':');
    var key := parts[0];
    if key != TrimRight(key, ' ') then Rejected(InvalidFieldLineFormat(key))
    else
      var name := TrimSpace(key);
      if !ValidFieldName(name) then Rejected(ForbiddenSymbol(name))
      else if |parts| < 2 then Rejected(MissingColon(line))
      else Field(name, TrimSpace(parts[1]), |line| + 2)
  }

  /**
   * A complete line is accepted or refused, never left pending; an accepted
   * line consumes itself and its CRLF, and yields a token name and a value
   * without surrounding white space.
   */
  lemma ScanLineVerdict(line: string)
    ensures ScanLine(line).Field? || ScanLine(line).Rejected?
    ensures ScanLine(line).Field? ==>
              ScanLine(line).consumed == |line| + 2 && ValidFieldName(ScanLine(line).name)
              && Trimmed(ScanLine(line).value) && Trimmed(ScanLine(line).name)
  {
  }

  /**
   * The header-line step on a window of octets: need more data while there
   * is no CRLF, the section end when the window starts with CRLF, otherwise
   * the verdict on the line before the first CRLF.
   */
  function ScanFieldLine(data: string): (r: LineScan)
    ensures r.Field? ==> 2 < r.consumed <= |data|
  {
    var idx := FindCrlf(data);
    if idx == -1 then NeedMore
    else if idx == 0 then SectionEnd
    else
      ScanLineVerdict(data[..idx]);
      ScanLine(data[..idx])
  }

  /**
   * The field-line step waits exactly while no CRLF has arrived, ends the
   * section exactly on a leading CRLF, accepts a line up to and including
   * the first CRLF, and refuses only a complete line.
   */
  lemma ScanFieldLineVerdict(data: string)
    ensures ScanFieldLine(data) == NeedMore <==> NoCrlf(data)
    ensures ScanFieldLine(data) == SectionEnd <==> CrlfAt(data, 0)
    ensures ScanFieldLine(data).Field? ==>
              CrlfAt(data, ScanFieldLine(data).consumed - 2)
              && NoCrlfBefore(data, ScanFieldLine(data).consumed - 2)
    ensures ScanFieldLine(data).Field? ==>
              ValidFieldName(ScanFieldLine(data).name) && Trimmed(ScanFieldLine(data).value)
              && Trimmed(ScanFieldLine(data).name)
    ensures ScanFieldLine(data).Rejected? ==> FindCrlf(data) > 0
  {
    var idx := FindCrlf(data);
    if idx == 0 {
      assert !NoCrlfBefore(data, |data|) by { assert CrlfAt(data, 0); }
    } else if idx > 0 {
      assert !NoCrlfBefore(data, |data|) by { assert CrlfAt(data, idx); }
      assert !CrlfAt(data, 0);
      ScanLineVerdict(data[..idx]);
    }
  }

  /** The accepting path of ScanLine, stated on its own. */
  lemma ScanLineAccepts(line: string, key: string, raw: string)
    requires SplitFirst(line, ':') == [key, raw]
    requires key == TrimRight(key, ' ')
    requires ValidFieldName(TrimSpace(key))
    ensures ScanLine(line) == Field(TrimSpace(key), TrimSpace(raw), |line| + 2)
  {
  }

  /**
   * The accepting path both ways: a line is a field exactly when it has a
   * colon, no space ends the name before that colon, and the trimmed name
   * is a token.
   */
  lemma ScanLineAcceptsExactly(line: string)
    ensures ScanLine(line).Field? <==>
              |SplitFirst(line, ':')| == 2
              && SplitFirst(line, ':')[0] == TrimRight(SplitFirst(line, ':')[0], ' ')
              && ValidFieldName(TrimSpace(SplitFirst(line, ':')[0]))
  {
  }

  /**
   * A window whose first line has a space between the name and the colon,
   * such as "Host : x", is refused with that untrimmed name.
   */
  lemma SpaceBeforeColonRefused(data: string)
    requires FindCrlf(data) > 0
    requires |SplitFirst(data[..FindCrlf(data)], ':')[0]| > 0
    requires SplitFirst(data[..FindCrlf(data)], ':')[0][|SplitFirst(data[..FindCrlf(data)], ':')[0]| - 1] == ' '
    ensures ScanFieldLine(data) == Rejected(InvalidFieldLineFormat(SplitFirst(data[..FindCrlf(data)], ':')[0]))
  {
  }

  /** "Foo : bar" is refused because of the space before the colon. */
  lemma SpacedNameRefused()
    ensures ScanFieldLine("Foo : bar\r\n") == Rejected(InvalidFieldLineFormat("Foo "))
  {
    var data := "Foo : bar\r\n";
    assert CrlfAt(data, 9);
    assert NoCrlfBefore(data, 9);
    assert FindCrlf(data) == 9;
    assert data[..9] == "Foo : bar";
    Locate("Foo ", ':', " bar");
    assert "Foo : bar" == "Foo " + [':'] + " bar";
    assert SplitFirst("Foo : bar", ':')[0] == "Foo ";
    SpaceBeforeColonRefused(data);
  }

  /** What the Go code returns for a line, a panic included. */
  datatype AsWritten = Returned(scan: LineScan) | IndexPanic

  /**
   * The field-line step exactly as the Go code has it: when the line has no
   * colon but its name passes the checks, `parts[1]` is indexed anyway and
   * the goroutine panics.
   */
  function ScanFieldLineAsWritten(data: string): (r: AsWritten)
    ensures r.IndexPanic? ==> 0 < FindCrlf(data) <= |data| && ':' !in data[..FindCrlf(data)]
  {
    var idx := FindCrlf(data);
    if idx == -1 then Returned(NeedMore)
    else if idx == 0 then Returned(SectionEnd)
    else
      var parts := SplitFirst(data[..idx], ':');
      var key := parts[0];
      if key != TrimRight(key, ' ') then Returned(Rejected(InvalidFieldLineFormat(key)))
      else
        var name := TrimSpace(key);
        if !ValidFieldName(name) then Returned(Rejected(ForbiddenSymbol(name)))
        else if |parts| < 2 then IndexPanic
        else Returned(Field(name, TrimSpace(parts[1]), idx + 2))
  }

  /** The Go code and the corrected step agree except where Go panics. */
  lemma AsWrittenDiffersOnlyByPanic(data: string)
    ensures ScanFieldLineAsWritten(data) ==
            if ScanFieldLine(data).Rejected? && ScanFieldLine(data).error.MissingColon?
            then IndexPanic else Returned(ScanFieldLine(data))
  {
  }

  /** A header line holding only a name, such as "Host", panics as written. */
  lemma BareNamePanics()
    ensures ScanFieldLineAsWritten("Host\r\n") == IndexPanic
    ensures ScanFieldLine("Host\r\n") == Rejected(MissingColon("Host"))
  {
    var data := "Host\r\n";
    assert CrlfAt(data, 4);
    assert NoCrlfBefore(data, 4);
    assert FindCrlf(data) == 4;
    assert data[..4] == "Host";
    assert ':' !in "Host";
    assert SplitFirst("Host", ':') == ["Host"];
    assert TrimRight("Host", ' ') == "Host";
    assert Trimmed("Host");
    TrimSpaceTrimmed("Host");
    assert ValidFieldName("Host");
  }

  /**
   * The corrected step never fails silently: a complete line that is not the
   * section end is either accepted as a field or rejected with an error, and
   * a line without a colon is always rejected.
   */
  lemma ScanCompleteLine(data: string)
    requires FindCrlf(data) > 0
    ensures ScanFieldLine(data).Field? || ScanFieldLine(data).Rejected?
    ensures ':' !in data[..FindCrlf(data)] ==> ScanFieldLine(data).Rejected?
  {
    ScanLineVerdict(data[..FindCrlf(data)]);
  }
}

