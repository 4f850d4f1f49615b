/**
 * Serialising a field line, and a whole header section, and parsing it back.
 */
module RoundTrip {
  import opened Wrappers
  import opened Octets
  import opened FieldLines
  import opened HeaderCollection
  import opened ResponseFormat

  /** The accepting path of ScanLine for a name that needs no trimming. */
  lemma ScanLineAcceptsName(line: string, name: string, raw: string, value: string)
    requires SplitFirst(line, ':') == [name, raw]
    requires name == TrimRight(name, ' ') && TrimSpace(name) == name && ValidFieldName(name)
    requires TrimSpace(raw) == value
    ensures ScanLine(line) == Field(name, value, |line| + 2)
  {
  }

  /** A field name of token octets that also survives lower-casing unchanged. */
  predicate IsLowerToken(name: string)
  {
    ValidFieldName(name) && IsLower(name)
  }

  lemma TokenHasNoSpecials(name: string)
    requires ValidFieldName(name)
    ensures ':' !in name && Trimmed(name) && NoCrlf(name)
    ensures |name| == 0 || name[|name| - 1] != ' '
  {
    assert forall i :: 0 <= i < |name| ==> name[i] != ':' && !IsSpace(name[i]);
  }

  /** A serialised field line has no CRLF before its terminating one. */
  lemma FieldLineBody(name: string, value: string)
    requires ValidFieldName(name)
    requires Trimmed(value) && NoCrlf(value)
    ensures NoCrlf(name + ": " + value)
    ensures (name + ": " + value)[|name + ": " + value| - 1] != '\r'
  {
    TokenHasNoSpecials(name);
    var line := name + ": " + value;
    forall j | 0 <= j < |line|
      ensures !CrlfAt(line, j)
    {
      if j < |name| {
        assert line[j] == name[j];
      } else if j >= |name| + 2 {
        assert CrlfAt(line, j) ==> CrlfAt(value, j - |name| - 2);
      }
    }
    assert |value| == 0 ==> line[|line| - 1] == ' ';
    assert |value| > 0 ==> line[|line| - 1] == value[|value| - 1];
  }

  /** The colon after a token name is the first colon of the line. */
  lemma FieldLineSplit(name: string, value: string)
    requires ValidFieldName(name)
    ensures SplitFirst(name + ": " + value, ':') == [name, " " + value]
  {
    TokenHasNoSpecials(name);
    assert name + ": " + value == name + [':'] + (" " + value);
    Locate(name, ':', " " + value);
  }

  /** The pieces ScanLine takes a serialised field line apart into. */
  lemma FieldLinePieces(name: string, value: string)
    requires ValidFieldName(name)
    requires Trimmed(value)
    ensures SplitFirst(name + ": " + value, ':') == [name, " " + value]
    ensures name == TrimRight(name, ' ') && TrimSpace(name) == name
    ensures TrimSpace(" " + value) == value
  {
    FieldLineSplit(name, value);
    TokenHasNoSpecials(name);
    TrimSpaceTrimmed(name);
    TrimSpacePadded(value);
  }

  /** The text of a serialised field line is accepted as that field. */
  lemma ScanLineOfFieldLine(name: string, value: string)
    requires ValidFieldName(name)
    requires Trimmed(value)
    ensures ScanLine(name + ": " + value) == Field(name, value, |name| + |value| + 4)
  {
    FieldLinePieces(name, value);
    ScanLineAcceptsName(name + ": " + value, name, " " + value, value);
  }

  /**
   * Parsing a serialised field line `name: value CRLF` gives back the name
   * and the value and consumes exactly that line, whatever follows it.
   */
  lemma ScanFieldLineOfFieldLine(name: string, value: string, rest: string)
    requires ValidFieldName(name)
    requires Trimmed(value) && NoCrlf(value)
    ensures ScanFieldLine(name + ": " + value + CRLF + rest)
            == Field(name, value, |name| + |value| + 4)
  {
    var line := name + ": " + value;
    var data := line + CRLF + rest;
    assert name + ": " + value + CRLF + rest == data;
    assert FindCrlf(data) == |line| > 0 && data[..|line|] == line by {
      FieldLineBody(name, value);
      FindCrlfOfLine(line, rest);
    }
    ScanLineOfFieldLine(name, value);
  }

  /**
   * Repeated field-line steps over a window, each on what the previous one
   * left, starting from collection m: the collection at the section end and
   * the octets consumed up to and including the empty line, or None when a
   * line is refused or the window ends first.
   */
  function ScanSection(m: map<string, string>, data: string): Option<(map<string, string>, nat)>
    decreases |data|, 3
  {
    if |data| < 2 then None else SectionStep(m, data)
  }

  /** A window of two octets or more: a leading CRLF is the empty line that ends the section. */
  function SectionStep(m: map<string, string>, data: string): Option<(map<string, string>, nat)>
    requires |data| >= 2
    decreases |data|, 2
  {
    if data[0] == '\r' && data[1] == '\n' then Some((m, 2)) else SectionLine(m, data)
  }

  /** A window that does not start with the empty line: the field-line step, then the rest. */
  function SectionLine(m: map<string, string>, data: string): Option<(map<string, string>, nat)>
    decreases |data|, 1
  {
    SectionFrom(m, data, ScanFieldLine(data))
  }

  /** The rest of ScanSection, once the step at the front of the window has given r. */
  function SectionFrom(m: map<string, string>, data: string, r: LineScan): Option<(map<string, string>, nat)>
    requires r.Field? ==> 0 < r.consumed <= |data|
    decreases |data|, 0
  {
    if r.SectionEnd? then Some((m, 2))
    else if !r.Field? then None
    else
      var after := ScanSection(SetField(m, r.name, r.value), data[r.consumed..]);
      if after.None? then None else Some((after.value.0, r.consumed + after.value.1))
  }

  /** ScanSection over data, starting from m, ends at the empty line with m' after n octets. */
  predicate Parses(m: map<string, string>, data: string, m': map<string, string>, n: nat)
  {
    ScanSection(m, data) == Some((m', n))
  }

  /** Parses depends on its arguments only (a rewriting step for the solver). */
  lemma ParsesSame(m: map<string, string>, data: string, m1: map<string, string>, n1: nat,
                   m2: map<string, string>, n2: nat)
    requires Parses(m, data, m1, n1)
    requires m1 == m2
    requires n1 == n2
    ensures Parses(m, data, m2, n2)
  {
  }

  /** acc, with the entries of m for the keys of order added. */
  function Extend(acc: map<string, string>, m: map<string, string>, order: seq<string>): map<string, string>
  {
    acc + map k | k in order && k in m :: m[k]
  }

  /** The fields a writer can serialise so that they parse back unchanged. */
  predicate Writable(m: map<string, string>, k: string)
    requires k in m
  {
    IsLowerToken(k) && Trimmed(m[k]) && NoCrlf(m[k])
  }

  /** A window that can hold a CRLF goes to the step (one unfolding, for the solver). */
  lemma ScanSectionUnfold(m: map<string, string>, data: string)
    requires |data| >= 2
    ensures ScanSection(m, data) == SectionStep(m, data)
  {
  }

  /** A window that does not start with CRLF goes to the field-line step (one unfolding, for the solver). */
  lemma SectionStepUnfold(m: map<string, string>, data: string)
    requires |data| >= 2 && !(data[0] == '\r' && data[1] == '\n')
    ensures SectionStep(m, data) == SectionLine(m, data)
  {
  }

  /** The step's verdict on the window decides the rest (one unfolding, for the solver). */
  lemma SectionLineUnfold(m: map<string, string>, data: string, r: LineScan)
    requires r == ScanFieldLine(data)
    ensures SectionLine(m, data) == SectionFrom(m, data, r)
  {
  }

  /** One accepted field line, then the rest of the section. */
  lemma SectionFromField(m: map<string, string>, data: string, name: string, value: string, consumed: nat,
                         m': map<string, string>, n: nat)
    requires 0 < consumed <= |data|
    requires ScanSection(SetField(m, name, value), data[consumed..]) == Some((m', n))
    ensures SectionFrom(m, data, Field(name, value, consumed)) == Some((m', consumed + n))
  {
  }

  /**
   * An accepted line at the front of the window, then a section that ends
   * well on what the step leaves, is a section that ends well.
   */
  lemma ScanSectionStep(m: map<string, string>, data: string, name: string, value: string, consumed: nat,
                        more: string, m': map<string, string>, n: nat)
    requires ScanFieldLine(data) == Field(name, value, consumed)
    requires data[consumed..] == more
    requires Parses(SetField(m, name, value), more, m', n)
    ensures Parses(m, data, m', consumed + n)
  {
    ScanFieldLineVerdict(data);
    ScanSectionUnfold(m, data);
    SectionStepUnfold(m, data);
    SectionLineUnfold(m, data, Field(name, value, consumed));
    SectionFromField(m, data, name, value, consumed, m', n);
  }

  /**
   * A serialised field line, then a section that ends well on the
   * collection with that field set, is a section that ends well.
   */
  lemma {:induction false} FieldLineStep(m: map<string, string>, data: string, name: string, value: string, more: string,
                      m': map<string, string>, n: nat)
    requires ValidFieldName(name)
    requires Trimmed(value) && NoCrlf(value)
    requires data == FieldLine(name, value) + more
    requires Parses(SetField(m, name, value), more, m', n)
    ensures Parses(m, data, m', |FieldLine(name, value)| + n)
  {
    assert data == name + ": " + value + CRLF + more;
    ScanFieldLineOfFieldLine(name, value, more);
    assert data[|FieldLine(name, value)|..] == more;
    ScanSectionStep(m, data, name, value, |FieldLine(name, value)|, more, m', n);
  }

  /** The empty line ends the section at once. */
  lemma ScanSectionEnd(m: map<string, string>, rest: string)
    ensures Parses(m, CRLF + rest, m, 2)
  {
    ScanSectionUnfold(m, CRLF + rest);
  }

  /** Setting a lower-case name that is not there yet adds it with its value. */
  lemma SetFieldNew(acc: map<string, string>, k: string, v: string)
    requires IsLower(k) && k !in acc
    ensures SetField(acc, k, v) == acc[k := v]
  {
    ToLowerOfLower(k);
  }

  /** Adding the first key of order, then the others. */
  lemma ExtendFirst(acc: map<string, string>, m: map<string, string>, order: seq<string>)
    requires |order| > 0 && order[0] in m
    ensures Extend(acc[order[0] := m[order[0]]], m, order[1..]) == Extend(acc, m, order)
  {
    var k := order[0];
    var left := Extend(acc[k := m[k]], m, order[1..]);
    var right := Extend(acc, m, order);
    forall j | j in order
      ensures j == k || j in order[1..]
    {
      var i :| 0 <= i < |order| && order[i] == j;
      if i > 0 {
        assert order[1..][i - 1] == j;
      }
    }
    assert left.Keys == right.Keys;
    forall j | j in left
      ensures left[j] == right[j]
    {
    }
  }

  /** The same, with the first key added by `Set`. */
  lemma ExtendFirstSet(acc: map<string, string>, m: map<string, string>, order: seq<string>)
    requires |order| > 0 && order[0] in m && IsLower(order[0]) && order[0] !in acc
    ensures Extend(SetField(acc, order[0], m[order[0]]), m, order[1..]) == Extend(acc, m, order)
  {
    SetFieldNew(acc, order[0], m[order[0]]);
    ExtendFirst(acc, m, order);
  }

  /** After `Set` of the first key, the other keys are still missing. */
  lemma MissingAfterSet(acc: map<string, string>, m: map<string, string>, order: seq<string>)
    requires |order| > 0 && order[0] in m && order[0] !in order[1..] && IsLower(order[0])
    requires forall k :: k in order ==> k !in acc
    ensures forall k :: k in order[1..] ==> k !in SetField(acc, order[0], m[order[0]])
  {
    ToLowerOfLower(order[0]);
    SetFieldEffect(acc, order[0], m[order[0]]);
    forall k | k in order[1..]
      ensures k in order
    {
      var i :| 0 <= i < |order[1..]| && order[1..][i] == k;
      assert order[i + 1] == k;
    }
  }

  /** Adding every key of an enumeration of m to nothing gives m. */
  lemma ExtendAll(m: map<string, string>, order: seq<string>)
    requires IsEnumeration(order, m)
    ensures Extend(map[], m, order) == m
  {
  }

  /** No key occurs twice, stated one key at a time from the front. */
  predicate NoRepeats(order: seq<string>)
    decreases |order|
  {
    |order| == 0 || (order[0] !in order[1..] && NoRepeats(order[1..]))
  }

  /** A sequence without two equal positions repeats no key. */
  lemma {:induction false} DistinctNoRepeats(order: seq<string>)
    requires Distinct(order)
    ensures NoRepeats(order)
    decreases |order|
  {
    if |order| > 0 {
      assert Distinct(order[1..]) by {
        forall i, j | 0 <= i < j < |order[1..]|
          ensures order[1..][i] != order[1..][j]
        {
          assert order[1..][i] == order[i + 1] && order[1..][j] == order[j + 1];
        }
      }
      DistinctNoRepeats(order[1..]);
    }
  }

  /** The text of the field lines is the first one's, then the others'. */
  lemma FieldLinesLength(m: map<string, string>, order: seq<string>)
    requires |order| > 0 && forall k :: k in order ==> k in m
    ensures |FieldLinesText(m, order)|
            == |FieldLine(order[0], m[order[0]])| + |FieldLinesText(m, order[1..])|
  {
  }

  /**
   * One step of the induction below: when the section after the first
   * field line parses back, so does the whole section.
   */
  lemma {:induction false} ScanSectionOfStep(acc: map<string, string>, m: map<string, string>, order: seq<string>, rest: string)
    requires |order| > 0 && forall k :: k in order ==> k in m
    requires Writable(m, order[0]) && order[0] !in acc
    requires Parses(SetField(acc, order[0], m[order[0]]), FieldLinesText(m, order[1..]) + CRLF + rest,
                    Extend(SetField(acc, order[0], m[order[0]]), m, order[1..]),
                    |FieldLinesText(m, order[1..])| + 2)
    ensures Parses(acc, FieldLinesText(m, order) + CRLF + rest,
                   Extend(acc, m, order), |FieldLinesText(m, order)| + 2)
  {
    assert FieldLinesText(m, order) + CRLF + rest
           == FieldLine(order[0], m[order[0]]) + (FieldLinesText(m, order[1..]) + CRLF + rest);
    FieldLineStep(acc, FieldLinesText(m, order) + CRLF + rest, order[0], m[order[0]],
                  FieldLinesText(m, order[1..]) + CRLF + rest,
                  Extend(SetField(acc, order[0], m[order[0]]), m, order[1..]),
                  |FieldLinesText(m, order[1..])| + 2);
    ExtendFirstSet(acc, m, order);
    FieldLinesLength(m, order);
    ParsesSame(acc, FieldLinesText(m, order) + CRLF + rest,
               Extend(SetField(acc, order[0], m[order[0]]), m, order[1..]),
               |FieldLine(order[0], m[order[0]])| + (|FieldLinesText(m, order[1..])| + 2),
               Extend(acc, m, order), |FieldLinesText(m, order)| + 2);
  }

  /**
   * Parsing the field lines of the keys of order, then the empty line, adds
   * exactly those entries to a collection that lacks them, and consumes
   * exactly the section, whatever follows it.
   */
  lemma {:induction false} ScanSectionOf(acc: map<string, string>, m: map<string, string>, order: seq<string>, rest: string)
    requires forall k :: k in order ==> k in m && Writable(m, k) && k !in acc
    requires NoRepeats(order)
    ensures Parses(acc, FieldLinesText(m, order) + CRLF + rest,
                   Extend(acc, m, order), |FieldLinesText(m, order)| + 2)
    decreases |order|
  {
    if |order| == 0 {
      assert FieldLinesText(m, order) + CRLF + rest == CRLF + rest;
      ScanSectionEnd(acc, rest);
      assert Extend(acc, m, order) == acc;
    } else {
      assert order[0] in order;
      MissingAfterSet(acc, m, order);
      ScanSectionOf(SetField(acc, order[0], m[order[0]]), m, order[1..], rest);
      ScanSectionOfStep(acc, m, order, rest);
    }
  }

  /**
   * A header section written from a map parses back into that map: for
   * any order the writer's range loop may take, the field-line steps on an
   * empty collection end at the empty line holding exactly m, having
   * consumed exactly the section.
   */
  lemma SectionRoundTrip(m: map<string, string>, order: seq<string>, rest: string)
    requires IsEnumeration(order, m)
    requires forall k :: k in m ==> Writable(m, k)
    ensures ScanSection(map[], HeaderSection(m, order) + rest)
            == Some((m, |HeaderSection(m, order)|))
  {
    assert HeaderSection(m, order) + rest == FieldLinesText(m, order) + CRLF + rest;
    DistinctNoRepeats(order);
    ScanSectionOf(map[], m, order, rest);
    ExtendAll(m, order);
  }
}
