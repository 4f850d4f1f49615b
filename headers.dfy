/**
 * The header collection: a map from lower-cased field names to values, and
 * the resumable parser for one field line (section 5 of RFC 9112).
 */
module HeaderCollection {
  import opened Wrappers
  import opened Octets
  import opened FieldLines

  /** `checkFieldName`: scans the name octet by octet. */
  method CheckFieldName(name: string) returns (ok: bool)
    ensures ok <==> ValidFieldName(name)
  {
    for i := 0 to |name|
      invariant forall j :: 0 <= j < i ==> IsTokenChar(name[j])
    {
      var c := name[i];
      if 'A' <= c <= 'Z' || 'a' <= c <= 'z' || '0' <= c <= '9' {
        continue;
      }
      if c in TokenChars {
        continue;
      }
      return false;
    }
    return true;
  }

  /**
   * The map after `Set(name, value)`: the entry for the lower-cased name gets
   * value, or, when the name is already present, the old value, ", " and
   * value (field-line combination, section 5.3 of RFC 9110).
   */
  function SetField(m: map<string, string>, name: string, value: string): map<string, string>
  {
    var key := ToLower(name);
    m[key := if key in m then m[key] + ", " + value else value]
  }

  /**
   * `Set` adds the lower-cased name to the keys, stores value under it or
   * appends ", " and value to what is there, and leaves every other key alone.
   */
  lemma SetFieldEffect(m: map<string, string>, name: string, value: string)
    ensures SetField(m, name, value).Keys == m.Keys + {ToLower(name)}
    ensures SetField(m, name, value)[ToLower(name)]
            == if ToLower(name) in m then m[ToLower(name)] + ", " + value else value
    ensures forall k :: k in m && k != ToLower(name) ==> SetField(m, name, value)[k] == m[k]
  {
  }

  /** The example of field-line combination: two spellings of one name. */
  lemma SetCombinesSpellings()
    ensures SetField(SetField(map[], "Foo", "a"), "FOO", "b") == map["foo" := "a, b"]
  {
    assert ToLower("Foo") == "foo";
    assert ToLower("FOO") == "foo";
    var once := SetField(map[], "Foo", "a");
    assert once == map["foo" := "a"];
    assert "a" + ", " + "b" == "a, b";
  }

  /** The map after setting every (name, value) pair of entries, in order. */
  function SetEach(m: map<string, string>, entries: seq<(string, string)>): map<string, string>
    decreases |entries|
  {
    if |entries| == 0 then m
    else
      var last := entries[|entries| - 1];
      SetField(SetEach(m, entries[..|entries| - 1]), last.0, last.1)
  }

  /** The values of the entries whose name lower-cases to key, in order. */
  function ValuesNamed(entries: seq<(string, string)>, key: string): seq<string>
    decreases |entries|
  {
    if |entries| == 0 then []
    else
      var last := entries[|entries| - 1];
      ValuesNamed(entries[..|entries| - 1], key) + (if ToLower(last.0) == key then [last.1] else [])
  }

  /** vs[0] + ", " + vs[1] + ", " + ... */
  function JoinValues(vs: seq<string>): string
    requires |vs| >= 1
  {
    if |vs| == 1 then vs[0] else JoinValues(vs[..|vs| - 1]) + ", " + vs[|vs| - 1]
  }

  /**
   * Field-line combination: after any sequence of sets on an empty
   * collection, a key is present exactly when some set used a name of that
   * spelling, and its value is all those values in order, joined by ", ".
   */
  lemma {:induction false} SetEachCombines(entries: seq<(string, string)>, key: string)
    ensures key in SetEach(map[], entries) <==> ValuesNamed(entries, key) != []
    ensures key in SetEach(map[], entries) ==>
              SetEach(map[], entries)[key] == JoinValues(ValuesNamed(entries, key))
    decreases |entries|
  {
    if |entries| > 0 {
      var init := entries[..|entries| - 1];
      var last := entries[|entries| - 1];
      assert entries[..|entries| - 1] == init;
      SetEachCombines(init, key);
      var vs := ValuesNamed(init, key);
      var before := SetEach(map[], init);
      assert SetEach(map[], entries) == SetField(before, last.0, last.1);
      if ToLower(last.0) == key {
        assert ValuesNamed(entries, key) == vs + [last.1];
        if vs != [] {
          assert (vs + [last.1])[..|vs|] == vs;
          assert JoinValues(vs + [last.1]) == JoinValues(vs) + ", " + last.1;
        } else {
          assert vs + [last.1] == [last.1];
        }
      } else {
        assert ValuesNamed(entries, key) == vs;
      }
    }
  }

  /** The collection after a scan: only an accepted field line changes it. */
  function AfterScan(m: map<string, string>, r: LineScan): map<string, string>
  {
    if r.Field? then SetField(m, r.name, r.value) else m
  }

  /** The Go result triple (n, done, err) that belongs to a scan. */
  function Reply(r: LineScan): (nat, bool, Option<FieldError>)
  {
    match r
    case NeedMore => (0, false, None)
    case SectionEnd => (2, true, None)
    case Field(_, _, consumed) => (consumed, false, None)
    case Rejected(e) => (0, false, Some(e))
  }

  /** `Headers`: the collection object shared by the parser and its caller. */
  class Headers {
    var fields: map<string, string>

    /** `NewHeaders`: an empty collection. */
    constructor ()
      ensures fields == map[]
    {
      fields := map[];
    }

    /** `Set`: stores under the lower-cased name, combining with an earlier value. */
    method Set(key: string, value: string)
      modifies this
      ensures fields == SetField(old(fields), key, value)
    {
      var k := ToLower(key);
      var v := value;
      if k in fields {
        v := fields[k] + ", " + value;
      }
      fields := fields[k := v];
    }

    /**
     * `Parse`: consumes one field line, or the empty line that ends the
     * section, from the front of data.  Every error is returned before the
     * collection is touched.
     */
    method Parse(data: string) returns (n: nat, done: bool, err: Option<FieldError>)
      modifies this
      ensures (n, done, err) == Reply(ScanFieldLine(data))
      ensures fields == AfterScan(old(fields), ScanFieldLine(data))
    {
      var idx := FindCrlf(data);
      if idx == -1 {
        assert ScanFieldLine(data) == NeedMore;
        return 0, false, None;
      }
      if idx == 0 {
        assert ScanFieldLine(data) == SectionEnd;
        return 2, true, None;
      }
      var line := data[..idx];
      assert ScanFieldLine(data) == ScanLine(line);
      var key, value, e := SplitLine(line);
      if e.Some? {
        return 0, false, e;
      }
      assert |line| == idx;
      Set(key, value);
      return idx + 2, false, None;
    }
  }

  /**
   * The part of `Parse` that reads the text of one line: the name before
   * the first colon, refused when a space precedes the colon or when it
   * is not a token, and the value after it, both trimmed.
   */
  method SplitLine(line: string) returns (key: string, value: string, err: Option<FieldError>)
    ensures err.Some? ==> ScanLine(line) == Rejected(err.value)
    ensures err.None? ==> ScanLine(line) == Field(key, value, |line| + 2)
  {
    var parts := SplitFirst(line, ':');
    key := parts[0];
    if key != TrimRight(key, ' ') {
      return key, "", Some(InvalidFieldLineFormat(key));
    }
    key := TrimSpace(key);
    var ok := CheckFieldName(key);
    if !ok {
      return key, "", Some(ForbiddenSymbol(key));
    }
    if |parts| < 2 {
      return key, "", Some(MissingColon(line));
    }
    value := TrimSpace(parts[1]);
    ScanLineAccepts(line, parts[0], parts[1]);
    err := None;
  }
}
