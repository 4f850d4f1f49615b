/**
 * Byte-string helpers used by the protocol core.
 *
 * The Go code works on `[]byte` and `string`, both of which are sequences of
 * octets.  Here a byte string is a `seq<char>` in which every char stands for
 * one octet.  The helpers mirror the library calls the core relies on:
 * `bytes.Index(data, "\r\n")`, `strings.Split`, `bytes.SplitN(.., ":", 2)`,
 * `strings.TrimRight(.., " ")`, `strings.TrimSpace` / `bytes.TrimSpace`,
 * `strings.ToLower`, and the `%d` / `%x` verbs of `fmt.Sprintf`.
 */
module Octets {

  const CRLF: string := "\r\n"

  /** A CRLF pair starts at index i of s. */
  predicate CrlfAt(s: string, i: int)
  {
    0 <= i && i + 1 < |s| && s[i] == '\r' && s[i + 1] == '\n'
  }

  /** No CRLF pair starts before index n of s. */
  predicate NoCrlfBefore(s: string, n: int)
  {
    forall j :: 0 <= j < n ==> !CrlfAt(s, j)
  }

  /** s contains no CRLF pair at all. */
  predicate NoCrlf(s: string)
  {
    NoCrlfBefore(s, |s|)
  }

  /** The first CRLF pair that starts at or after index k of s, or -1. */
  function FindCrlfFrom(s: string, k: nat): (i: int)
    requires k <= |s|
    ensures i == -1 || (k <= i && CrlfAt(s, i))
    ensures forall j :: k <= j < (if i == -1 then |s| else i) ==> !CrlfAt(s, j)
    decreases |s| - k
  {
    if k + 1 >= |s| then -1
    else if s[k] == '\r' && s[k + 1] == '\n' then k
    else FindCrlfFrom(s, k + 1)
  }

  /**
   * `bytes.Index(s, "\r\n")`: the index of the first CRLF pair, or -1 when
   * there is none.
   */
  function FindCrlf(s: string): (i: int)
    ensures i == -1 || CrlfAt(s, i)
    ensures i == -1 ==> NoCrlf(s)
    ensures i >= 0 ==> NoCrlfBefore(s, i)
  {
    FindCrlfFrom(s, 0)
  }

  /** The text up to and including a CRLF is what precedes it, then CRLF. */
  lemma CrlfPrefix(s: string, i: nat)
    requires CrlfAt(s, i)
    ensures s[..i + 2] == s[..i] + CRLF
  {
  }

  /** The first CRLF of a is also the first CRLF of any extension of a. */
  lemma FindCrlfExtend(a: string, b: string)
    requires FindCrlf(a) >= 0
    ensures FindCrlf(a + b) == FindCrlf(a)
  {
    var i := FindCrlf(a);
    assert CrlfAt(a + b, i);
    assert forall j :: 0 <= j <= i ==> (CrlfAt(a + b, j) <==> CrlfAt(a, j));
  }

  /** A string ending in CRLF whose body has no CRLF has its first CRLF at the end. */
  lemma FindCrlfOfLine(line: string, rest: string)
    requires NoCrlf(line)
    requires |line| == 0 || line[|line| - 1] != '\r'
    ensures FindCrlf(line + CRLF + rest) == |line|
  {
    var s := line + CRLF + rest;
    assert CrlfAt(s, |line|);
    forall j | 0 <= j < |line|
      ensures !CrlfAt(s, j)
    {
      if j + 1 < |line| {
        assert !CrlfAt(line, j);
      }
    }
  }

  /** s is the text before index i, the octet at i and the text after it. */
  lemma Around(s: string, i: nat)
    requires i < |s|
    ensures s == s[..i] + [s[i]] + s[i + 1..]
  {
    assert s[..i + 1] == s[..i] + [s[i]];
    assert s == s[..i + 1] + s[i + 1..];
  }

  /** The first index at or after k where c occurs in s, or -1. */
  function IndexFrom(s: string, c: char, k: nat): (i: int)
    requires k <= |s|
    ensures i == -1 || (k <= i < |s| && s[i] == c)
    ensures forall j :: k <= j < (if i == -1 then |s| else i) ==> s[j] != c
    decreases |s| - k
  {
    if k == |s| then -1
    else if s[k] == c then k
    else IndexFrom(s, c, k + 1)
  }

  /** The index of the first occurrence of c in s, or -1. */
  function IndexOf(s: string, c: char): (i: int)
    ensures -1 <= i < |s|
    ensures i == -1 <==> c !in s
    ensures i >= 0 ==> s[i] == c && forall j :: 0 <= j < i ==> s[j] != c
  {
    IndexFrom(s, c, 0)
  }

  /** `strings.Split(s, sep)` for a one-character separator. */
  function Split(s: string, c: char): (parts: seq<string>)
    ensures |parts| >= 1 && |parts| <= |s| + 1
    decreases |s|
  {
    var i := IndexOf(s, c);
    if i < 0 then [s] else [s[..i]] + Split(s[i + 1..], c)
  }

  /** No piece of a split holds the separator. */
  lemma {:induction false} SplitPiecesFree(s: string, c: char)
    ensures forall k :: 0 <= k < |Split(s, c)| ==> c !in Split(s, c)[k]
    decreases |s|
  {
    var i := IndexOf(s, c);
    if i >= 0 {
      SplitPiecesFree(s[i + 1..], c);
      assert Split(s, c) == [s[..i]] + Split(s[i + 1..], c);
    }
  }

  /** `strings.Join(parts, sep)` for a one-character separator: Split's inverse. */
  function Join(parts: seq<string>, c: char): string
    requires |parts| >= 1
  {
    if |parts| == 1 then parts[0] else parts[0] + [c] + Join(parts[1..], c)
  }

  /** Join of a piece in front of at least one more piece. */
  lemma JoinCons(x: string, rest: seq<string>, c: char)
    requires |rest| >= 1
    ensures Join([x] + rest, c) == x + [c] + Join(rest, c)
  {
    assert ([x] + rest)[1..] == rest;
  }

  /** Joining the pieces of a split gives back the original string. */
  lemma {:induction false} JoinSplit(s: string, c: char)
    ensures Join(Split(s, c), c) == s
    decreases |s|
  {
    var i := IndexOf(s, c);
    if i >= 0 {
      var tail := s[i + 1..];
      JoinSplit(tail, c);
      JoinCons(s[..i], Split(tail, c), c);
      Around(s, i);
    }
  }

  /** In x + [c] + y with c not in x, the first c sits right after x. */
  lemma Locate(x: string, c: char, y: string)
    requires c !in x
    ensures IndexOf(x + [c] + y, c) == |x|
    ensures (x + [c] + y)[..|x|] == x && (x + [c] + y)[|x| + 1..] == y
  {
    var s := x + [c] + y;
    assert s[|x|] == c;
    assert forall j :: 0 <= j < |x| ==> s[j] == x[j];
  }

  /** Splitting a join of separator-free pieces gives back the pieces. */
  lemma {:induction false} SplitJoin(parts: seq<string>, c: char)
    requires |parts| >= 1
    requires forall k :: 0 <= k < |parts| ==> c !in parts[k]
    ensures Split(Join(parts, c), c) == parts
  {
    if |parts| > 1 {
      var tail := Join(parts[1..], c);
      assert Join(parts, c) == parts[0] + [c] + tail;
      SplitAfterFirst(parts[0], c, tail);
      SplitJoin(parts[1..], c);
      assert parts == [parts[0]] + parts[1..];
    }
  }

  /** Splitting text free of c gives the text back as the only piece. */
  lemma SplitNone(x: string, c: char)
    requires c !in x
    ensures Split(x, c) == [x]
  {
  }

  /** Split takes the c-free text before the first c as its first piece. */
  lemma SplitAfterFirst(x: string, c: char, y: string)
    requires c !in x
    ensures Split(x + [c] + y, c) == [x] + Split(y, c)
  {
    Locate(x, c, y);
  }

  /** Splitting two c-free pieces joined by c gives the two pieces. */
  lemma SplitTwo(x: string, c: char, y: string)
    requires c !in x && c !in y
    ensures Split(x + [c] + y, c) == [x, y]
  {
    SplitAfterFirst(x, c, y);
    SplitNone(y, c);
  }

  /** Splitting three c-free pieces joined by c gives the three pieces. */
  lemma SplitThree(x: string, c: char, y: string, z: string)
    requires c !in x && c !in y && c !in z
    ensures Split(x + [c] + y + [c] + z, c) == [x, y, z]
  {
    var parts := [x, y, z];
    assert forall k :: 0 <= k < |parts| ==> c !in parts[k];
    SplitJoin(parts, c);
    JoinThree(parts, c);
  }

  /** Join of two pieces. */
  lemma JoinTwo(parts: seq<string>, c: char)
    requires |parts| == 2
    ensures Join(parts, c) == parts[0] + [c] + parts[1]
  {
    assert Join(parts[1..], c) == parts[1];
  }

  /** Join of three pieces. */
  lemma JoinThree(parts: seq<string>, c: char)
    requires |parts| == 3
    ensures Join(parts, c) == parts[0] + [c] + parts[1] + [c] + parts[2]
  {
    JoinTwo(parts[1..], c);
  }

  /**
   * `bytes.SplitN(s, [c], 2)`: the whole string when c does not occur,
   * otherwise the part before the first c and the part after it.
   */
  function SplitFirst(s: string, c: char): (parts: seq<string>)
    ensures |parts| == 1 <==> c !in s
    ensures |parts| == 1 || |parts| == 2
    ensures c !in parts[0]
  {
    var i := IndexOf(s, c);
    if i < 0 then [s]
    else
      Around(s, i);
      [s[..i], s[i + 1..]]
  }

  /** The two parts of SplitFirst are the text around the first c. */
  lemma SplitFirstParts(s: string, c: char)
    ensures |SplitFirst(s, c)| == 1 ==> SplitFirst(s, c)[0] == s
    ensures |SplitFirst(s, c)| == 2 ==> s == SplitFirst(s, c)[0] + [c] + SplitFirst(s, c)[1]
  {
    var i := IndexOf(s, c);
    if i >= 0 {
      Around(s, i);
    }
  }

  /** `strings.TrimRight(s, cutset)` for a one-character cutset. */
  function TrimRight(s: string, c: char): (r: string)
    ensures |r| <= |s|
    ensures |r| == 0 || r[|r| - 1] != c
    ensures r == s <==> (|s| == 0 || s[|s| - 1] != c)
    decreases |s|
  {
    if |s| > 0 && s[|s| - 1] == c then TrimRight(s[..|s| - 1], c) else s
  }

  /** TrimRight keeps a prefix of s and removes only copies of c after it. */
  lemma {:induction false} TrimRightPrefix(s: string, c: char)
    ensures TrimRight(s, c) == s[..|TrimRight(s, c)|]
    ensures forall j :: |TrimRight(s, c)| <= j < |s| ==> s[j] == c
    decreases |s|
  {
    if |s| > 0 && s[|s| - 1] == c {
      TrimRightPrefix(s[..|s| - 1], c);
    }
  }

  /** The ASCII white space that `strings.TrimSpace` removes. */
  predicate IsSpace(c: char)
  {
    c == ' ' || c == '\t' || c == '\n' || c == '\U{0B}' || c == '\U{0C}' || c == '\r'
  }

  /** s neither starts nor ends with white space. */
  predicate Trimmed(s: string)
  {
    |s| == 0 || (!IsSpace(s[0]) && !IsSpace(s[|s| - 1]))
  }

  /** The loop of `TrimSpace` that advances the start past white space. */
  function TrimLeftSpace(s: string): (r: string)
    ensures |r| <= |s|
    ensures |r| == 0 || !IsSpace(r[0])
    decreases |s|
  {
    if |s| > 0 && IsSpace(s[0]) then TrimLeftSpace(s[1..]) else s
  }

  /** The loop of `TrimSpace` that moves the stop back past white space. */
  function TrimRightSpace(s: string): (r: string)
    ensures |r| <= |s|
    ensures |r| == 0 || (!IsSpace(r[|r| - 1]) && r[0] == s[0])
    decreases |s|
  {
    if |s| > 0 && IsSpace(s[|s| - 1]) then TrimRightSpace(s[..|s| - 1]) else s
  }

  /** The number of white-space octets at the front of s. */
  function Lead(s: string): nat
  {
    |s| - |TrimLeftSpace(s)|
  }

  /**
   * `strings.TrimSpace`: drops the leading and the trailing white space
   * (TrimSpaceMiddle below states what is kept).
   */
  function TrimSpace(s: string): (r: string)
    ensures Trimmed(r)
    ensures |r| <= |s|
  {
    TrimRightSpace(TrimLeftSpace(s))
  }

  /** TrimLeftSpace keeps the tail of s after its leading white space. */
  lemma {:induction false} TrimLeftSpaceSuffix(s: string)
    ensures TrimLeftSpace(s) == s[Lead(s)..]
    ensures forall j :: 0 <= j < Lead(s) ==> IsSpace(s[j])
    decreases |s|
  {
    if |s| > 0 && IsSpace(s[0]) {
      TrimLeftSpaceSuffix(s[1..]);
      assert s[1..][Lead(s[1..])..] == s[Lead(s)..];
      forall j | 0 <= j < Lead(s)
        ensures IsSpace(s[j])
      {
        if j > 0 {
          assert s[j] == s[1..][j - 1];
        }
      }
    }
  }

  /** TrimRightSpace keeps a prefix of s and removes only white space after it. */
  lemma {:induction false} TrimRightSpacePrefix(s: string)
    ensures TrimRightSpace(s) == s[..|TrimRightSpace(s)|]
    ensures forall j :: |TrimRightSpace(s)| <= j < |s| ==> IsSpace(s[j])
    decreases |s|
  {
    if |s| > 0 && IsSpace(s[|s| - 1]) {
      TrimRightSpacePrefix(s[..|s| - 1]);
    }
  }

  /**
   * TrimSpace keeps the middle of s untouched and removes only white space
   * on either side of it.
   */
  lemma TrimSpaceMiddle(s: string)
    ensures Lead(s) + |TrimSpace(s)| <= |s|
    ensures TrimSpace(s) == s[Lead(s)..Lead(s) + |TrimSpace(s)|]
    ensures forall j :: 0 <= j < Lead(s) ==> IsSpace(s[j])
    ensures forall j :: Lead(s) + |TrimSpace(s)| <= j < |s| ==> IsSpace(s[j])
  {
    var t := TrimLeftSpace(s);
    TrimLeftSpaceSuffix(s);
    TrimRightSpacePrefix(t);
    var r := TrimRightSpace(t);
    forall j | Lead(s) + |r| <= j < |s|
      ensures IsSpace(s[j])
    {
      assert s[j] == t[j - Lead(s)];
    }
  }

  /** Trimming a string that is already trimmed changes nothing. */
  lemma TrimSpaceTrimmed(s: string)
    requires Trimmed(s)
    ensures TrimSpace(s) == s
  {
  }

  /** One space in front of a trimmed value is all that TrimSpace removes. */
  lemma TrimSpacePadded(v: string)
    requires Trimmed(v)
    ensures TrimSpace(" " + v) == v
  {
    var s := " " + v;
    if |v| == 0 {
      assert TrimRightSpace(s) == TrimRightSpace("");
    } else {
      assert TrimRightSpace(s) == s;
      assert TrimLeftSpace(s) == TrimLeftSpace(s[1..]);
      assert s[1..] == v;
    }
  }

  /** ASCII lower-casing of one octet. */
  function LowerChar(c: char): char
  {
    if 'A' <= c <= 'Z' then (c as int + 32) as char else c
  }

  predicate IsLower(s: string)
  {
    forall i :: 0 <= i < |s| ==> !('A' <= s[i] <= 'Z')
  }

  /** `strings.ToLower` restricted to ASCII. */
  function ToLower(s: string): (r: string)
    ensures |r| == |s|
  {
    seq(|s|, i requires 0 <= i < |s| => LowerChar(s[i]))
  }

  /** Lower-casing maps every octet by itself and leaves no upper-case letter. */
  lemma ToLowerAt(s: string)
    ensures forall i :: 0 <= i < |s| ==> ToLower(s)[i] == LowerChar(s[i])
    ensures IsLower(ToLower(s))
  {
  }

  /** Lower-casing is the identity on strings without upper-case letters. */
  lemma ToLowerOfLower(s: string)
    requires IsLower(s)
    ensures ToLower(s) == s
  {
    ToLowerAt(s);
  }

  predicate IsDigit(c: char)
  {
    '0' <= c <= '9'
  }

  predicate IsLowerHexDigit(c: char)
  {
    '0' <= c <= '9' || 'a' <= c <= 'f'
  }

  function DigitValue(c: char): nat
  {
    if '0' <= c <= '9' then c as int - '0' as int
    else if 'a' <= c <= 'f' then c as int - 'a' as int + 10
    else 0
  }

  /** The lower-case digit for a value below 16. */
  function DigitChar(d: nat): (c: char)
    requires d < 16
    ensures IsLowerHexDigit(c) && DigitValue(c) == d
  {
    if d < 10 then ('0' as int + d) as char else ('a' as int + d - 10) as char
  }

  /** Digits of n in the given base, most significant first, no leading zero. */
  function Digits(n: nat, base: nat): (r: string)
    requires base == 10 || base == 16
    ensures |r| >= 1
    ensures forall i :: 0 <= i < |r| ==> IsLowerHexDigit(r[i]) && DigitValue(r[i]) < base
    ensures r[0] == '0' <==> n == 0
    decreases n
  {
    var d := DigitChar(n % base);
    if n < base then [d] else Digits(n / base, base) + [d]
  }

  /** The value of a digit string in the given base. */
  function DigitsValue(s: string, base: nat): nat
  {
    if |s| == 0 then 0 else DigitsValue(s[..|s| - 1], base) * base + DigitValue(s[|s| - 1])
  }

  lemma {:induction false} DigitsRoundTrip(n: nat, base: nat)
    requires base == 10 || base == 16
    ensures DigitsValue(Digits(n, base), base) == n
    decreases n
  {
    var r := Digits(n, base);
    assert DigitValue(r[|r| - 1]) == n % base;
    if n >= base {
      var q := n / base;
      DigitsRoundTrip(q, base);
      assert r[..|r| - 1] == Digits(q, base);
      assert DigitsValue(r, base) == q * base + n % base;
    }
  }

  /** `fmt.Sprintf("%d", n)`. */
  function Decimal(n: int): string
  {
    if n < 0 then "-" + Digits(-n, 10) else Digits(n, 10)
  }

  /** Reads back a string produced by Decimal. */
  function DecimalValue(s: string): int
  {
    if |s| > 0 && s[0] == '-' then 0 - DigitsValue(s[1..], 10) else DigitsValue(s, 10)
  }

  /** Base-10 digits are decimal digits. */
  lemma DecimalDigits(m: nat)
    ensures forall i :: 0 <= i < |Digits(m, 10)| ==> IsDigit(Digits(m, 10)[i])
  {
    var d := Digits(m, 10);
    forall i | 0 <= i < |d|
      ensures IsDigit(d[i])
    {
      assert IsLowerHexDigit(d[i]) && DigitValue(d[i]) < 10;
    }
  }

  /** Decimal formatting is canonical (no leading zero) and reads back as n. */
  lemma DecimalRoundTrip(n: int)
    ensures DecimalValue(Decimal(n)) == n
    ensures Decimal(n) != ""
    ensures forall i :: (if n < 0 then 1 else 0) <= i < |Decimal(n)| ==> IsDigit(Decimal(n)[i])
    ensures Decimal(n)[0] == '-' <==> n < 0
    ensures n > 0 ==> Decimal(n)[0] != '0'
    ensures n < 0 ==> |Decimal(n)| >= 2 && Decimal(n)[1] != '0'
  {
    var m: nat := if n < 0 then -n else n;
    var d := Digits(m, 10);
    DigitsRoundTrip(m, 10);
    DecimalDigits(m);
    assert d[0] != '-';
    if n < 0 {
      var s := "-" + d;
      assert Decimal(n) == s;
      assert s[1..] == d;
      assert s[1] == d[0];
      assert DecimalValue(s) == 0 - DigitsValue(d, 10);
      assert forall i :: 0 < i < |s| ==> s[i] == d[i - 1];
    } else {
      assert Decimal(n) == d;
    }
  }

  /** `fmt.Sprintf("%x", n)` for a non-negative n: lower-case hexadecimal. */
  function LowerHex(n: nat): (r: string)
    ensures |r| >= 1 && forall i :: 0 <= i < |r| ==> IsLowerHexDigit(r[i])
    ensures r[0] == '0' <==> n == 0
  {
    Digits(n, 16)
  }

  /** Lower-case hex formatting reads back as n. */
  lemma HexRoundTrip(n: nat)
    ensures DigitsValue(LowerHex(n), 16) == n
  {
    DigitsRoundTrip(n, 16);
  }
}
