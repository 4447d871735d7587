/**
 * The handful of Python string operations the portal client, the course page and the
 * calendar export rely on: `in`, `str.strip()`, `str.split(c)`, `str.replace(c, '')`,
 * `int(...)` and `f"{n}"`, all on strings of code points.
 */
module Strings {
  import opened Wrappers

  /** A code point in the CJK Unified Ideographs block, U+4E00..U+9FFF. */
  predicate IsCjk(c: char) {
    '\U{4E00}' <= c <= '\U{9FFF}'
  }

  /** `any('一' <= c <= '鿿' for c in s)` */
  predicate HasCjk(s: string) {
    exists i :: 0 <= i < |s| && IsCjk(s[i])
  }

  predicate StartsWith(s: string, prefix: string) {
    |prefix| <= |s| && s[..|prefix|] == prefix
  }

  /** `sub` occurs in `s` starting at position i. */
  predicate OccursAt(s: string, sub: string, i: int) {
    0 <= i && i + |sub| <= |s| && s[i..i + |sub|] == sub
  }

  /** An occurrence in the tail of `s` is an occurrence in `s` one position later, and back. */
  lemma OccursAfterHead(s: string, sub: string)
    ensures OccursAt(s, sub, 0) <==> StartsWith(s, sub)
    ensures |s| > 0 ==> forall i :: OccursAt(s[1..], sub, i) ==> OccursAt(s, sub, i + 1)
    ensures |s| > 0 ==> forall i :: 1 <= i && OccursAt(s, sub, i) ==> OccursAt(s[1..], sub, i - 1)
  {
    if |s| > 0 {
      forall i | OccursAt(s[1..], sub, i) ensures OccursAt(s, sub, i + 1) {
        assert s[i + 1..i + 1 + |sub|] == s[1..][i..i + |sub|];
      }
      forall i | 1 <= i && OccursAt(s, sub, i) ensures OccursAt(s[1..], sub, i - 1) {
        var j := i - 1;
        assert s[j + 1..j + 1 + |sub|] == s[1..][j..j + |sub|];
      }
    }
  }

  /** Python's `sub in s` on strings: some position of `s` starts an occurrence of `sub`. */
  predicate Contains(s: string, sub: string): (b: bool)
    ensures b <==> exists i :: OccursAt(s, sub, i)
    decreases |s|
  {
    OccursAfterHead(s, sub);
    StartsWith(s, sub) || (|s| > 0 && Contains(s[1..], sub))
  }

  /** The characters for which Python's `str.isspace()` holds. */
  predicate IsSpace(c: char) {
    ('\t' <= c <= '\r') || ('\U{1C}' <= c <= '\U{1F}') || c == ' ' || c == '\U{85}' || c == '\U{A0}'
    || c == '\U{1680}' || ('\U{2000}' <= c <= '\U{200A}') || c == '\U{2028}' || c == '\U{2029}'
    || c == '\U{202F}' || c == '\U{205F}' || c == '\U{3000}'
  }

  /** The end of the run of whitespace that starts at position i. */
  function SpaceRunEnd(s: string, i: nat): (n: nat)
    requires i <= |s|
    ensures i <= n <= |s|
    decreases |s| - i
  {
    if i < |s| && IsSpace(s[i]) then SpaceRunEnd(s, i + 1) else i
  }

  /** The run ending at SpaceRunEnd is all whitespace, and the character after it is not. */
  lemma {:induction false} SpaceRunEndIsRun(s: string, i: nat)
    requires i <= |s|
    ensures forall k {:trigger IsSpace(s[k])} :: i <= k < SpaceRunEnd(s, i) ==> IsSpace(s[k])
    ensures SpaceRunEnd(s, i) == |s| || !IsSpace(s[SpaceRunEnd(s, i)])
    decreases |s| - i
  {
    if i < |s| && IsSpace(s[i]) {
      SpaceRunEndIsRun(s, i + 1);
    }
  }

  /** The start of the run of whitespace that ends just before position j. */
  function SpaceRunStart(s: string, j: nat): (n: nat)
    requires j <= |s|
    ensures n <= j
    decreases j
  {
    if j > 0 && IsSpace(s[j - 1]) then SpaceRunStart(s, j - 1) else j
  }

  /** The run starting at SpaceRunStart is all whitespace, and the character before it is not. */
  lemma {:induction false} SpaceRunStartIsRun(s: string, j: nat)
    requires j <= |s|
    ensures forall k {:trigger IsSpace(s[k])} :: SpaceRunStart(s, j) <= k < j ==> IsSpace(s[k])
    ensures SpaceRunStart(s, j) == 0 || !IsSpace(s[SpaceRunStart(s, j) - 1])
    decreases j
  {
    if j > 0 && IsSpace(s[j - 1]) {
      SpaceRunStartIsRun(s, j - 1);
    }
  }

  /** Python's `s.lstrip()`: drops the leading run of whitespace. */
  function TrimLeft(s: string): string {
    s[SpaceRunEnd(s, 0)..]
  }

  /** Python's `s.rstrip()`: drops the trailing run of whitespace. */
  function TrimRight(s: string): string {
    s[..SpaceRunStart(s, |s|)]
  }

  /** Python's `s.strip()`: a text that neither starts nor ends with whitespace is kept as it is. */
  function Strip(s: string): (r: string)
    ensures |r| <= |s|
    ensures s == [] || (!IsSpace(s[0]) && !IsSpace(s[|s| - 1])) ==> r == s
  {
    TrimRight(TrimLeft(s))
  }

  /**
   * `strip()` keeps a contiguous middle part: what it removes on either side is whitespace,
   * and what it keeps neither starts nor ends with whitespace.
   */
  lemma StripIsMiddle(s: string)
    ensures exists i, j :: (0 <= i <= j <= |s| && Strip(s) == s[i..j]
      && (forall k :: 0 <= k < i ==> IsSpace(s[k])) && (forall k :: j <= k < |s| ==> IsSpace(s[k])))
    ensures Strip(s) == [] || (!IsSpace(Strip(s)[0]) && !IsSpace(Strip(s)[|Strip(s)| - 1]))
  {
    var i := SpaceRunEnd(s, 0);
    SpaceRunEndIsRun(s, 0);
    var l := s[i..];
    var e := SpaceRunStart(l, |l|);
    SpaceRunStartIsRun(l, |l|);
    var j := i + e;
    assert Strip(s) == l[..e] == s[i..j];
    forall k | j <= k < |s| ensures IsSpace(s[k]) {
      assert s[k] == l[k - i];
    }
    var m := Strip(s);
    if m != [] {
      assert m[0] == l[0] && m[|m| - 1] == l[e - 1];
    }
  }

  /** Python's `s.split(sep)` for a one-character separator: never an empty list. */
  function Split(s: string, sep: char): (parts: seq<string>)
    ensures |parts| >= 1
    decreases |s|
  {
    if s == [] then [""]
    else
      var rest := Split(s[1..], sep);
      if s[0] == sep then [""] + rest else [[s[0]] + rest[0]] + rest[1..]
  }

  /** `sep.join(parts)`, the inverse of Split. */
  function Join(parts: seq<string>, sep: char): string
    decreases |parts|
  {
    if parts == [] then ""
    else if |parts| == 1 then parts[0]
    else parts[0] + [sep] + Join(parts[1..], sep)
  }

  /** Splitting loses nothing: joining the parts back gives the input, and no part holds the separator. */
  lemma {:induction false} SplitJoin(s: string, sep: char)
    ensures Join(Split(s, sep), sep) == s
    ensures forall i :: 0 <= i < |Split(s, sep)| ==> sep !in Split(s, sep)[i]
    decreases |s|
  {
    if s != [] {
      var rest := Split(s[1..], sep);
      SplitJoin(s[1..], sep);
      var parts := Split(s, sep);
      if s[0] == sep {
        assert parts == [""] + rest;
        assert parts[1..] == rest;
        assert s == [sep] + s[1..];
      } else {
        assert parts == [[s[0]] + rest[0]] + rest[1..];
        if |rest| == 1 {
          assert s == [s[0]] + s[1..];
        } else {
          assert parts[1..] == rest[1..];
          assert Join(rest, sep) == rest[0] + [sep] + Join(rest[1..], sep);
          assert s == [s[0]] + s[1..];
        }
        forall i | 0 <= i < |parts| ensures sep !in parts[i] {
          if i > 0 {
            assert parts[i] == rest[i];
          }
        }
      }
    }
  }

  /** `s.split(sep)[0]` is the text before the first separator (all of `s` when there is none). */
  lemma SplitHead(s: string, sep: char)
    ensures var h := Split(s, sep)[0];
      StartsWith(s, h) && sep !in h && (|h| == |s| || s[|h|] == sep)
  {
    var parts := Split(s, sep);
    SplitJoin(s, sep);
    if |parts| > 1 {
      assert s == parts[0] + [sep] + Join(parts[1..], sep);
      assert s[..|parts[0]|] == parts[0];
    } else {
      assert s == parts[0];
    }
  }

  /** When `s` holds a separator, `s.split(sep)[1]` is the text between the first and the second one. */
  lemma SplitSecond(s: string, sep: char)
    requires |Split(s, sep)| >= 2
    ensures var parts := Split(s, sep);
      var n := |parts[0]|;
      n < |s| && s[n] == sep && sep !in parts[1] && StartsWith(s[n + 1..], parts[1])
      && (|s| == n + 1 + |parts[1]| || s[n + 1 + |parts[1]|] == sep)
  {
    var parts := Split(s, sep);
    SplitJoin(s, sep);
    var tail := Join(parts[1..], sep);
    assert s == parts[0] + [sep] + tail;
    assert s[|parts[0]| + 1..] == tail;
    if |parts| > 2 {
      assert parts[1..][1..] == parts[2..];
      assert tail == parts[1] + [sep] + Join(parts[2..], sep);
    } else {
      assert tail == parts[1];
    }
  }

  /** A string splits into more than one part exactly when it holds the separator. */
  lemma SplitHasSeparator(s: string, sep: char)
    ensures |Split(s, sep)| >= 2 <==> sep in s
  {
    SplitJoin(s, sep);
    if |Split(s, sep)| < 2 {
      assert Join(Split(s, sep), sep) == Split(s, sep)[0];
    } else {
      SplitSecond(s, sep);
    }
  }

  /** Python's `s.replace(c, '')` for a one-character `c`. */
  function RemoveAll(s: string, c: char): (r: string)
    ensures |r| <= |s|
    ensures c !in r
    ensures forall x :: x != c ==> (x in r <==> x in s)
    decreases |s|
  {
    if s == [] then []
    else
      var rest := RemoveAll(s[1..], c);
      assert s == [s[0]] + s[1..];
      if s[0] == c then rest else [s[0]] + rest
  }

  /** Nothing to remove leaves the string as it is. */
  lemma {:induction false} RemoveAllAbsent(s: string, c: char)
    requires c !in s
    ensures RemoveAll(s, c) == s
    decreases |s|
  {
    if s != [] {
      assert s[0] != c;
      assert c !in s[1..];
      RemoveAllAbsent(s[1..], c);
    }
  }

  /** Removing a character from a concatenation removes it from each part, keeping the order. */
  lemma {:induction false} RemoveAllAppend(a: string, b: string, c: char)
    ensures RemoveAll(a + b, c) == RemoveAll(a, c) + RemoveAll(b, c)
    decreases |a|
  {
    if a == [] {
      assert a + b == b;
    } else {
      assert (a + b)[0] == a[0];
      assert (a + b)[1..] == a[1..] + b;
      RemoveAllAppend(a[1..], b, c);
    }
  }

  predicate IsDigit(c: char) {
    '0' <= c <= '9'
  }

  predicate AllDigits(s: string) {
    forall i :: 0 <= i < |s| ==> IsDigit(s[i])
  }

  function DigitValue(c: char): nat
    requires IsDigit(c)
  {
    c as int - '0' as int
  }

  function DigitChar(d: nat): char
    requires d < 10
  {
    ('0' as int + d) as char
  }

  /** The value of a string of decimal digits, most significant first. */
  function DigitsValue(s: string): nat
    requires AllDigits(s)
    decreases |s|
  {
    if s == [] then 0 else DigitsValue(s[..|s| - 1]) * 10 + DigitValue(s[|s| - 1])
  }

  /** `f"{n}"` for a non-negative integer. */
  function NatToString(n: nat): (r: string)
    ensures |r| >= 1 && AllDigits(r)
    decreases n
  {
    if n < 10 then [DigitChar(n)] else NatToString(n / 10) + [DigitChar(n % 10)]
  }

  /** `f"{i}"` for any integer. */
  function IntToString(i: int): string {
    if i < 0 then "-" + NatToString(-i) else NatToString(i)
  }

  /** Reading back the decimal text of a number gives the number. */
  lemma {:induction false} NatToStringRoundTrip(n: nat)
    ensures DigitsValue(NatToString(n)) == n
    decreases n
  {
    if n >= 10 {
      var prefix := NatToString(n / 10);
      var s := NatToString(n);
      NatToStringRoundTrip(n / 10);
      assert s == prefix + [DigitChar(n % 10)];
      assert s[..|s| - 1] == prefix;
    }
  }

  /** The digits of an integer literal with optional single underscores between digits. */
  predicate IsDigitGroups(s: string) {
    |s| > 0 && IsDigit(s[0]) && IsDigit(s[|s| - 1])
    && (forall i :: 0 <= i < |s| ==> IsDigit(s[i]) || s[i] == '_')
    && (forall i :: 0 < i < |s| ==> !(s[i - 1] == '_' && s[i] == '_'))
  }

  lemma DigitGroupsWithoutUnderscores(s: string)
    requires IsDigitGroups(s)
    ensures AllDigits(RemoveAll(s, '_'))
  {
    var r := RemoveAll(s, '_');
    forall i | 0 <= i < |r| ensures IsDigit(r[i]) {
      assert r[i] in r;
      assert r[i] in s;
    }
  }

  /** The separators U+001C..U+001F: `str.isspace()` holds for them, but `int()` does not skip them. */
  predicate IsSeparatorControl(c: char) {
    '\U{1C}' <= c <= '\U{1F}'
  }

  predicate HasSeparatorControl(s: string) {
    exists i :: 0 <= i < |s| && IsSeparatorControl(s[i])
  }

  /**
   * Python's `int(s)` on ASCII decimal text: surrounding whitespace, an optional sign and
   * underscores between digits are accepted; anything else raises (None). `int()` skips the
   * whitespace `strip()` removes except U+001C..U+001F, so a text holding one of those raises.
   */
  function ParseInt(s: string): (r: Option<int>)
    ensures HasSeparatorControl(s) ==> r.None?
  {
    if HasSeparatorControl(s) then None
    else
      var t := Strip(s);
      var signed := t != [] && (t[0] == '+' || t[0] == '-');
      var body := if signed then t[1..] else t;
      if IsDigitGroups(body) then
        DigitGroupsWithoutUnderscores(body);
        var n: int := DigitsValue(RemoveAll(body, '_'));
        Some(if signed && t[0] == '-' then -n else n)
      else None
  }

  /** `int()` of plain decimal digits is their value. */
  lemma ParseIntOfDigits(s: string)
    requires |s| > 0 && AllDigits(s)
    ensures ParseInt(s) == Some(DigitsValue(s))
  {
    assert IsDigit(s[0]) && IsDigit(s[|s| - 1]);
    assert Strip(s) == s;
    assert s[0] != '+' && s[0] != '-';
    assert IsDigitGroups(s);
    assert !HasSeparatorControl(s) by {
      forall i | 0 <= i < |s| ensures !IsSeparatorControl(s[i]) {
        assert IsDigit(s[i]);
      }
    }
    assert '_' !in s by {
      forall i | 0 <= i < |s| ensures s[i] != '_' { assert IsDigit(s[i]); }
    }
    RemoveAllAbsent(s, '_');
    assert DigitsValue(RemoveAll(s, '_')) == DigitsValue(s);
  }
}
