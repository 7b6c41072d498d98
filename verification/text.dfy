/** Character-level helpers: Python's `str.strip()` and `str.isspace()` on
    Latin-1 text (the dataset is decoded as Latin-1, so no other characters
    occur), Python's ordering of strings, and decimal digits. */
module Text {

  /** `str.isspace()` on a Latin-1 character: TAB..CR, the four information
      separators, SPACE, NEXT LINE and NO-BREAK SPACE. */
  predicate IsSpace(c: char)
  {
    var k := c as int;
    (9 <= k <= 13) || (28 <= k <= 32) || k == 0x85 || k == 0xA0
  }

  /** Neither the first nor the last character is whitespace. */
  predicate IsTrimmed(s: string)
  {
    |s| == 0 || (!IsSpace(s[0]) && !IsSpace(s[|s| - 1]))
  }

  /** `str.lstrip()`: the longest suffix that does not start with whitespace. */
  function TrimStart(s: string): (r: string)
    ensures |r| <= |s| && r == s[|s| - |r|..]
    ensures forall i :: 0 <= i < |s| - |r| ==> IsSpace(s[i])
    ensures |r| > 0 ==> !IsSpace(r[0])
  {
    if |s| > 0 && IsSpace(s[0]) then TrimStart(s[1..]) else s
  }

  /** `str.rstrip()`: the longest prefix that does not end with whitespace. */
  function TrimEnd(s: string): (r: string)
    ensures |r| <= |s| && r == s[..|r|]
    ensures forall i :: |r| <= i < |s| ==> IsSpace(s[i])
    ensures |r| > 0 ==> !IsSpace(r[|r| - 1])
  {
    if |s| > 0 && IsSpace(s[|s| - 1]) then TrimEnd(s[..|s| - 1]) else s
  }

  /** `str.strip()`: no whitespace left at either end. */
  function Strip(s: string): (r: string)
    ensures IsTrimmed(r)
    ensures |r| <= |s|
  {
    TrimEnd(TrimStart(s))
  }

  /** The strip is a slice of `s` that drops only whitespace on either side. */
  lemma {:induction false} StripIsSlice(s: string)
    ensures exists i, j :: 0 <= i <= j <= |s| && Strip(s) == s[i..j]
                        && (forall k :: 0 <= k < i ==> IsSpace(s[k]))
                        && (forall k :: j <= k < |s| ==> IsSpace(s[k]))
  {
    var t := TrimStart(s);
    var r := TrimEnd(t);
    var i := |s| - |t|;
    assert r == s[i..i + |r|];
  }

  /** Stripping is idempotent: a stripped value is its own strip. */
  lemma {:induction false} StripIdempotent(s: string)
    ensures Strip(Strip(s)) == Strip(s)
  {
    var r := Strip(s);
    assert TrimStart(r) == r;
    assert TrimEnd(r) == r;
  }

  /** A value without whitespace at its ends is its own strip. */
  lemma {:induction false} StripKeepsTrimmed(s: string)
    requires IsTrimmed(s)
    ensures Strip(s) == s
  {
    assert TrimStart(s) == s;
  }

  /** Trailing padding is removed by the strip. */
  lemma {:induction false} StripDropsTrailingSpace(s: string)
    requires IsTrimmed(s)
    ensures Strip(s + " ") == s
  {
    var t := s + " ";
    if |s| == 0 {
      assert TrimStart(t) == TrimStart(t[1..]);
      assert t[1..] == [];
    } else {
      assert TrimStart(t) == t;
      assert t[..|t| - 1] == s;
      assert TrimEnd(t) == TrimEnd(s);
      assert TrimEnd(s) == s;
    }
  }

  /** Python's `<` on `str`: lexicographic comparison of code points. */
  predicate Less(a: string, b: string)
  {
    if |a| == 0 then |b| > 0
    else if |b| == 0 then false
    else a[0] < b[0] || (a[0] == b[0] && Less(a[1..], b[1..]))
  }

  lemma {:induction false} LessIrreflexive(a: string)
    ensures !Less(a, a)
  {
    if |a| > 0 {
      LessIrreflexive(a[1..]);
    }
  }

  lemma {:induction false} LessTransitive(a: string, b: string, c: string)
    requires Less(a, b) && Less(b, c)
    ensures Less(a, c)
  {
    if |a| > 0 && a[0] == b[0] && b[0] == c[0] {
      LessTransitive(a[1..], b[1..], c[1..]);
    }
  }

  /** Any two different strings are ordered one way round. */
  lemma {:induction false} LessTotal(a: string, b: string)
    requires a != b
    ensures Less(a, b) || Less(b, a)
  {
    if |a| > 0 && |b| > 0 && a[0] == b[0] {
      assert a == [a[0]] + a[1..] && b == [b[0]] + b[1..];
      LessTotal(a[1..], b[1..]);
    }
  }

  lemma {:induction false} LessAsymmetric(a: string, b: string)
    requires Less(a, b)
    ensures !Less(b, a)
  {
    if |a| > 0 && a[0] == b[0] {
      LessAsymmetric(a[1..], b[1..]);
    }
  }

  /** The character of a decimal digit. */
  function Digit(d: int): (c: char)
    requires 0 <= d <= 9
    ensures '0' <= c <= '9'
  {
    (('0' as int) + d) as char
  }

  /** The value of a decimal digit character. */
  function DigitValue(c: char): int
  {
    (c as int) - ('0' as int)
  }

  lemma {:induction false} DigitRoundTrip(d: int)
    requires 0 <= d <= 9
    ensures DigitValue(Digit(d)) == d
  {
  }
}
