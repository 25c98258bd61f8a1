/**
 The two operations of Go's `strings` package that the client-address rule uses:
 `strings.Split(s, sep)[0]` for a one-character separator and `strings.TrimSpace`.
 Strings are sequences of Unicode scalar values.
 */
module Text {

  /** Go's `unicode.IsSpace`: the ASCII white space characters, U+0085, U+00A0 and
      the other characters with the Unicode White_Space property. */
  predicate IsSpace(c: char)
  {
    || c == '\t' || c == '\n' || c == '\U{000B}' || c == '\U{000C}' || c == '\r' || c == ' '
    || c == '\U{0085}' || c == '\U{00A0}' || c == '\U{1680}'
    || ('\U{2000}' <= c <= '\U{200A}')
    || c == '\U{2028}' || c == '\U{2029}' || c == '\U{202F}' || c == '\U{205F}' || c == '\U{3000}'
  }

  /** Every character of `s` is white space. */
  ghost predicate AllSpace(s: string)
  {
    forall k :: 0 <= k < |s| ==> IsSpace(s[k])
  }

  /** The first element of `strings.Split(s, [sep])`: the text before the first
      `sep`, or all of `s` when it has none. */
  function {:induction false} BeforeFirst(s: string, sep: char): (r: string)
    ensures r <= s
    ensures sep !in r
    ensures |r| < |s| ==> s[|r|] == sep
  {
    if |s| == 0 || s[0] == sep then ""
    else
      var rest := BeforeFirst(s[1..], sep);
      assert [s[0]] + rest <= s by {
        assert s == [s[0]] + s[1..];
      }
      [s[0]] + rest
  }

  /** `BeforeFirst` is the only string that is a prefix of `s`, free of `sep`, and
      either all of `s` or followed by `sep`. */
  lemma {:induction false} BeforeFirstUnique(s: string, sep: char, p: string)
    requires p <= s && sep !in p
    requires |p| == |s| || s[|p|] == sep
    ensures p == BeforeFirst(s, sep)
  {
  }

  /** Drops leading white space. */
  function {:induction false} TrimLeft(s: string): (r: string)
    ensures |r| <= |s| && r == s[|s| - |r|..]
    ensures AllSpace(s[..|s| - |r|])
    ensures |r| > 0 ==> !IsSpace(r[0])
    decreases |s|
  {
    if |s| > 0 && IsSpace(s[0]) then
      var rest := TrimLeft(s[1..]);
      assert s[..|s| - |rest|] == [s[0]] + s[1..][..|s| - 1 - |rest|];
      rest
    else
      s
  }

  /** Drops trailing white space. */
  function {:induction false} TrimRight(s: string): (r: string)
    ensures |r| <= |s| && r == s[..|r|]
    ensures AllSpace(s[|r|..])
    ensures |r| > 0 ==> !IsSpace(r[|r| - 1])
    decreases |s|
  {
    if |s| > 0 && IsSpace(s[|s| - 1]) then
      var rest := TrimRight(s[..|s| - 1]);
      assert AllSpace(s[|rest|..]) by {
        forall k | |rest| <= k < |s|
          ensures IsSpace(s[k])
        {
          if k < |s| - 1 {
            assert s[k] == s[..|s| - 1][|rest|..][k - |rest|];
          }
        }
      }
      rest
    else
      s
  }

  /** The trimmed form of `s`: a contiguous piece `s[i..j]` with only white space
      around it, and no white space at either of its own ends. */
  ghost predicate IsTrimOf(s: string, r: string)
  {
    && (|r| > 0 ==> !IsSpace(r[0]) && !IsSpace(r[|r| - 1]))
    && exists i, j :: 0 <= i <= j <= |s| && s[i..j] == r && AllSpace(s[..i]) && AllSpace(s[j..])
  }

  /** Go's `strings.TrimSpace`. */
  function TrimSpace(s: string): (r: string)
  {
    TrimRight(TrimLeft(s))
  }

  /** `TrimSpace` yields the trimmed form of its argument. */
  lemma TrimSpaceTrims(s: string)
    ensures IsTrimOf(s, TrimSpace(s))
  {
    TrimLeftThenRight(s, TrimLeft(s), TrimSpace(s));
  }

  /** Removing white space from the front and then from the back trims. */
  lemma TrimLeftThenRight(s: string, t: string, r: string)
    requires |t| <= |s| && t == s[|s| - |t|..] && AllSpace(s[..|s| - |t|])
    requires |t| > 0 ==> !IsSpace(t[0])
    requires |r| <= |t| && r == t[..|r|] && AllSpace(t[|r|..])
    requires |r| > 0 ==> !IsSpace(r[|r| - 1])
    ensures IsTrimOf(s, r)
  {
    var i, j := |s| - |t|, |s| - |t| + |r|;
    assert s[i..j] == r;
    assert s[j..] == t[|r|..];
    assert |r| > 0 ==> r[0] == t[0];
  }

  /** A trimmed form is unique: `TrimSpace` is the only string meeting `IsTrimOf`. */
  lemma TrimOfUnique(s: string, r1: string, r2: string)
    requires IsTrimOf(s, r1) && IsTrimOf(s, r2)
    ensures r1 == r2
  {
  }

  /** Trimming only removes characters: one absent from `s` is absent from its trimmed form. */
  lemma TrimOfKeepsOut(s: string, r: string, c: char)
    requires IsTrimOf(s, r) && c !in s
    ensures c !in r
  {
  }
}
