/**
 * String operations of the Rust standard library that the record store relies
 * on: `str::trim`, `str::replace` and the decimal `to_string` of integers.
 */
module Text {

  /** Unicode White_Space, the characters `str::trim` removes. */
  predicate IsWhitespace(c: char)
  {
    var n := c as int;
    (9 <= n <= 13) || n == 0x20 || n == 0x85 || n == 0xA0 || n == 0x1680
    || (0x2000 <= n <= 0x200A) || n == 0x2028 || n == 0x2029 || n == 0x202F
    || n == 0x205F || n == 0x3000
  }

  /** `s` with its leading white space removed: the longest suffix not starting with white space. */
  function TrimStart(s: string): (r: string)
    ensures |r| <= |s| && r == s[|s| - |r|..]
    ensures forall k :: 0 <= k < |s| - |r| ==> IsWhitespace(s[k])
    ensures |r| > 0 ==> !IsWhitespace(r[0])
  {
    if |s| > 0 && IsWhitespace(s[0]) then
      var r := TrimStart(s[1..]);
      TrimStartStep(s, r);
      r
    else s
  }

  /** Dropping a leading white-space character keeps the trimmed suffix a suffix, preceded only by white space. */
  lemma TrimStartStep(s: string, r: string)
    requires |s| > 0 && IsWhitespace(s[0])
    requires |r| <= |s| - 1 && r == s[1..][|s| - 1 - |r|..]
    requires forall k :: 0 <= k < |s| - 1 - |r| ==> IsWhitespace(s[1..][k])
    ensures r == s[|s| - |r|..]
    ensures forall k :: 0 <= k < |s| - |r| ==> IsWhitespace(s[k])
  {
    assert forall k :: 1 <= k < |s| ==> s[1..][k - 1] == s[k];
    assert s[1..][|s| - 1 - |r|..] == s[|s| - |r|..];
  }

  /** `s` with its trailing white space removed: the longest prefix not ending with white space. */
  function TrimEnd(s: string): (r: string)
    ensures |r| <= |s| && r == s[..|r|]
    ensures forall k :: |r| <= k < |s| ==> IsWhitespace(s[k])
    ensures |r| > 0 ==> !IsWhitespace(r[|r| - 1])
  {
    if |s| > 0 && IsWhitespace(s[|s| - 1]) then TrimEnd(s[..|s| - 1]) else s
  }

  /** `str::trim`: white space removed from both ends. */
  function Trim(s: string): string
  {
    TrimEnd(TrimStart(s))
  }

  /** Text that starts and ends with a visible character is left alone by `Trim`. */
  lemma TrimKeepsTrimmed(s: string)
    requires |s| > 0 && !IsWhitespace(s[0]) && !IsWhitespace(s[|s| - 1])
    ensures Trim(s) == s
  {
  }

  predicate StartsWith(s: string, prefix: string)
  {
    |prefix| <= |s| && s[..|prefix|] == prefix
  }

  /** `pat` occurs in `s` starting at index `i`. */
  predicate OccursAt(s: string, pat: string, i: int)
  {
    0 <= i && i + |pat| <= |s| && s[i..i + |pat|] == pat
  }

  /**
   * `str::replace`: every occurrence of `pat` replaced by `rep`, scanning left
   * to right so that replaced occurrences never overlap.
   */
  function ReplaceAll(s: string, pat: string, rep: string): (r: string)
    requires |pat| > 0
    ensures pat == rep ==> r == s
    ensures |pat| == |rep| ==> |r| == |s|
    decreases |s|
  {
    if |s| == 0 then []
    else if StartsWith(s, pat) then rep + ReplaceAll(s[|pat|..], pat, rep)
    else [s[0]] + ReplaceAll(s[1..], pat, rep)
  }

  /** An occurrence in the tail of `s` is an occurrence in `s` one position further on. */
  lemma OccursAtTail(s: string, pat: string, k: nat)
    requires |s| > 0
    ensures OccursAt(s[1..], pat, k) <==> OccursAt(s, pat, k + 1)
  {
    if k + 1 + |pat| <= |s| {
      var a, b := s[1..][k..k + |pat|], s[k + 1..k + 1 + |pat|];
      assert |a| == |b|;
      forall j | 0 <= j < |a| ensures a[j] == b[j] {
        assert a[j] == s[1..][k + j] == s[k + 1 + j];
      }
      assert a == b;
    }
  }

  /** A prefix in which no occurrence of `pat` starts is copied unchanged. */
  lemma {:induction false} ReplaceAllSkips(x: string, rest: string, pat: string, rep: string)
    requires |pat| > 0
    requires forall k :: 0 <= k < |x| ==> !OccursAt(x + rest, pat, k)
    ensures ReplaceAll(x + rest, pat, rep) == x + ReplaceAll(rest, pat, rep)
  {
    if |x| > 0 {
      var s := x + rest;
      assert !OccursAt(s, pat, 0);
      assert !StartsWith(s, pat);
      assert s[1..] == x[1..] + rest;
      forall k | 0 <= k < |x[1..]|
        ensures !OccursAt(x[1..] + rest, pat, k)
      {
        assert !OccursAt(s, pat, k + 1);
        OccursAtTail(s, pat, k);
      }
      ReplaceAllSkips(x[1..], rest, pat, rep);
      assert ReplaceAll(s, pat, rep) == [s[0]] + ReplaceAll(s[1..], pat, rep);
      assert [x[0]] + x[1..] == x;
    } else {
      assert x + rest == rest;
    }
  }

  /** Text without any occurrence of `pat` is left unchanged. */
  lemma ReplaceAllNoOccurrence(s: string, pat: string, rep: string)
    requires |pat| > 0
    requires forall k :: 0 <= k < |s| ==> !OccursAt(s, pat, k)
    ensures ReplaceAll(s, pat, rep) == s
  {
    assert s + [] == s;
    ReplaceAllSkips(s, [], pat, rep);
  }

  /** The leftmost occurrence of `pat` is replaced and scanning resumes right after it. */
  lemma ReplaceAllLeftmost(s: string, pat: string, rep: string, i: nat)
    requires |pat| > 0
    requires OccursAt(s, pat, i)
    requires forall k :: 0 <= k < i ==> !OccursAt(s, pat, k)
    ensures ReplaceAll(s, pat, rep) == s[..i] + rep + ReplaceAll(s[i + |pat|..], pat, rep)
  {
    CopiedUpTo(s, pat, rep, i);
    ReplacedAt(s, pat, rep, i);
    Chain(ReplaceAll(s, pat, rep), ReplaceAll(s[i..], pat, rep), ReplaceAll(s[i + |pat|..], pat, rep), s[..i], rep);
  }

  lemma Chain(a: string, b: string, c: string, x: string, y: string)
    requires a == x + b && b == y + c
    ensures a == x + y + c
  {
  }

  lemma CopiedUpTo(s: string, pat: string, rep: string, i: nat)
    requires |pat| > 0 && i <= |s|
    requires forall k :: 0 <= k < i ==> !OccursAt(s, pat, k)
    ensures ReplaceAll(s, pat, rep) == s[..i] + ReplaceAll(s[i..], pat, rep)
  {
    assert s[..i] + s[i..] == s;
    ReplaceAllSkips(s[..i], s[i..], pat, rep);
  }

  lemma ReplacedAt(s: string, pat: string, rep: string, i: nat)
    requires |pat| > 0 && OccursAt(s, pat, i)
    ensures ReplaceAll(s[i..], pat, rep) == rep + ReplaceAll(s[i + |pat|..], pat, rep)
  {
    var rest := s[i..];
    assert StartsWith(rest, pat) by {
      assert rest[..|pat|] == s[i..i + |pat|];
    }
    StartingReplaced(rest, pat, rep);
    assert rest[|pat|..] == s[i + |pat|..];
  }

  /** Text starting with `pat` has that occurrence replaced first. */
  lemma StartingReplaced(s: string, pat: string, rep: string)
    requires |pat| > 0 && |s| > 0 && StartsWith(s, pat)
    ensures ReplaceAll(s, pat, rep) == rep + ReplaceAll(s[|pat|..], pat, rep)
  {
  }

  function DigitChar(d: nat): (c: char)
    requires d < 10
    ensures '0' <= c <= '9'
  {
    "0123456789"[d]
  }

  predicate IsDigit(c: char) { '0' <= c <= '9' }

  function DigitValue(c: char): (d: nat)
    requires IsDigit(c)
    ensures d < 10
  {
    c as int - '0' as int
  }

  /** The number written by a string of decimal digits (the inverse of `NatToString`). */
  function DigitsValue(s: string): nat
    requires forall k :: 0 <= k < |s| ==> IsDigit(s[k])
  {
    if |s| == 0 then 0
    else DigitsValue(s[..|s| - 1]) * 10 + DigitValue(s[|s| - 1])
  }

  /** Decimal rendering of a natural number: digits only, no leading zero, reading back as `n`. */
  function NatToString(n: nat): (r: string)
    ensures |r| > 0 && forall k :: 0 <= k < |r| ==> IsDigit(r[k])
    ensures r[0] == '0' ==> n == 0 && |r| == 1
    ensures DigitsValue(r) == n
  {
    if n < 10 then [DigitChar(n)]
    else
      var r := NatToString(n / 10) + [DigitChar(n % 10)];
      assert r[..|r| - 1] == NatToString(n / 10);
      r
  }

  /** The number written by `IntToString`: an optional minus sign followed by digits. */
  function SignedValue(s: string): int
  {
    if |s| > 0 && s[0] == '-' && forall k :: 1 <= k < |s| ==> IsDigit(s[k]) then -(DigitsValue(s[1..]) as int)
    else if forall k :: 0 <= k < |s| ==> IsDigit(s[k]) then DigitsValue(s)
    else 0
  }

  /** `i64::to_string`: a minus sign for negative numbers, then the decimal digits. */
  function IntToString(i: int): (r: string)
    ensures |r| > 0 && (r[0] == '-' <==> i < 0)
    ensures i < 0 ==> |r| > 1
    ensures forall k :: (if i < 0 then 1 else 0) <= k < |r| ==> IsDigit(r[k])
    ensures SignedValue(r) == i
  {
    if i < 0 then
      var r := "-" + NatToString(-i);
      assert r[1..] == NatToString(-i);
      r
    else NatToString(i)
  }

  /** Rendered integers contain no `{`, so they never form a query placeholder. */
  lemma IntToStringNoBrace(i: int)
    ensures '{' !in IntToString(i)
  {
    var r := IntToString(i);
    forall k | 0 <= k < |r|
      ensures r[k] != '{'
    {
      if k > 0 || i >= 0 {
        assert IsDigit(r[k]);
      }
    }
  }
}
