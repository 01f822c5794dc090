/**
 * The text of a `rust_decimal::Decimal`, as its `Display` writes it and as its
 * serde serialization hands it to serde_json: an optional minus sign, at least
 * one integer digit, and, when the scale is positive, a point followed by
 * exactly `scale` digits (`Decimal::new(5, 2)` reads "0.05").
 */
module Decimals {
  import opened Wrappers
  import opened Text

  /** The largest scale `Decimal::new` accepts; a larger one makes it panic. */
  const MaxScale: nat := 28

  predicate AllDigits(s: string)
  {
    forall k :: 0 <= k < |s| ==> IsDigit(s[k])
  }

  function Zeros(n: nat): (r: string)
    ensures |r| == n
    ensures forall k :: 0 <= k < n ==> r[k] == '0'
  {
    if n == 0 then "" else "0" + Zeros(n - 1)
  }

  /** Leading zeros do not change the number a digit string writes. */
  lemma {:induction false} LeadingZeros(k: nat, d: string)
    requires AllDigits(d)
    ensures AllDigits(Zeros(k) + d)
    ensures DigitsValue(Zeros(k) + d) == DigitsValue(d)
  {
    var s := Zeros(k) + d;
    if |d| == 0 {
      assert s == Zeros(k);
      if k > 0 {
        assert s[..k - 1] == Zeros(k - 1);
        LeadingZeros(k - 1, "");
        assert Zeros(k - 1) + "" == Zeros(k - 1);
      }
    } else {
      var init := d[..|d| - 1];
      assert s[..|s| - 1] == Zeros(k) + init;
      LeadingZeros(k, init);
    }
  }

  /** The decimal digits of `n`, padded on the left with zeros to at least `width` characters. */
  function PaddedDigits(n: nat, width: nat): (r: string)
    ensures |r| >= 1 && |r| >= width
    ensures AllDigits(r)
    ensures DigitsValue(r) == n
  {
    var d := NatToString(n);
    if |d| >= width then d
    else
      LeadingZeros(width - |d|, d);
      Zeros(width - |d|) + d
  }

  /** The unsigned part of a decimal's text: the digits of `m` with a point before the last `scale` of them. */
  function MagnitudeText(m: nat, scale: nat): (r: string)
    ensures |r| >= 1 && IsDigit(r[0])
  {
    PointAt(PaddedDigits(m, scale + 1), scale)
  }

  /** A digit string with a point before its last `scale` digits (none when the scale is 0). */
  function PointAt(digits: string, scale: nat): (r: string)
    requires AllDigits(digits) && |digits| >= scale + 1
    ensures |r| >= 1 && IsDigit(r[0])
  {
    var split := |digits| - scale;
    if scale == 0 then digits
    else digits[..split] + "." + digits[split..]
  }

  /** The `Display` text of the decimal with unscaled value `n` and scale `scale`. */
  function DecimalText(n: int, scale: nat): (r: string)
    ensures |r| >= 1
  {
    if n < 0 then "-" + MagnitudeText(-n, scale) else MagnitudeText(n, scale)
  }

  /** The length of the longest run of digits at the start of `s`. */
  function DigitPrefix(s: string): (r: nat)
    ensures r <= |s|
    ensures AllDigits(s[..r])
    ensures r == |s| || !IsDigit(s[r])
  {
    if |s| == 0 || !IsDigit(s[0]) then 0
    else
      var r := 1 + DigitPrefix(s[1..]);
      assert s[..r] == [s[0]] + s[1..][..r - 1];
      r
  }

  /**
   * Reads the unsigned part of a decimal text: a non-empty run of digits and an
   * optional `.` followed by a non-empty run of digits, and nothing else.
   * Gives the unscaled magnitude and the scale (the number of digits after the point).
   */
  function ReadUnsigned(body: string): Option<(nat, nat)>
  {
    var p := DigitPrefix(body);
    var frac := if p < |body| then body[p + 1..] else "";
    if p == 0 || (p < |body| && (body[p] != '.' || |frac| == 0 || !AllDigits(frac))) then None
    else Some((DigitsValue(body[..p] + frac), |frac|))
  }

  /** Reads a decimal text back: an optional `-` and an unsigned part. */
  function ReadDecimal(t: string): Option<(int, nat)>
  {
    if |t| > 0 && t[0] == '-' then
      match ReadUnsigned(t[1..])
      case None => None
      case Some((m, scale)) => Some((-(m as int), scale))
    else
      match ReadUnsigned(t)
      case None => None
      case Some((m, scale)) => Some((m, scale))
  }

  lemma ReadWhole(digits: string)
    requires |digits| >= 1 && AllDigits(digits)
    ensures ReadUnsigned(digits) == Some((DigitsValue(digits), 0))
  {
    assert DigitPrefix(digits) == |digits|;
    assert digits[..|digits|] + "" == digits;
  }

  /** A digit run followed by a non-digit (or by nothing) is the longest digit prefix. */
  lemma {:induction false} DigitPrefixOf(whole: string, rest: string)
    requires AllDigits(whole)
    requires |rest| == 0 || !IsDigit(rest[0])
    ensures DigitPrefix(whole + rest) == |whole|
  {
    if |whole| == 0 {
      assert whole + rest == rest;
    } else {
      assert (whole + rest)[1..] == whole[1..] + rest;
      DigitPrefixOf(whole[1..], rest);
    }
  }

  lemma ReadPointed(whole: string, frac: string)
    requires |whole| >= 1 && AllDigits(whole)
    requires |frac| >= 1 && AllDigits(frac)
    ensures ReadUnsigned(whole + "." + frac) == Some((DigitsValue(whole + frac), |frac|))
  {
    var body := whole + "." + frac;
    var p := |whole|;
    assert DigitPrefix(body) == p by {
      assert body == whole + ("." + frac);
      DigitPrefixOf(whole, "." + frac);
    }
    assert body[..p] == whole && body[p] == '.' && body[p + 1..] == frac;
  }

  lemma DigitsParts(digits: string, split: nat)
    requires AllDigits(digits) && split <= |digits|
    ensures AllDigits(digits[..split]) && AllDigits(digits[split..])
  {
    assert forall k :: split <= k < |digits| ==> digits[split..][k - split] == digits[k];
  }

  lemma RejoinedValue(digits: string, split: nat)
    requires AllDigits(digits) && split <= |digits|
    ensures AllDigits(digits[..split] + digits[split..])
    ensures DigitsValue(digits[..split] + digits[split..]) == DigitsValue(digits)
  {
    assert digits[..split] + digits[split..] == digits;
  }

  /** A digit string with a point put inside it reads back as its value, scaled by the digits after the point. */
  lemma ReadSplit(digits: string, split: nat)
    requires AllDigits(digits) && 1 <= split < |digits|
    ensures ReadUnsigned(digits[..split] + "." + digits[split..]) == Some((DigitsValue(digits), |digits| - split))
  {
    DigitsParts(digits, split);
    ReadPointed(digits[..split], digits[split..]);
    RejoinedValue(digits, split);
  }

  /** A pointed digit string reads back as the value of its digits and the scale. */
  lemma ReadPointAt(digits: string, scale: nat)
    requires AllDigits(digits) && |digits| >= scale + 1
    ensures ReadUnsigned(PointAt(digits, scale)) == Some((DigitsValue(digits), scale))
  {
    if scale == 0 {
      ReadWhole(digits);
    } else {
      ReadSplit(digits, |digits| - scale);
    }
  }

  /** The unsigned part of a decimal's text reads back as its magnitude and scale. */
  lemma ReadMagnitude(m: nat, scale: nat)
    ensures ReadUnsigned(MagnitudeText(m, scale)) == Some((m, scale))
  {
    ReadPointAt(PaddedDigits(m, scale + 1), scale);
  }

  /** A decimal's text reads back as its unscaled value and scale: no information is lost. */
  lemma DecimalTextRoundTrip(n: int, scale: nat)
    ensures ReadDecimal(DecimalText(n, scale)) == Some((n, scale))
  {
    var m := if n < 0 then -n else n;
    ReadMagnitude(m, scale);
    if n < 0 {
      assert ("-" + MagnitudeText(m, scale))[1..] == MagnitudeText(m, scale);
    }
  }

  /** Distinct decimals have distinct texts. */
  lemma DecimalTextInjective(n1: int, s1: nat, n2: int, s2: nat)
    ensures DecimalText(n1, s1) == DecimalText(n2, s2) <==> n1 == n2 && s1 == s2
  {
    DecimalTextRoundTrip(n1, s1);
    DecimalTextRoundTrip(n2, s2);
  }
}
