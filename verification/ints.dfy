/**
 * Fixed-width integers and big-endian byte strings.
 *
 * Rust's `i32::from_be_bytes` (the schema id of the wire format) and
 * num-bigint's `BigInt::from_signed_bytes_be` (the unscaled value of an Avro
 * decimal) both read a big-endian two's-complement integer; this module
 * defines that reading once, together with its fixed-width encoder.
 */
module Ints {

  type byte = x: int | 0 <= x < 256

  const I32Min: int := -0x8000_0000
  const I32Max: int := 0x7fff_ffff
  const I64Min: int := -0x8000_0000_0000_0000
  const I64Max: int := 0x7fff_ffff_ffff_ffff

  predicate IsI32(x: int) { I32Min <= x <= I32Max }
  predicate IsI64(x: int) { I64Min <= x <= I64Max }

  /** 256 to the power `n`. */
  function Pow256(n: nat): (r: nat)
    ensures r >= 1
  {
    if n == 0 then 1 else 256 * Pow256(n - 1)
  }

  /** The unsigned big-endian value of `bs`. */
  function Unsigned(bs: seq<byte>): (u: nat)
    ensures u < Pow256(|bs|)
  {
    if |bs| == 0 then 0 else Unsigned(bs[..|bs| - 1]) * 256 + bs[|bs| - 1]
  }

  /** The big-endian two's-complement value of `bs`; the empty string reads as 0. */
  function Signed(bs: seq<byte>): int
  {
    if |bs| > 0 && bs[0] >= 128 then Unsigned(bs) - Pow256(|bs|) else Unsigned(bs)
  }

  /** The `width` low bytes of `u`, most significant first. */
  function EncodeUnsigned(u: nat, width: nat): (bs: seq<byte>)
    requires u < Pow256(width)
    ensures |bs| == width
    ensures Unsigned(bs) == u
  {
    if width == 0 then []
    else
      var bs := EncodeUnsigned(u / 256, width - 1) + [u % 256];
      assert bs[..|bs| - 1] == EncodeUnsigned(u / 256, width - 1);
      bs
  }

  /** Half the range of a `width`-byte string: the first negative two's-complement value, negated. */
  function Half(width: nat): (h: nat)
    requires width >= 1
    ensures 2 * h == Pow256(width)
  {
    128 * Pow256(width - 1)
  }

  /** The `width`-byte two's-complement encoding of `n`. */
  function EncodeSigned(n: int, width: nat): (bs: seq<byte>)
    requires width >= 1
    requires -(Half(width) as int) <= n < Half(width)
    ensures |bs| == width
  {
    EncodeUnsigned(if n < 0 then n + Pow256(width) else n, width)
  }

  /** The first byte of a big-endian string weighs 256^(width-1). */
  lemma {:induction false} LeadingByte(bs: seq<byte>)
    requires |bs| >= 1
    ensures bs[0] * Pow256(|bs| - 1) <= Unsigned(bs) < bs[0] * Pow256(|bs| - 1) + Pow256(|bs| - 1)
  {
    if |bs| == 1 {
      assert Unsigned(bs) == Unsigned(bs[..0]) * 256 + bs[0];
    } else {
      var init := bs[..|bs| - 1];
      LeadingByte(init);
      assert init[0] == bs[0];
      var p := Pow256(|bs| - 2);
      var q := Unsigned(init);
      var b := bs[0];
      var d := bs[|bs| - 1];
      assert Unsigned(bs) == q * 256 + d;
      assert Pow256(|bs| - 1) == 256 * p;
      assert b * p <= q <= b * p + p - 1;
      assert (b * p) * 256 <= q * 256 <= (b * p + p - 1) * 256;
      assert (b * p + p - 1) * 256 == b * (256 * p) + 256 * p - 256;
      assert (b * p) * 256 == b * (256 * p);
    }
  }

  /** The sign of a two's-complement reading is its top bit. */
  lemma SignBit(bs: seq<byte>)
    requires |bs| >= 1
    ensures bs[0] >= 128 <==> Unsigned(bs) >= Half(|bs|)
  {
    LeadingByte(bs);
    var p := Pow256(|bs| - 1);
    if bs[0] >= 128 {
      MulMonotonic(128, bs[0], p);
    } else {
      MulMonotonic(bs[0] + 1, 128, p);
    }
  }

  lemma MulMonotonic(a: nat, b: nat, p: nat)
    requires a <= b
    ensures a * p <= b * p
  {
    assert b * p == a * p + (b - a) * p;
  }

  /** Reading a two's-complement encoding gives back the encoded number. */
  lemma {:induction false} SignedRoundTrip(n: int, width: nat)
    requires width >= 1
    requires -(Half(width) as int) <= n < Half(width)
    ensures Signed(EncodeSigned(n, width)) == n
  {
    SignBit(EncodeSigned(n, width));
  }

  /** A two's-complement reading lies in the signed range of its width and is negative exactly when the top bit is set. */
  lemma {:induction false} SignedBounds(bs: seq<byte>)
    requires |bs| >= 1
    ensures -(Half(|bs|) as int) <= Signed(bs) < Half(|bs|)
    ensures Signed(bs) < 0 <==> bs[0] >= 128
  {
    SignBit(bs);
  }

  /** A base-256 number determines its last digit and the number before it. */
  lemma LastDigitUnique(x: nat, y: nat, p: byte, q: byte)
    requires x * 256 + p == y * 256 + q
    ensures x == y && p == q
  {
  }

  /** Two byte strings of one width with the same unsigned reading are equal. */
  lemma {:induction false} UnsignedInjective(a: seq<byte>, b: seq<byte>)
    requires |a| == |b|
    requires Unsigned(a) == Unsigned(b)
    ensures a == b
  {
    if |a| > 0 {
      var n := |a| - 1;
      assert Unsigned(a) == Unsigned(a[..n]) * 256 + a[n];
      assert Unsigned(b) == Unsigned(b[..n]) * 256 + b[n];
      LastDigitUnique(Unsigned(a[..n]), Unsigned(b[..n]), a[n], b[n]);
      UnsignedInjective(a[..n], b[..n]);
      assert a == a[..n] + [a[n]];
      assert b == b[..n] + [b[n]];
    }
  }

  /** Encoding a two's-complement reading at its own width gives back the bytes read. */
  lemma EncodeSignedOfSigned(bs: seq<byte>)
    requires |bs| >= 1
    ensures -(Half(|bs|) as int) <= Signed(bs) < Half(|bs|)
    ensures EncodeSigned(Signed(bs), |bs|) == bs
  {
    SignedBounds(bs);
    UnsignedInjective(EncodeSigned(Signed(bs), |bs|), bs);
  }

  /** A string of zero bytes reads as 0. */
  lemma {:induction false} UnsignedOfZeros(bs: seq<byte>)
    requires forall k :: 0 <= k < |bs| ==> bs[k] == 0
    ensures Unsigned(bs) == 0
  {
    if |bs| > 0 {
      UnsignedOfZeros(bs[..|bs| - 1]);
    }
  }
}
