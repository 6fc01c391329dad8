/**
 * The fixed-width integer types of the buffer and their byte encoding.
 *
 * The source writes and reads multi-byte integers in the host's native byte
 * order. This model fixes one order for every platform: little-endian, the
 * least significant byte first, with negative values in two's complement.
 */
module Encoding {

  /** An unsigned 8-bit value, C#'s `byte`. */
  type byte = x: int | 0 <= x < 0x100

  /** C#'s `short`, `int` and `long`. */
  type int16 = x: int | -0x8000 <= x < 0x8000
  type int32 = x: int | -0x8000_0000 <= x < 0x8000_0000
  type int64 = x: int | -0x8000_0000_0000_0000 <= x < 0x8000_0000_0000_0000

  /** `int.MaxValue`, also the largest length a .NET array or memory region can have. */
  const Int32Max: int := 0x7FFF_FFFF

  /**
   * C#'s unchecked `int` arithmetic: the int32 that x wraps to, the one value
   * of the int32 range congruent to x modulo 2^32.
   */
  function Wrap32(x: int): (r: int32)
    ensures (x - r) % 0x1_0000_0000 == 0
    ensures -0x8000_0000 <= x < 0x8000_0000 ==> r == x
  {
    var u := x % 0x1_0000_0000;
    if u >= 0x8000_0000 then u - 0x1_0000_0000 else u
  }

  /** 256 to the power n: the number of distinct n-byte values. */
  function Pow256(n: nat): (r: nat)
    ensures r >= 1
  {
    if n == 0 then 1 else 0x100 * Pow256(n - 1)
  }

  lemma Pow256Widths()
    ensures Pow256(1) == 0x100
    ensures Pow256(2) == 0x1_0000
    ensures Pow256(4) == 0x1_0000_0000
    ensures Pow256(8) == 0x1_0000_0000_0000_0000
  {
    assert Pow256(3) == 0x100_0000;
    assert Pow256(5) == 0x100_0000_0000;
    assert Pow256(6) == 0x1_0000_0000_0000;
    assert Pow256(7) == 0x100_0000_0000_0000;
  }

  /** The low n bytes of x, least significant first. */
  function EncodeLE(x: nat, n: nat): (r: seq<byte>)
    ensures |r| == n
  {
    if n == 0 then [] else [x % 0x100] + EncodeLE(x / 0x100, n - 1)
  }

  /** The unsigned value of a little-endian byte sequence. */
  function DecodeLE(s: seq<byte>): (r: nat)
    ensures r < Pow256(|s|)
  {
    if s == [] then 0 else s[0] + 0x100 * DecodeLE(s[1..])
  }

  /** Decoding undoes encoding for every value that fits in n bytes. */
  lemma {:induction false} DecodeEncodeLE(x: nat, n: nat)
    requires x < Pow256(n)
    ensures DecodeLE(EncodeLE(x, n)) == x
  {
    if n > 0 {
      var s := EncodeLE(x, n);
      assert s[1..] == EncodeLE(x / 0x100, n - 1);
      DecodeEncodeLE(x / 0x100, n - 1);
    }
  }

  /** Encoding undoes decoding: every byte sequence is the encoding of its value. */
  lemma {:induction false} EncodeDecodeLE(s: seq<byte>)
    ensures EncodeLE(DecodeLE(s), |s|) == s
  {
    if s != [] {
      var d := DecodeLE(s[1..]);
      assert (s[0] + 0x100 * d) % 0x100 == s[0];
      assert (s[0] + 0x100 * d) / 0x100 == d;
      EncodeDecodeLE(s[1..]);
    }
  }

  /** Whether v is representable as a signed n-byte integer. */
  predicate SignedFits(v: int, n: nat)
  {
    0 <= Pow256(n) + 2 * v && 2 * v < Pow256(n)
  }

  /** The two's complement bit pattern of a signed n-byte value. */
  function ToUnsigned(v: int, n: nat): (u: nat)
    requires SignedFits(v, n)
    ensures u < Pow256(n)
    ensures v >= 0 ==> u == v
  {
    if v < 0 then v + Pow256(n) else v
  }

  /** The signed value of an n-byte two's complement bit pattern. */
  function FromUnsigned(u: nat, n: nat): (v: int)
    requires u < Pow256(n)
    ensures SignedFits(v, n)
  {
    if 2 * u >= Pow256(n) then u - Pow256(n) else u
  }

  /** Signed n-byte encoding: two's complement, little-endian. */
  function EncodeSigned(v: int, n: nat): (r: seq<byte>)
    requires SignedFits(v, n)
    ensures |r| == n
  {
    EncodeLE(ToUnsigned(v, n), n)
  }

  function DecodeSigned(s: seq<byte>): (v: int)
    ensures SignedFits(v, |s|)
  {
    FromUnsigned(DecodeLE(s), |s|)
  }

  /** Every signed value survives an encode/decode round trip, negatives included. */
  lemma SignedRoundTrip(v: int, n: nat)
    requires SignedFits(v, n)
    ensures DecodeSigned(EncodeSigned(v, n)) == v
  {
    DecodeEncodeLE(ToUnsigned(v, n), n);
  }

  /** Every n-byte sequence is the encoding of the value it decodes to. */
  lemma SignedDecodeRoundTrip(s: seq<byte>)
    ensures EncodeSigned(DecodeSigned(s), |s|) == s
  {
    EncodeDecodeLE(s);
  }

  // The widths the buffer uses.

  function EncodeShort(v: int16): (r: seq<byte>)
    ensures |r| == 2
  {
    Pow256Widths();
    EncodeSigned(v, 2)
  }

  /** The value read is the one whose stored bytes these are. */
  function DecodeShort(s: seq<byte>): (v: int16)
    requires |s| == 2
    ensures EncodeShort(v) == s
  {
    Pow256Widths();
    SignedDecodeRoundTrip(s);
    DecodeSigned(s)
  }

  function EncodeInt(v: int32): (r: seq<byte>)
    ensures |r| == 4
  {
    Pow256Widths();
    EncodeSigned(v, 4)
  }

  /** The value read is the one whose stored bytes these are. */
  function DecodeInt(s: seq<byte>): (v: int32)
    requires |s| == 4
    ensures EncodeInt(v) == s
  {
    Pow256Widths();
    SignedDecodeRoundTrip(s);
    DecodeSigned(s)
  }

  function EncodeLong(v: int64): (r: seq<byte>)
    ensures |r| == 8
  {
    Pow256Widths();
    EncodeSigned(v, 8)
  }

  /** The value read is the one whose stored bytes these are. */
  function DecodeLong(s: seq<byte>): (v: int64)
    requires |s| == 8
    ensures EncodeLong(v) == s
  {
    Pow256Widths();
    SignedDecodeRoundTrip(s);
    DecodeSigned(s)
  }

  lemma ShortRoundTrip(v: int16)
    ensures DecodeShort(EncodeShort(v)) == v
  {
    Pow256Widths();
    SignedRoundTrip(v, 2);
  }

  lemma IntRoundTrip(v: int32)
    ensures DecodeInt(EncodeInt(v)) == v
  {
    Pow256Widths();
    SignedRoundTrip(v, 4);
  }

  lemma LongRoundTrip(v: int64)
    ensures DecodeLong(EncodeLong(v)) == v
  {
    Pow256Widths();
    SignedRoundTrip(v, 8);
  }

  /** Little-endian: the least significant byte of a long is stored first. */
  lemma LongLowByteFirst(v: int64)
    ensures EncodeLong(v)[0] == (if v < 0 then v + 0x1_0000_0000_0000_0000 else v) % 0x100
  {
    Pow256Widths();
  }
}
