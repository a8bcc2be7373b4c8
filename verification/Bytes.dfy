/**
 Bytes and the fixed-width integer layouts that the wire formats are built from:
 little-endian for the packet header, big-endian for WebSocket frame lengths.
 */
module Bytes {

  newtype byte = x: int | 0 <= x < 256

  /** A byte as a bit pattern. */
  type octet = bv8

  function Octet(b: byte): octet {
    (b as int) as octet
  }

  function OctetByte(o: octet): byte {
    (o as int) as byte
  }

  lemma OctetRoundTrip(o: octet)
    ensures Octet(OctetByte(o)) == o
  {
  }

  lemma ConversionRoundTrip(high: int, low: int)
    requires 0 <= high < 128 && 0 <= low < 2
    ensures ((2 * high + low) as octet) as int == 2 * high + low
  {
  }

  lemma ByteRoundTrip(b: byte)
    ensures OctetByte(Octet(b)) == b
  {
    ConversionRoundTrip(b as int / 2, b as int % 2);
  }

  function Pow256(width: nat): nat
    ensures Pow256(width) > 0
  {
    if width == 0 then 1 else 256 * Pow256(width - 1)
  }

  /** The low `width` bytes of `v`, least significant first. */
  function LittleEndian(v: nat, width: nat): (s: seq<byte>)
    ensures |s| == width
    decreases width
  {
    if width == 0 then [] else [(v % 256) as byte] + LittleEndian(v / 256, width - 1)
  }

  /** The number whose bytes, least significant first, are `s`. */
  function FromLittleEndian(s: seq<byte>): nat {
    if s == [] then 0 else s[0] as nat + 256 * FromLittleEndian(s[1..])
  }

  /** The low `width` bytes of `v`, most significant first. */
  function BigEndian(v: nat, width: nat): (s: seq<byte>)
    ensures |s| == width
    decreases width
  {
    if width == 0 then [] else BigEndian(v / 256, width - 1) + [(v % 256) as byte]
  }

  /** The number whose bytes, most significant first, are `s`. */
  function FromBigEndian(s: seq<byte>): nat {
    if s == [] then 0 else s[|s| - 1] as nat + 256 * FromBigEndian(s[..|s| - 1])
  }

  lemma {:induction false} LittleEndianBound(s: seq<byte>)
    ensures FromLittleEndian(s) < Pow256(|s|)
  {
    if s != [] {
      LittleEndianBound(s[1..]);
    }
  }

  lemma {:induction false} LittleEndianDecode(v: nat, width: nat)
    requires v < Pow256(width)
    ensures FromLittleEndian(LittleEndian(v, width)) == v
  {
    if width > 0 {
      var s := LittleEndian(v, width);
      assert s[1..] == LittleEndian(v / 256, width - 1);
      LittleEndianDecode(v / 256, width - 1);
    }
  }

  lemma {:induction false} LittleEndianEncode(s: seq<byte>)
    ensures LittleEndian(FromLittleEndian(s), |s|) == s
  {
    if s != [] {
      var v := FromLittleEndian(s);
      assert v % 256 == s[0] as nat && v / 256 == FromLittleEndian(s[1..]);
      LittleEndianEncode(s[1..]);
    }
  }

  lemma {:induction false} BigEndianBound(s: seq<byte>)
    ensures FromBigEndian(s) < Pow256(|s|)
  {
    if s != [] {
      BigEndianBound(s[..|s| - 1]);
    }
  }

  lemma {:induction false} BigEndianDecode(v: nat, width: nat)
    requires v < Pow256(width)
    ensures FromBigEndian(BigEndian(v, width)) == v
  {
    if width > 0 {
      var s := BigEndian(v, width);
      assert s[..width - 1] == BigEndian(v / 256, width - 1);
      BigEndianDecode(v / 256, width - 1);
    }
  }

  lemma {:induction false} BigEndianEncode(s: seq<byte>)
    ensures BigEndian(FromBigEndian(s), |s|) == s
  {
    if s != [] {
      var v := FromBigEndian(s);
      assert v % 256 == s[|s| - 1] as nat && v / 256 == FromBigEndian(s[..|s| - 1]);
      BigEndianEncode(s[..|s| - 1]);
    }
  }
}
