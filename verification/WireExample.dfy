/**
 One packet byte by byte: the header fields at their places, one sample, and the checksum that
 ends it. The general statement of where each header field goes comes first.
 */
module WireExample {
  import opened Bytes
  import opened Crc32c
  import opened Protocol
  import opened SelfTest

  // ----- Every header -----

  lemma {:induction false} LittleEndianAt(v: nat, width: nat, j: nat)
    requires j < width
    ensures LittleEndian(v, width)[j] as int == v / Pow256(j) % 256
  {
    if j > 0 {
      LittleEndianAt(v / 256, width - 1, j - 1);
      DivideTwice(v, Pow256(j - 1));
    }
  }

  lemma DivideTwice(v: nat, p: nat)
    requires p > 0
    ensures v / 256 / p == v / (256 * p)
  {
    var q, r := v / 256 / p, v / 256 % p;
    assert v / 256 == p * q + r;
    assert v == 256 * p * q + (256 * r + v % 256);
    DivideExactly(v, 256 * p, q, 256 * r + v % 256);
  }

  lemma MultipleAtLeast(d: nat, gap: int)
    ensures gap >= 1 ==> d * gap >= d
    ensures gap <= -1 ==> d * gap <= -(d as int)
  {
    if gap <= -1 {
      assert d * gap == -(d * -gap);
    }
  }

  lemma DivideExactly(v: nat, d: nat, q: nat, r: nat)
    requires d > 0 && v == d * q + r && r < d
    ensures v / d == q
  {
    var gap := v / d - q;
    assert v == d * (v / d) + v % d;
    assert d * gap == r - v % d;
    MultipleAtLeast(d, gap);
  }

  /** `v` stands at `s[at..at + width]`, least significant byte first. */
  ghost predicate StandsAt(s: seq<byte>, at: nat, width: nat, v: nat) {
    at + width <= |s| && forall j | 0 <= j < width :: s[at + j] as int == v / Pow256(j) % 256
  }

  lemma SliceStands(s: seq<byte>, at: nat, width: nat, v: nat)
    requires at + width <= |s| && s[at..at + width] == LittleEndian(v, width)
    ensures StandsAt(s, at, width, v)
  {
    hide LittleEndian;
    forall j | 0 <= j < width ensures s[at + j] as int == v / Pow256(j) % 256 {
      assert s[at + j] == s[at..at + width][j];
      LittleEndianAt(v, width, j);
    }
  }

  /** Where every field of a header is on the wire. */
  lemma HeaderOnTheWire(h: Header, reserved: nat)
    requires FieldsInRange(h)
    ensures
      var s := HeaderBytes(h, reserved);
      && s[..4] == [0x54, 0x52, 0x55, 0x53] && s[4] == 1
      && s[5] == (match h.packetType case AudioFrame => 1 case ChirpEcho => 2 case Heartbeat => 3)
      && s[6] as int == h.flags % 256 && s[7] as int == h.phoneId % 256
      && StandsAt(s, 8, 4, h.sequence) && StandsAt(s, 12, 4, h.sampleRateHz) && StandsAt(s, 16, 2, h.sampleCount)
      && StandsAt(s, 18, 4, reserved) && StandsAt(s, 22, 8, h.timestampUs)
  {
    hide HeaderBytes, LittleEndian, StandsAt;
    HeaderSlices(h, reserved);
    MagicBytes();
    var s := HeaderBytes(h, reserved);
    assert s[0..4] == s[..4];
    assert s[4] == s[4..8][0] && s[5] == s[4..8][1] && s[6] == s[4..8][2] && s[7] == s[4..8][3];
    SliceStands(s, 8, 4, h.sequence);
    SliceStands(s, 12, 4, h.sampleRateHz);
    SliceStands(s, 16, 2, h.sampleCount);
    SliceStands(s, 18, 4, reserved);
    SliceStands(s, 22, 8, h.timestampUs);
  }

  lemma MagicBytes()
    ensures LittleEndian(MAGIC, 4) == [0x54, 0x52, 0x55, 0x53]
  {
    assert LittleEndian(0x5355_5254, 4) == [0x54] + LittleEndian(0x53_5552, 3);
    assert LittleEndian(0x53_5552, 3) == [0x52] + LittleEndian(0x5355, 2);
    assert LittleEndian(0x5355, 2) == [0x55] + LittleEndian(0x53, 1);
    assert LittleEndian(0x53, 1) == [0x53] + LittleEndian(0, 0);
  }

  // ----- Why a packet is rejected -----

  lemma FieldOfTwo(s: seq<byte>, at: nat)
    requires at + 2 <= |s|
    ensures Field(s, at, at + 2) == s[at] as nat + 256 * s[at + 1] as nat
  {
    var t := s[at..at + 2];
    assert FromLittleEndian(t) == t[0] as nat + 256 * FromLittleEndian(t[1..]);
    assert FromLittleEndian(t[1..]) == t[1..][0] as nat + 256 * FromLittleEndian(t[1..][1..]);
  }

  lemma MagicField(s: seq<byte>)
    requires |s| >= 4
    ensures Field(s, 0, 4) == MAGIC <==> s[..4] == [0x54, 0x52, 0x55, 0x53]
  {
    hide LittleEndian, FromLittleEndian;
    MagicBytes();
    FieldWidths();
    LittleEndianDecode(MAGIC, 4);
    FieldEncode(s, 0, 4);
    assert s[0..4] == s[..4];
  }

  /** The number of samples a header announces. */
  function Announced(packet: seq<byte>): nat
    requires |packet| >= 18
  {
    packet[16] as nat + 256 * packet[17] as nat
  }

  /** The first thing wrong with a packet decides its error, byte by byte. */
  lemma RejectionReason(packet: seq<byte>)
    ensures
      var r := VerifyPacket(packet);
      && (r == Err(PacketTooShort) <==> |packet| < 34)
      && (|packet| >= 34 ==>
            var started := packet[..4] == [0x54, 0x52, 0x55, 0x53];
            var versioned := started && packet[4] == 1;
            var typed := versioned && 1 <= packet[5] <= 3;
            var bounded := typed && Announced(packet) <= 16384;
            var whole := bounded && |packet| == 34 + 2 * Announced(packet);
            && (r == Err(BadMagic) <==> !started)
            && (r == Err(BadVersion) <==> started && !versioned)
            && (r == Err(UnknownType) <==> versioned && !typed)
            && (r == Err(TooManySamples) <==> typed && !bounded)
            && (r == Err(LengthMismatch) <==> bounded && !whole)
            && (r.Ok? || r == Err(CrcMismatch) <==> whole))
  {
    hide Field, Checksum, WordAt;
    if |packet| >= 34 {
      var s := packet[0..30];
      MagicField(s);
      FieldOfTwo(s, 16);
      assert s[..4] == packet[..4];
    }
  }

  /** The first thing wrong with what is to be framed decides the error likewise. */
  lemma FramingError(
    phoneId: int, sequence: int, sampleRateHz: int, samples: seq<byte>, timestampUs: int,
    packetType: PacketType, flags: int)
    ensures
      var r := FramePacket(phoneId, sequence, sampleRateHz, samples, timestampUs, packetType, flags);
      var fits := 0 <= sequence <= 0xFFFF_FFFF && 0 <= sampleRateHz <= 0xFFFF_FFFF
                  && 0 <= timestampUs <= 0xFFFF_FFFF_FFFF_FFFF;
      && (r == Err(OddPayload) <==> |samples| % 2 == 1)
      && (r == Err(PayloadTooLarge) <==> |samples| % 2 == 0 && |samples| > 32768)
      && (r == Err(FieldOutOfRange) <==> |samples| % 2 == 0 && |samples| <= 32768 && !fits)
      && (r.Ok? ==> |r.value| == 34 + |samples|)
  {
    hide LittleEndian, Checksum;
  }

  // ----- One packet -----

  const BODY: seq<byte> := [
    0x54, 0x52, 0x55, 0x53, 0x01, 0x02, 0xA5, 0x07, 0x01, 0x02, 0x03, 0x04, 0x80, 0xBB, 0x00, 0x00,
    0x01, 0x00, 0x00, 0x00, 0x00, 0x00, 0x11, 0x12, 0x13, 0x14, 0x15, 0x16, 0x17, 0x18, 0xFE, 0xFF
  ]

  /** The registers that the checksum goes through, byte by byte. */
  lemma Registers0()
    ensures Absorb(0xFFFF_FFFF, 0x54) == 0x3B3D_E162
    ensures Absorb(0x3B3D_E162, 0x52) == 0x30D8_7450
    ensures Absorb(0x30D8_7450, 0x55) == 0x35C1_CC68
    ensures Absorb(0x35C1_CC68, 0x53) == 0xA95F_2346
    ensures Absorb(0xA95F_2346, 0x01) == 0x9518_2674
    ensures Absorb(0x9518_2674, 0x02) == 0x57AC_ABC3
    ensures Absorb(0x57AC_ABC3, 0xA5) == 0x4730_D821
    ensures Absorb(0x4730_D821, 0x07) == 0x065B_59EE
  {
  }

  lemma Registers1()
    ensures Absorb(0x065B_59EE, 0x01) == 0xBD25_CF67
    ensures Absorb(0xBD25_CF67, 0x02) == 0x548A_A2B1
    ensures Absorb(0x548A_A2B1, 0x03) == 0x537A_889C
    ensures Absorb(0x537A_889C, 0x04) == 0x1822_DE50
    ensures Absorb(0x1822_DE50, 0x80) == 0xD3CB_C375
    ensures Absorb(0xD3CB_C375, 0xBB) == 0x6F26_5220
    ensures Absorb(0x6F26_5220, 0x00) == 0x20D2_A88C
    ensures Absorb(0x20D2_A88C, 0x00) == 0xCF95_2600
  {
  }

  lemma Registers2()
    ensures Absorb(0xCF95_2600, 0x01) == 0xF2A4_1625
    ensures Absorb(0xF2A4_1625, 0x00) == 0x15BE_3ED4
    ensures Absorb(0x15BE_3ED4, 0x00) == 0x145C_C88A
    ensures Absorb(0x145C_C88A, 0x00) == 0xE900_4F88
    ensures Absorb(0xE900_4F88, 0x00) == 0x08C6_63F8
    ensures Absorb(0x08C6_63F8, 0x00) == 0x79BF_F1D9
    ensures Absorb(0x79BF_F1D9, 0x11) == 0x492D_C1FA
    ensures Absorb(0x492D_C1FA, 0x12) == 0x69A0_DD14
  {
  }

  lemma Registers3()
    ensures Absorb(0x69A0_DD14, 0x13) == 0xD4A3_C436
    ensures Absorb(0xD4A3_C436, 0x14) == 0xC152_5DED
    ensures Absorb(0xC152_5DED, 0x15) == 0x7976_65E7
    ensures Absorb(0x7976_65E7, 0x16) == 0x017C_9A13
    ensures Absorb(0x017C_9A13, 0x17) == 0xC79B_EB85
    ensures Absorb(0xC79B_EB85, 0x18) == 0x2D47_2B2F
    ensures Absorb(0x2D47_2B2F, 0xFE) == 0x2195_2583
    ensures Absorb(0x2195_2583, 0xFF) == 0x3CFA_0EF8
  {
  }

  lemma BodyOctets()
    ensures Octet(0x00) == 0x00 && Octet(0x01) == 0x01 && Octet(0x02) == 0x02 && Octet(0x03) == 0x03
    ensures Octet(0x04) == 0x04 && Octet(0x07) == 0x07 && Octet(0x11) == 0x11 && Octet(0x12) == 0x12
    ensures Octet(0x13) == 0x13 && Octet(0x14) == 0x14 && Octet(0x15) == 0x15 && Octet(0x16) == 0x16
    ensures Octet(0x17) == 0x17 && Octet(0x18) == 0x18 && Octet(0x52) == 0x52 && Octet(0x53) == 0x53
    ensures Octet(0x54) == 0x54 && Octet(0x55) == 0x55 && Octet(0x80) == 0x80 && Octet(0xA5) == 0xA5
    ensures Octet(0xBB) == 0xBB && Octet(0xFE) == 0xFE && Octet(0xFF) == 0xFF
  {
  }

  lemma AbsorbFour(r: word, s: seq<byte>)
    requires |s| >= 4
    ensures AbsorbAll(r, s)
            == AbsorbAll(Absorb(Absorb(Absorb(Absorb(r, Octet(s[0])), Octet(s[1])), Octet(s[2])), Octet(s[3])), s[4..])
  {
    hide Absorb;
    assert s[1..][1..] == s[2..] && s[2..][1..] == s[3..] && s[3..][1..] == s[4..];
    var a := Absorb(r, Octet(s[0]));
    var b := Absorb(a, Octet(s[1]));
    var c := Absorb(b, Octet(s[2]));
    assert AbsorbAll(r, s) == AbsorbAll(a, s[1..]);
    assert AbsorbAll(a, s[1..]) == AbsorbAll(b, s[2..]);
    assert AbsorbAll(b, s[2..]) == AbsorbAll(c, s[3..]);
  }

  lemma BodyChecksum()
    ensures Checksum(BODY) == 0xC305_F107
  {
    hide Absorb, Octet, AbsorbAll;
    Part0();
    Part1();
    Part2();
    Part3();
    Part4();
    Part5();
    Part6();
    Part7();
    NothingLeft(0x3CFA_0EF8);
    assert BODY[0..] == BODY && BODY[32..] == [];
    AbsorbAllIsRun(ALL_ONES, BODY);
  }

  lemma NothingLeft(r: word)
    ensures AbsorbAll(r, []) == r
  {
  }

  lemma Part0()
    ensures AbsorbAll(0xFFFF_FFFF, BODY[0..]) == AbsorbAll(0xA95F_2346, BODY[4..])
  {
    hide Absorb, Octet, AbsorbAll;
    BodyOctets();
    Registers0();
    var s := BODY[0..];
    assert s[0] == 0x54 && s[1] == 0x52 && s[2] == 0x55 && s[3] == 0x53;
    assert s[4..] == BODY[4..];
    AbsorbFour(0xFFFF_FFFF, s);
  }

  lemma Part1()
    ensures AbsorbAll(0xA95F_2346, BODY[4..]) == AbsorbAll(0x065B_59EE, BODY[8..])
  {
    hide Absorb, Octet, AbsorbAll;
    BodyOctets();
    Registers0();
    var s := BODY[4..];
    assert s[0] == 0x01 && s[1] == 0x02 && s[2] == 0xA5 && s[3] == 0x07;
    assert s[4..] == BODY[8..];
    AbsorbFour(0xA95F_2346, s);
  }

  lemma Part2()
    ensures AbsorbAll(0x065B_59EE, BODY[8..]) == AbsorbAll(0x1822_DE50, BODY[12..])
  {
    hide Absorb, Octet, AbsorbAll;
    BodyOctets();
    Registers1();
    var s := BODY[8..];
    assert s[0] == 0x01 && s[1] == 0x02 && s[2] == 0x03 && s[3] == 0x04;
    assert s[4..] == BODY[12..];
    AbsorbFour(0x065B_59EE, s);
  }

  lemma Part3()
    ensures AbsorbAll(0x1822_DE50, BODY[12..]) == AbsorbAll(0xCF95_2600, BODY[16..])
  {
    hide Absorb, Octet, AbsorbAll;
    BodyOctets();
    Registers1();
    var s := BODY[12..];
    assert s[0] == 0x80 && s[1] == 0xBB && s[2] == 0x00 && s[3] == 0x00;
    assert s[4..] == BODY[16..];
    AbsorbFour(0x1822_DE50, s);
  }

  lemma Part4()
    ensures AbsorbAll(0xCF95_2600, BODY[16..]) == AbsorbAll(0xE900_4F88, BODY[20..])
  {
    hide Absorb, Octet, AbsorbAll;
    BodyOctets();
    Registers2();
    var s := BODY[16..];
    assert s[0] == 0x01 && s[1] == 0x00 && s[2] == 0x00 && s[3] == 0x00;
    assert s[4..] == BODY[20..];
    AbsorbFour(0xCF95_2600, s);
  }

  lemma Part5()
    ensures AbsorbAll(0xE900_4F88, BODY[20..]) == AbsorbAll(0x69A0_DD14, BODY[24..])
  {
    hide Absorb, Octet, AbsorbAll;
    BodyOctets();
    Registers2();
    var s := BODY[20..];
    assert s[0] == 0x00 && s[1] == 0x00 && s[2] == 0x11 && s[3] == 0x12;
    assert s[4..] == BODY[24..];
    AbsorbFour(0xE900_4F88, s);
  }

  lemma Part6()
    ensures AbsorbAll(0x69A0_DD14, BODY[24..]) == AbsorbAll(0x017C_9A13, BODY[28..])
  {
    hide Absorb, Octet, AbsorbAll;
    BodyOctets();
    Registers3();
    var s := BODY[24..];
    assert s[0] == 0x13 && s[1] == 0x14 && s[2] == 0x15 && s[3] == 0x16;
    assert s[4..] == BODY[28..];
    AbsorbFour(0x69A0_DD14, s);
  }

  lemma Part7()
    ensures AbsorbAll(0x017C_9A13, BODY[28..]) == AbsorbAll(0x3CFA_0EF8, BODY[32..])
  {
    hide Absorb, Octet, AbsorbAll;
    BodyOctets();
    Registers3();
    var s := BODY[28..];
    assert s[0] == 0x17 && s[1] == 0x18 && s[2] == 0xFE && s[3] == 0xFF;
    assert s[4..] == BODY[32..];
    AbsorbFour(0x017C_9A13, s);
  }

  lemma NextByte(v: nat, low: byte, width: nat)
    ensures LittleEndian(256 * v + low as nat, width + 1) == [low] + LittleEndian(v, width)
  {
    var w := 256 * v + low as nat;
    assert w / 256 == v && (w % 256) as byte == low;
  }

  lemma NoBytes(v: nat)
    ensures LittleEndian(v, 0) == []
  {
  }

  lemma SequenceBytes()
    ensures LittleEndian(0x0403_0201, 4) == [0x01, 0x02, 0x03, 0x04]
  {
    hide LittleEndian;
    NextByte(0x4_0302, 0x01, 3);
    NextByte(0x403, 0x02, 2);
    NextByte(0x4, 0x03, 1);
    NextByte(0x0, 0x04, 0);
    NoBytes(0);
  }

  lemma RateBytes()
    ensures LittleEndian(48000, 4) == [0x80, 0xBB, 0x00, 0x00]
  {
    hide LittleEndian;
    NextByte(0xBB, 0x80, 3);
    NextByte(0x0, 0xBB, 2);
    NextByte(0x0, 0x00, 1);
    NextByte(0x0, 0x00, 0);
    NoBytes(0);
  }

  lemma TimestampBytes()
    ensures LittleEndian(0x1817_1615_1413_1211, 8) == [0x11, 0x12, 0x13, 0x14, 0x15, 0x16, 0x17, 0x18]
  {
    hide LittleEndian;
    NextByte(0x18_1716_1514_1312, 0x11, 7);
    NextByte(0x1817_1615_1413, 0x12, 6);
    NextByte(0x18_1716_1514, 0x13, 5);
    NextByte(0x1817_1615, 0x14, 4);
    NextByte(0x18_1716, 0x15, 3);
    NextByte(0x1817, 0x16, 2);
    NextByte(0x18, 0x17, 1);
    NextByte(0x0, 0x18, 0);
    NoBytes(0);
  }

  lemma ShortFields()
    ensures LittleEndian(1, 2) == [1, 0] && LittleEndian(0, 4) == [0, 0, 0, 0]
  {
    assert LittleEndian(0, 2) == [0, 0];
  }

  lemma SampleOfExample()
    ensures Encode([-2]) == [0xFE, 0xFF]
  {
    assert -2 % 0x1_0000 == 0xFFFE;
    assert LittleEndian(0xFFFE, 2) == [0xFE] + LittleEndian(0xFF, 1);
    assert LittleEndian(0xFF, 1) == [0xFF] + LittleEndian(0, 0);
    assert [-2][..0] == [] && Encode([]) == [];
  }

  lemma HeaderOfExample()
    ensures HeaderBytes(Header(7, 0x0403_0201, 48000, 1, 0x1817_1615_1413_1211, ChirpEcho, 0xA5), 0) == BODY[..30]
  {
    hide LittleEndian;
    MagicBytes();
    SequenceBytes();
    RateBytes();
    TimestampBytes();
    ShortFields();
  }

  lemma TrailerOfExample()
    ensures WordBytes(0xC305_F107) == [0x07, 0xF1, 0x05, 0xC3]
  {
  }

  /** A chirp recording of one sample, -2, from phone 7: its 36 bytes. */
  lemma PacketExample()
    ensures FramePacket(7, 0x0403_0201, 48000, Encode([-2]), 0x1817_1615_1413_1211, ChirpEcho, 0xA5)
            == Ok(BODY + [0x07, 0xF1, 0x05, 0xC3])
  {
    hide HeaderBytes, Checksum, Encode, WordBytes;
    BodyChecksum();
    SampleOfExample();
    HeaderOfExample();
    TrailerOfExample();
    assert BODY[..30] + [0xFE, 0xFF] == BODY;
  }
}
