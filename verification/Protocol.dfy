/**
 The packet format between phone and laptop: a 30-byte header, 16-bit PCM and a
 CRC-32C trailer. Building and verifying packets are proved to undo each other.
 */
module Protocol {
  import opened Bytes
  import opened Crc32c

  const MAGIC: nat := 0x53555254
  const VERSION: nat := 1
  const HEADER_SIZE: nat := 30
  const CRC_SIZE: nat := 4
  const MAX_PAYLOAD_SAMPLES: nat := 16384

  datatype PacketType = AudioFrame | ChirpEcho | Heartbeat {
    function Code(): (code: nat)
      ensures IsTypeCode(code)
    {
      match this
      case AudioFrame => 1
      case ChirpEcho => 2
      case Heartbeat => 3
    }
  }

  predicate IsTypeCode(code: nat) {
    1 <= code <= 3
  }

  function TypeOf(code: nat): (t: PacketType)
    requires IsTypeCode(code)
    ensures t.Code() == code
  {
    if code == 1 then AudioFrame else if code == 2 then ChirpEcho else Heartbeat
  }

  datatype Header = Header(
    phoneId: int,
    sequence: int,
    sampleRateHz: int,
    sampleCount: int,
    timestampUs: int,
    packetType: PacketType,
    flags: int)

  /** `FieldOutOfRange` stands for the packing error of an integer that does not fit its field. */
  datatype Error =
    | BufferTooShort
    | BadMagic
    | BadVersion
    | UnknownType
    | TooManySamples
    | OddPayload
    | PayloadTooLarge
    | PacketTooShort
    | LengthMismatch
    | CrcMismatch
    | FieldOutOfRange

  datatype Result<+T> = Ok(value: T) | Err(error: Error)

  // ----- Header -----

  predicate FieldsInRange(h: Header) {
    && 0 <= h.sequence < 0x1_0000_0000
    && 0 <= h.sampleRateHz < 0x1_0000_0000
    && 0 <= h.sampleCount < 0x1_0000
    && 0 <= h.timestampUs < 0x1_0000_0000_0000_0000
  }

  /** What a header looks like after a trip over the wire: two fields are cut to a byte. */
  function Masked(h: Header): Header {
    h.(phoneId := h.phoneId % 256, flags := h.flags % 256)
  }

  /** The order of the fields on the wire. */
  function Layout(
    magic: seq<byte>, tags: seq<byte>, sequence: seq<byte>, rate: seq<byte>, count: seq<byte>,
    reserved: seq<byte>, timestamp: seq<byte>): seq<byte>
  {
    magic + tags + sequence + rate + count + reserved + timestamp
  }

  function Tags(h: Header): seq<byte> {
    [VERSION as byte, h.packetType.Code() as byte, (h.flags % 256) as byte, (h.phoneId % 256) as byte]
  }

  /** The printed header, with the content of the reserved word left open. */
  function HeaderBytes(h: Header, reserved: nat): (s: seq<byte>)
    requires FieldsInRange(h)
    ensures |s| == HEADER_SIZE
  {
    Layout(LittleEndian(MAGIC, 4), Tags(h), LittleEndian(h.sequence, 4), LittleEndian(h.sampleRateHz, 4),
           LittleEndian(h.sampleCount, 2), LittleEndian(reserved, 4), LittleEndian(h.timestampUs, 8))
  }

  function Pack(h: Header): Result<seq<byte>> {
    if FieldsInRange(h) then Ok(HeaderBytes(h, 0)) else Err(FieldOutOfRange)
  }

  /** The number stored little-endian at `s[lo..hi]`. */
  function Field(s: seq<byte>, lo: nat, hi: nat): nat
    requires lo <= hi <= |s|
  {
    FromLittleEndian(s[lo..hi])
  }

  function ParseHeader(buf: seq<byte>, offset: nat := 0): (r: Result<Header>) {
    if |buf| - offset < HEADER_SIZE then Err(BufferTooShort) else
    var s := buf[offset..offset + HEADER_SIZE];
    if Field(s, 0, 4) != MAGIC then Err(BadMagic) else
    if s[4] as int != VERSION then Err(BadVersion) else
    if !IsTypeCode(s[5] as int) then Err(UnknownType) else
    if Field(s, 16, 18) > MAX_PAYLOAD_SAMPLES then Err(TooManySamples) else
    Ok(Header(s[7] as int, Field(s, 8, 12), Field(s, 12, 16), Field(s, 16, 18), Field(s, 22, 30),
              TypeOf(s[5] as int), s[6] as int))
  }

  function Reserved(buf: seq<byte>): nat
    requires |buf| >= HEADER_SIZE
  {
    Field(buf, 18, 22)
  }

  // ----- Packet -----

  /** A checksum as it is stored, least significant byte first. */
  function WordOctets(w: word): (s: seq<octet>)
    ensures |s| == 4
  {
    [LowOctet(w), LowOctet(Drop8(w)), LowOctet(Drop8(Drop8(w))), LowOctet(Drop8(Drop8(Drop8(w))))]
  }

  function WordOf(a: octet, b: octet, c: octet, d: octet): word {
    (a as word) | ((b as word) << 8) | ((c as word) << 16) | ((d as word) << 24)
  }

  function WordBytes(w: word): (s: seq<byte>)
    ensures |s| == 4
  {
    var o := WordOctets(w);
    [OctetByte(o[0]), OctetByte(o[1]), OctetByte(o[2]), OctetByte(o[3])]
  }

  function WordAt(s: seq<byte>): word
    requires |s| == 4
  {
    WordOf(Octet(s[0]), Octet(s[1]), Octet(s[2]), Octet(s[3]))
  }

  lemma WordOctetsOf(a: octet, b: octet, c: octet, d: octet)
    ensures WordOctets(WordOf(a, b, c, d)) == [a, b, c, d]
  {
  }

  lemma WordOfOctets(w: word)
    ensures var o := WordOctets(w); WordOf(o[0], o[1], o[2], o[3]) == w
  {
  }

  lemma WordRoundTrip(w: word)
    ensures WordAt(WordBytes(w)) == w
  {
    var o := WordOctets(w);
    OctetRoundTrip(o[0]);
    OctetRoundTrip(o[1]);
    OctetRoundTrip(o[2]);
    OctetRoundTrip(o[3]);
    WordOfOctets(w);
  }

  lemma WordBytesOfWordAt(s: seq<byte>)
    requires |s| == 4
    ensures WordBytes(WordAt(s)) == s
  {
    WordOctetsOf(Octet(s[0]), Octet(s[1]), Octet(s[2]), Octet(s[3]));
    ByteRoundTrip(s[0]);
    ByteRoundTrip(s[1]);
    ByteRoundTrip(s[2]);
    ByteRoundTrip(s[3]);
  }

  function Sealed(body: seq<byte>): (packet: seq<byte>)
    ensures |packet| == |body| + CRC_SIZE
  {
    body + WordBytes(Checksum(body))
  }

  function FramePacket(
    phoneId: int, sequence: int, sampleRateHz: int, samples: seq<byte>, timestampUs: int,
    packetType: PacketType := AudioFrame, flags: int := 0): Result<seq<byte>>
  {
    if |samples| % 2 != 0 then Err(OddPayload) else
    var sampleCount := |samples| / 2;
    if sampleCount > MAX_PAYLOAD_SAMPLES then Err(PayloadTooLarge) else
    var header := Pack(Header(phoneId, sequence, sampleRateHz, sampleCount, timestampUs, packetType, flags));
    if header.Err? then header else Ok(Sealed(header.value + samples))
  }

  function VerifyPacket(packet: seq<byte>): (r: Result<Header>)
    ensures r.Ok? ==> |packet| == HEADER_SIZE + r.value.sampleCount * 2 + CRC_SIZE
  {
    if |packet| < HEADER_SIZE + CRC_SIZE then Err(PacketTooShort) else
    var header := ParseHeader(packet);
    if header.Err? then header else
    var payloadLen := header.value.sampleCount * 2;
    if |packet| != HEADER_SIZE + payloadLen + CRC_SIZE then Err(LengthMismatch) else
    if WordAt(packet[HEADER_SIZE + payloadLen..]) != Checksum(packet[..HEADER_SIZE + payloadLen]) then Err(CrcMismatch)
    else header
  }

  function Payload(packet: seq<byte>): (r: Result<seq<byte>>)
    ensures r.Ok? <==> VerifyPacket(packet).Ok?
    ensures r.Ok? ==> |r.value| == 2 * VerifyPacket(packet).value.sampleCount
  {
    var header := VerifyPacket(packet);
    if header.Err? then Err(header.error) else
    Ok(packet[HEADER_SIZE..HEADER_SIZE + header.value.sampleCount * 2])
  }

  // ----- Header round trips -----

  /** Cutting a layout at its field boundaries recovers the fields. */
  lemma LayoutSlices(
    magic: seq<byte>, tags: seq<byte>, sequence: seq<byte>, rate: seq<byte>, count: seq<byte>,
    reserved: seq<byte>, timestamp: seq<byte>)
    requires |magic| == |tags| == |sequence| == |rate| == |reserved| == 4 && |count| == 2 && |timestamp| == 8
    ensures
      var s := Layout(magic, tags, sequence, rate, count, reserved, timestamp);
      && |s| == HEADER_SIZE
      && s[0..4] == magic && s[4..8] == tags && s[8..12] == sequence && s[12..16] == rate
      && s[16..18] == count && s[18..22] == reserved && s[22..30] == timestamp
  {
  }

  lemma LayoutOfSlices(s: seq<byte>)
    requires |s| == HEADER_SIZE
    ensures s == Layout(s[0..4], s[4..8], s[8..12], s[12..16], s[16..18], s[18..22], s[22..30])
  {
  }

  lemma HeaderSlices(h: Header, reserved: nat)
    requires FieldsInRange(h)
    ensures
      var s := HeaderBytes(h, reserved);
      && s[0..4] == LittleEndian(MAGIC, 4)
      && s[4..8] == Tags(h)
      && s[8..12] == LittleEndian(h.sequence, 4)
      && s[12..16] == LittleEndian(h.sampleRateHz, 4)
      && s[16..18] == LittleEndian(h.sampleCount, 2)
      && s[18..22] == LittleEndian(reserved, 4)
      && s[22..30] == LittleEndian(h.timestampUs, 8)
  {
    LayoutSlices(LittleEndian(MAGIC, 4), Tags(h), LittleEndian(h.sequence, 4), LittleEndian(h.sampleRateHz, 4),
                 LittleEndian(h.sampleCount, 2), LittleEndian(reserved, 4), LittleEndian(h.timestampUs, 8));
  }

  lemma FieldWidths()
    ensures Pow256(2) == 0x1_0000
    ensures Pow256(4) == 0x1_0000_0000
    ensures Pow256(8) == 0x1_0000_0000_0000_0000
  {
  }

  /** Parsing a printed header gives it back, whatever the reserved word holds. */
  /** Every field of a header is read back from its place. */
  lemma FieldsOfHeader(h: Header, reserved: nat)
    requires FieldsInRange(h)
    ensures
      var s := HeaderBytes(h, reserved);
      && Field(s, 0, 4) == MAGIC && Field(s, 8, 12) == h.sequence && Field(s, 12, 16) == h.sampleRateHz
      && Field(s, 16, 18) == h.sampleCount && Field(s, 22, 30) == h.timestampUs
  {
    hide HeaderBytes;
    HeaderSlices(h, reserved);
    FieldWidths();
    LittleEndianDecode(MAGIC, 4);
    LittleEndianDecode(h.sequence, 4);
    LittleEndianDecode(h.sampleRateHz, 4);
    LittleEndianDecode(h.sampleCount, 2);
    LittleEndianDecode(h.timestampUs, 8);
  }

  lemma ParseHeaderBytes(h: Header, reserved: nat, rest: seq<byte>)
    requires FieldsInRange(h) && h.sampleCount <= MAX_PAYLOAD_SAMPLES
    ensures ParseHeader(HeaderBytes(h, reserved) + rest) == Ok(Masked(h))
  {
    hide HeaderBytes, Field;
    var s := HeaderBytes(h, reserved);
    assert (s + rest)[0..30] == s;
    FieldsOfHeader(h, reserved);
    assert s[4..8] == Tags(h) by { HeaderSlices(h, reserved); }
    assert s[4] == s[4..8][0] && s[5] == s[4..8][1] && s[6] == s[4..8][2] && s[7] == s[4..8][3];
  }

  lemma FieldEncode(s: seq<byte>, lo: nat, hi: nat)
    requires lo <= hi <= |s|
    ensures LittleEndian(Field(s, lo, hi), hi - lo) == s[lo..hi]
    ensures Field(s, lo, hi) < Pow256(hi - lo)
  {
    LittleEndianEncode(s[lo..hi]);
    LittleEndianBound(s[lo..hi]);
  }

  /** Every header that parses is the print of what it parses to. */
  lemma HeaderBytesOfParse(buf: seq<byte>)
    requires ParseHeader(buf).Ok?
    ensures
      var h := ParseHeader(buf).value;
      && FieldsInRange(h) && h.sampleCount <= MAX_PAYLOAD_SAMPLES && h == Masked(h)
      && buf[..HEADER_SIZE] == HeaderBytes(h, Reserved(buf))
  {
    var s := buf[0..HEADER_SIZE];
    assert s[0..HEADER_SIZE] == s && buf[18..22] == s[18..22];
    HeaderOfParse(s);
  }

  lemma HeaderOfParse(s: seq<byte>)
    requires |s| == HEADER_SIZE && ParseHeader(s).Ok?
    ensures
      var h := ParseHeader(s).value;
      && FieldsInRange(h) && h.sampleCount <= MAX_PAYLOAD_SAMPLES && h == Masked(h)
      && s == HeaderBytes(h, Reserved(s))
  {
    hide Field;
    assert s[0..HEADER_SIZE] == s;
    FieldWidths();
    FieldEncode(s, 0, 4);
    FieldEncode(s, 8, 12);
    FieldEncode(s, 12, 16);
    FieldEncode(s, 16, 18);
    FieldEncode(s, 18, 22);
    FieldEncode(s, 22, 30);
    TagsOfParse(s);
    LayoutOfSlices(s);
  }

  lemma TagsOfParse(s: seq<byte>)
    requires |s| == HEADER_SIZE && ParseHeader(s).Ok?
    ensures s[4..8] == Tags(ParseHeader(s).value) && ParseHeader(s).value == Masked(ParseHeader(s).value)
  {
  }

  // ----- Packet round trips -----

  /** A sealed header and payload verifies to that header, whatever the reserved word holds. */
  lemma VerifySealed(h: Header, reserved: nat, samples: seq<byte>)
    requires FieldsInRange(h) && |samples| == 2 * h.sampleCount && h.sampleCount <= MAX_PAYLOAD_SAMPLES
    ensures
      var packet := Sealed(HeaderBytes(h, reserved) + samples);
      VerifyPacket(packet) == Ok(Masked(h)) && Payload(packet) == Ok(samples)
  {
    hide HeaderBytes, ParseHeader, Checksum, WordBytes, WordAt, Masked, FieldsInRange;
    var head := HeaderBytes(h, reserved);
    var body := head + samples;
    var packet := Sealed(body);
    var trailer := WordBytes(Checksum(body));
    assert packet == head + (samples + trailer);
    ParseHeaderBytes(h, reserved, samples + trailer);
    assert packet[..|body|] == body && packet[|body|..] == trailer;
    WordRoundTrip(Checksum(body));
    assert packet[HEADER_SIZE..|body|] == samples;
    MaskedCount(h);
  }

  lemma MaskedCount(h: Header)
    ensures Masked(h).sampleCount == h.sampleCount
  {
  }

  /** The framer succeeds exactly on in-range fields and an even payload within the cap. */
  lemma FrameSucceeds(
    phoneId: int, sequence: int, sampleRateHz: int, samples: seq<byte>, timestampUs: int,
    packetType: PacketType, flags: int)
    ensures FramePacket(phoneId, sequence, sampleRateHz, samples, timestampUs, packetType, flags).Ok? <==>
            && |samples| % 2 == 0
            && |samples| <= 32768
            && 0 <= sequence < 0x1_0000_0000
            && 0 <= sampleRateHz < 0x1_0000_0000
            && 0 <= timestampUs < 0x1_0000_0000_0000_0000
  {
  }

  /** What was framed is what is verified and what is paid out. */
  lemma FrameThenVerify(
    phoneId: int, sequence: int, sampleRateHz: int, samples: seq<byte>, timestampUs: int,
    packetType: PacketType, flags: int)
    requires FramePacket(phoneId, sequence, sampleRateHz, samples, timestampUs, packetType, flags).Ok?
    ensures
      var packet := FramePacket(phoneId, sequence, sampleRateHz, samples, timestampUs, packetType, flags).value;
      && VerifyPacket(packet)
         == Ok(Header(phoneId % 256, sequence, sampleRateHz, |samples| / 2, timestampUs, packetType, flags % 256))
      && Payload(packet) == Ok(samples)
      && Reserved(packet) == 0
  {
    hide HeaderBytes, VerifyPacket, Payload, Checksum, Sealed, Reserved;
    var h := Header(phoneId, sequence, sampleRateHz, |samples| / 2, timestampUs, packetType, flags);
    var packet := FramePacket(phoneId, sequence, sampleRateHz, samples, timestampUs, packetType, flags).value;
    VerifySealed(h, 0, samples);
    ReservedOfSealed(h, 0, samples);
  }

  lemma ReservedOfSealed(h: Header, reserved: nat, samples: seq<byte>)
    requires FieldsInRange(h) && reserved < 0x1_0000_0000
    ensures Reserved(Sealed(HeaderBytes(h, reserved) + samples)) == reserved
  {
    hide HeaderBytes, Checksum, WordBytes;
    var head := HeaderBytes(h, reserved);
    var packet := Sealed(head + samples);
    assert packet[18..22] == head[18..22];
    HeaderSlices(h, reserved);
    FieldWidths();
    LittleEndianDecode(reserved, 4);
  }

  /** Frames a header and payload the way a sender holding them would. */
  function Reframe(h: Header, samples: seq<byte>): Result<seq<byte>> {
    FramePacket(h.phoneId, h.sequence, h.sampleRateHz, samples, h.timestampUs, h.packetType, h.flags)
  }

  /** An accepted packet is determined by its header, its payload and its reserved word. */
  lemma AcceptedIsSealed(packet: seq<byte>)
    requires VerifyPacket(packet).Ok?
    ensures
      var h := VerifyPacket(packet).value;
      var samples := Payload(packet).value;
      && FieldsInRange(h) && h == Masked(h)
      && |samples| == 2 * h.sampleCount && h.sampleCount <= MAX_PAYLOAD_SAMPLES
      && packet == Sealed(HeaderBytes(h, Reserved(packet)) + samples)
  {
    hide ParseHeader, HeaderBytes, Checksum, WordAt, WordBytes, Masked, Field, FieldsInRange;
    var bodyLen := |packet| - CRC_SIZE;
    HeaderBytesOfParse(packet);
    WordBytesOfWordAt(packet[bodyLen..]);
    CutInThree(packet, bodyLen);
  }

  lemma CutInThree(packet: seq<byte>, bodyLen: nat)
    requires HEADER_SIZE <= bodyLen <= |packet|
    ensures packet[..bodyLen] == packet[..HEADER_SIZE] + packet[HEADER_SIZE..bodyLen]
    ensures packet == packet[..bodyLen] + packet[bodyLen..]
  {
  }

  /** The verifier accepts more than the framer makes by the reserved word alone. */
  lemma VerifyThenReframe(packet: seq<byte>)
    requires VerifyPacket(packet).Ok?
    ensures Reframe(VerifyPacket(packet).value, Payload(packet).value) == Ok(packet) <==> Reserved(packet) == 0
  {
    var h := VerifyPacket(packet).value;
    var samples := Payload(packet).value;
    AcceptedIsSealed(packet);
    ReframeIsSealed(h, samples);
    ReservedOfSealed(h, 0, samples);
  }

  lemma ReframeIsSealed(h: Header, samples: seq<byte>)
    requires FieldsInRange(h) && |samples| == 2 * h.sampleCount && h.sampleCount <= MAX_PAYLOAD_SAMPLES
    ensures Reframe(h, samples) == Ok(Sealed(HeaderBytes(h, 0) + samples))
  {
    assert h == Header(h.phoneId, h.sequence, h.sampleRateHz, |samples| / 2, h.timestampUs, h.packetType, h.flags);
    assert Pack(h) == Ok(HeaderBytes(h, 0));
  }

  // ----- Decoding to samples -----

  function Signed16(lo: byte, hi: byte): int {
    var u := lo as int + 256 * hi as int;
    if u < 0x8000 then u else u - 0x1_0000
  }

  /** 16-bit PCM scaled to [-1, 1). */
  function Decode(pcm: seq<byte>): (samples: seq<real>)
    requires |pcm| % 2 == 0
    ensures |samples| == |pcm| / 2
  {
    seq(|pcm| / 2, i requires 0 <= i < |pcm| / 2 => Signed16(pcm[2 * i], pcm[2 * i + 1]) as real / 32768.0)
  }

  /** The samples of a packet, or nothing when it does not verify. */
  function PacketToSamples(packet: seq<byte>): (r: Result<seq<real>>)
    ensures r.Ok? <==> VerifyPacket(packet).Ok?
    ensures r.Ok? ==> |r.value| == VerifyPacket(packet).value.sampleCount
  {
    hide Payload, VerifyPacket;
    var pcm := Payload(packet);
    if pcm.Err? then Err(pcm.error) else Ok(Decode(pcm.value))
  }

  // ----- Samples on the wire -----

  predicate Is16Bit(n: int) {
    -0x8000 <= n < 0x8000
  }

  /** A signed 16-bit number in two's complement, least significant byte first. */
  function SampleBytes(n: int): (s: seq<byte>)
    ensures |s| == 2
  {
    LittleEndian(n % 0x1_0000, 2)
  }

  function Encode(ns: seq<int>): (pcm: seq<byte>)
    ensures |pcm| == 2 * |ns|
  {
    if ns == [] then [] else Encode(ns[..|ns| - 1]) + SampleBytes(ns[|ns| - 1])
  }

  /** The samples of 16-bit numbers, full scale being 1. */
  function Scaled(ns: seq<int>): (samples: seq<real>)
    ensures |samples| == |ns|
  {
    seq(|ns|, i requires 0 <= i < |ns| => ns[i] as real / 32768.0)
  }

  lemma SampleRoundTrip(n: int)
    requires Is16Bit(n)
    ensures Signed16(SampleBytes(n)[0], SampleBytes(n)[1]) == n
  {
    var v := n % 0x1_0000;
    assert LittleEndian(v, 2) == [(v % 256) as byte] + LittleEndian(v / 256, 1);
    assert LittleEndian(v / 256, 1) == [(v / 256 % 256) as byte];
  }

  lemma BytesRoundTrip(lo: byte, hi: byte)
    ensures Is16Bit(Signed16(lo, hi)) && SampleBytes(Signed16(lo, hi)) == [lo, hi]
  {
    var v := Signed16(lo, hi) % 0x1_0000;
    assert v == lo as int + 256 * hi as int;
    assert LittleEndian(v, 2) == [(v % 256) as byte] + LittleEndian(v / 256, 1);
    assert LittleEndian(v / 256, 1) == [(v / 256 % 256) as byte];
  }

  lemma DecodeOneMore(pcm: seq<byte>, lo: byte, hi: byte)
    requires |pcm| % 2 == 0
    ensures Decode(pcm + [lo, hi]) == Decode(pcm) + [Signed16(lo, hi) as real / 32768.0]
  {
    hide Signed16;
  }

  /** Decoding undoes the encoding of any 16-bit numbers. */
  lemma {:induction false} DecodeEncoded(ns: seq<int>)
    requires forall i | 0 <= i < |ns| :: Is16Bit(ns[i])
    ensures Decode(Encode(ns)) == Scaled(ns)
  {
    hide Decode, SampleBytes, Signed16;
    if ns == [] {
      NothingDecoded();
    } else {
      var front, n := ns[..|ns| - 1], ns[|ns| - 1];
      var b := SampleBytes(n);
      DecodeEncoded(front);
      SampleRoundTrip(n);
      assert b == [b[0], b[1]];
      DecodeOneMore(Encode(front), b[0], b[1]);
    }
  }

  lemma NothingDecoded()
    ensures Decode([]) == []
  {
  }

  /** Every payload of whole samples is the encoding of 16-bit numbers, and of no others. */
  lemma {:induction false} EveryPayloadIsEncoded(pcm: seq<byte>) returns (ns: seq<int>)
    requires |pcm| % 2 == 0
    ensures (forall i | 0 <= i < |ns| :: Is16Bit(ns[i])) && Encode(ns) == pcm && Decode(pcm) == Scaled(ns)
  {
    hide SampleBytes, Signed16, Decode;
    if pcm == [] {
      ns := [];
      NothingDecoded();
    } else {
      var k := |pcm| - 2;
      var lo, hi := pcm[k], pcm[k + 1];
      var front := EveryPayloadIsEncoded(pcm[..k]);
      BytesRoundTrip(lo, hi);
      ns := front + [Signed16(lo, hi)];
      assert ns[..|front|] == front && pcm == pcm[..k] + [lo, hi];
      DecodeEncoded(ns);
    }
  }

  /** Samples framed by a phone come out of the packet as they went in. */
  lemma FramedSamples(
    phoneId: int, sequence: int, sampleRateHz: int, ns: seq<int>, timestampUs: int,
    packetType: PacketType, flags: int)
    requires forall i | 0 <= i < |ns| :: Is16Bit(ns[i])
    requires FramePacket(phoneId, sequence, sampleRateHz, Encode(ns), timestampUs, packetType, flags).Ok?
    ensures
      var packet := FramePacket(phoneId, sequence, sampleRateHz, Encode(ns), timestampUs, packetType, flags).value;
      PacketToSamples(packet) == Ok(Scaled(ns))
  {
    hide FramePacket, VerifyPacket, Payload, Decode, Encode;
    FrameThenVerify(phoneId, sequence, sampleRateHz, Encode(ns), timestampUs, packetType, flags);
    DecodeEncoded(ns);
  }
}
