/**
 The Android port of the packet format. Its integers are signed and wrap, and its
 buffers are filled in place through a cursor; it must produce the bytes of the
 laptop's framer and accept the packets of the laptop's verifier.
 */
module KotlinProtocol {
  import opened Bytes
  import opened Crc32c
  import P = Protocol

  type int32 = x: int | -0x8000_0000 <= x < 0x8000_0000
  type int64 = x: int | -0x8000_0000_0000_0000 <= x < 0x8000_0000_0000_0000

  /** Two's complement readings of unsigned fields. */
  function Signed32(u: int): int32
    requires 0 <= u < 0x1_0000_0000
  {
    if u < 0x8000_0000 then u else u - 0x1_0000_0000
  }

  function Signed64(u: int): int64
    requires 0 <= u < 0x1_0000_0000_0000_0000
  {
    if u < 0x8000_0000_0000_0000 then u else u - 0x1_0000_0000_0000_0000
  }

  function Unsigned32(i: int32): (u: nat)
    ensures u < 0x1_0000_0000 && Signed32(u) == i
  {
    i % 0x1_0000_0000
  }

  function Unsigned64(i: int64): (u: nat)
    ensures u < 0x1_0000_0000_0000_0000 && Signed64(u) == i
  {
    i % 0x1_0000_0000_0000_0000
  }

  datatype Header = Header(
    phoneId: int32,
    sequence: int32,
    sampleRateHz: int32,
    sampleCount: int32,
    timestampUs: int64,
    packetType: int32,
    flags: int32)

  // ----- Checksum -----

  /** A signed byte widened to an Int: the sign fills the upper 24 bits. */
  function Widen(b: octet): word {
    if b & 0x80 == 0 then b as word else (b as word) | 0xFFFF_FF00
  }

  lemma WideningIsMasked(crc: word, b: octet)
    ensures LowOctet(Xor(crc, Widen(b))) == TableIndex(crc, b)
  {
  }

  method BuildEntry(i: octet) returns (crc: word)
    ensures crc == TableEntry(i)
  {
    hide LowBit, Xor, Half;
    crc := i as word;
    for n := 0 to 8
      invariant ShiftTimes(crc, 8 - n) == TableEntry(i)
    {
      crc := if LowBit(crc) then Xor(Half(crc), POLYNOMIAL) else Half(crc);
    }
  }

  method BuildTable() returns (table: array<word>)
    ensures fresh(table) && IsTable(table[..])
  {
    hide TableEntry;
    table := new word[256];
    for i := 0 to 256
      invariant forall k | 0 <= k < i :: table[k] == TableEntry(k as octet)
    {
      var crc := BuildEntry(i as octet);
      table[i] := crc;
    }
    forall i: octet ensures table[i as int] == TableEntry(i) {
      assert (i as int) as octet == i;
    }
  }

  /** The port's loop indexes with sign-extended bytes and still computes the same checksum. */
  method Crc32cSigned(table: array<word>, data: array<byte>, init: word := ALL_ONES) returns (crc: word)
    requires IsTable(table[..])
    ensures crc == Checksum(data[..], init)
  {
    crc := init;
    for i := 0 to data.Length
      invariant Run(crc, Bits(data[i..])) == Run(init, Bits(data[..]))
    {
      var b := Octet(data[i]);
      var index := LowOctet(Xor(crc, Widen(b)));
      WideningIsMasked(crc, b);
      LookupStep(crc, b);
      RunAppend(crc, OctetBits(b), Bits(data[i + 1..]));
      assert data[i..] == [data[i]] + data[i + 1..];
      assert table[..][index as int] == TableEntry(index);
      crc := Xor(Drop8(crc), table[index as int]);
    }
    assert data[data.Length..] == [];
    crc := Xor(crc, ALL_ONES);
  }

  // ----- Printing -----

  /** A little-endian byte buffer written through a cursor. */
  class ByteBuffer {
    const buf: array<byte>
    var pos: nat

    ghost predicate Valid()
      reads this
    {
      pos <= buf.Length
    }

    ghost function Written(): seq<byte>
      requires Valid()
      reads this, buf
    {
      buf[..pos]
    }

    constructor (buf: array<byte>, start: nat := 0)
      requires start <= buf.Length
      ensures this.buf == buf && pos == start && Valid()
    {
      this.buf, pos := buf, start;
    }

    method Put(v: int)
      requires Valid() && pos + 1 <= buf.Length
      modifies this`pos, buf
      ensures Valid() && pos == old(pos) + 1
      ensures Written() == old(Written()) + [(v % 256) as byte]
    {
      buf[pos] := (v % 256) as byte;
      pos := pos + 1;
    }

    method PutLittleEndian(v: nat, width: nat)
      requires Valid() && pos + width <= buf.Length
      modifies this`pos, buf
      ensures Valid() && pos == old(pos) + width
      ensures Written() == old(Written()) + LittleEndian(v, width)
    {
      var rest := v;
      for k := 0 to width
        invariant Valid() && pos == old(pos) + k
        invariant Written() + LittleEndian(rest, width - k) == old(Written()) + LittleEndian(v, width)
      {
        ghost var before := Written();
        Put(rest);
        assert LittleEndian(rest, width - k) == [(rest % 256) as byte] + LittleEndian(rest / 256, width - k - 1);
        assert before + LittleEndian(rest, width - k) == Written() + LittleEndian(rest / 256, width - k - 1);
        rest := rest / 256;
      }
      assert LittleEndian(rest, 0) == [];
    }
  }

  function Tags(h: Header): seq<byte> {
    [P.VERSION as byte, (h.packetType % 256) as byte, (h.flags % 256) as byte, (h.phoneId % 256) as byte]
  }

  function HeaderBytes(h: Header): (s: seq<byte>)
    ensures |s| == P.HEADER_SIZE
  {
    P.Layout(LittleEndian(P.MAGIC, 4), Tags(h), LittleEndian(Unsigned32(h.sequence), 4),
             LittleEndian(Unsigned32(h.sampleRateHz), 4), LittleEndian(h.sampleCount % 0x1_0000, 2),
             LittleEndian(0, 4), LittleEndian(Unsigned64(h.timestampUs), 8))
  }

  /** Magic and the four single bytes. */
  method PutTags(dv: ByteBuffer, h: Header)
    requires dv.Valid() && dv.pos + 8 <= dv.buf.Length
    modifies dv`pos, dv.buf
    ensures dv.Valid() && dv.pos == old(dv.pos) + 8
    ensures dv.Written() == old(dv.Written()) + (LittleEndian(P.MAGIC, 4) + Tags(h))
  {
    hide LittleEndian;
    dv.PutLittleEndian(P.MAGIC, 4);
    dv.Put(P.VERSION);
    dv.Put(h.packetType);
    dv.Put(h.flags);
    dv.Put(h.phoneId);
  }

  /** The bytes of the wide fields after the tags. */
  function Fields(h: Header): seq<byte> {
    LittleEndian(Unsigned32(h.sequence), 4) + LittleEndian(Unsigned32(h.sampleRateHz), 4)
    + LittleEndian(h.sampleCount % 0x1_0000, 2) + LittleEndian(0, 4) + LittleEndian(Unsigned64(h.timestampUs), 8)
  }

  method PutFields(dv: ByteBuffer, h: Header)
    requires dv.Valid() && dv.pos + 22 <= dv.buf.Length
    modifies dv`pos, dv.buf
    ensures dv.Valid() && dv.pos == old(dv.pos) + 22
    ensures dv.Written() == old(dv.Written()) + Fields(h)
  {
    hide LittleEndian;
    dv.PutLittleEndian(Unsigned32(h.sequence), 4);
    dv.PutLittleEndian(Unsigned32(h.sampleRateHz), 4);
    dv.PutLittleEndian(h.sampleCount % 0x1_0000, 2);
    dv.PutLittleEndian(0, 4);
    dv.PutLittleEndian(Unsigned64(h.timestampUs), 8);
  }

  lemma TagsThenFields(h: Header)
    ensures LittleEndian(P.MAGIC, 4) + Tags(h) + Fields(h) == HeaderBytes(h)
  {
    hide LittleEndian;
  }

  method Pack(h: Header) returns (buf: array<byte>)
    ensures fresh(buf) && buf[..] == HeaderBytes(h)
  {
    hide LittleEndian, Tags, Fields, HeaderBytes;
    buf := new byte[P.HEADER_SIZE];
    var dv := new ByteBuffer(buf);
    PutTags(dv, h);
    PutFields(dv, h);
    TagsThenFields(h);
    assert buf[..] == dv.Written();
  }

  function FramePacket(
    phoneId: int32, sequence: int32, sampleRateHz: int32, samples: seq<byte>, timestampUs: int64,
    packetType: int32 := 1, flags: int32 := 0): P.Result<seq<byte>>
  {
    if |samples| % 2 != 0 then P.Err(P.OddPayload) else
    var sampleCount := |samples| / 2;
    if sampleCount > P.MAX_PAYLOAD_SAMPLES then P.Err(P.PayloadTooLarge) else
    var header := Header(phoneId, sequence, sampleRateHz, sampleCount, timestampUs, packetType, flags);
    P.Ok(P.Sealed(HeaderBytes(header) + samples))
  }

  // ----- Parsing -----

  function ParseHeader(packet: seq<byte>, offset: nat := 0): P.Result<Header> {
    if |packet| - offset < P.HEADER_SIZE then P.Err(P.BufferTooShort) else
    var s := packet[offset..offset + P.HEADER_SIZE];
    P.FieldWidths();
    P.FieldEncode(s, 0, 4);
    P.FieldEncode(s, 8, 12);
    P.FieldEncode(s, 12, 16);
    P.FieldEncode(s, 16, 18);
    P.FieldEncode(s, 22, 30);
    var magic := Signed32(P.Field(s, 0, 4));
    var ptype := s[5] as int;
    var sc := P.Field(s, 16, 18);
    if magic != P.MAGIC then P.Err(P.BadMagic) else
    if s[4] as int != P.VERSION then P.Err(P.BadVersion) else
    if ptype !in {1, 2, 3} then P.Err(P.UnknownType) else
    if sc > P.MAX_PAYLOAD_SAMPLES then P.Err(P.TooManySamples) else
    P.Ok(Header(s[7] as int, Signed32(P.Field(s, 8, 12)), Signed32(P.Field(s, 12, 16)), sc,
                Signed64(P.Field(s, 22, 30)), ptype, s[6] as int))
  }

  function VerifyPacket(packet: seq<byte>): (r: P.Result<Header>)
    ensures r.Ok? ==> r.value.sampleCount >= 0 && |packet| == P.HEADER_SIZE + r.value.sampleCount * 2 + P.CRC_SIZE
  {
    if |packet| < P.HEADER_SIZE + P.CRC_SIZE then P.Err(P.PacketTooShort) else
    var header := ParseHeader(packet);
    if header.Err? then header else
    var payloadLen := header.value.sampleCount * 2;
    if |packet| != P.HEADER_SIZE + payloadLen + P.CRC_SIZE then P.Err(P.LengthMismatch) else
    if P.WordAt(packet[P.HEADER_SIZE + payloadLen..]) != Checksum(packet[..P.HEADER_SIZE + payloadLen])
    then P.Err(P.CrcMismatch)
    else header
  }

  function Payload(packet: seq<byte>): P.Result<seq<byte>> {
    var header := VerifyPacket(packet);
    if header.Err? then P.Err(header.error) else
    P.Ok(packet[P.HEADER_SIZE..P.HEADER_SIZE + header.value.sampleCount * 2])
  }

  // ----- The same on arrays, as the port runs it -----

  method Concat(a: array<byte>, b: array<byte>) returns (c: array<byte>)
    ensures fresh(c) && c[..] == a[..] + b[..]
  {
    c := new byte[a.Length + b.Length];
    for i := 0 to a.Length
      invariant c[..i] == a[..i]
    {
      c[i] := a[i];
    }
    for i := 0 to b.Length
      invariant c[..a.Length] == a[..] && c[a.Length..a.Length + i] == b[..i]
    {
      c[a.Length + i] := b[i];
    }
    assert c[..] == c[..a.Length] + c[a.Length..a.Length + b.Length];
  }

  method CopyOfRange(a: array<byte>, lo: nat, hi: nat) returns (c: array<byte>)
    requires lo <= hi <= a.Length
    ensures fresh(c) && c[..] == a[lo..hi]
  {
    c := new byte[hi - lo];
    for i := 0 to hi - lo
      invariant c[..i] == a[lo..lo + i]
    {
      c[i] := a[lo + i];
    }
  }

  /** The four bytes of a word, lowest first. */
  method PutWord(dv: ByteBuffer, w: word)
    requires dv.Valid() && dv.pos + 4 <= dv.buf.Length
    modifies dv`pos, dv.buf
    ensures dv.Valid() && dv.pos == old(dv.pos) + 4
    ensures dv.Written() == old(dv.Written()) + P.WordBytes(w)
  {
    hide P.WordOctets, OctetByte;
    var o := P.WordOctets(w);
    dv.Put(OctetByte(o[0]) as int);
    dv.Put(OctetByte(o[1]) as int);
    dv.Put(OctetByte(o[2]) as int);
    dv.Put(OctetByte(o[3]) as int);
  }

  method FramePacketArray(
    table: array<word>, phoneId: int32, sequence: int32, sampleRateHz: int32, samples: array<byte>,
    timestampUs: int64, packetType: int32, flags: int32)
    returns (r: P.Result<array<byte>>)
    requires IsTable(table[..])
    ensures r.Ok? ==> fresh(r.value)
    ensures FramePacket(phoneId, sequence, sampleRateHz, samples[..], timestampUs, packetType, flags)
            == if r.Ok? then P.Ok(r.value[..]) else P.Err(r.error)
  {
    hide IsTable, Checksum, P.WordBytes, HeaderBytes;
    if samples.Length % 2 != 0 {
      return P.Err(P.OddPayload);
    }
    var sampleCount := samples.Length / 2;
    if sampleCount > P.MAX_PAYLOAD_SAMPLES {
      return P.Err(P.PayloadTooLarge);
    }
    var header := Pack(Header(phoneId, sequence, sampleRateHz, sampleCount, timestampUs, packetType, flags));
    var body := Concat(header, samples);
    var crc := Crc32cSigned(table, body);
    var trailer := new byte[P.CRC_SIZE];
    var out := Concat(body, trailer);
    var dv := new ByteBuffer(out, body.Length);
    assert dv.Written() == body[..];
    PutWord(dv, crc);
    assert out[..] == dv.Written();
    r := P.Ok(out);
  }

  method VerifyPacketArray(table: array<word>, packet: array<byte>) returns (r: P.Result<Header>)
    requires IsTable(table[..])
    ensures r == VerifyPacket(packet[..])
  {
    hide IsTable, Checksum, P.WordAt, ParseHeader;
    if packet.Length < P.HEADER_SIZE + P.CRC_SIZE {
      return P.Err(P.PacketTooShort);
    }
    r := ParseHeader(packet[..]);
    if r.Err? {
      return;
    }
    var payloadLen := r.value.sampleCount * 2;
    if packet.Length != P.HEADER_SIZE + payloadLen + P.CRC_SIZE {
      return P.Err(P.LengthMismatch);
    }
    var actual := P.WordAt(packet[P.HEADER_SIZE + payloadLen..]);
    var body := CopyOfRange(packet, 0, P.HEADER_SIZE + payloadLen);
    var expected := Crc32cSigned(table, body);
    if actual != expected {
      return P.Err(P.CrcMismatch);
    }
  }

  method PayloadArray(table: array<word>, packet: array<byte>) returns (r: P.Result<array<byte>>)
    requires IsTable(table[..])
    ensures r.Ok? ==> fresh(r.value)
    ensures Payload(packet[..]) == if r.Ok? then P.Ok(r.value[..]) else P.Err(r.error)
  {
    hide IsTable, VerifyPacket;
    var header := VerifyPacketArray(table, packet);
    if header.Err? {
      return P.Err(header.error);
    }
    var samples := CopyOfRange(packet, P.HEADER_SIZE, P.HEADER_SIZE + header.value.sampleCount * 2);
    r := P.Ok(samples);
  }

  // ----- Agreement with the laptop -----

  /** How the port sees a header that the laptop parsed. */
  function AsKotlin(h: P.Header): Header
    requires P.FieldsInRange(h) && P.Masked(h) == h
  {
    Header(h.phoneId, Signed32(h.sequence), Signed32(h.sampleRateHz), h.sampleCount, Signed64(h.timestampUs),
           h.packetType.Code(), h.flags)
  }

  /** Given a known packet type, both framers produce the same bytes, or the same error. */
  lemma SameBytes(
    phoneId: int32, sequence: int32, sampleRateHz: int32, samples: seq<byte>, timestampUs: int64,
    packetType: P.PacketType, flags: int32)
    ensures FramePacket(phoneId, sequence, sampleRateHz, samples, timestampUs, packetType.Code(), flags)
            == P.FramePacket(phoneId, Unsigned32(sequence), Unsigned32(sampleRateHz), samples,
                             Unsigned64(timestampUs), packetType, flags)
  {
    var count := |samples| / 2;
    if |samples| % 2 == 0 && count <= P.MAX_PAYLOAD_SAMPLES {
      SameHeaderBytes(phoneId, sequence, sampleRateHz, count, timestampUs, packetType, flags);
    }
  }

  lemma SameHeaderBytes(
    phoneId: int32, sequence: int32, sampleRateHz: int32, count: int32, timestampUs: int64,
    packetType: P.PacketType, flags: int32)
    requires 0 <= count < 0x1_0000
    ensures
      var k := Header(phoneId, sequence, sampleRateHz, count, timestampUs, packetType.Code(), flags);
      var h := P.Header(phoneId, Unsigned32(sequence), Unsigned32(sampleRateHz), count,
                        Unsigned64(timestampUs), packetType, flags);
      P.Pack(h) == P.Ok(HeaderBytes(k))
  {
    hide LittleEndian;
  }

  lemma ParsersAgree(packet: seq<byte>)
    ensures
      match P.ParseHeader(packet)
      case Err(e) => ParseHeader(packet) == P.Err(e)
      case Ok(h) => P.FieldsInRange(h) && P.Masked(h) == h && ParseHeader(packet) == P.Ok(AsKotlin(h))
  {
    if |packet| >= P.HEADER_SIZE {
      P.FieldWidths();
      P.FieldEncode(packet[0..P.HEADER_SIZE], 0, 4);
    }
    if P.ParseHeader(packet).Ok? {
      P.HeaderBytesOfParse(packet);
    }
  }

  /** Both verifiers accept the same packets, read the same header and reject for the same reason. */
  lemma VerifiersAgree(packet: seq<byte>)
    ensures
      match P.VerifyPacket(packet)
      case Err(e) => VerifyPacket(packet) == P.Err(e)
      case Ok(h) => P.FieldsInRange(h) && P.Masked(h) == h && VerifyPacket(packet) == P.Ok(AsKotlin(h))
    ensures Payload(packet) == P.Payload(packet)
  {
    ParsersAgree(packet);
  }

  /**
   The port does not check the type it is asked to frame: what it builds verifies
   exactly when the type's low byte is one of the three known codes.
   */
  lemma FrameThenVerify(
    phoneId: int32, sequence: int32, sampleRateHz: int32, samples: seq<byte>, timestampUs: int64,
    packetType: int32, flags: int32)
    requires |samples| % 2 == 0 && |samples| <= 2 * P.MAX_PAYLOAD_SAMPLES
    ensures
      var framed := FramePacket(phoneId, sequence, sampleRateHz, samples, timestampUs, packetType, flags);
      framed.Ok? &&
      if packetType % 256 in {1, 2, 3}
      then && VerifyPacket(framed.value) == P.Ok(Header(phoneId % 256, sequence, sampleRateHz, |samples| / 2,
                                                        timestampUs, packetType % 256, flags % 256))
           && Payload(framed.value) == P.Ok(samples)
      else VerifyPacket(framed.value) == P.Err(P.UnknownType)
  {
    hide LittleEndian, Checksum;
    var framed := FramePacket(phoneId, sequence, sampleRateHz, samples, timestampUs, packetType, flags).value;
    if packetType % 256 in {1, 2, 3} {
      var t := P.TypeOf(packetType % 256);
      TypeByteOnly(phoneId, sequence, sampleRateHz, |samples| / 2, timestampUs, packetType, flags);
      SameBytes(phoneId, sequence, sampleRateHz, samples, timestampUs, t, flags);
      P.FrameThenVerify(phoneId, Unsigned32(sequence), Unsigned32(sampleRateHz), samples,
                        Unsigned64(timestampUs), t, flags);
      VerifiersAgree(framed);
    } else {
      UnknownTypeRejected(
        Header(phoneId, sequence, sampleRateHz, |samples| / 2, timestampUs, packetType, flags), samples);
    }
  }

  lemma TypeByteOnly(
    phoneId: int32, sequence: int32, sampleRateHz: int32, count: int32, timestampUs: int64,
    packetType: int32, flags: int32)
    ensures HeaderBytes(Header(phoneId, sequence, sampleRateHz, count, timestampUs, packetType, flags))
            == HeaderBytes(Header(phoneId, sequence, sampleRateHz, count, timestampUs, packetType % 256, flags))
  {
    hide LittleEndian;
  }

  lemma UnknownTypeRejected(h: Header, samples: seq<byte>)
    requires h.packetType % 256 !in {1, 2, 3}
    ensures VerifyPacket(P.Sealed(HeaderBytes(h) + samples)) == P.Err(P.UnknownType)
  {
    var packet := P.Sealed(HeaderBytes(h) + samples);
    var s := HeaderBytes(h);
    assert packet[0..30] == s;
    P.LayoutSlices(
      LittleEndian(P.MAGIC, 4), Tags(h), LittleEndian(Unsigned32(h.sequence), 4),
      LittleEndian(Unsigned32(h.sampleRateHz), 4), LittleEndian(h.sampleCount % 0x1_0000, 2),
      LittleEndian(0, 4), LittleEndian(Unsigned64(h.timestampUs), 8));
    assert s[4] == s[4..8][0] && s[5] == s[4..8][1];
    P.FieldWidths();
    LittleEndianDecode(P.MAGIC, 4);
  }
}
