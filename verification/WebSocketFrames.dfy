/**
 The phone's WebSocket server frames every packet as one unmasked binary message.
 The receiving end is the frame parser of RFC 6455 section 5.2; streams of frames
 and lists of payloads are proved to be in one-to-one correspondence.
 */
module WebSocketFrames {
  import opened Bytes

  const FINAL_BINARY: byte := 0x82

  /** The largest payload whose frame still fits a JVM byte array. */
  const MAX_PAYLOAD: nat := 0x7FFF_FFFF - 10

  /** Opcode and length, in the shortest of the three length encodings. */
  function FrameHeader(len: nat): seq<byte>
  {
    if len <= 125 then [FINAL_BINARY, len as byte]
    else if len <= 0xFFFF then [FINAL_BINARY, 126] + BigEndian(len, 2)
    else [FINAL_BINARY, 127] + BigEndian(len, 8)
  }

  function Encode(payload: seq<byte>): seq<byte> {
    FrameHeader(|payload|) + payload
  }

  method EncodeBinaryFrame(payload: array<byte>) returns (out: array<byte>)
    requires payload.Length <= MAX_PAYLOAD
    ensures fresh(out) && out[..] == Encode(payload[..])
  {
    var len := payload.Length;
    if len <= 125 {
      out := new byte[2 + len];
      out[0] := 0x82;
      out[1] := len as byte;
      ArrayCopy(payload, out, 2);
    } else if len <= 0xFFFF {
      out := new byte[4 + len];
      out[0] := 0x82;
      out[1] := 126;
      out[2] := ((len / 256) % 256) as byte;
      out[3] := (len % 256) as byte;
      TwoBytes(len);
      assert out[..4] == FrameHeader(len);
      ArrayCopy(payload, out, 4);
    } else {
      out := new byte[10 + len];
      out[0] := 0x82;
      out[1] := 127;
      PutLong(out, 2, len);
      assert out[..10] == FrameHeader(len);
      ArrayCopy(payload, out, 10);
    }
    assert out[..] == out[..|FrameHeader(len)|] + out[|FrameHeader(len)|..];
  }

  lemma TwoBytes(v: nat)
    ensures BigEndian(v, 2) == [((v / 256) % 256) as byte, (v % 256) as byte]
  {
  }

  /** One header of each length form, byte by byte. */
  lemma HeaderExamples()
    ensures FrameHeader(5) == [0x82, 5]
    ensures FrameHeader(300) == [0x82, 126, 0x01, 0x2C]
    ensures FrameHeader(70000) == [0x82, 127, 0, 0, 0, 0, 0, 1, 0x11, 0x70]
  {
    TwoBytes(300);
    LastByte(70000, 8);
    LastByte(273, 7);
    LastByte(1, 6);
    assert BigEndian(0, 5) == [0, 0, 0, 0, 0];
  }

  method ArrayCopy(src: array<byte>, dst: array<byte>, at: nat)
    requires src != dst && at + src.Length == dst.Length
    modifies dst
    ensures dst[at..] == src[..] && dst[..at] == old(dst[..at])
  {
    for i := 0 to src.Length
      invariant dst[at..at + i] == src[..i] && dst[..at] == old(dst[..at])
    {
      dst[at + i] := src[i];
    }
  }

  /** Writes eight bytes, most significant first. */
  method PutLong(dst: array<byte>, at: nat, v: nat)
    requires at + 8 <= dst.Length
    modifies dst
    ensures dst[at..at + 8] == BigEndian(v, 8) && dst[..at] == old(dst[..at])
  {
    hide BigEndian;
    var rest := v;
    LastByte(v, 0);
    for k := 0 to 8
      invariant dst[..at] == old(dst[..at])
      invariant BigEndian(rest, 8 - k) + dst[at + 8 - k..at + 8] == BigEndian(v, 8)
    {
      ghost var written := dst[at + 8 - k..at + 8];
      var low := (rest % 256) as byte;
      dst[at + 7 - k] := low;
      assert dst[at + 7 - k..at + 8] == [low] + written;
      LastByte(rest, 8 - k);
      AssociateBytes(BigEndian(rest / 256, 7 - k), [low], written);
      rest := rest / 256;
    }
  }

  lemma LastByte(v: nat, width: nat)
    ensures if width == 0 then BigEndian(v, width) == []
            else BigEndian(v, width) == BigEndian(v / 256, width - 1) + [(v % 256) as byte]
  {
  }

  lemma AssociateBytes(a: seq<byte>, b: seq<byte>, c: seq<byte>)
    ensures a + b + c == a + (b + c)
  {
  }

  // ----- The parser of RFC 6455 section 5.2 -----

  const BINARY: nat := 2

  datatype Parsed =
    | Frame(fin: bool, opcode: nat, masked: bool, payload: seq<byte>, rest: seq<byte>)
    | Incomplete
    | Malformed

  datatype Length = Length(len: nat, headerLen: nat) | Short | Bad

  /** The three length forms; a longer one than needed and a 64-bit one with the top bit set are bad. */
  function ReadLength(s: seq<byte>): (r: Length)
    requires |s| >= 2
    ensures r.Length? ==> 2 <= r.headerLen <= |s|
  {
    var short := s[1] as nat % 128;
    if short <= 125 then Length(short, 2) else
    if short == 126 then
      if |s| < 4 then Short else
      var len := FromBigEndian(s[2..4]);
      if len <= 125 then Bad else Length(len, 4)
    else
      if |s| < 10 then Short else
      var len := FromBigEndian(s[2..10]);
      if len <= 0xFFFF || len >= 0x8000_0000_0000_0000 then Bad else Length(len, 10)
  }

  /** Continuation, text, binary, close, ping and pong; the other opcodes are reserved. */
  predicate KnownOpcode(opcode: nat) {
    opcode <= 2 || 8 <= opcode <= 10
  }

  predicate Fin(b: byte) {
    b >= 128
  }

  function Reserved(b: byte): nat {
    b as nat % 128 / 16
  }

  function Opcode(b: byte): nat {
    b as nat % 16
  }

  lemma FirstByte(b: byte)
    ensures Fin(b) && Reserved(b) == 0 && Opcode(b) == BINARY <==> b == FINAL_BINARY
  {
  }

  function Unmasked(data: seq<byte>, key: seq<byte>): (r: seq<byte>)
    requires |key| == 4
    ensures |r| == |data|
  {
    seq(|data|, i requires 0 <= i < |data| => OctetByte(Octet(data[i]) ^ Octet(key[i % 4])))
  }

  /** The masking key, if there is one, then the payload. */
  function TakePayload(s: seq<byte>, fin: bool, opcode: nat, masked: bool, len: nat, headerLen: nat): (r: Parsed)
    requires 2 <= headerLen <= |s|
    ensures r.Frame? ==> |r.rest| < |s| && r.fin == fin && r.opcode == opcode && r.masked == masked
    ensures r.Frame? && !masked ==> |r.payload| == len && s[headerLen..] == r.payload + r.rest
  {
    var start := if masked then headerLen + 4 else headerLen;
    if |s| < start + len then Incomplete else
    var data := s[start..start + len];
    Frame(fin, opcode, masked, if masked then Unmasked(data, s[headerLen..start]) else data, s[start + len..])
  }

  /**
   One frame of any kind: FIN, the three reserved bits, the opcode, the mask bit, the length, the
   masking key if there is one, and the payload. Reserved bits and opcodes are refused, and
   control frames must be final and short, as section 5.5 demands.
   */
  function DecodeFrame(s: seq<byte>): (r: Parsed)
    ensures r.Frame? ==> |r.rest| < |s|
  {
    if |s| == 0 then Incomplete else
    if Reserved(s[0]) != 0 || !KnownOpcode(Opcode(s[0])) then Malformed else
    if |s| < 2 then Incomplete else
    if Opcode(s[0]) >= 8 && (!Fin(s[0]) || s[1] as nat % 128 > 125) then Malformed else
    match ReadLength(s)
    case Short => Incomplete
    case Bad => Malformed
    case Length(len, headerLen) => TakePayload(s, Fin(s[0]), Opcode(s[0]), s[1] >= 128, len, headerLen)
  }

  /** A whole, unmasked binary message. */
  function Message(payload: seq<byte>, rest: seq<byte>): Parsed {
    Frame(true, BINARY, false, payload, rest)
  }

  predicate IsMessage(f: Parsed) {
    f.Frame? && f.fin && f.opcode == BINARY && !f.masked
  }

  ghost predicate Sendable(payload: seq<byte>) {
    |payload| < 0x8000_0000_0000_0000
  }

  lemma Widths()
    ensures Pow256(2) == 0x1_0000 && Pow256(8) == 0x1_0000_0000_0000_0000
  {
  }

  /** The length the encoder wrote is read back from as many bytes as there are, or more are asked for. */
  lemma LengthOfEncoded(payload: seq<byte>, s: seq<byte>)
    requires Sendable(payload) && |s| >= 2
    requires forall i | 0 <= i < |s| && i < |FrameHeader(|payload|)| :: s[i] == FrameHeader(|payload|)[i]
    ensures ReadLength(s)
            == if |s| < |FrameHeader(|payload|)| then Short else Length(|payload|, |FrameHeader(|payload|)|)
  {
    hide BigEndian, FromBigEndian;
    var len := |payload|;
    var head := FrameHeader(len);
    Widths();
    if 125 < len <= 0xFFFF && |s| >= 4 {
      assert s[2..4] == head[2..4] == BigEndian(len, 2);
      BigEndianDecode(len, 2);
    } else if len > 0xFFFF && |s| >= 10 {
      assert s[2..10] == head[2..10] == BigEndian(len, 8);
      BigEndianDecode(len, 8);
    }
  }

  /** A frame in front of anything is parsed back, and exactly the frame is consumed. */
  lemma DecodeEncoded(payload: seq<byte>, rest: seq<byte>)
    requires Sendable(payload)
    ensures DecodeFrame(Encode(payload) + rest) == Message(payload, rest)
  {
    hide ReadLength, Fin, Reserved, Opcode;
    var head := FrameHeader(|payload|);
    var s := Encode(payload) + rest;
    assert s == head + (payload + rest);
    FirstByte(s[0]);
    LengthOfEncoded(payload, s);
    assert s[|head|..|head| + |payload|] == payload && s[|head| + |payload|..] == rest;
  }

  /** What the length form says, the encoder would have written. */
  lemma HeaderOfLength(s: seq<byte>)
    requires |s| >= 2 && s[0] == FINAL_BINARY && s[1] < 128 && ReadLength(s).Length?
    ensures
      var l := ReadLength(s);
      l.len < 0x8000_0000_0000_0000 && s[..l.headerLen] == FrameHeader(l.len)
  {
    hide FromBigEndian, BigEndian;
    if s[1] == 126 {
      Widths();
      BigEndianEncode(s[2..4]);
      BigEndianBound(s[2..4]);
      assert s[..4] == s[..2] + s[2..4];
    } else if s[1] == 127 {
      BigEndianEncode(s[2..10]);
      assert s[..10] == s[..2] + s[2..10];
    }
  }

  /** A parsed whole, unmasked binary message was framed by the encoder: length forms are minimal and unique. */
  lemma DecodedIsEncoded(s: seq<byte>)
    requires IsMessage(DecodeFrame(s))
    ensures
      var f := DecodeFrame(s);
      Sendable(f.payload) && s == Encode(f.payload) + f.rest
  {
    hide ReadLength, Fin, Reserved, Opcode, TakePayload, FrameHeader;
    FirstByte(s[0]);
    HeaderOfLength(s);
    var f := DecodeFrame(s);
    var head := s[..ReadLength(s).headerLen];
    assert s == head + s[|head|..];
    assert head + (f.payload + f.rest) == Encode(f.payload) + f.rest;
  }

  // ----- Streams -----

  function EncodeAll(payloads: seq<seq<byte>>): seq<byte> {
    if payloads == [] then [] else Encode(payloads[0]) + EncodeAll(payloads[1..])
  }

  datatype Messages = Messages(payloads: seq<seq<byte>>) | Broken

  /** Reads a byte stream to its end as a list of whole, unmasked binary messages. */
  function DecodeAll(s: seq<byte>): Messages
    decreases |s|
  {
    if s == [] then Messages([]) else
    var f := DecodeFrame(s);
    if !IsMessage(f) then Broken else
    var more := DecodeAll(f.rest);
    if more.Broken? then Broken else Messages([f.payload] + more.payloads)
  }

  /** Framing a list of payloads and parsing the stream gives the list back, with no byte left. */
  lemma {:induction false} StreamRoundTrip(payloads: seq<seq<byte>>)
    requires forall p | p in payloads :: Sendable(p)
    ensures DecodeAll(EncodeAll(payloads)) == Messages(payloads)
  {
    hide DecodeFrame, Encode;
    if payloads != [] {
      var rest := EncodeAll(payloads[1..]);
      DecodeEncoded(payloads[0], rest);
      StreamRoundTrip(payloads[1..]);
      assert payloads == [payloads[0]] + payloads[1..];
    }
  }

  /** Conversely, every stream that parses to the end is the framing of what it parses to. */
  lemma {:induction false} StreamUnique(s: seq<byte>)
    requires DecodeAll(s).Messages?
    ensures s == EncodeAll(DecodeAll(s).payloads)
    decreases |s|
  {
    hide DecodeFrame, Encode;
    if s != [] {
      var f := DecodeFrame(s);
      DecodedIsEncoded(s);
      StreamUnique(f.rest);
      var all := DecodeAll(s).payloads;
      assert all[0] == f.payload && all[1..] == DecodeAll(f.rest).payloads;
    }
  }

  /** A frame cut short anywhere is recognised as incomplete, never as another frame. */
  lemma CutFrameIncomplete(payload: seq<byte>, k: nat)
    requires Sendable(payload) && k < |Encode(payload)|
    ensures DecodeFrame(Encode(payload)[..k]) == Incomplete
  {
    hide ReadLength, Fin, Reserved, Opcode;
    var s := Encode(payload)[..k];
    FirstByte(FINAL_BINARY);
    if k >= 2 {
      LengthOfEncoded(payload, s);
    }
  }
}
