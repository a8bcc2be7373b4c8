/**
 What the packet checksum guarantees. An accepted packet leaves a fixed residue in
 the register, so a corruption is caught whenever it moves the register: every
 burst of at most 32 bits does, so does every odd number of flipped bits, and so do
 any two, wherever in the header, the payload or the checksum they fall.
 */
module ErrorDetection {
  import opened Bytes
  import opened Crc32c
  import opened Protocol
  import Mersenne
  import RegisterOrder

  /** What is left in the register by any body followed by its own checksum. */
  function Residue(): word {
    ShiftTimes(ALL_ONES, 32)
  }

  lemma FourByteBits(s: seq<byte>)
    requires |s| == 4
    ensures Bits(s) == OctetBits(Octet(s[0]))
                       + (OctetBits(Octet(s[1])) + (OctetBits(Octet(s[2])) + OctetBits(Octet(s[3]))))
  {
    hide OctetBits, Octet;
    assert Bits(s) == OctetBits(Octet(s[0])) + Bits(s[1..]);
    assert Bits(s[1..]) == OctetBits(Octet(s[1])) + Bits(s[2..]) by { assert s[1..][1..] == s[2..]; }
    assert Bits(s[2..]) == OctetBits(Octet(s[2])) + Bits(s[3..]) by { assert s[2..][1..] == s[3..]; }
    assert Bits(s[3..]) == OctetBits(Octet(s[3])) + Bits([]) by { assert s[3..][1..] == []; }
  }

  lemma StoredBits(tail: seq<byte>)
    requires |tail| == 4
    ensures Bits(tail) == LowBits(WordAt(tail), 32)
  {
    WordOctetsOf(Octet(tail[0]), Octet(tail[1]), Octet(tail[2]), Octet(tail[3]));
    FourOctets(WordAt(tail));
    FourByteBits(tail);
  }

  /** The stored checksum is right exactly when the whole string leaves the residue. */
  lemma ChecksumIffResidue(body: seq<byte>, tail: seq<byte>)
    requires |tail| == 4
    ensures WordAt(tail) == Checksum(body) <==> Run(ALL_ONES, Bits(body + tail)) == Residue()
  {
    hide Run, Xor, ShiftTimes, LowBits, ShiftDown, WordAt, Bits;
    var r, w := Run(ALL_ONES, Bits(body)), WordAt(tail);
    BitsAppend(body, tail);
    RunAppend(ALL_ONES, Bits(body), Bits(tail));
    StoredBits(tail);
    ShiftTimesRun(r, w, 32);
    ShiftDown32(w);
    XorZero(Run(r, LowBits(w, 32)));
    if ShiftTimes(Xor(r, w), 32) == Residue() {
      ShiftTimesInjective(Xor(r, w), ALL_ONES, 32);
    }
    Complement(r, w);
  }

  lemma Complement(r: word, w: word)
    ensures Xor(r, w) == ALL_ONES <==> w == Xor(r, ALL_ONES)
  {
    XorTwice(w, r);
    XorTwice(ALL_ONES, r);
    XorCommutes(r, w);
    XorCommutes(r, ALL_ONES);
  }

  lemma AcceptedLeavesResidue(packet: seq<byte>)
    requires VerifyPacket(packet).Ok?
    ensures Run(ALL_ONES, Bits(packet)) == Residue()
  {
    var bodyLen := |packet| - CRC_SIZE;
    assert packet == packet[..bodyLen] + packet[bodyLen..];
    ChecksumIffResidue(packet[..bodyLen], packet[bodyLen..]);
  }

  // ----- Bursts -----

  /** `a` and `b` differ, and only inside the 32 positions that start at `lo`. */
  ghost predicate BurstApart(a: seq<bool>, b: seq<bool>, lo: nat) {
    && |a| == |b| && a != b
    && forall k | 0 <= k < |a| && !(lo <= k < lo + 32) :: a[k] == b[k]
  }

  lemma {:induction false} ShiftDownZero(n: nat)
    ensures ShiftDown(0, n) == 0
  {
    if n > 0 {
      assert Half(0) == 0;
      ShiftDownZero(n - 1);
    }
  }

  lemma ShiftDown7(w: word)
    ensures ShiftDown(w, 7) == Half(Half(Half(Drop4(w))))
  {
    FourBits(w);
    ShiftDownAdd(w, 4, 3);
  }

  /** A set top bit is still there after up to 31 places. */
  lemma TopBitSurvives(w: word, n: nat)
    requires w >= 0x8000_0000 && n <= 31
    ensures ShiftDown(w, n) != 0
  {
    var v := Drop8(Drop8(Drop8(w)));
    ShiftDown24(w);
    ShiftDownAdd(w, 24, 7);
    ShiftDown7(v);
    TopBitLast(w);
    ShiftDownAdd(w, n, 31 - n);
    ShiftDownZero(31 - n);
  }

  lemma TopBitLast(w: word)
    requires w >= 0x8000_0000
    ensures Half(Half(Half(Drop4(Drop8(Drop8(Drop8(w))))))) != 0
  {
  }

  lemma StepKeepsHigh(d: word, bit: bool)
    ensures BitStep(d, bit) == Half(d) || BitStep(d, bit) >= 0x8000_0000
  {
  }

  /** While a set bit is more places up than there are bits to come, the register cannot clear. */
  lemma {:induction false} HighRunsNonzero(d: word, bits: seq<bool>)
    requires |bits| <= 31 && ShiftDown(d, |bits|) != 0
    ensures Run(d, bits) != 0
    decreases |bits|
  {
    if bits != [] {
      StepKeepsHigh(d, bits[0]);
      if BitStep(d, bits[0]) != Half(d) {
        TopBitSurvives(BitStep(d, bits[0]), |bits| - 1);
      }
      HighRunsNonzero(BitStep(d, bits[0]), bits[1..]);
    }
  }

  lemma FirstBitGap(r: word, bit: bool)
    ensures Xor(BitStep(r, bit), BitStep(r, !bit)) == POLYNOMIAL
  {
    var x, y := Xor(r, BitWord(bit)), Xor(r, BitWord(!bit));
    ShiftLinear(x, y);
    XorSwap(r, BitWord(bit), r, BitWord(!bit));
    XorZero(r);
    assert Xor(BitWord(bit), BitWord(!bit)) == 1;
    XorZero(1);
  }

  /** Strings that differ first at position 0 and last before position 32 leave different registers. */
  lemma BurstAtFront(r: word, a: seq<bool>, b: seq<bool>)
    requires |a| == |b| > 0 && a[0] != b[0]
    requires forall k | 32 <= k < |a| :: a[k] == b[k]
    ensures Run(r, a) != Run(r, b)
  {
    hide BitStep, Xor, ShiftDown;
    var x, y := BitStep(r, a[0]), BitStep(r, b[0]);
    var n := if |a| < 32 then |a| else 32;
    var wa, wb := a[1..n], b[1..n];
    FirstBitGap(r, a[0]);
    RunLinear(x, y, wa, wb);
    TopBitSurvives(POLYNOMIAL, n - 1);
    HighRunsNonzero(POLYNOMIAL, XorBits(wa, wb));
    XorCancel(Run(x, wa), Run(y, wb));
    assert a[1..] == wa + a[n..] && b[1..] == wb + b[n..] && a[n..] == b[n..];
    RunAppend(x, wa, a[n..]);
    RunAppend(y, wb, b[n..]);
    if Run(r, a) == Run(r, b) {
      RunInjective(Run(x, wa), Run(y, wb), a[n..]);
    }
  }

  lemma {:induction false} BurstMovesRegister(r: word, a: seq<bool>, b: seq<bool>, lo: nat)
    requires BurstApart(a, b, lo)
    ensures Run(r, a) != Run(r, b)
    decreases |a|
  {
    if a[0] == b[0] {
      var lo' := if lo > 0 then lo - 1 else 0;
      assert a == [a[0]] + a[1..] && b == [b[0]] + b[1..];
      assert BurstApart(a[1..], b[1..], lo');
      BurstMovesRegister(BitStep(r, a[0]), a[1..], b[1..], lo');
    } else {
      BurstAtFront(r, a, b);
    }
  }

  lemma OctetBitsInjective(a: octet, b: octet)
    requires OctetBits(a) == OctetBits(b)
    ensures a == b
  {
  }

  lemma {:induction false} BitsInjective(p: seq<byte>, q: seq<byte>)
    requires |p| == |q| && p != q
    ensures Bits(p) != Bits(q)
    decreases |p|
  {
    if p[0] != q[0] {
      ByteRoundTrip(p[0]);
      ByteRoundTrip(q[0]);
      assert Bits(p)[..8] == OctetBits(Octet(p[0])) && Bits(q)[..8] == OctetBits(Octet(q[0]));
      if Bits(p) == Bits(q) {
        OctetBitsInjective(Octet(p[0]), Octet(q[0]));
      }
    } else {
      assert p == [p[0]] + p[1..] && q == [q[0]] + q[1..];
      BitsInjective(p[1..], q[1..]);
      assert Bits(p)[8..] == Bits(p[1..]) && Bits(q)[8..] == Bits(q[1..]);
    }
  }

  /** No accepted packet is turned into another accepted one by a burst of up to 32 bits. */
  lemma BurstDetected(packet: seq<byte>, corrupt: seq<byte>, lo: nat)
    requires VerifyPacket(packet).Ok?
    requires |corrupt| == |packet| && corrupt != packet
    requires forall k | 0 <= k < 8 * |packet| && !(lo <= k < lo + 32) :: Bits(packet)[k] == Bits(corrupt)[k]
    ensures VerifyPacket(corrupt).Err?
  {
    BitsInjective(packet, corrupt);
    BurstMovesRegister(ALL_ONES, Bits(packet), Bits(corrupt), lo);
    AcceptedLeavesResidue(packet);
    if VerifyPacket(corrupt).Ok? {
      AcceptedLeavesResidue(corrupt);
    }
  }

  // ----- Odd numbers of errors -----

  /** Whether an odd number of the bits is set. */
  function Odd(bits: seq<bool>): bool {
    if bits == [] then false else bits[0] != Odd(bits[1..])
  }

  function Parity(w: word, n: nat): bool
    decreases n
  {
    if n == 0 then false else LowBit(w) != Parity(Half(w), n - 1)
  }

  lemma {:induction false} ParityAdd(w: word, m: nat, n: nat)
    ensures Parity(w, m + n) == (Parity(w, m) != Parity(ShiftDown(w, m), n))
    decreases m
  {
    if m > 0 {
      ParityAdd(Half(w), m - 1, n);
    }
  }

  lemma {:induction false} ParityLinear(a: word, b: word, n: nat)
    ensures Parity(Xor(a, b), n) == (Parity(a, n) != Parity(b, n))
    decreases n
  {
    hide Xor, Half, LowBit;
    if n > 0 {
      LowBitXor(a, b);
      HalfXor(a, b);
      ParityLinear(Half(a), Half(b), n - 1);
    }
  }

  function NibbleOdd(w: word): bool {
    LowBit(w) != (LowBit(Half(w)) != (LowBit(Half(Half(w))) != LowBit(Half(Half(Half(w))))))
  }

  lemma ParityByNibble(w: word, n: nat)
    ensures Parity(w, n + 4) == (Parity(Drop4(w), n) != NibbleOdd(w))
  {
    hide LowBit, Half, Drop4;
    FourBits(w);
    ParityAdd(w, 4, n);
  }

  lemma PolynomialNibbles()
    ensures NibbleOdd(0x82F63B78) && Drop4(0x82F63B78) == 0x82F63B7
    ensures NibbleOdd(0x82F63B7) && Drop4(0x82F63B7) == 0x82F63B
    ensures NibbleOdd(0x82F63B) && Drop4(0x82F63B) == 0x82F63
    ensures !NibbleOdd(0x82F63) && Drop4(0x82F63) == 0x82F6
    ensures !NibbleOdd(0x82F6) && Drop4(0x82F6) == 0x82F
    ensures !NibbleOdd(0x82F) && Drop4(0x82F) == 0x82
    ensures NibbleOdd(0x82) && Drop4(0x82) == 0x8
    ensures NibbleOdd(0x8) && Drop4(0x8) == 0
  {
  }

  /** The reflected generator has an odd number of terms below its leading one. */
  lemma ParityOfPolynomial()
    ensures Parity(POLYNOMIAL, 32)
  {
    hide NibbleOdd, Drop4;
    PolynomialNibbles();
    ParityByNibble(0x82F63B78, 28);
    ParityByNibble(0x82F63B7, 24);
    ParityByNibble(0x82F63B, 20);
    ParityByNibble(0x82F63, 16);
    ParityByNibble(0x82F6, 12);
    ParityByNibble(0x82F, 8);
    ParityByNibble(0x82, 4);
    ParityByNibble(0x8, 0);
  }

  /** The generator has an even number of terms, so a shift keeps the register's parity. */
  lemma ShiftKeepsParity(x: word)
    ensures Parity(Shift(x), 32) == Parity(x, 32)
  {
    ParityAdd(Half(x), 31, 1);
    ShiftDown32(x);
    ParityOfPolynomial();
    ParityLinear(Half(x), POLYNOMIAL, 32);
  }

  lemma ParityOfBit(bit: bool)
    ensures Parity(BitWord(bit), 32) == bit
  {
    ParityOfZero(31);
  }

  lemma {:induction false} ParityOfZero(n: nat)
    ensures !Parity(0, n)
    ensures !Parity(Half(1), n)
  {
    if n > 0 {
      ParityOfZero(n - 1);
    }
  }

  lemma {:induction false} RunParity(r: word, bits: seq<bool>)
    ensures Parity(Run(r, bits), 32) == (Parity(r, 32) != Odd(bits))
    decreases |bits|
  {
    if bits != [] {
      ParityOfBit(bits[0]);
      ParityLinear(r, BitWord(bits[0]), 32);
      ShiftKeepsParity(Xor(r, BitWord(bits[0])));
      RunParity(BitStep(r, bits[0]), bits[1..]);
    }
  }

  /** No accepted packet is turned into another accepted one by flipping an odd number of bits. */
  lemma OddErrorsDetected(packet: seq<byte>, corrupt: seq<byte>)
    requires VerifyPacket(packet).Ok?
    requires |corrupt| == |packet| && Odd(XorBits(Bits(packet), Bits(corrupt)))
    ensures VerifyPacket(corrupt).Err?
  {
    var flips := XorBits(Bits(packet), Bits(corrupt));
    RunLinear(ALL_ONES, ALL_ONES, Bits(packet), Bits(corrupt));
    XorZero(ALL_ONES);
    RunParity(0, flips);
    ParityOfZero(32);
    AcceptedLeavesResidue(packet);
    if VerifyPacket(corrupt).Ok? {
      AcceptedLeavesResidue(corrupt);
      XorZero(Residue());
    }
  }

  // ----- Up to three errors -----

  /** How many bits differ. */
  function Distance(a: seq<bool>, b: seq<bool>): (n: nat)
    requires |a| == |b|
  {
    if a == [] then 0 else (if a[0] == b[0] then 0 else 1) + Distance(a[1..], b[1..])
  }

  lemma {:induction false} DistanceZero(a: seq<bool>, b: seq<bool>)
    requires |a| == |b| && Distance(a, b) == 0
    ensures a == b
  {
    if a != [] {
      DistanceZero(a[1..], b[1..]);
      assert a == [a[0]] + a[1..] && b == [b[0]] + b[1..];
    }
  }

  lemma {:induction false} OddDistance(a: seq<bool>, b: seq<bool>)
    requires |a| == |b|
    ensures Odd(XorBits(a, b)) == (Distance(a, b) % 2 == 1)
  {
    if a != [] {
      OddDistance(a[1..], b[1..]);
      assert XorBits(a, b)[1..] == XorBits(a[1..], b[1..]);
    }
  }

  /** How one bit each changes the difference of two registers. */
  lemma StepGap(x: word, y: word, p: bool, q: bool)
    ensures Xor(BitStep(x, p), BitStep(y, q)) == Shift(Xor(Xor(x, y), BitWord(p != q)))
  {
    hide Xor, Shift;
    ShiftLinear(Xor(x, BitWord(p)), Xor(y, BitWord(q)));
    XorSwap(x, BitWord(p), y, BitWord(q));
    XorZero(1);
    XorZero(0);
  }

  /** Registers a travelling bit apart stay apart over strings that differ once. */
  lemma {:induction false} SecondErrorMoves(x: word, y: word, a: seq<bool>, b: seq<bool>, k: nat)
    requires |a| == |b| && Distance(a, b) == 1
    requires Xor(x, y) == ShiftTimes(1, k) && 0 < k && k + |a| <= Mersenne.PRIME
    ensures Run(x, a) != Run(y, b)
    decreases |a|
  {
    hide Xor, Shift, BitStep, ShiftTimes;
    var p, q := BitStep(x, a[0]), BitStep(y, b[0]);
    StepGap(x, y, a[0], b[0]);
    if a[0] == b[0] {
      XorZero(Xor(x, y));
      RegisterOrder.ShiftTimesAdd(1, k, 1);
      RegisterOrder.ShiftOnce(ShiftTimes(1, k));
      SecondErrorMoves(p, q, a[1..], b[1..], k + 1);
    } else {
      DistanceZero(a[1..], b[1..]);
      if Run(x, a) == Run(y, b) {
        RunInjective(p, q, a[1..]);
        XorZero(p);
        ShiftToZero(Xor(x, y));
        RegisterOrder.SingleBitReturns(k);
      }
    }
  }

  lemma ShiftToZero(w: word)
    requires Shift(Xor(w, 1)) == 0
    ensures w == 1
  {
  }

  /** Strings that differ in two places less than 2^31 - 1 apart leave different registers. */
  lemma {:induction false} TwoErrorsMove(r: word, a: seq<bool>, b: seq<bool>)
    requires |a| == |b| <= Mersenne.PRIME && Distance(a, b) == 2
    ensures Run(r, a) != Run(r, b)
    decreases |a|
  {
    hide Xor, Shift, BitStep, ShiftTimes;
    if a[0] == b[0] {
      TwoErrorsMove(BitStep(r, a[0]), a[1..], b[1..]);
    } else {
      StepGap(r, r, a[0], b[0]);
      XorZero(r);
      XorZero(1);
      RegisterOrder.ShiftOnce(1);
      SecondErrorMoves(BitStep(r, a[0]), BitStep(r, b[0]), a[1..], b[1..], 1);
    }
  }

  /** No packet with one, two or three flipped bits is accepted, wherever they are. */
  lemma FewErrorsDetected(packet: seq<byte>, corrupt: seq<byte>)
    requires VerifyPacket(packet).Ok?
    requires |corrupt| == |packet| && 1 <= Distance(Bits(packet), Bits(corrupt)) <= 3
    ensures VerifyPacket(corrupt).Err?
  {
    hide VerifyPacket, Bits, Distance;
    var a, b := Bits(packet), Bits(corrupt);
    OddDistance(a, b);
    if Distance(a, b) == 2 {
      PacketBits(packet);
      TwoErrorsMove(ALL_ONES, a, b);
      AcceptedLeavesResidue(packet);
      if VerifyPacket(corrupt).Ok? {
        AcceptedLeavesResidue(corrupt);
      }
    } else {
      OddErrorsDetected(packet, corrupt);
    }
  }

  /** The longest packet has 262416 bits. */
  lemma PacketBits(packet: seq<byte>)
    requires VerifyPacket(packet).Ok?
    ensures |Bits(packet)| <= 262416
  {
    AcceptedIsSealed(packet);
  }
}
