/**
 CRC-32C as the packet protocol computes it: a 256-entry table and one lookup
 per byte. The meaning of the checksum is bit-serial: a 32-bit register that is
 shifted once per message bit.
 */
module Crc32c {
  import opened Bytes

  type word = bv32

  const POLYNOMIAL: word := 0x82F6_3B78
  const ALL_ONES: word := 0xFFFF_FFFF

  // ----- The register -----

  function Xor(a: word, b: word): word {
    a ^ b
  }

  function Half(w: word): word {
    w >> 1
  }

  function LowBit(w: word): bool {
    w & 1 == 1
  }

  /** One shift of the reflected register, with no message bit added. */
  function Shift(r: word): word {
    if LowBit(r) then Xor(Half(r), POLYNOMIAL) else Half(r)
  }

  function ShiftTimes(r: word, n: nat): word
    decreases n
  {
    if n == 0 then r else ShiftTimes(Shift(r), n - 1)
  }

  function BitWord(bit: bool): word {
    if bit then 1 else 0
  }

  /** The register after absorbing one message bit. */
  function BitStep(r: word, bit: bool): word {
    Shift(Xor(r, BitWord(bit)))
  }

  /** The register after absorbing a whole bit string. */
  function Run(r: word, bits: seq<bool>): word
    decreases |bits|
  {
    if bits == [] then r else Run(BitStep(r, bits[0]), bits[1..])
  }

  /** The bits of a byte in transmission order, least significant first. */
  function OctetBits(b: octet): (bits: seq<bool>)
    ensures |bits| == 8
  {
    [b & 1 == 1, b & 2 == 2, b & 4 == 4, b & 8 == 8, b & 16 == 16, b & 32 == 32, b & 64 == 64, b & 128 == 128]
  }

  function Bits(data: seq<byte>): (bits: seq<bool>)
    ensures |bits| == 8 * |data|
  {
    if data == [] then [] else OctetBits(Octet(data[0])) + Bits(data[1..])
  }

  /** The bit-serial checksum. */
  function Checksum(data: seq<byte>, init: word := ALL_ONES): word {
    Xor(Run(init, Bits(data)), ALL_ONES)
  }

  lemma {:induction false} RunAppend(r: word, a: seq<bool>, b: seq<bool>)
    ensures Run(r, a + b) == Run(Run(r, a), b)
    decreases |a|
  {
    if a == [] {
      assert a + b == b;
    } else {
      assert (a + b)[1..] == a[1..] + b;
      RunAppend(BitStep(r, a[0]), a[1..], b);
    }
  }

  lemma {:induction false} BitsAppend(a: seq<byte>, b: seq<byte>)
    ensures Bits(a + b) == Bits(a) + Bits(b)
  {
    if a == [] {
      assert a + b == b;
    } else {
      assert (a + b)[1..] == a[1..] + b;
      BitsAppend(a[1..], b);
    }
  }

  /** Streaming: a checksum over `a + b` continues the register left by `a`. */
  lemma ChecksumAppend(a: seq<byte>, b: seq<byte>, init: word)
    ensures Checksum(a + b, init) == Checksum(b, Xor(Checksum(a, init), ALL_ONES))
  {
    BitsAppend(a, b);
    RunAppend(init, Bits(a), Bits(b));
    XorTwice(Run(init, Bits(a)), ALL_ONES);
  }

  // ----- Algebra of the register -----

  lemma XorTwice(a: word, b: word)
    ensures Xor(Xor(a, b), b) == a
  {
  }

  lemma XorZero(a: word)
    ensures Xor(a, 0) == a && Xor(0, a) == a && Xor(a, a) == 0
  {
  }

  lemma XorCommutes(a: word, b: word)
    ensures Xor(a, b) == Xor(b, a)
  {
  }

  lemma XorAssociates(a: word, b: word, c: word)
    ensures Xor(Xor(a, b), c) == Xor(a, Xor(b, c))
  {
  }

  lemma XorCancel(a: word, b: word)
    ensures Xor(a, b) == 0 <==> a == b
  {
    XorTwice(a, b);
    XorZero(a);
    XorZero(b);
  }

  lemma XorSwap(a: word, b: word, c: word, d: word)
    ensures Xor(Xor(a, b), Xor(c, d)) == Xor(Xor(a, c), Xor(b, d))
  {
    XorAssociates(a, b, Xor(c, d));
    XorAssociates(b, c, d);
    XorCommutes(b, c);
    XorAssociates(c, b, d);
    XorAssociates(a, c, Xor(b, d));
  }

  lemma HalfXor(a: word, b: word)
    ensures Half(Xor(a, b)) == Xor(Half(a), Half(b))
  {
  }

  lemma LowBitXor(a: word, b: word)
    ensures LowBit(Xor(a, b)) == (LowBit(a) != LowBit(b))
  {
    LowBitXorRaw(a, b);
  }

  lemma LowBitXorRaw(a: word, b: word)
    ensures (a ^ b) & 1 == (a & 1) ^ (b & 1)
    ensures a & 1 == 0 || a & 1 == 1
    ensures b & 1 == 0 || b & 1 == 1
  {
  }

  lemma ShiftLinear(a: word, b: word)
    ensures Shift(Xor(a, b)) == Xor(Shift(a), Shift(b))
  {
    var x, y, p := Half(a), Half(b), POLYNOMIAL;
    HalfXor(a, b);
    LowBitXor(a, b);
    XorSwap(x, if LowBit(a) then p else 0, y, if LowBit(b) then p else 0);
    XorZero(x);
    XorZero(y);
    XorZero(p);
    XorZero(Xor(x, y));
  }

  lemma {:induction false} ShiftTimesLinear(a: word, b: word, n: nat)
    ensures ShiftTimes(Xor(a, b), n) == Xor(ShiftTimes(a, n), ShiftTimes(b, n))
    decreases n
  {
    if n > 0 {
      ShiftLinear(a, b);
      ShiftTimesLinear(Shift(a), Shift(b), n - 1);
    }
  }

  lemma ShiftInjective(a: word, b: word)
    requires Shift(a) == Shift(b)
    ensures a == b
  {
  }

  lemma {:induction false} ShiftTimesInjective(a: word, b: word, n: nat)
    requires ShiftTimes(a, n) == ShiftTimes(b, n)
    ensures a == b
    decreases n
  {
    if n > 0 {
      ShiftTimesInjective(Shift(a), Shift(b), n - 1);
      ShiftInjective(a, b);
    }
  }

  /** For a fixed message the register step is invertible. */
  lemma {:induction false} RunInjective(r: word, q: word, bits: seq<bool>)
    requires Run(r, bits) == Run(q, bits)
    ensures r == q
    decreases |bits|
  {
    if bits != [] {
      var b := BitWord(bits[0]);
      RunInjective(BitStep(r, bits[0]), BitStep(q, bits[0]), bits[1..]);
      ShiftInjective(Xor(r, b), Xor(q, b));
      XorTwice(r, b);
      XorTwice(q, b);
    }
  }

  function XorBits(a: seq<bool>, b: seq<bool>): (c: seq<bool>)
    requires |a| == |b|
    ensures |c| == |a|
  {
    seq(|a|, i requires 0 <= i < |a| => a[i] != b[i])
  }

  /** The register is linear in its starting value and message together. */
  lemma {:induction false} RunLinear(r: word, q: word, a: seq<bool>, b: seq<bool>)
    requires |a| == |b|
    ensures Run(Xor(r, q), XorBits(a, b)) == Xor(Run(r, a), Run(q, b))
    decreases |a|
  {
    if a == [] {
      assert XorBits(a, b) == [];
    } else {
      var c := XorBits(a, b);
      assert c[1..] == XorBits(a[1..], b[1..]);
      assert BitWord(c[0]) == Xor(BitWord(a[0]), BitWord(b[0]));
      XorSwap(r, q, BitWord(a[0]), BitWord(b[0]));
      ShiftLinear(Xor(r, BitWord(a[0])), Xor(q, BitWord(b[0])));
      RunLinear(BitStep(r, a[0]), BitStep(q, b[0]), a[1..], b[1..]);
    }
  }

  // ----- Words as bit strings -----

  /** The `n` least significant bits of a word, least significant first. */
  function LowBits(w: word, n: nat): (bits: seq<bool>)
    ensures |bits| == n
    decreases n
  {
    if n == 0 then [] else [LowBit(w)] + LowBits(Half(w), n - 1)
  }

  function ShiftDown(w: word, n: nat): word
    decreases n
  {
    if n == 0 then w else ShiftDown(Half(w), n - 1)
  }

  function Drop8(w: word): word {
    w >> 8
  }

  function LowOctet(w: word): octet {
    (w & 0xFF) as octet
  }

  lemma TakeLowBit(r: word, w: word)
    ensures Shift(Xor(r, w)) == Xor(BitStep(r, LowBit(w)), Half(w))
  {
    var low := BitWord(LowBit(w));
    XorTwice(w, low);
    XorAssociates(r, low, Xor(w, low));
    XorCommutes(low, Xor(w, low));
    ShiftLinear(Xor(r, low), Xor(w, low));
    ShiftEven(w);
  }

  lemma ClearLowBit(w: word)
    requires LowBit(w)
    ensures !LowBit(Xor(w, 1)) && Half(Xor(w, 1)) == Half(w)
  {
  }

  lemma ShiftEven(w: word)
    ensures Shift(Xor(w, BitWord(LowBit(w)))) == Half(w)
  {
    if LowBit(w) {
      ClearLowBit(w);
    } else {
      XorZero(w);
    }
  }

  /** Adding a word in and shifting equals absorbing its bits one at a time. */
  lemma {:induction false} ShiftTimesRun(r: word, w: word, n: nat)
    ensures ShiftTimes(Xor(r, w), n) == Xor(Run(r, LowBits(w, n)), ShiftDown(w, n))
    decreases n
  {
    if n > 0 {
      var bits := LowBits(w, n);
      assert bits[0] == LowBit(w) && bits[1..] == LowBits(Half(w), n - 1);
      TakeLowBit(r, w);
      ShiftTimesRun(BitStep(r, bits[0]), Half(w), n - 1);
    }
  }

  lemma {:induction false} LowBitsAppend(w: word, m: nat, n: nat)
    ensures LowBits(w, m + n) == LowBits(w, m) + LowBits(ShiftDown(w, m), n)
    decreases m
  {
    if m > 0 {
      LowBitsAppend(Half(w), m - 1, n);
    }
  }

  lemma {:induction false} ShiftDownAdd(w: word, m: nat, n: nat)
    ensures ShiftDown(w, m + n) == ShiftDown(ShiftDown(w, m), n)
    decreases m
  {
    if m > 0 {
      ShiftDownAdd(Half(w), m - 1, n);
    }
  }

  function Drop4(w: word): word {
    Half(Half(Half(Half(w))))
  }

  lemma FourBits(w: word)
    ensures LowBits(w, 4) == [LowBit(w), LowBit(Half(w)), LowBit(Half(Half(w))), LowBit(Half(Half(Half(w))))]
    ensures ShiftDown(w, 4) == Drop4(w)
  {
    hide LowBit, Half;
  }

  lemma EightBits(w: word)
    ensures LowBits(w, 8) == LowBits(w, 4) + LowBits(Drop4(w), 4)
    ensures ShiftDown(w, 8) == Drop8(w)
  {
    FourBits(w);
    FourBits(Drop4(w));
    LowBitsAppend(w, 4, 4);
    ShiftDownAdd(w, 4, 4);
    Drop4Twice(w);
  }

  lemma Drop4Twice(w: word)
    ensures Drop4(Drop4(w)) == Drop8(w)
  {
  }

  lemma ShiftDown24(w: word)
    ensures ShiftDown(w, 24) == Drop8(Drop8(Drop8(w)))
  {
    hide Half, Drop8;
    ShiftDownAdd(w, 8, 16);
    ShiftDownAdd(Drop8(w), 8, 8);
    EightBits(w);
    EightBits(Drop8(w));
    EightBits(Drop8(Drop8(w)));
  }

  lemma Drop8FourTimes(w: word)
    ensures Drop8(Drop8(Drop8(Drop8(w)))) == 0
  {
  }

  lemma ShiftDown32(w: word)
    ensures ShiftDown(w, 32) == 0
  {
    hide Half, Drop8;
    ShiftDownAdd(w, 24, 8);
    ShiftDown24(w);
    EightBits(Drop8(Drop8(Drop8(w))));
    Drop8FourTimes(w);
  }

  lemma LowBits8(w: word)
    ensures LowBits(w, 8) == OctetBits(LowOctet(w))
  {
    EightBits(w);
    FourBits(w);
    FourBits(Drop4(w));
    OctetBitsRaw(w);
  }

  lemma LowBitsByByte(w: word, n: nat)
    ensures LowBits(w, 8 + n) == OctetBits(LowOctet(w)) + LowBits(Drop8(w), n)
  {
    LowBitsAppend(w, 8, n);
    EightBits(w);
    LowBits8(w);
  }

  /** A word's bits, byte by byte from the lowest. */
  lemma FourOctets(w: word)
    ensures
      var (a, b) := (LowOctet(w), LowOctet(Drop8(w)));
      var (c, d) := (LowOctet(Drop8(Drop8(w))), LowOctet(Drop8(Drop8(Drop8(w)))));
      LowBits(w, 32) == OctetBits(a) + (OctetBits(b) + (OctetBits(c) + OctetBits(d)))
  {
    hide LowBits, OctetBits, Drop8, LowOctet;
    LowBitsByByte(w, 24);
    LowBitsByByte(Drop8(w), 16);
    LowBitsByByte(Drop8(Drop8(w)), 8);
    LowBits8(Drop8(Drop8(Drop8(w))));
  }

  lemma OctetBitsRaw(w: word)
    ensures
      var v := Drop4(w);
      OctetBits(LowOctet(w)) == [LowBit(w), LowBit(Half(w)), LowBit(Half(Half(w))), LowBit(Half(Half(Half(w))))]
                                + [LowBit(v), LowBit(Half(v)), LowBit(Half(Half(v))), LowBit(Half(Half(Half(v))))]
  {
  }

  lemma OctetAsWord(b: octet)
    ensures LowOctet(b as word) == b && Drop8(b as word) == 0
  {
  }

  /** One byte, absorbed bit by bit, is one addition and eight shifts. */
  lemma RunByte(r: word, b: octet)
    ensures Run(r, OctetBits(b)) == ShiftTimes(Xor(r, b as word), 8)
  {
    ShiftTimesRun(r, b as word, 8);
    LowBits8(b as word);
    EightBits(b as word);
    OctetAsWord(b);
    XorZero(Run(r, OctetBits(b)));
  }

  // ----- The table form -----

  /** What the table must hold at index `i`. */
  function TableEntry(i: octet): word {
    ShiftTimes(i as word, 8)
  }

  ghost predicate IsTable(table: seq<word>) {
    |table| == 256 && forall i: octet :: table[i as int] == TableEntry(i)
  }

  method BuildEntry(i: octet) returns (crc: word)
    ensures crc == TableEntry(i)
  {
    hide LowBit, Xor, Half;
    crc := i as word;
    for n := 0 to 8
      invariant ShiftTimes(crc, 8 - n) == TableEntry(i)
    {
      if LowBit(crc) {
        crc := Xor(Half(crc), POLYNOMIAL);
      } else {
        crc := Half(crc);
      }
    }
  }

  method BuildTable() returns (table: seq<word>)
    ensures IsTable(table)
  {
    hide TableEntry;
    table := [];
    for i := 0 to 256
      invariant |table| == i
      invariant forall k | 0 <= k < i :: table[k] == TableEntry(k as octet)
    {
      var crc := BuildEntry(i as octet);
      table := table + [crc];
    }
    forall i: octet ensures table[i as int] == TableEntry(i) {
      assert (i as int) as octet == i;
    }
  }

  function TableIndex(crc: word, b: octet): octet {
    LowOctet(Xor(crc, b as word))
  }

  /** The byte loop over the table computes the bit-serial checksum. */
  method Crc32c(table: seq<word>, data: seq<byte>, init: word := ALL_ONES) returns (crc: word)
    requires IsTable(table)
    ensures crc == Checksum(data, init)
  {
    crc := init;
    for i := 0 to |data|
      invariant Run(crc, Bits(data[i..])) == Run(init, Bits(data))
    {
      LookupStep(crc, Octet(data[i]));
      RunAppend(crc, OctetBits(Octet(data[i])), Bits(data[i..][1..]));
      assert data[i..][1..] == data[i + 1..];
      crc := Xor(Drop8(crc), table[TableIndex(crc, Octet(data[i])) as int]);
    }
    crc := Xor(crc, ALL_ONES);
  }

  lemma {:induction false} RunZeros(n: nat)
    ensures Run(0, seq(n, _ => false)) == 0
  {
    var zeros := seq(n, _ => false);
    if n > 0 {
      assert zeros[1..] == seq(n - 1, _ => false);
      assert BitStep(0, false) == 0;
      RunZeros(n - 1);
    }
  }

  lemma HighPart(h: word)
    requires LowOctet(h) == 0
    ensures ShiftTimes(h, 8) == Drop8(h)
  {
    LowBits8(h);
    EightBits(h);
    assert OctetBits(0) == seq(8, _ => false);
    XorZero(h);
    ShiftTimesRun(0, h, 8);
    RunZeros(8);
    XorZero(Drop8(h));
  }

  lemma SplitLowByte(x: word)
    ensures
      var low := LowOctet(x) as word;
      var high := Xor(x, low);
      x == Xor(low, high) && LowOctet(high) == 0 && Drop8(high) == Drop8(x)
  {
  }

  lemma AddingAByteKeepsTheRest(r: word, b: octet)
    ensures Drop8(Xor(r, b as word)) == Drop8(r)
  {
  }

  /** One table lookup absorbs one byte. */
  lemma LookupStep(r: word, b: octet)
    ensures Xor(Drop8(r), TableEntry(TableIndex(r, b))) == Run(r, OctetBits(b))
  {
    var x := Xor(r, b as word);
    var low := LowOctet(x) as word;
    RunByte(r, b);
    SplitLowByte(x);
    AddingAByteKeepsTheRest(r, b);
    ShiftTimesLinear(low, Xor(x, low), 8);
    HighPart(Xor(x, low));
    XorCommutes(ShiftTimes(low, 8), Drop8(r));
  }
}
