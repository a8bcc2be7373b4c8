/**
 The reference the checksum is measured against: schoolbook long division of
 polynomials over GF(2) by x^32 plus the Castagnoli polynomial 0x1EDC6F41, on
 coefficient lists with the highest power first.
 */
module LongDivision {
  import opened Bytes
  import opened Crc32c

  const CASTAGNOLI: word := 0x1EDC_6F41

  /** The bits of a word, most significant first. */
  function HighFirst(w: word): (bits: seq<bool>)
    ensures |bits| == 32
  {
    seq(32, i requires 0 <= i < 32 => LowBits(w, 32)[31 - i])
  }

  /** Subtracts the coefficients `g` from the leading ones of `dividend`. */
  function SubtractLeading(dividend: seq<bool>, g: seq<bool>): (rest: seq<bool>)
    requires |g| <= |dividend|
    ensures |rest| == |dividend|
  {
    XorBits(dividend[..|g|], g) + dividend[|g|..]
  }

  /** Cancels the leading coefficient until 32 are left. */
  function Remainder(dividend: seq<bool>, tail: seq<bool>): (rest: seq<bool>)
    requires |tail| == 32 <= |dividend|
    ensures |rest| == 32
    decreases |dividend|
  {
    if |dividend| == 32 then dividend
    else if dividend[0] then Remainder(SubtractLeading(dividend[1..], tail), tail)
    else Remainder(dividend[1..], tail)
  }

  function Zeros(): seq<bool> {
    seq(32, _ => false)
  }

  /** A message times x^32, with a register's worth of coefficients added at the top. */
  function Dividend(r: word, message: seq<bool>): (d: seq<bool>)
    ensures |d| == |message| + 32
  {
    SubtractLeading(message + Zeros(), LowBits(r, 32))
  }

  lemma {:induction false} LowBitsXor(a: word, b: word, n: nat)
    ensures LowBits(Xor(a, b), n) == XorBits(LowBits(a, n), LowBits(b, n))
    decreases n
  {
    hide Xor, Half, LowBit;
    if n > 0 {
      HalfXor(a, b);
      LowBitXor(a, b);
      LowBitsXor(Half(a), Half(b), n - 1);
    }
  }

  lemma SubtractTwice(d: seq<bool>, g: seq<bool>, h: seq<bool>)
    requires |g| == |h| <= |d|
    ensures SubtractLeading(SubtractLeading(d, g), h) == SubtractLeading(d, XorBits(g, h))
  {
  }

  lemma HalfLowBits(w: word)
    ensures LowBits(Half(w), 32) == LowBits(w, 32)[1..] + [false]
  {
    hide Half, LowBit;
    LowBitsAppend(Half(w), 31, 1);
    TopOfHalf(w);
    assert LowBits(w, 32) == [LowBit(w)] + LowBits(Half(w), 31);
  }

  lemma TopOfHalf(w: word)
    ensures LowBits(ShiftDown(Half(w), 31), 1) == [false]
  {
    ShiftDown32(w);
    assert LowBits(0, 1) == [LowBit(0)] + LowBits(Half(0), 0);
  }

  lemma ReflectedOctets()
    ensures forall i | 0 <= i < 8 :: OctetBits(0x78)[i] == OctetBits(0x1E)[7 - i]
    ensures forall i | 0 <= i < 8 :: OctetBits(0x3B)[i] == OctetBits(0xDC)[7 - i]
    ensures forall i | 0 <= i < 8 :: OctetBits(0xF6)[i] == OctetBits(0x6F)[7 - i]
    ensures forall i | 0 <= i < 8 :: OctetBits(0x82)[i] == OctetBits(0x41)[7 - i]
  {
  }

  lemma ConstantOctets()
    ensures LowBits(POLYNOMIAL, 32) == OctetBits(0x78) + (OctetBits(0x3B) + (OctetBits(0xF6) + OctetBits(0x82)))
    ensures LowBits(CASTAGNOLI, 32) == OctetBits(0x41) + (OctetBits(0x6F) + (OctetBits(0xDC) + OctetBits(0x1E)))
  {
    hide LowBits, OctetBits;
    FourOctets(POLYNOMIAL);
    FourOctets(CASTAGNOLI);
  }

  /** The code's constant is the generator of the standard with its bits reflected. */
  lemma ReflectedGenerator()
    ensures HighFirst(CASTAGNOLI) == LowBits(POLYNOMIAL, 32)
  {
    hide LowBits, OctetBits;
    ConstantOctets();
    ReflectedOctets();
  }

  lemma StepAdds(r: word, bit: bool)
    ensures LowBit(Xor(r, BitWord(bit))) == (bit != LowBit(r))
    ensures Half(Xor(r, BitWord(bit))) == Half(r)
  {
  }

  lemma SubtractTail(x: bool, rest: seq<bool>, g: seq<bool>)
    requires 0 < |g| <= |rest|
    ensures SubtractLeading([x] + rest, g)[0] == (x != g[0])
    ensures SubtractLeading([x] + rest, g)[1..] == SubtractLeading(rest, g[1..] + [false])
  {
  }

  lemma DividendTail(r: word, message: seq<bool>)
    requires message != []
    ensures
      var d := Dividend(r, message);
      && d[0] == (message[0] != LowBit(r))
      && d[1..] == SubtractLeading(message[1..] + Zeros(), LowBits(Half(r), 32))
  {
    hide Half, LowBit, LowBits, SubtractLeading;
    var rest := message[1..] + Zeros();
    LowBitsHead(r);
    HalfLowBits(r);
    assert message + Zeros() == [message[0]] + rest;
    SubtractTail(message[0], rest, LowBits(r, 32));
  }

  lemma LowBitsHead(w: word)
    ensures LowBits(w, 32)[0] == LowBit(w)
  {
  }

  /** One register step is one step of the division. */
  lemma DivisionStep(r: word, message: seq<bool>)
    requires message != []
    ensures
      var d := Dividend(r, message);
      Dividend(BitStep(r, message[0]), message[1..])
      == if d[0] then SubtractLeading(d[1..], LowBits(POLYNOMIAL, 32)) else d[1..]
  {
    hide Xor, Half, LowBit, LowBits, SubtractLeading;
    var rest := message[1..] + Zeros();
    DividendTail(r, message);
    StepAdds(r, message[0]);
    SubtractTwice(rest, LowBits(Half(r), 32), LowBits(POLYNOMIAL, 32));
    LowBitsXor(Half(r), POLYNOMIAL, 32);
  }

  /** The register after a message is the remainder of the message, preset register included. */
  lemma {:induction false} RegisterIsRemainder(r: word, message: seq<bool>)
    ensures LowBits(Run(r, message), 32) == Remainder(Dividend(r, message), LowBits(POLYNOMIAL, 32))
    decreases |message|
  {
    hide BitStep, LowBits;
    if message == [] {
      assert Dividend(r, message) == LowBits(r, 32);
    } else {
      DivisionStep(r, message);
      RegisterIsRemainder(BitStep(r, message[0]), message[1..]);
    }
  }

  /** The checksum is the inverted remainder of the message whose first 32 coefficients were inverted. */
  lemma ChecksumIsRemainder(data: seq<byte>)
    ensures LowBits(Checksum(data), 32)
            == XorBits(Remainder(Dividend(ALL_ONES, Bits(data)), HighFirst(CASTAGNOLI)), LowBits(ALL_ONES, 32))
  {
    ReflectedGenerator();
    RegisterIsRemainder(ALL_ONES, Bits(data));
    LowBitsXor(Run(ALL_ONES, Bits(data)), ALL_ONES, 32);
  }
}
