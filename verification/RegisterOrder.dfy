/**
 The order of the register step. Shifting is multiplying by x modulo the generator, so powers of
 x multiply by absorbing one of them with the weight of the other. A register holding a single
 bit is back in its place after 2^31 - 1 shifts, and, that number being prime, not before.
 */
module RegisterOrder {
  import opened Counting
  import opened Crc32c
  import Mersenne

  function Pick(v: word, bit: bool): word {
    if bit then v else 0
  }

  /** Absorbs bits that weigh `v` instead of 1. */
  function Weighted(v: word, r: word, bits: seq<bool>): word
    decreases |bits|
  {
    if bits == [] then r else Weighted(v, Shift(Xor(r, Pick(v, bits[0]))), bits[1..])
  }

  lemma {:induction false} WeightOne(r: word, bits: seq<bool>)
    ensures Weighted(1, r, bits) == Run(r, bits)
    decreases |bits|
  {
    hide Shift, Xor;
    if bits != [] {
      assert Pick(1, bits[0]) == BitWord(bits[0]);
      WeightOne(BitStep(r, bits[0]), bits[1..]);
    }
  }

  lemma ShiftPick(v: word, bit: bool)
    ensures Pick(Shift(v), bit) == Shift(Pick(v, bit))
  {
    assert Shift(0) == 0;
  }

  lemma {:induction false} WeightedShift(v: word, r: word, bits: seq<bool>)
    ensures Weighted(Shift(v), Shift(r), bits) == Shift(Weighted(v, r, bits))
    decreases |bits|
  {
    hide Shift, Xor, Pick;
    if bits != [] {
      ShiftPick(v, bits[0]);
      ShiftLinear(r, Pick(v, bits[0]));
      WeightedShift(v, Shift(Xor(r, Pick(v, bits[0]))), bits[1..]);
    }
  }

  lemma {:induction false} WeightedShiftTimes(v: word, r: word, bits: seq<bool>, m: nat)
    ensures Weighted(ShiftTimes(v, m), ShiftTimes(r, m), bits) == ShiftTimes(Weighted(v, r, bits), m)
    decreases m
  {
    hide Shift, Weighted;
    if m > 0 {
      WeightedShift(v, r, bits);
      WeightedShiftTimes(Shift(v), Shift(r), bits, m - 1);
    }
  }

  lemma {:induction false} ShiftTimesAdd(r: word, m: nat, n: nat)
    ensures ShiftTimes(r, m + n) == ShiftTimes(ShiftTimes(r, m), n)
    decreases m
  {
    hide Shift;
    if m > 0 {
      ShiftTimesAdd(Shift(r), m - 1, n);
    }
  }

  lemma ShiftOnce(r: word)
    ensures ShiftTimes(r, 1) == Shift(r)
  {
  }

  lemma {:induction false} ShiftTimesZero(n: nat)
    ensures ShiftTimes(0, n) == 0
  {
    if n > 0 {
      assert Shift(0) == 0;
      ShiftTimesZero(n - 1);
    }
  }

  /** The product of two powers, 32 shifts further on. */
  lemma PowerProduct(m: nat, n: nat)
    ensures ShiftTimes(1, n + 32 + m) == Weighted(ShiftTimes(1, m), 0, LowBits(ShiftTimes(1, n), 32))
  {
    hide Shift, ShiftTimes, Run, Xor, Weighted, LowBits, ShiftDown;
    var a := ShiftTimes(1, n);
    ShiftTimesAdd(1, n, 32);
    ShiftTimesAdd(1, n + 32, m);
    ShiftTimesRun(0, a, 32);
    ShiftDown32(a);
    XorZero(a);
    XorZero(Run(0, LowBits(a, 32)));
    WeightOne(0, LowBits(a, 32));
    WeightedShiftTimes(1, 0, LowBits(a, 32), m);
    ShiftTimesZero(m);
  }

  // ----- Squares of constants -----

  /** One shift, and one bit absorbed, each in one formula. */
  function ShiftInline(x: word): word {
    if x & 1 == 1 then (x >> 1) ^ 0x82F6_3B78 else x >> 1
  }

  function WeighBit(v: word, r: word, bit: bool): word {
    if bit then ShiftInline(Xor(r, v)) else ShiftInline(r)
  }

  lemma ShiftInlineIs(x: word)
    ensures ShiftInline(x) == Shift(x)
  {
  }

  lemma WeighBitIs(v: word, r: word, bit: bool)
    ensures WeighBit(v, r, bit) == Shift(Xor(r, Pick(v, bit)))
  {
    hide Shift, ShiftInline, Xor;
    if bit {
      ShiftInlineIs(Xor(r, v));
    } else {
      ShiftInlineIs(r);
      XorZero(r);
    }
  }

  function Weigh4(v: word, r: word, a: word): word {
    WeighBit(v, WeighBit(v, WeighBit(v, WeighBit(v, r, LowBit(a)), LowBit(Half(a))), LowBit(Half(Half(a)))),
             LowBit(Half(Half(Half(a)))))
  }

  /** Absorbs the low byte of `a` with weight `v`, written out for evaluation on constants. */
  function Weigh8(v: word, r: word, a: word): word {
    Weigh4(v, Weigh4(v, r, a), Drop4(a))
  }

  lemma WeightedBit(v: word, r: word, a: word, n: nat)
    ensures Weighted(v, r, LowBits(a, n + 1)) == Weighted(v, WeighBit(v, r, LowBit(a)), LowBits(Half(a), n))
  {
    hide Shift, Xor, Pick, LowBit, Half, WeighBit;
    var bits := LowBits(a, n + 1);
    WeighBitIs(v, r, LowBit(a));
    assert bits[0] == LowBit(a) && bits[1..] == LowBits(Half(a), n);
  }

  lemma WeightedBy4(v: word, r: word, a: word, n: nat)
    ensures Weighted(v, r, LowBits(a, n + 4)) == Weighted(v, Weigh4(v, r, a), LowBits(Drop4(a), n))
  {
    hide WeighBit, LowBit, Half, Weighted, LowBits;
    var r1 := WeighBit(v, r, LowBit(a));
    var r2 := WeighBit(v, r1, LowBit(Half(a)));
    var r3 := WeighBit(v, r2, LowBit(Half(Half(a))));
    WeightedBit(v, r, a, n + 3);
    WeightedBit(v, r1, Half(a), n + 2);
    WeightedBit(v, r2, Half(Half(a)), n + 1);
    WeightedBit(v, r3, Half(Half(Half(a))), n);
  }

  lemma WeightedBy8(v: word, r: word, a: word, n: nat)
    ensures Weighted(v, r, LowBits(a, n + 8)) == Weighted(v, Weigh8(v, r, a), LowBits(Drop8(a), n))
  {
    hide Weigh4, Drop4, Drop8, Weighted, LowBits;
    WeightedBy4(v, r, a, n + 4);
    WeightedBy4(v, Weigh4(v, r, a), Drop4(a), n);
    Drop4Twice(a);
  }

  /** From one power to its square, 32 shifts further on, byte by byte. */
  lemma Doubles(n: nat, c: word, r1: word, r2: word, r3: word, d: word)
    requires ShiftTimes(1, n) == c
    requires Weigh8(c, 0, c) == r1 && Weigh8(c, r1, Drop8(c)) == r2
    requires Weigh8(c, r2, Drop8(Drop8(c))) == r3 && Weigh8(c, r3, Drop8(Drop8(Drop8(c)))) == d
    ensures ShiftTimes(1, 2 * n + 32) == d
  {
    hide Weigh8, Drop8, ShiftTimes, LowBits;
    PowerProduct(n, n);
    WeightedBy8(c, 0, c, 24);
    WeightedBy8(c, r1, Drop8(c), 16);
    WeightedBy8(c, r2, Drop8(Drop8(c)), 8);
    WeightedBy8(c, r3, Drop8(Drop8(Drop8(c))), 0);
  }

  lemma NoShift()
    ensures ShiftTimes(1, 0) == 1
  {
  }

  lemma Powers1()
    ensures ShiftTimes(1, 480) == 0x75BBA45B
  {
    hide ShiftTimes;
    NoShift();
    Doubles(0, 0x00000001, 0xF26B8303, 0x13A29877, 0xA541927E, 0xDD45AAB8);
    Doubles(32, 0xDD45AAB8, 0x3F4F0A49, 0xF9B93DB8, 0xD7302889, 0x3171D430);
    Doubles(96, 0x3171D430, 0x053927C5, 0x22C2683C, 0x44352EA5, 0xA2158B34);
    Doubles(224, 0xA2158B34, 0x0CB57896, 0x5FD4597C, 0x515E7629, 0x75BBA45B);
  }

  lemma Powers2()
    ensures ShiftTimes(1, 8160) == 0xCDC220DD
  {
    hide ShiftTimes;
    Powers1();
    Doubles(480, 0x75BBA45B, 0x6D8C4B3D, 0x75AF35B6, 0xF0F4B047, 0x7417153F);
    Doubles(992, 0x7417153F, 0x6FFB80F9, 0xAEE5CF6E, 0x354E8CDD, 0x1426A815);
    Doubles(2016, 0x1426A815, 0xE33392E5, 0xD63B586B, 0x85CE5F7F, 0xE986C148);
    Doubles(4064, 0xE986C148, 0x7C569BE4, 0xA13F7ADA, 0x7C33F203, 0xCDC220DD);
  }

  lemma Powers3()
    ensures ShiftTimes(1, 131040) == 0x7B66D223
  {
    hide ShiftTimes;
    Powers2();
    Doubles(8160, 0xCDC220DD, 0xFF973821, 0x69DA6B58, 0x95E5385A, 0x1ACAEC54);
    Doubles(16352, 0x1ACAEC54, 0x172BF90E, 0xD5C42CB5, 0x06DCF5B3, 0x6BAE74C4);
    Doubles(32736, 0x6BAE74C4, 0x3ECCD9EF, 0x7E44B47A, 0x9AB84B99, 0x508C2AC8);
    Doubles(65504, 0x508C2AC8, 0x7F9A633C, 0xA63801F3, 0xAADE737B, 0x7B66D223);
  }

  lemma Powers4()
    ensures ShiftTimes(1, 2097120) == 0x78409F1E
  {
    hide ShiftTimes;
    Powers3();
    Doubles(131040, 0x7B66D223, 0x3A10652E, 0xBE97F2DA, 0xA205DD1B, 0xC0381349);
    Doubles(262112, 0xC0381349, 0x85DF62E4, 0xF19E9FE1, 0x7A18C1FB, 0xF902F73D);
    Doubles(524256, 0xF902F73D, 0xB72B36D6, 0xB60B6581, 0x6BA3CAC5, 0xF760B4E7);
    Doubles(1048544, 0xF760B4E7, 0x7FEF91AB, 0x9DFFC0D6, 0xF6664CF8, 0x78409F1E);
  }

  lemma Powers5()
    ensures ShiftTimes(1, 33554400) == 0x7DD9F837
  {
    hide ShiftTimes;
    Powers4();
    Doubles(2097120, 0x78409F1E, 0x93E8C387, 0x4539038F, 0x404622E0, 0xA70B0DC6);
    Doubles(4194272, 0xA70B0DC6, 0xAE512FCE, 0x2710A0A5, 0x89368857, 0xB2E4D22A);
    Doubles(8388576, 0xB2E4D22A, 0x944FFFD3, 0x099547AB, 0xB18814E5, 0xE69AA612);
    Doubles(16777184, 0xE69AA612, 0xC83E0832, 0xD1271E5F, 0x2108B3F5, 0x7DD9F837);
  }

  lemma Powers6()
    ensures ShiftTimes(1, 536870880) == 0x0B6E9E7E
  {
    hide ShiftTimes;
    Powers5();
    Doubles(33554400, 0x7DD9F837, 0x2CB87E1E, 0x7D07E6C9, 0x7290BFAF, 0xFA0E4598);
    Doubles(67108832, 0xFA0E4598, 0x340CA905, 0x71E3893A, 0xCC1429A6, 0xA0FFE38D);
    Doubles(134217696, 0xA0FFE38D, 0xF4155767, 0xFFE21C30, 0xB8385F41, 0xD7752589);
    Doubles(268435424, 0xD7752589, 0xDEC6D072, 0xB4C79083, 0x5ED18724, 0x0B6E9E7E);
  }

  lemma Powers7()
    ensures ShiftTimes(1, 2147483616) == 0x80000000
  {
    hide ShiftTimes;
    Powers6();
    Doubles(536870880, 0x0B6E9E7E, 0x95DFC3CD, 0xAE9550CA, 0xDE98199C, 0x4FD04875);
    Doubles(1073741792, 0x4FD04875, 0xFDB6CA91, 0x185DA955, 0xC6855DD1, 0x80000000);
  }

  // ----- The order -----

  ghost predicate Returns(n: nat) {
    ShiftTimes(1, n) == 1
  }

  lemma ReturnsAtPrime()
    ensures Returns(Mersenne.PRIME)
  {
    hide ShiftTimes;
    Powers7();
    ShiftTimesAdd(1, 2147483616, 31);
    TopBitComesDown();
  }

  function Shift8(r: word): word {
    Shift(Shift(Shift(Shift(Shift(Shift(Shift(Shift(r))))))))
  }

  lemma ShiftByte(r: word, n: nat)
    ensures ShiftTimes(r, n + 8) == ShiftTimes(Shift8(r), n)
  {
    hide Shift, ShiftTimes;
    ShiftNext(r, n + 7);
    ShiftNext(Shift(r), n + 6);
    ShiftNext(Shift(Shift(r)), n + 5);
    ShiftNext(Shift(Shift(Shift(r))), n + 4);
    ShiftNext(Shift(Shift(Shift(Shift(r)))), n + 3);
    ShiftNext(Shift(Shift(Shift(Shift(Shift(r))))), n + 2);
    ShiftNext(Shift(Shift(Shift(Shift(Shift(Shift(r)))))), n + 1);
    ShiftNext(Shift(Shift(Shift(Shift(Shift(Shift(Shift(r))))))), n);
  }

  lemma ShiftNext(r: word, n: nat)
    ensures ShiftTimes(r, n + 1) == ShiftTimes(Shift(r), n)
  {
  }

  lemma TopBitComesDown()
    ensures ShiftTimes(0x8000_0000, 31) == 1
  {
    TopBitByBytes();
    ShiftTimesAdd(0x8000_0000, 24, 7);
    ShiftByte(0x8000_0000, 16);
    ShiftByte(0x80_0000, 8);
    ShiftByte(0x8000, 0);
    assert Shift(0x80) == 0x40 && Shift(0x40) == 0x20 && Shift(0x20) == 0x10 && Shift(0x10) == 8;
    assert Shift(8) == 4 && Shift(4) == 2 && Shift(2) == 1;
    assert ShiftTimes(0x80, 7) == ShiftTimes(0x20, 5) == ShiftTimes(8, 3) == ShiftTimes(2, 1);
  }

  lemma TopBitByBytes()
    ensures Shift8(0x8000_0000) == 0x80_0000 && Shift8(0x80_0000) == 0x8000 && Shift8(0x8000) == 0x80
  {
  }

  lemma ReturnsDifference(a: nat, b: nat)
    requires b <= a && Returns(a) && Returns(b)
    ensures Returns(a - b)
  {
    hide ShiftTimes;
    ShiftTimesAdd(1, b, a - b);
  }

  lemma DifferencesOfReturns()
    ensures Differences(Returns)
  {
    hide Returns;
    forall a: nat, b: nat | b <= a && Returns(a) && Returns(b) ensures Returns(a - b) {
      ReturnsDifference(a, b);
    }
  }

  /** A single bit in the register's last place is back there after 2^31 - 1 shifts, and not before. */
  lemma SingleBitReturns(n: nat)
    requires 0 < n <= Mersenne.PRIME
    ensures ShiftTimes(1, n) == 1 <==> n == Mersenne.PRIME
  {
    hide ShiftTimes, Differences;
    ReturnsAtPrime();
    if ShiftTimes(1, n) == 1 {
      DifferencesOfReturns();
      assert Returns(n);
      var g, i, j := CommonDivisor(Returns, n, Mersenne.PRIME);
      Mersenne.IsPrime(j, g);
      ShiftOnce(1);
      assert Shift(1) != 1;
      if g == Mersenne.PRIME {
        assert i > 0;
      }
    }
  }
}
