/** The check value both implementations compare against before use. */
module SelfTest {
  import opened Bytes
  import opened Crc32c

  const DIGITS: seq<byte> := [0x31, 0x32, 0x33, 0x34, 0x35, 0x36, 0x37, 0x38, 0x39]

  const CHECK_VALUE: word := 0xE306_9283

  /** Eight shifts of the register with the byte added. */
  function Absorb(r: word, b: octet): word {
    Shift(Shift(Shift(Shift(Shift(Shift(Shift(Shift(Xor(r, b as word)))))))))
  }

  lemma AbsorbByte(r: word, b: octet)
    ensures Run(r, OctetBits(b)) == Absorb(r, b)
  {
    hide Shift, OctetBits, Xor;
    RunByte(r, b);
    var x := Xor(r, b as word);
    assert ShiftTimes(x, 8) == ShiftTimes(Shift(x), 7);
    assert ShiftTimes(Shift(Shift(Shift(x))), 5) == ShiftTimes(Shift(x), 7);
    assert ShiftTimes(Shift(Shift(Shift(Shift(Shift(x))))), 3) == ShiftTimes(Shift(Shift(Shift(x))), 5);
  }

  function AbsorbAll(r: word, data: seq<byte>): word
    decreases |data|
  {
    if data == [] then r else AbsorbAll(Absorb(r, Octet(data[0])), data[1..])
  }

  lemma {:induction false} AbsorbAllIsRun(r: word, data: seq<byte>)
    ensures AbsorbAll(r, data) == Run(r, Bits(data))
    decreases |data|
  {
    hide Absorb, OctetBits;
    if data != [] {
      AbsorbByte(r, Octet(data[0]));
      AbsorbAllIsRun(Absorb(r, Octet(data[0])), data[1..]);
      RunAppend(r, OctetBits(Octet(data[0])), Bits(data[1..]));
    }
  }

  lemma Registers()
    ensures Absorb(0xFFFF_FFFF, 0x31) == 0x6f0a_661c
    ensures Absorb(0x6f0a_661c, 0x32) == 0x8caa_3b9f
    ensures Absorb(0x8caa_3b9f, 0x33) == 0xef84_d04d
    ensures Absorb(0xef84_d04d, 0x34) == 0x09c5_0b11
    ensures Absorb(0x09c5_0b11, 0x35) == 0xe72e_dcca
    ensures Absorb(0xe72e_dcca, 0x36) == 0xbeca_8e79
    ensures Absorb(0xbeca_8e79, 0x37) == 0xedbd_6815
    ensures Absorb(0xedbd_6815, 0x38) == 0x9f78_7f65
    ensures Absorb(0x9f78_7f65, 0x39) == 0x1cf9_6d7c
  {
  }

  lemma DigitOctets()
    ensures Octet(0x31) == 0x31 && Octet(0x32) == 0x32 && Octet(0x33) == 0x33 && Octet(0x34) == 0x34
    ensures Octet(0x35) == 0x35 && Octet(0x36) == 0x36 && Octet(0x37) == 0x37 && Octet(0x38) == 0x38
    ensures Octet(0x39) == 0x39
  {
  }

  lemma AbsorbDigit(r: word, k: nat)
    requires k < 9
    ensures AbsorbAll(r, DIGITS[k..]) == AbsorbAll(Absorb(r, Octet(DIGITS[k])), DIGITS[k + 1..])
  {
  }

  /** The nine digits have the published check value. */
  lemma DigitsCheck()
    ensures Checksum(DIGITS) == CHECK_VALUE
  {
    hide Absorb, Octet;
    Registers();
    DigitOctets();
    AbsorbDigit(0xFFFF_FFFF, 0);
    AbsorbDigit(0x6f0a_661c, 1);
    AbsorbDigit(0x8caa_3b9f, 2);
    AbsorbDigit(0xef84_d04d, 3);
    AbsorbDigit(0x09c5_0b11, 4);
    AbsorbDigit(0xe72e_dcca, 5);
    AbsorbDigit(0xbeca_8e79, 6);
    AbsorbDigit(0xedbd_6815, 7);
    AbsorbDigit(0x9f78_7f65, 8);
    assert DIGITS[0..] == DIGITS && DIGITS[9..] == [];
    AbsorbAllIsRun(ALL_ONES, DIGITS);
  }
}
