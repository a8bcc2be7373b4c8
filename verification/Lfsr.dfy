/**
 The 16-bit linear feedback shift register behind the chirp's chip sequence. Powers
 of its step are computed as polynomials modulo x^16 + x^5 + x^3 + x^2 + 1; from
 them the register is shown to run through all 65535 nonzero states.
 */
module Lfsr {
  import Counting

  type state = bv16

  const PERIOD: nat := 65535

  function Xor(a: state, b: state): state {
    a ^ b
  }

  function Half(s: state): state {
    s >> 1
  }

  function LowBit(s: state): bool {
    s & 1 == 1
  }

  function Pick(s: state, on: bool): state {
    if on then s else 0
  }

  /** The feedback bit, from taps 0, 2, 3 and 5. */
  function Feedback(s: state): bool {
    (s ^ (s >> 2) ^ (s >> 3) ^ (s >> 5)) & 1 == 1
  }

  /** Puts a bit into the vacated top position. */
  function Insert(h: state, bit: bool): state {
    h | (if bit then 0x8000 else 0)
  }

  function Step(s: state): state {
    Insert(Half(s), Feedback(s))
  }

  function Iter(s: state, n: nat): state
    decreases n
  {
    if n == 0 then s else Iter(Step(s), n - 1)
  }

  // ----- Algebra -----

  lemma XorCommutes(a: state, b: state)
    ensures Xor(a, b) == Xor(b, a)
  {
  }

  lemma XorAssociates(a: state, b: state, c: state)
    ensures Xor(Xor(a, b), c) == Xor(a, Xor(b, c))
  {
  }

  lemma XorZero(a: state)
    ensures Xor(a, 0) == a && Xor(0, a) == a && Xor(a, a) == 0
  {
  }

  lemma XorSwap(a: state, b: state, c: state, d: state)
    ensures Xor(Xor(a, b), Xor(c, d)) == Xor(Xor(a, c), Xor(b, d))
  {
    hide Xor;
    XorAssociates(a, b, Xor(c, d));
    XorAssociates(b, c, d);
    XorCommutes(b, c);
    XorAssociates(c, b, d);
    XorAssociates(a, c, Xor(b, d));
  }

  lemma LowBitXor(a: state, b: state)
    ensures LowBit(Xor(a, b)) == (LowBit(a) != LowBit(b))
  {
  }

  lemma HalfXor(a: state, b: state)
    ensures Half(Xor(a, b)) == Xor(Half(a), Half(b))
  {
  }

  lemma PickXor(s: state, a: bool, b: bool)
    ensures Pick(s, a != b) == Xor(Pick(s, a), Pick(s, b))
  {
    XorZero(s);
  }

  lemma FeedbackBits(s: state)
    ensures Feedback(s) == ((LowBit(s) != LowBit(Half(Half(s))))
                            != (LowBit(Half(Half(Half(s)))) != LowBit(Half(Half(Half(Half(Half(s))))))))
  {
  }

  lemma InsertOne(s: state)
    ensures Insert(Half(s), true) == Xor(Half(s), 0x8000)
    ensures Insert(Half(s), false) == Half(s)
  {
  }

  lemma InsertAsXor(s: state, bit: bool)
    ensures Insert(Half(s), bit) == Xor(Half(s), Pick(0x8000, bit))
  {
    hide Insert, Half, Xor;
    InsertOne(s);
    XorZero(Half(s));
  }

  lemma StepAsXor(s: state)
    ensures Step(s) == Xor(Half(s), Pick(0x8000, Feedback(s)))
  {
    hide Insert, Half, Xor, Pick, Feedback;
    InsertAsXor(s, Feedback(s));
  }

  lemma FeedbackLinear(a: state, b: state)
    ensures Feedback(Xor(a, b)) == (Feedback(a) != Feedback(b))
  {
  }

  lemma StepLinear(a: state, b: state)
    ensures Step(Xor(a, b)) == Xor(Step(a), Step(b))
  {
    hide Xor, Half, Feedback, Step, Pick;
    StepAsXor(a);
    StepAsXor(b);
    StepAsXor(Xor(a, b));
    HalfXor(a, b);
    FeedbackLinear(a, b);
    PickXor(0x8000, Feedback(a), Feedback(b));
    XorSwap(Half(a), Pick(0x8000, Feedback(a)), Half(b), Pick(0x8000, Feedback(b)));
  }

  lemma StepPick(s: state, on: bool)
    ensures Step(Pick(s, on)) == Pick(Step(s), on)
    ensures Step(0) == 0
  {
  }

  lemma StepInjective(a: state, b: state)
    requires Step(a) == Step(b)
    ensures a == b
  {
  }

  lemma {:induction false} IterLinear(a: state, b: state, n: nat)
    ensures Iter(Xor(a, b), n) == Xor(Iter(a, n), Iter(b, n))
    decreases n
  {
    hide Xor, Step;
    if n > 0 {
      StepLinear(a, b);
      IterLinear(Step(a), Step(b), n - 1);
    }
  }

  lemma {:induction false} IterAdd(s: state, m: nat, n: nat)
    ensures Iter(s, m + n) == Iter(Iter(s, m), n)
    decreases m
  {
    hide Step;
    if m > 0 {
      IterAdd(Step(s), m - 1, n);
    }
  }

  lemma {:induction false} IterInjective(a: state, b: state, n: nat)
    requires Iter(a, n) == Iter(b, n)
    ensures a == b
    decreases n
  {
    hide Step;
    if n > 0 {
      IterInjective(Step(a), Step(b), n - 1);
      StepInjective(a, b);
    }
  }

  lemma IterZero(n: nat)
    ensures Iter(0, n) == 0
  {
    hide Xor, Step;
    XorZero(0);
    IterLinear(0, 0, n);
    XorZero(Iter(0, n));
  }

  // ----- A state is its next sixteen outputs -----

  /** The `n` low bits of two states are the same. */
  ghost predicate Agree(x: state, y: state, n: nat)
    decreases n
  {
    n == 0 || (LowBit(x) == LowBit(y) && Agree(Half(x), Half(y), n - 1))
  }

  lemma {:induction false} AgreeTrans(x: state, y: state, z: state, n: nat)
    requires Agree(x, y, n) && Agree(y, z, n)
    ensures Agree(x, z, n)
    decreases n
  {
    hide Half, LowBit;
    if n > 0 {
      AgreeTrans(Half(x), Half(y), Half(z), n - 1);
    }
  }

  lemma {:induction false} AgreeShorter(x: state, y: state, m: nat, n: nat)
    requires m <= n && Agree(x, y, n)
    ensures Agree(x, y, m)
    decreases n
  {
    hide Half, LowBit;
    if m > 0 {
      AgreeShorter(Half(x), Half(y), m - 1, n - 1);
    }
  }

  ghost predicate LowZeros(t: state, n: nat)
    decreases n
  {
    n == 0 || (!LowBit(t) && LowZeros(Half(t), n - 1))
  }

  lemma TopBitHasLowZeros()
    ensures LowZeros(0x8000, 15)
  {
    assert LowZeros(0x0080, 7) by { assert LowZeros(0x0008, 3); }
    assert LowZeros(0x0800, 11);
  }

  lemma {:induction false} AgreeWithHigh(x: state, t: state, n: nat)
    requires LowZeros(t, n)
    ensures Agree(Xor(x, t), x, n)
    decreases n
  {
    hide Xor, Half, LowBit;
    if n > 0 {
      LowBitXor(x, t);
      HalfXor(x, t);
      AgreeWithHigh(Half(x), Half(t), n - 1);
    }
  }

  lemma StepAgreesWithHalf(s: state)
    ensures Agree(Step(s), Half(s), 15)
  {
    hide Xor, Half, LowBit, Step;
    StepAsXor(s);
    TopBitHasLowZeros();
    AgreeWithHigh(Half(s), 0x8000, 15);
    AgreeRefl(Half(s), 15);
    XorZero(Half(s));
  }

  lemma {:induction false} AgreeRefl(x: state, n: nat)
    ensures Agree(x, x, n)
    decreases n
  {
    hide Half, LowBit;
    if n > 0 {
      AgreeRefl(Half(x), n - 1);
    }
  }

  /** The low n bits of a state are its next n outputs. */
  lemma {:induction false} OutputsDetermineBits(s: state, t: state, n: nat)
    requires n <= 16
    requires forall i | 0 <= i < n :: LowBit(Iter(s, i)) == LowBit(Iter(t, i))
    ensures Agree(s, t, n)
    decreases n
  {
    hide Step, Half, LowBit;
    if n > 0 {
      assert Iter(s, 0) == s && Iter(t, 0) == t;
      forall i | 0 <= i < n - 1 ensures LowBit(Iter(Step(s), i)) == LowBit(Iter(Step(t), i)) {
        assert Iter(s, i + 1) == Iter(Step(s), i) && Iter(t, i + 1) == Iter(Step(t), i);
      }
      OutputsDetermineBits(Step(s), Step(t), n - 1);
      StepAgreesWithHalf(s);
      StepAgreesWithHalf(t);
      AgreeShorter(Step(s), Half(s), n - 1, 15);
      AgreeShorter(Step(t), Half(t), n - 1, 15);
      AgreeSym(Step(s), Half(s), n - 1);
      AgreeTrans(Half(s), Step(s), Step(t), n - 1);
      AgreeTrans(Half(s), Step(t), Half(t), n - 1);
    }
  }

  lemma {:induction false} AgreeSym(x: state, y: state, n: nat)
    requires Agree(x, y, n)
    ensures Agree(y, x, n)
    decreases n
  {
    hide Half, LowBit;
    if n > 0 {
      AgreeSym(Half(x), Half(y), n - 1);
    }
  }

  lemma HalfEqual(x: state, y: state)
    requires LowBit(x) == LowBit(y) && Half(x) == Half(y)
    ensures x == y
  {
  }

  /** With every bit past position `n` zero, n agreeing bits are everything. */
  ghost predicate Fits(x: state, n: nat)
    decreases n
  {
    if n == 0 then x == 0 else Fits(Half(x), n - 1)
  }

  lemma {:induction false} AgreeFits(x: state, y: state, n: nat)
    requires Agree(x, y, n) && Fits(x, n) && Fits(y, n)
    ensures x == y
    decreases n
  {
    hide Half, LowBit;
    if n > 0 {
      AgreeFits(Half(x), Half(y), n - 1);
      HalfEqual(x, y);
    }
  }

  lemma FourHalves(x: state, n: nat)
    ensures Fits(x, n + 4) == Fits(Half(Half(Half(Half(x)))), n)
  {
    hide Half;
    assert Fits(x, n + 4) == Fits(Half(x), n + 3);
    assert Fits(Half(x), n + 3) == Fits(Half(Half(x)), n + 2);
    assert Fits(Half(Half(x)), n + 2) == Fits(Half(Half(Half(x))), n + 1);
  }

  lemma SixteenBitsFit(x: state)
    ensures Fits(x, 16)
  {
    hide Half;
    var x4 := Half(Half(Half(Half(x))));
    var x8 := Half(Half(Half(Half(x4))));
    var x12 := Half(Half(Half(Half(x8))));
    FourHalves(x, 12);
    FourHalves(x4, 8);
    FourHalves(x8, 4);
    FourHalves(x12, 0);
    SixteenHalves(x);
  }

  lemma SixteenHalves(x: state)
    ensures
      var x4 := Half(Half(Half(Half(x))));
      var x8 := Half(Half(Half(Half(x4))));
      var x12 := Half(Half(Half(Half(x8))));
      Half(Half(Half(Half(x12)))) == 0
  {
  }

  /** Sixteen consecutive outputs identify the state. */
  lemma OutputsIdentify(s: state, t: state)
    requires forall i | 0 <= i < 16 :: LowBit(Iter(s, i)) == LowBit(Iter(t, i))
    ensures s == t
  {
    OutputsDetermineBits(s, t, 16);
    SixteenBitsFit(s);
    SixteenBitsFit(t);
    AgreeFits(s, t, 16);
  }

  // ----- The recurrence -----

  lemma {:induction false} OutputIsBit(s: state, t: state, k: nat)
    requires k <= 15 && Agree(s, t, k + 1)
    ensures LowBit(Iter(s, k)) == LowBit(ShiftDown(t, k))
    decreases k
  {
    hide Step, Half, LowBit;
    if k > 0 {
      StepAgreesWithHalf(s);
      AgreeShorter(Step(s), Half(s), k, 15);
      AgreeTrans(Step(s), Half(s), Half(t), k);
      OutputIsBit(Step(s), Half(t), k - 1);
    }
  }

  function ShiftDown(s: state, n: nat): state
    decreases n
  {
    if n == 0 then s else ShiftDown(Half(s), n - 1)
  }

  lemma BitOutput(s: state, k: nat)
    requires k <= 15
    ensures LowBit(Iter(s, k)) == LowBit(ShiftDown(s, k))
  {
    AgreeRefl(s, k + 1);
    OutputIsBit(s, s, k);
  }

  /** The output sixteen steps ahead is the feedback of the present state. */
  lemma OutputSixteen(s: state)
    ensures LowBit(Iter(s, 16)) == Feedback(s)
  {
    hide Half, LowBit, Feedback;
    assert Iter(s, 16) == Iter(Step(s), 15);
    BitOutput(Step(s), 15);
    TopOfStep(s);
  }

  lemma {:induction false} ShiftDownAdd(s: state, m: nat, n: nat)
    ensures ShiftDown(s, m + n) == ShiftDown(ShiftDown(s, m), n)
    decreases m
  {
    hide Half;
    if m > 0 {
      ShiftDownAdd(Half(s), m - 1, n);
    }
  }

  lemma ShiftDown5(s: state)
    ensures ShiftDown(s, 5) == s >> 5
  {
    assert ShiftDown(s, 2) == Half(Half(s));
    ShiftDownAdd(s, 2, 3);
    assert ShiftDown(Half(Half(s)), 3) == Half(Half(Half(Half(Half(s)))));
  }

  lemma TopOfStep(s: state)
    ensures LowBit(ShiftDown(Step(s), 15)) == Feedback(s)
  {
    var t := Step(s);
    ShiftDownAdd(t, 5, 10);
    ShiftDownAdd(t >> 5, 5, 5);
    ShiftDown5(t);
    ShiftDown5(t >> 5);
    ShiftDown5((t >> 5) >> 5);
    TopBit(s);
  }

  lemma TopBit(s: state)
    ensures LowBit((((Step(s) >> 5) >> 5) >> 5)) == Feedback(s)
  {
  }

  /** s plus its iterates at the taps. */
  function Taps(s: state): state {
    Xor(Xor(s, Iter(s, 2)), Xor(Iter(s, 3), Iter(s, 5)))
  }

  lemma TapsLinear(s: state, n: nat)
    ensures Iter(Taps(s), n) == Taps(Iter(s, n))
  {
    hide Step, Xor;
    var a, b, c, d := s, Iter(s, 2), Iter(s, 3), Iter(s, 5);
    IterLinear(Xor(a, b), Xor(c, d), n);
    IterLinear(a, b, n);
    IterLinear(c, d, n);
    IterAdd(s, 2, n);
    IterAdd(s, n, 2);
    IterAdd(s, 3, n);
    IterAdd(s, n, 3);
    IterAdd(s, 5, n);
    IterAdd(s, n, 5);
  }

  lemma TapsOutput(s: state)
    ensures LowBit(Taps(s)) == Feedback(s)
  {
    hide Step, Xor, Half, LowBit, Feedback;
    BitOutput(s, 2);
    BitOutput(s, 3);
    BitOutput(s, 5);
    assert ShiftDown(s, 2) == Half(Half(s)) && ShiftDown(s, 3) == Half(Half(Half(s)));
    assert ShiftDown(s, 5) == Half(Half(Half(Half(Half(s))))) by { ShiftDownAdd(s, 3, 2); }
    FeedbackBits(s);
    LowBitXor(Xor(s, Iter(s, 2)), Xor(Iter(s, 3), Iter(s, 5)));
    LowBitXor(s, Iter(s, 2));
    LowBitXor(Iter(s, 3), Iter(s, 5));
  }

  /** The characteristic equation: sixteen steps equal the sum of 0, 2, 3 and 5 steps. */
  lemma Characteristic(s: state)
    ensures Iter(s, 16) == Taps(s)
  {
    hide Step, Taps, LowBit, Feedback;
    forall i | 0 <= i < 16 ensures LowBit(Iter(Iter(s, 16), i)) == LowBit(Iter(Taps(s), i)) {
      IterAdd(s, 16, i);
      IterAdd(s, i, 16);
      OutputSixteen(Iter(s, i));
      TapsLinear(s, i);
      TapsOutput(Iter(s, i));
    }
    OutputsIdentify(Iter(s, 16), Taps(s));
  }

  // ----- Polynomials in the step -----

  /** The polynomial whose coefficients are the `n` low bits of `c`, in the step, applied to `s`. */
  function Poly(c: state, s: state, n: nat): state
    decreases n
  {
    if n == 0 then 0 else Xor(Pick(s, LowBit(c)), Poly(Half(c), Step(s), n - 1))
  }

  lemma {:induction false} PolyXor(c: state, d: state, s: state, n: nat)
    ensures Poly(Xor(c, d), s, n) == Xor(Poly(c, s, n), Poly(d, s, n))
    decreases n
  {
    hide Xor, Half, LowBit, Step, Pick;
    if n == 0 {
      XorZero(0);
    } else {
      HalfXor(c, d);
      LowBitXor(c, d);
      PickXor(s, LowBit(c), LowBit(d));
      PolyXor(Half(c), Half(d), Step(s), n - 1);
      XorSwap(Pick(s, LowBit(c)), Poly(Half(c), Step(s), n - 1), Pick(s, LowBit(d)), Poly(Half(d), Step(s), n - 1));
    }
  }

  lemma {:induction false} PolyStep(c: state, s: state, n: nat)
    ensures Step(Poly(c, s, n)) == Poly(c, Step(s), n)
    decreases n
  {
    hide Xor, Half, LowBit, Step, Pick;
    StepPick(s, LowBit(c));
    if n > 0 {
      StepLinear(Pick(s, LowBit(c)), Poly(Half(c), Step(s), n - 1));
      PolyStep(Half(c), Step(s), n - 1);
    }
  }

  lemma {:induction false} PolyAgree(c: state, d: state, s: state, n: nat)
    requires Agree(c, d, n)
    ensures Poly(c, s, n) == Poly(d, s, n)
    decreases n
  {
    hide Xor, Half, LowBit, Step, Pick;
    if n > 0 {
      PolyAgree(Half(c), Half(d), Step(s), n - 1);
    }
  }

  lemma {:induction false} PolyLast(c: state, s: state, n: nat)
    ensures Poly(c, s, n + 1) == Xor(Poly(c, s, n), Pick(Iter(s, n), LowBit(ShiftDown(c, n))))
    decreases n
  {
    hide Xor, Half, LowBit, Step, Pick;
    var first := Pick(s, LowBit(c));
    if n == 0 {
      assert Poly(c, s, 1) == Xor(first, Poly(Half(c), Step(s), 0));
      XorZero(first);
    } else {
      PolyLast(Half(c), Step(s), n - 1);
      XorAssociates(first, Poly(Half(c), Step(s), n - 1), Pick(Iter(s, n), LowBit(ShiftDown(c, n))));
    }
  }

  /** Multiplication by x modulo the characteristic polynomial. */
  function TimesX(c: state): state {
    Xor(c << 1, Pick(0x002D, c >= 0x8000))
  }

  lemma PolyTwice(c: state, s: state)
    ensures Poly(c << 1, s, 16) == Poly(c, Step(s), 15)
  {
    hide Xor, Step, Pick;
    var d := c << 1;
    TwiceHalf(c);
    TopBitHasLowZeros();
    AgreeWithHigh(c, 0x8000, 15);
    AgreeRefl(c, 15);
    PolyAgree(Half(d), c, Step(s), 15);
    assert Poly(d, s, 16) == Xor(Pick(s, LowBit(d)), Poly(Half(d), Step(s), 15));
    PickNone(s);
    XorZero(Poly(c, Step(s), 15));
  }

  lemma PickNone(s: state)
    ensures Pick(s, false) == 0
  {
  }

  lemma TwiceHalf(c: state)
    ensures !LowBit(c << 1)
    ensures Half(c << 1) == c || Half(c << 1) == Xor(c, 0x8000)
  {
  }

  lemma TopCoefficient(c: state)
    ensures LowBit(ShiftDown(c, 15)) == (c >= 0x8000)
  {
    ShiftDownAdd(c, 5, 10);
    ShiftDownAdd(c >> 5, 5, 5);
    ShiftDown5(c);
    ShiftDown5(c >> 5);
    ShiftDown5((c >> 5) >> 5);
    TopCoefficientRaw(c);
  }

  lemma TopCoefficientRaw(c: state)
    ensures LowBit((((c >> 5) >> 5) >> 5)) == (c >= 0x8000)
  {
  }

  lemma {:induction false} PolyZero(s: state, n: nat)
    ensures Poly(0, s, n) == 0
    decreases n
  {
    hide Xor, Step, Pick;
    if n > 0 {
      assert !LowBit(0) && Half(0) == 0;
      PolyZero(Step(s), n - 1);
      PickNone(s);
      XorZero(0);
    }
  }

  lemma PolyOne(s: state, n: nat)
    requires n > 0
    ensures Poly(1, s, n) == s
  {
    hide Xor, Step;
    assert LowBit(1) && Half(1) == 0;
    PolyZero(Step(s), n - 1);
    XorZero(s);
  }

  /** Adding one coefficient in front. */
  lemma PolyCons(c: state, s: state, n: nat)
    requires n > 0
    ensures Poly(c, s, n) == if LowBit(c) then Xor(s, Poly(Half(c), Step(s), n - 1)) else Poly(Half(c), Step(s), n - 1)
  {
    hide Xor, Step, Half, LowBit;
    XorZero(Poly(Half(c), Step(s), n - 1));
  }

  lemma PolyTaps(s: state)
    ensures Poly(0x002D, s, 16) == Taps(s)
  {
    hide Xor, Step, Half, LowBit, Pick;
    var s1 := Step(s);
    var s2 := Step(s1);
    var s3 := Step(s2);
    var s4 := Step(s3);
    var s5 := Step(s4);
    TapBits();
    PolyOne(s5, 11);
    PolyCons(0x0002, s4, 12);
    PolyCons(0x0005, s3, 13);
    PolyCons(0x000B, s2, 14);
    PolyCons(0x0016, s1, 15);
    PolyCons(0x002D, s, 16);
    XorAssociates(s, s2, Xor(s3, s5));
    assert Iter(s, 2) == s2;
    assert Iter(s, 3) == s3;
    assert Iter(s, 5) == Iter(s3, 2) by { IterAdd(s, 3, 2); }
  }

  lemma TapBits()
    ensures LowBit(0x002D) && Half(0x002D) == 0x0016
    ensures !LowBit(0x0016) && Half(0x0016) == 0x000B
    ensures LowBit(0x000B) && Half(0x000B) == 0x0005
    ensures LowBit(0x0005) && Half(0x0005) == 0x0002
    ensures !LowBit(0x0002) && Half(0x0002) == 0x0001
  {
  }

  lemma PolyPick(c: state, on: bool, s: state, n: nat)
    ensures Poly(Pick(c, on), s, n) == Pick(Poly(c, s, n), on)
  {
    PolyZero(s, n);
  }

  lemma PolyTimesX(c: state, s: state)
    ensures Poly(TimesX(c), s, 16) == Step(Poly(c, s, 16))
  {
    hide Xor, Step, Pick, Taps, LowBit, Half;
    var top := c >= 0x8000;
    PolyXor(c << 1, Pick(0x002D, top), s, 16);
    PolyTwice(c, s);
    PolyPick(0x002D, top, s, 16);
    PolyTaps(s);
    Characteristic(s);
    PolyStep(c, s, 16);
    PolyLast(c, Step(s), 15);
    TopCoefficient(c);
    assert Iter(s, 16) == Iter(Step(s), 15);
  }

  /** The product of two polynomials modulo the characteristic polynomial. */
  function Mul(c: state, d: state, n: nat): state
    decreases n
  {
    if n == 0 then 0 else Xor(Pick(d, LowBit(c)), Mul(Half(c), TimesX(d), n - 1))
  }

  lemma {:induction false} PolyMul(c: state, d: state, s: state, n: nat)
    ensures Poly(Mul(c, d, n), s, 16) == Poly(c, Poly(d, s, 16), n)
    decreases n
  {
    hide Xor, Step, Pick, LowBit, Half, TimesX;
    if n == 0 {
      PolyZero(s, 16);
    } else {
      PolyXor(Pick(d, LowBit(c)), Mul(Half(c), TimesX(d), n - 1), s, 16);
      PolyPick(d, LowBit(c), s, 16);
      PolyMul(Half(c), TimesX(d), s, n - 1);
      PolyTimesX(d, s);
    }
  }

  // ----- Constant powers -----

  function Drop4(c: state): state {
    Half(Half(Half(Half(c))))
  }

  function TimesX4(d: state): state {
    TimesX(TimesX(TimesX(TimesX(d))))
  }

  /** Four coefficients of a product. */
  function Nibble(c: state, d: state): state {
    Xor(Xor(Pick(d, LowBit(c)), Pick(TimesX(d), LowBit(Half(c)))),
        Xor(Pick(TimesX(TimesX(d)), LowBit(Half(Half(c)))),
            Pick(TimesX(TimesX(TimesX(d))), LowBit(Half(Half(Half(c)))))))
  }

  /** The product written out, for evaluation on constants. */
  function Product(c: state, d: state): state {
    var (c1, d1) := (Drop4(c), TimesX4(d));
    var (c2, d2) := (Drop4(c1), TimesX4(d1));
    var (c3, d3) := (Drop4(c2), TimesX4(d2));
    Xor(Nibble(c, d), Xor(Nibble(c1, d1), Xor(Nibble(c2, d2), Nibble(c3, d3))))
  }

  lemma MulByNibble(c: state, d: state, n: nat)
    ensures Mul(c, d, n + 4) == Xor(Nibble(c, d), Mul(Drop4(c), TimesX4(d), n))
  {
    hide Xor, Pick, LowBit, Half, TimesX;
    var d1 := TimesX(d);
    var d2 := TimesX(d1);
    var d3 := TimesX(d2);
    var c1 := Half(c);
    var c2 := Half(c1);
    var c3 := Half(c2);
    var p2, p3 := Pick(d2, LowBit(c2)), Pick(d3, LowBit(c3));
    var rest := Mul(Half(c3), TimesX(d3), n);
    assert Mul(c, d, n + 4) == Xor(Pick(d, LowBit(c)), Mul(c1, d1, n + 3));
    assert Mul(c1, d1, n + 3) == Xor(Pick(d1, LowBit(c1)), Mul(c2, d2, n + 2));
    assert Mul(c2, d2, n + 2) == Xor(p2, Mul(c3, d3, n + 1));
    XorAssociates(Pick(d, LowBit(c)), Pick(d1, LowBit(c1)), Mul(c2, d2, n + 2));
    XorAssociates(p2, p3, rest);
    XorAssociates(Xor(Pick(d, LowBit(c)), Pick(d1, LowBit(c1))), Xor(p2, p3), rest);
  }

  lemma MulIsProduct(c: state, d: state)
    ensures Mul(c, d, 16) == Product(c, d)
  {
    hide Xor, Nibble, Drop4, TimesX4;
    var (c1, d1) := (Drop4(c), TimesX4(d));
    var (c2, d2) := (Drop4(c1), TimesX4(d1));
    var (c3, d3) := (Drop4(c2), TimesX4(d2));
    MulByNibble(c, d, 12);
    MulByNibble(c1, d1, 8);
    MulByNibble(c2, d2, 4);
    MulByNibble(c3, d3, 0);
    XorZero(Nibble(c3, d3));
  }

  /** `n` steps of the register are the polynomial `c`. */
  ghost predicate IsPower(n: nat, c: state) {
    forall s: state :: Iter(s, n) == Poly(c, s, 16)
  }

  lemma PowerAdd(m: nat, c: state, n: nat, d: state, e: state)
    requires IsPower(m, c) && IsPower(n, d) && Product(c, d) == e
    ensures IsPower(m + n, e)
  {
    hide Product, Step, Xor;
    forall s: state ensures Iter(s, m + n) == Poly(e, s, 16) {
      IterAdd(s, n, m);
      PolyMul(c, d, s, 16);
      MulIsProduct(c, d);
    }
  }

  lemma FirstPowers()
    ensures IsPower(0, 1) && IsPower(1, 2)
  {
    hide Xor, Step;
    forall s: state ensures Iter(s, 0) == Poly(1, s, 16) && Iter(s, 1) == Poly(2, s, 16) {
      PolyOne(s, 16);
      TapBits();
      PolyOne(Step(s), 15);
      PickNone(s);
      XorZero(Step(s));
      assert Poly(2, s, 16) == Xor(Pick(s, false), Poly(1, Step(s), 15));
      assert Iter(s, 1) == Iter(Step(s), 0);
    }
  }

  lemma PowersTo256()
    ensures IsPower(4, 0x0010) && IsPower(16, 0x002D) && IsPower(64, 0x13D1) && IsPower(256, 0x018A)
  {
    hide IsPower;
    FirstPowers();
    PowerAdd(1, 0x0002, 1, 0x0002, 0x0004);
    PowerAdd(2, 0x0004, 2, 0x0004, 0x0010);
    PowerAdd(4, 0x0010, 4, 0x0010, 0x0100);
    PowerAdd(8, 0x0100, 8, 0x0100, 0x002D);
    PowerAdd(16, 0x002D, 16, 0x002D, 0x0451);
    PowerAdd(32, 0x0451, 32, 0x0451, 0x13D1);
    PowerAdd(64, 0x13D1, 64, 0x13D1, 0x7C98);
    PowerAdd(128, 0x7C98, 128, 0x7C98, 0x018A);
  }

  lemma PowersTo4096()
    ensures IsPower(1024, 0xC41B) && IsPower(4096, 0x3DAB)
  {
    hide IsPower;
    PowersTo256();
    PowerAdd(256, 0x018A, 256, 0x018A, 0x4069);
    PowerAdd(512, 0x4069, 512, 0x4069, 0xC41B);
    PowerAdd(1024, 0xC41B, 1024, 0xC41B, 0x92D0);
    PowerAdd(2048, 0x92D0, 2048, 0x92D0, 0x3DAB);
  }

  lemma PowersTo65536()
    ensures IsPower(1024, 0xC41B) && IsPower(4096, 0x3DAB) && IsPower(16384, 0xEBD5) && IsPower(65536, 2)
  {
    hide IsPower;
    PowersTo4096();
    PowerAdd(4096, 0x3DAB, 4096, 0x3DAB, 0xD4F8);
    PowerAdd(8192, 0xD4F8, 8192, 0xD4F8, 0xEBD5);
    PowerAdd(16384, 0xEBD5, 16384, 0xEBD5, 0x7F8D);
    PowerAdd(32768, 0x7F8D, 32768, 0x7F8D, 0x0002);
  }

  lemma CompositePowers()
    ensures IsPower(257, 0x0314) && IsPower(4112, 0x93D1) && IsPower(4369, 0x3C0F) && IsPower(17476, 0x3C0E)
    ensures IsPower(21845, 0xACCA)
  {
    hide IsPower;
    FirstPowers();
    PowersTo256();
    PowersTo65536();
    PowerAdd(256, 0x018A, 1, 0x0002, 0x0314);
    PowerAdd(4096, 0x3DAB, 16, 0x002D, 0x93D1);
    PowerAdd(4112, 0x93D1, 257, 0x0314, 0x3C0F);
    PowerAdd(1024, 0xC41B, 16384, 0xEBD5, 0xC62D);
    PowerAdd(64, 0x13D1, 4, 0x0010, 0x3D3D);
    PowerAdd(17408, 0xC62D, 68, 0x3D3D, 0x3C0E);
    PowerAdd(17476, 0x3C0E, 4369, 0x3C0F, 0xACCA);
  }

  // ----- The period -----

  lemma SamePower(m: nat, n: nat, c: state, s: state)
    requires IsPower(m, c) && IsPower(n, c)
    ensures Iter(s, m) == Iter(s, n)
  {
  }

  /** The whole cycle: 65535 steps return to the start. */
  lemma FullCycle(s: state)
    ensures Iter(s, PERIOD) == s
  {
    hide Step, Poly;
    FirstPowers();
    PowersTo65536();
    SamePower(65536, 1, 2, s);
    IterAdd(s, PERIOD, 1);
    assert Iter(Iter(s, PERIOD), 1) == Step(Iter(s, PERIOD)) && Iter(s, 1) == Step(s);
    StepInjective(Iter(s, PERIOD), s);
  }

  /** Two powers that send a state to the same place differ by a polynomial without inverse, or it is zero. */
  lemma NoCommonImage(m: nat, c: state, n: nat, d: state, inverse: state, s: state)
    requires IsPower(m, c) && IsPower(n, d) && Product(inverse, Xor(c, d)) == 1
    requires Iter(s, m) == Iter(s, n)
    ensures s == 0
  {
    hide Xor, Step, Product;
    PolyXor(c, d, s, 16);
    XorZero(Poly(c, s, 16));
    PolyMul(inverse, Xor(c, d), s, 16);
    MulIsProduct(inverse, Xor(c, d));
    PolyOne(s, 16);
    forall k: nat ensures Poly(inverse, 0, k) == 0 {
      PolyOfZero(inverse, k);
    }
  }

  lemma {:induction false} PolyOfZero(c: state, n: nat)
    ensures Poly(c, 0, n) == 0
    decreases n
  {
    hide Xor, Half, LowBit;
    StepPick(0, true);
    if n > 0 {
      PolyOfZero(Half(c), n - 1);
      XorZero(0);
    }
  }

  ghost predicate Returns(s: state, n: nat) {
    Iter(s, n) == s
  }

  /** No nonzero state returns after 65535 divided by one of its prime factors. */
  lemma NoShortCycle(s: state)
    requires s != 0
    ensures !Returns(s, 21845) && !Returns(s, 13107) && !Returns(s, 3855) && !Returns(s, 255)
  {
    hide Step, Product, IsPower, Xor, Poly;
    FirstPowers();
    PowersTo256();
    CompositePowers();
    Inverses();
    if Returns(s, 21845) {
      NoCommonImage(21845, 0xACCA, 0, 1, 0xACCA, s);
    }
    if Returns(s, 13107) {
      IterAdd(s, 13107, 4369);
      NoCommonImage(17476, 0x3C0E, 4369, 0x3C0F, 0x0001, s);
    }
    if Returns(s, 3855) {
      IterAdd(s, 3855, 257);
      NoCommonImage(4112, 0x93D1, 257, 0x0314, 0x163E, s);
    }
    if Returns(s, 255) {
      IterAdd(s, 255, 1);
      NoCommonImage(256, 0x018A, 1, 2, 0x5538, s);
    }
  }

  lemma Inverses()
    ensures Product(0xACCA, Xor(0xACCA, 0x0001)) == 1
    ensures Product(0x0001, Xor(0x3C0E, 0x3C0F)) == 1
    ensures Product(0x163E, Xor(0x93D1, 0x0314)) == 1
    ensures Product(0x5538, Xor(0x018A, 0x0002)) == 1
  {
  }

  lemma {:induction false} ReturnsMultiple(s: state, n: nat, k: nat)
    requires Returns(s, n)
    ensures Returns(s, k * n)
    decreases k
  {
    hide Step;
    if k > 0 {
      ReturnsMultiple(s, n, k - 1);
      IterAdd(s, (k - 1) * n, n);
      assert (k - 1) * n + n == k * n;
    }
  }

  /** `k * n` is a return time. */
  ghost predicate ReturnsBy(s: state, k: nat, n: nat) {
    Returns(s, k * n)
  }

  lemma ReturnsDifference(s: state, k: nat, m: nat, n: nat)
    requires n <= m && ReturnsBy(s, k, m) && ReturnsBy(s, k, n)
    ensures ReturnsBy(s, k, m - n)
  {
    hide Iter;
    assert k * m == k * n + k * (m - n);
    IterAdd(s, k * n, k * (m - n));
  }

  lemma DifferencesOfReturns(s: state, k: nat)
    ensures Counting.Differences((x: nat) => ReturnsBy(s, k, x))
  {
    hide ReturnsBy;
    forall m: nat, n: nat | n <= m && ReturnsBy(s, k, m) && ReturnsBy(s, k, n) ensures ReturnsBy(s, k, m - n) {
      ReturnsDifference(s, k, m, n);
    }
  }

  /** If the period over a prime factor is no return time, every return time has that factor. */
  lemma HasFactor(s: state, n: nat, p: nat, k: nat) returns (i: nat)
    requires Counting.Prime(p) && k * p == PERIOD && n > 0
    requires Returns(s, n) && !Returns(s, k)
    ensures n == i * p
  {
    hide Counting.Differences, Counting.Prime;
    Corners(s, n, p, k);
    DifferencesOfReturns(s, k);
    hide ReturnsBy;
    i := Counting.OnlyMultiples((x: nat) => ReturnsBy(s, k, x), p, n);
  }

  lemma Corners(s: state, n: nat, p: nat, k: nat)
    requires k * p == PERIOD && Returns(s, n) && !Returns(s, k)
    ensures ReturnsBy(s, k, p) && ReturnsBy(s, k, n) && !ReturnsBy(s, k, 1)
  {
    hide Iter;
    FullCycle(s);
    ReturnsMultiple(s, n, k);
    assert k * 1 == k;
  }

  lemma SmallPrimes()
    ensures Counting.Prime(3) && Counting.Prime(5) && Counting.Prime(17) && Counting.Prime(257)
  {
    forall a: nat, b: nat
      ensures a * b == 3 ==> a == 1 || b == 1
      ensures a * b == 5 ==> a == 1 || b == 1
      ensures a * b == 17 ==> a == 1 || b == 1
      ensures a * b == 257 ==> a == 1 || b == 1
    {
      SmallFactors(a, b);
    }
  }

  lemma SmallFactors(a: nat, b: nat)
    ensures a * b == 3 ==> a == 1 || b == 1
    ensures a * b == 5 ==> a == 1 || b == 1
    ensures a * b == 17 ==> a == 1 || b == 1
    ensures a * b == 257 ==> a == 1 || b == 1
  {
  }

  lemma CommonMultiple(n: nat, a: nat, b: nat, c: nat, d: nat)
    requires n == 3 * a == 5 * b == 17 * c == 257 * d && n > 0
    ensures n >= PERIOD
  {
    var e := 2 * b - a;
    assert n == 15 * e;
    var f := 8 * c - 7 * e;
    assert n == 255 * f;
    var g := 128 * f - 129 * d;
    assert n == 65535 * g;
  }

  /** A nonzero state first returns after exactly 65535 steps. */
  lemma MaximalLength(s: state)
    requires s != 0
    ensures Iter(s, PERIOD) == s
    ensures forall k | 0 < k < PERIOD :: Iter(s, k) != s
  {
    hide Counting.Prime, Iter;
    FullCycle(s);
    NoShortCycle(s);
    SmallPrimes();
    forall k | 0 < k < PERIOD ensures Iter(s, k) != s {
      if Returns(s, k) {
        var a := HasFactor(s, k, 3, 21845);
        var b := HasFactor(s, k, 5, 13107);
        var c := HasFactor(s, k, 17, 3855);
        var d := HasFactor(s, k, 257, 255);
        CommonMultiple(k, a, b, c, d);
      }
    }
  }
}
