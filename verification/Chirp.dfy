/**
 The chirp's chip sequence: one chip per step of the shift register. Over one
 period it visits every nonzero state once, no stretch of 16 chips occurs twice, it
 is balanced up to a single chip, and its correlation with itself is 65535 in place
 and -1 at every other shift. These are statements about the bare sequence; a
 rendered chirp holds only its first few chips.
 */
module Chirp {
  import opened Counting
  import opened Lfsr

  function StartState(seed: int): (s: state)
    ensures s != 0
  {
    var low := (seed % 0x1_0000) as state;
    if low == 0 then 0xACE1 else low
  }

  function Chip(s: state): int {
    if LowBit(s) then 1 else -1
  }

  function ChipAt(seed: int, i: nat): int {
    Chip(Iter(StartState(seed), i + 1))
  }

  method LfsrSequence(seed: int, nChips: nat) returns (out: array<int>)
    ensures fresh(out) && out.Length == nChips
    ensures forall i | 0 <= i < nChips :: out[i] == ChipAt(seed, i)
  {
    hide Step, LowBit, StartState;
    var state := StartState(seed);
    out := new int[nChips];
    for i := 0 to nChips
      invariant state == Iter(StartState(seed), i)
      invariant forall k | 0 <= k < i :: out[k] == ChipAt(seed, k)
    {
      IterAdd(StartState(seed), i, 1);
      assert Iter(state, 1) == Step(state);
      state := Step(state);
      out[i] := if LowBit(state) then 1 else -1;
    }
  }

  // ----- One period visits every nonzero state -----

  lemma NeverZero(s: state, n: nat)
    requires s != 0
    ensures Iter(s, n) != 0
  {
    IterZero(n);
    if Iter(s, n) == 0 {
      IterInjective(s, 0, n);
    }
  }

  lemma OrbitInjective(s: state, i: nat, j: nat)
    requires s != 0 && i < j < i + PERIOD
    ensures Iter(s, i) != Iter(s, j)
  {
    hide Step;
    IterAdd(s, i, j - i);
    NeverZero(s, i);
    MaximalLength(Iter(s, i));
  }

  /** The number spelled by the `n` low bits. */
  function Value(s: state, n: nat): nat
    decreases n
  {
    if n == 0 then 0 else (if LowBit(s) then 1 else 0) + 2 * Value(Half(s), n - 1)
  }

  function Number(s: state): nat {
    Value(s, 16)
  }

  lemma {:induction false} ValueAgree(s: state, t: state, n: nat)
    requires Value(s, n) == Value(t, n)
    ensures Agree(s, t, n)
    decreases n
  {
    hide LowBit, Half;
    if n > 0 {
      ValueAgree(Half(s), Half(t), n - 1);
    }
  }

  lemma {:induction false} ValueBound(s: state, n: nat)
    ensures Value(s, n) < Pow2(n)
    decreases n
  {
    hide LowBit, Half;
    if n > 0 {
      ValueBound(Half(s), n - 1);
    }
  }

  lemma {:induction false} ValueZero(n: nat)
    ensures Value(0, n) == 0
  {
    if n > 0 {
      assert Half(0) == 0 && !LowBit(0);
      ValueZero(n - 1);
    }
  }

  lemma Pow2Values()
    ensures Pow2(16) == 65536
  {
    assert Pow2(4) == 16;
    assert Pow2(8) == 256;
    assert Pow2(12) == 4096;
  }

  lemma NumberInjective(s: state, t: state)
    ensures Number(s) == Number(t) ==> s == t
    ensures Number(s) <= PERIOD && (s != 0 ==> Number(s) > 0)
  {
    hide LowBit, Half, Value, Pow2, Fits, Agree;
    SixteenBitsFit(s);
    SixteenBitsFit(t);
    SixteenBitsFit(0);
    ValueBound(s, 16);
    Pow2Values();
    ValueZero(16);
    if Number(s) == Number(t) {
      ValueAgree(s, t, 16);
      AgreeFits(s, t, 16);
    }
    if Number(s) == 0 {
      ValueAgree(s, 0, 16);
      AgreeFits(s, 0, 16);
    }
  }

  lemma LowBitIsOdd(s: state)
    ensures LowBit(s) <==> Number(s) % 2 == 1
  {
    hide Value, LowBit, Half;
    ValueSplit(s, 15);
  }

  lemma ValueSplit(s: state, n: nat)
    ensures Value(s, n + 1) == (if LowBit(s) then 1 else 0) + 2 * Value(Half(s), n)
  {
  }

  /** The first `n` states from `s`. */
  ghost function Visited(s: state, n: nat): set<int> {
    if n == 0 then {} else Visited(s, n - 1) + {Number(Iter(s, n - 1))}
  }

  ghost predicate At(s: state, k: nat, x: int) {
    Number(Iter(s, k)) == x
  }

  lemma {:induction false} VisitedContains(s: state, n: nat, x: int)
    ensures x in Visited(s, n) <==> exists k | 0 <= k < n :: At(s, k, x)
  {
    hide Number, Step;
    if n > 0 {
      VisitedContains(s, n - 1, x);
      if x == Number(Iter(s, n - 1)) {
        assert At(s, n - 1, x);
      }
    }
  }

  lemma {:induction false} VisitedSize(s: state, n: nat)
    requires s != 0 && n <= PERIOD
    ensures |Visited(s, n)| == n
  {
    hide Number, Step;
    if n > 0 {
      VisitedSize(s, n - 1);
      var last := Iter(s, n - 1);
      VisitedContains(s, n - 1, Number(last));
      if k :| 0 <= k < n - 1 && At(s, k, Number(last)) {
        NumberInjective(Iter(s, k), last);
        OrbitInjective(s, k, n - 1);
      }
    }
  }

  /** Every nonzero state occurs within one period. */
  lemma EveryStateVisited(s: state, t: state)
    requires s != 0 && t != 0
    ensures exists k | 0 <= k < PERIOD :: Iter(s, k) == t
  {
    hide Step, Number;
    VisitedAll(s);
    BetweenSize(1, PERIOD + 1);
    NumberInjective(t, t);
    VisitedContains(s, PERIOD, Number(t));
    var k :| 0 <= k < PERIOD && At(s, k, Number(t));
    NumberInjective(Iter(s, k), t);
  }

  lemma VisitedAll(s: state)
    requires s != 0
    ensures Visited(s, PERIOD) == Between(1, PERIOD + 1)
  {
    hide Step, Number, Visited, Between;
    BetweenSize(1, PERIOD + 1);
    forall x | x in Visited(s, PERIOD) ensures x in Between(1, PERIOD + 1) {
      VisitedContains(s, PERIOD, x);
      var k :| 0 <= k < PERIOD && At(s, k, x);
      NeverZero(s, k);
      NumberInjective(Iter(s, k), 0);
    }
    VisitedSize(s, PERIOD);
    SubsetSize(Visited(s, PERIOD), Between(1, PERIOD + 1));
  }

  // ----- The chips themselves -----

  /** The chip sequence has period 65535. */
  lemma ChipsRepeat(seed: int, i: nat)
    ensures ChipAt(seed, i + PERIOD) == ChipAt(seed, i)
  {
    hide Step, LowBit, StartState;
    IterAdd(StartState(seed), PERIOD, i + 1);
    FullCycle(StartState(seed));
  }

  ghost predicate SameChip(seed: int, i: nat, j: nat, k: nat) {
    ChipAt(seed, i + k) == ChipAt(seed, j + k)
  }

  /** No 16 consecutive chips occur at two places less than a period apart. */
  lemma WindowsDistinct(seed: int, i: nat, j: nat)
    requires i < j < i + PERIOD
    ensures exists k | 0 <= k < 16 :: !SameChip(seed, i, j, k)
  {
    hide Step, LowBit, StartState;
    var s := StartState(seed);
    var a, b := Iter(s, i + 1), Iter(s, j + 1);
    if forall k | 0 <= k < 16 :: SameChip(seed, i, j, k) {
      forall k | 0 <= k < 16 ensures LowBit(Iter(a, k)) == LowBit(Iter(b, k)) {
        IterAdd(s, i + 1, k);
        IterAdd(s, j + 1, k);
        assert SameChip(seed, i, j, k);
      }
      OutputsIdentify(a, b);
      OrbitInjective(s, i + 1, j + 1);
    }
  }

  /** Bit `m` of a state. */
  function Bit(s: state, m: nat): bool
    decreases m
  {
    if m == 0 then LowBit(s) else Bit(Half(s), m - 1)
  }

  lemma {:induction false} AgreeingBit(x: state, y: state, n: nat, m: nat)
    requires Agree(x, y, n) && m < n
    ensures Bit(x, m) == Bit(y, m)
    decreases m
  {
    hide Half, LowBit;
    if m > 0 {
      AgreeingBit(Half(x), Half(y), n - 1, m - 1);
    }
  }

  lemma {:induction false} OutputIsBit(s: state, n: nat)
    requires n <= 15
    ensures LowBit(Iter(s, n)) == Bit(s, n)
    decreases n
  {
    hide Step, Half, LowBit;
    if n > 0 {
      OutputIsBit(Step(s), n - 1);
      StepAgreesWithHalf(s);
      AgreeingBit(Step(s), Half(s), 15, n - 1);
    }
  }

  /** The chips begin with the seed's own bits, from bit 1 to bit 15. */
  lemma FirstChips(seed: int, i: nat)
    requires i < 15
    ensures ChipAt(seed, i) == if Bit(StartState(seed), i + 1) then 1 else -1
  {
    hide Iter, LowBit, StartState;
    OutputIsBit(StartState(seed), i + 1);
  }

  lemma FiveHalves(s: state)
    ensures Bit(s, 5) == LowBit(Half(Half(Half(Half(Half(s))))))
    ensures Bit(s, 4) == LowBit(Half(Half(Half(Half(s)))))
  {
    hide Half, LowBit;
    assert Bit(s, 5) == Bit(Half(s), 4) && Bit(Half(s), 4) == Bit(Half(Half(s)), 3);
    assert Bit(s, 4) == Bit(Half(s), 3) && Bit(Half(s), 3) == Bit(Half(Half(s)), 2);
  }

  /** Of the default seed's chips the fourth is -1 and the fifth is 1. */
  lemma DefaultChips()
    ensures ChipAt(0xACE1, 3) == -1 && ChipAt(0xACE1, 4) == 1
  {
    hide Iter, ChipAt, Bit;
    StateOfSeed(0xACE1);
    FirstChips(0xACE1, 3);
    FirstChips(0xACE1, 4);
    FiveHalves(0xACE1);
  }

  lemma SeedRoundTrip(high: int, low: int)
    requires 0 <= high < 0x8000 && 0 <= low < 2
    ensures ((2 * high + low) as state) as int == 2 * high + low
  {
  }

  lemma StateOfSeed(a: int)
    requires 0 <= a < 0x1_0000
    ensures (a as state) as int == a
  {
    SeedRoundTrip(a / 2, a % 2);
  }

  /** The first 16 chips tell two starting states apart. */
  lemma ChipsTellStates(a: int, b: int)
    requires forall k | 0 <= k < 16 :: ChipAt(a, k) == ChipAt(b, k)
    ensures StartState(a) == StartState(b)
  {
    hide Step, LowBit, StartState;
    var s, t := StartState(a), StartState(b);
    forall k | 0 <= k < 16 ensures LowBit(Iter(Iter(s, 1), k)) == LowBit(Iter(Iter(t, 1), k)) {
      IterAdd(s, 1, k);
      IterAdd(t, 1, k);
      assert ChipAt(a, k) == ChipAt(b, k);
    }
    OutputsIdentify(Iter(s, 1), Iter(t, 1));
    IterInjective(s, t, 1);
  }

  /**
   The seed matters in its low 16 bits and nowhere else: seeds that agree there give the same
   chips, seeds that differ there (and are not zero there) differ within the first 16, and a seed
   that is zero there stands for 0xACE1.
   */
  lemma SeedsIdentify(a: int, b: int)
    ensures a % 0x1_0000 == b % 0x1_0000 ==> forall i: nat :: ChipAt(a, i) == ChipAt(b, i)
    ensures a % 0x1_0000 != 0 && b % 0x1_0000 != 0 && (forall k | 0 <= k < 16 :: ChipAt(a, k) == ChipAt(b, k))
            ==> a % 0x1_0000 == b % 0x1_0000
    ensures a % 0x1_0000 == 0 ==> forall i: nat :: ChipAt(a, i) == ChipAt(0xACE1, i)
  {
    hide Iter, Chip;
    StateOfSeed(a % 0x1_0000);
    StateOfSeed(b % 0x1_0000);
    if forall k | 0 <= k < 16 :: ChipAt(a, k) == ChipAt(b, k) {
      ChipsTellStates(a, b);
    }
  }

  ghost function ChipSum(s: state, n: nat): int {
    if n == 0 then 0 else ChipSum(s, n - 1) + Chip(Iter(s, n - 1))
  }

  /** The visited states whose low bit is set. */
  ghost function Raised(s: state, n: nat): set<int> {
    if n == 0 then {}
    else if LowBit(Iter(s, n - 1)) then Raised(s, n - 1) + {Number(Iter(s, n - 1))}
    else Raised(s, n - 1)
  }

  lemma {:induction false} RaisedAreOdd(s: state, n: nat, x: int)
    ensures x in Raised(s, n) <==> x in Visited(s, n) && x % 2 == 1
  {
    hide Number, Step, LowBit;
    if n > 0 {
      RaisedAreOdd(s, n - 1, x);
      LowBitIsOdd(Iter(s, n - 1));
    }
  }

  lemma AddingMember<T>(a: set<T>, x: T)
    ensures x in a ==> |a + {x}| == |a|
  {
    if x in a {
      assert a + {x} == a;
    }
  }

  /** Before a period is over, every step reaches a state not seen before. */
  lemma FreshState(s: state, n: nat)
    requires s != 0 && n < PERIOD
    ensures Number(Iter(s, n)) !in Visited(s, n)
  {
    hide Number, Step;
    VisitedSize(s, n);
    VisitedSize(s, n + 1);
    AddingMember(Visited(s, n), Number(Iter(s, n)));
  }

  lemma {:induction false} RaisedCount(s: state, n: nat)
    requires s != 0 && n <= PERIOD
    ensures ChipSum(s, n) == 2 * |Raised(s, n)| - n
  {
    hide Number, Iter, LowBit, Visited;
    if n > 0 {
      RaisedCount(s, n - 1);
      var x := Number(Iter(s, n - 1));
      FreshState(s, n - 1);
      RaisedAreOdd(s, n - 1, x);
    }
  }

  ghost function OddsUpTo(n: nat): set<int> {
    if n == 0 then {} else if n % 2 == 1 then OddsUpTo(n - 1) + {n} else OddsUpTo(n - 1)
  }

  lemma {:induction false} OddsUpToSize(n: nat)
    ensures |OddsUpTo(n)| == (n + 1) / 2
    ensures forall x :: x in OddsUpTo(n) <==> 1 <= x <= n && x % 2 == 1
  {
    if n > 0 {
      OddsUpToSize(n - 1);
    }
  }

  /** A period holds one more +1 than -1. */
  lemma Balanced(s: state)
    requires s != 0
    ensures ChipSum(s, PERIOD) == 1
  {
    hide Number, Step, LowBit, ChipSum, Raised, Visited, Between, OddsUpTo;
    VisitedAll(s);
    BetweenSize(1, PERIOD + 1);
    OddsUpToSize(PERIOD);
    forall x ensures x in Raised(s, PERIOD) <==> x in OddsUpTo(PERIOD) {
      RaisedAreOdd(s, PERIOD, x);
    }
    assert Raised(s, PERIOD) == OddsUpTo(PERIOD);
    RaisedCount(s, PERIOD);
  }

  // ----- The sharp peak -----

  /** The chips from `s` on against the chips `k` further on, over `n` places. */
  ghost function ChipProduct(s: state, k: nat, n: nat): int {
    if n == 0 then 0
    else ChipProduct(s, k, n - 1) + Chip(Iter(s, n - 1)) * Chip(Iter(s, n - 1 + k))
  }

  lemma ChipOfXor(a: state, b: state)
    ensures Chip(a) * Chip(b) == -Chip(Xor(a, b))
  {
    hide LowBit, Xor;
    LowBitXor(a, b);
  }

  /** A shifted product is, up to its sign, the chips of another nonzero state. */
  lemma {:induction false} ProductIsShift(s: state, k: nat, n: nat)
    ensures ChipProduct(s, k, n) == -ChipSum(Xor(s, Iter(s, k)), n)
  {
    hide Step, Xor, Chip;
    if n > 0 {
      var i := n - 1;
      ProductIsShift(s, k, i);
      IterAdd(s, k, i);
      IterLinear(s, Iter(s, k), i);
      ChipOfXor(Iter(s, i), Iter(s, i + k));
    }
  }

  /** Over a period, every shift but the multiples of the period correlates at -1, against 65535 in place. */
  lemma TwoValued(s: state, k: nat)
    requires s != 0
    ensures ChipProduct(s, k, PERIOD) == if k % PERIOD == 0 then PERIOD else -1
  {
    hide Step, ChipProduct, ChipSum;
    var m: nat, rest: nat := k / PERIOD, k % PERIOD;
    WholePeriods(s, m);
    IterAdd(s, PERIOD * m, rest);
    ProductIsShift(s, k, PERIOD);
    if rest == 0 {
      XorZero(s);
      SilentSum(PERIOD);
    } else {
      MaximalLength(s);
      XorApart(s, Iter(s, rest));
      Balanced(Xor(s, Iter(s, rest)));
    }
  }

  lemma {:induction false} WholePeriods(s: state, m: nat)
    ensures Iter(s, PERIOD * m) == s
  {
    hide Step;
    if m > 0 {
      WholePeriods(s, m - 1);
      assert PERIOD * m == PERIOD * (m - 1) + PERIOD;
      IterAdd(s, PERIOD * (m - 1), PERIOD);
      FullCycle(s);
    }
  }

  lemma XorApart(a: state, b: state)
    requires a != b
    ensures Xor(a, b) != 0
  {
  }

  lemma {:induction false} SilentSum(n: nat)
    ensures ChipSum(0, n) + n == 0
  {
    if n > 0 {
      SilentSum(n - 1);
      IterZero(n - 1);
    }
  }
}
