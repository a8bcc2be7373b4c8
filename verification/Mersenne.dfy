/**
 The prime 2^31 - 1. A base whose powers return to 1 modulo it after exactly 151 * 331 steps
 does so modulo each of its factors, and no modulus up to its square root has room for that.
 */
module Mersenne {
  import opened Counting

  const PRIME: nat := 0x7FFF_FFFF

  const BASE: nat := 1415456845

  /** How long the powers of the base take to return: the product of the primes 151 and 331. */
  const ORDER: nat := 49981

  function Power(n: nat, m: nat): (r: nat)
    requires m > 0
    ensures r < m
  {
    if n == 0 then 1 % m else MulMod(BASE, Power(n - 1, m), m)
  }

  function MulMod(x: nat, y: nat, m: nat): (r: nat)
    requires m > 0
    ensures r < m
  {
    x * y % m
  }

  // ----- Arithmetic modulo m -----

  lemma MultipleBounds(k: int, m: nat)
    ensures k >= 1 ==> k * m >= m
    ensures k <= -1 ==> k * m + m <= 0
  {
    if k >= 1 {
      assert k * m == (k - 1) * m + m;
    } else if k <= -1 {
      assert k * m + m == (k + 1) * m;
    }
  }

  lemma ModOfSum(q: int, r: int, m: nat)
    requires m > 0
    ensures (q * m + r) % m == r % m
  {
    var x := q * m + r;
    var k := x / m - r / m - q;
    assert x == m * (x / m) + x % m && r == m * (r / m) + r % m;
    assert r % m - x % m == k * m;
    MultipleBounds(k, m);
  }

  lemma Distribute(q: int, m: int, r: int, y: int)
    ensures (q * m + r) * y == (q * y) * m + r * y
  {
  }

  lemma ReduceLeft(x: nat, y: nat, m: nat)
    requires m > 0
    ensures MulMod(x % m, y, m) == MulMod(x, y, m)
  {
    var q, r := x / m, x % m;
    assert x == q * m + r;
    Distribute(q, m, r, y);
    ModOfSum(q * y, r * y, m);
  }

  lemma MulModIs(x: nat, y: nat, m: nat)
    requires m > 0
    ensures MulMod(x, y, m) == x * y % m == MulMod(y, x, m)
  {
  }

  lemma Reassociate(x: nat, y: nat, z: nat)
    ensures (x * y) * z == (y * z) * x
  {
  }

  lemma MulModAssociates(x: nat, y: nat, z: nat, m: nat)
    requires m > 0
    ensures MulMod(MulMod(x, y, m), z, m) == MulMod(x, MulMod(y, z, m), m)
  {
    hide MulMod;
    var p, q := x * y, y * z;
    MulModIs(x, y, m);
    MulModIs(y, z, m);
    ReduceLeft(p, z, m);
    ReduceLeft(q, x, m);
    MulModIs(q % m, x, m);
    MulModIs(p, z, m);
    MulModIs(q, x, m);
    Reassociate(x, y, z);
  }

  lemma {:induction false} PowerAdd(i: nat, j: nat, m: nat)
    requires m > 0
    ensures Power(i + j, m) == MulMod(Power(i, m), Power(j, m), m)
  {
    hide MulMod;
    if i == 0 {
      OneTimes(Power(j, m), m);
    } else {
      PowerAdd(i - 1, j, m);
      MulModAssociates(BASE, Power(i - 1, m), Power(j, m), m);
    }
  }

  lemma OneMod(c: nat)
    requires c > 1
    ensures 1 % c == 1
  {
  }

  lemma OneTimes(x: nat, m: nat)
    requires x < m
    ensures MulMod(1 % m, x, m) == x && MulMod(x, 1 % m, m) == x
  {
    if m > 1 {
      OneMod(m);
      SmallMod(x, m);
    }
  }

  lemma SmallMod(x: nat, m: nat)
    requires x < m
    ensures MulMod(1, x, m) == x && MulMod(x, 1, m) == x
  {
  }
  /** Modulo a factor the powers are the remainders of the powers. */
  lemma {:induction false} PowerOfFactor(n: nat, c: nat, e: nat)
    requires c > 0 && c * e == PRIME
    ensures Power(n, c) == Power(n, PRIME) % c
  {
    hide MulMod;
    if n == 0 {
      if c == 1 {
      } else {
        OneMod(c);
      }
    } else {
      PowerOfFactor(n - 1, c, e);
      MulModOfFactor(BASE, Power(n - 1, PRIME), c, e);
    }
  }

  lemma ModOfMod(z: nat, c: nat, e: nat)
    requires c > 0 && c * e == PRIME
    ensures z % PRIME % c == z % c
  {
    var q, r := z / PRIME, z % PRIME;
    Regroup(q, c, e);
    ModOfSum(q * e, r, c);
  }

  lemma Regroup(q: nat, c: nat, e: nat)
    ensures q * (c * e) == (q * e) * c
  {
  }

  lemma MulModOfFactor(x: nat, y: nat, c: nat, e: nat)
    requires c > 0 && c * e == PRIME
    ensures MulMod(x, y % c, c) == MulMod(x, y, PRIME) % c
  {
    hide MulMod;
    ReduceLeft(y, x, c);
    MulModIs(y % c, x, c);
    MulModIs(y, x, c);
    MulModIs(y, x, PRIME);
    ModOfMod(y * x, c, e);
  }

  // ----- Powers of the base -----

  lemma Doubles(n: nat, x: nat, y: nat)
    requires Power(n, PRIME) == x && x * x % PRIME == y
    ensures Power(2 * n, PRIME) == y
  {
    PowerAdd(n, n, PRIME);
  }

  lemma Sums(m: nat, x: nat, n: nat, y: nat, z: nat)
    requires Power(m, PRIME) == x && Power(n, PRIME) == y && x * y % PRIME == z
    ensures Power(m + n, PRIME) == z
  {
    PowerAdd(m, n, PRIME);
  }

  lemma FirstPower()
    ensures Power(1, PRIME) == BASE
  {
    assert Power(0, PRIME) == 1;
    OneTimes(BASE, PRIME);
  }

  lemma PowersTo256()
    ensures Power(1, PRIME) == BASE && Power(2, PRIME) == 1585447249 && Power(4, PRIME) == 314981779
    ensures Power(8, PRIME) == 2096387776 && Power(16, PRIME) == 1969277567 && Power(32, PRIME) == 17819235
    ensures Power(64, PRIME) == 351423452 && Power(128, PRIME) == 1708664683 && Power(256, PRIME) == 1235898867
  {
    hide Power;
    FirstPower();
    Doubles(1, 1415456845, 1585447249);
    Doubles(2, 1585447249, 314981779);
    Doubles(4, 314981779, 2096387776);
    Doubles(8, 2096387776, 1969277567);
    Doubles(16, 1969277567, 17819235);
    Doubles(32, 17819235, 351423452);
    Doubles(64, 351423452, 1708664683);
    Doubles(128, 1708664683, 1235898867);
  }

  lemma PowersTo32768()
    ensures Power(512, PRIME) == 828167364 && Power(16384, PRIME) == 639748171 && Power(32768, PRIME) == 258432464
  {
    hide Power;
    PowersTo256();
    Doubles(256, 1235898867, 828167364);
    Doubles(512, 828167364, 952011849);
    Doubles(1024, 952011849, 308527930);
    Doubles(2048, 308527930, 1046595021);
    Doubles(4096, 1046595021, 1754671222);
    Doubles(8192, 1754671222, 639748171);
    Doubles(16384, 639748171, 258432464);
  }

  lemma Powers151And331()
    ensures Power(151, PRIME) == 272122089 && Power(331, PRIME) == 556613938
  {
    hide Power;
    PowersTo256();
    Sums(128, 1708664683, 16, 1969277567, 567972697);
    Sums(144, 567972697, 4, 314981779, 1131150392);
    Sums(148, 1131150392, 2, 1585447249, 518897567);
    Sums(150, 518897567, 1, 1415456845, 272122089);
    Sums(256, 1235898867, 64, 351423452, 874818637);
    Sums(320, 874818637, 8, 2096387776, 632170474);
    Sums(328, 632170474, 2, 1585447249, 387194597);
    Sums(330, 387194597, 1, 1415456845, 556613938);
  }

  lemma PowerOfOrder()
    ensures Power(ORDER, PRIME) == 1
  {
    hide Power;
    PowersTo256();
    PowersTo32768();
    Sums(32768, 258432464, 16384, 639748171, 1090108554);
    Sums(49152, 1090108554, 512, 828167364, 1409112917);
    Sums(49664, 1409112917, 256, 1235898867, 1999361800);
    Sums(49920, 1999361800, 32, 17819235, 463109480);
    Sums(49952, 463109480, 16, 1969277567, 1088969922);
    Sums(49968, 1088969922, 8, 2096387776, 1572060746);
    Sums(49976, 1572060746, 4, 314981779, 294145118);
    Sums(49980, 294145118, 1, 1415456845, 1);
  }

  // ----- The order modulo a factor -----

  /** What is invertible modulo the prime is not divisible by a factor. */
  lemma NotDivisible(y: nat, inverse: nat, c: nat, e: nat)
    requires c > 1 && c * e == PRIME && y * inverse % PRIME == 1
    ensures y % c != 0
  {
    ModOfMod(y * inverse, c, e);
    OneMod(c);
    if y % c == 0 {
      var k := y / c;
      assert y == k * c + 0;
      Distribute(k, c, 0, inverse);
      ModOfSum(k * inverse, 0, c);
    }
  }

  lemma NotOne(n: nat, x: nat, inverse: nat, c: nat, e: nat)
    requires c > 1 && c * e == PRIME && x > 0
    requires Power(n, PRIME) == x && (x - 1) * inverse % PRIME == 1
    ensures Power(n, c) != 1
  {
    hide Power;
    PowerOfFactor(n, c, e);
    NotDivisible(x - 1, inverse, c, e);
    if x % c == 1 {
      assert x - 1 == (x / c) * c + 0;
      ModOfSum(x / c, 0, c);
    }
  }

  ghost predicate Returns(k: nat, c: nat, n: nat) {
    c > 0 && Power(k * n, c) == 1
  }

  lemma SplitProduct(k: nat, a: nat, b: nat)
    requires b <= a
    ensures k * a == k * (a - b) + k * b
  {
  }

  lemma ReturnsDifference(k: nat, c: nat, a: nat, b: nat)
    requires c > 1 && b <= a && Returns(k, c, a) && Returns(k, c, b)
    ensures Returns(k, c, a - b)
  {
    hide Power, MulMod;
    SplitProduct(k, a, b);
    PowerAdd(k * (a - b), k * b, c);
    OneMod(c);
    OneTimes(Power(k * (a - b), c), c);
  }

  lemma NextMultiple(k: nat, n: nat)
    requires k > 0
    ensures k * n == (k - 1) * n + n
  {
  }

  lemma ReturnsAdd(c: nat, m: nat, n: nat)
    requires c > 1 && Power(m, c) == 1 && Power(n, c) == 1
    ensures Power(m + n, c) == 1
  {
    hide Power, MulMod;
    PowerAdd(m, n, c);
    OneMod(c);
    OneTimes(1, c);
  }

  lemma {:induction false} ReturnsMultiple(c: nat, n: nat, k: nat)
    requires c > 1 && Power(n, c) == 1
    ensures Returns(k, c, n)
  {
    if k == 0 {
      OneMod(c);
    } else {
      hide Power;
      ReturnsMultiple(c, n, k - 1);
      ReturnsAdd(c, (k - 1) * n, n);
      NextMultiple(k, n);
    }
  }

  lemma SmallFactors(a: nat, b: nat)
    ensures a * b == 151 ==> a == 1 || b == 1
    ensures a * b == 331 ==> a == 1 || b == 1
  {
  }

  lemma SmallPrimes()
    ensures Prime(151) && Prime(331)
  {
    forall a: nat, b: nat
      ensures a * b == 151 ==> a == 1 || b == 1
      ensures a * b == 331 ==> a == 1 || b == 1
    {
      SmallFactors(a, b);
    }
  }

  lemma DifferencesOfReturns(k: nat, c: nat)
    requires c > 1
    ensures Differences((x: nat) => Returns(k, c, x))
  {
    forall a: nat, b: nat | b <= a && Returns(k, c, a) && Returns(k, c, b) ensures Returns(k, c, a - b) {
      ReturnsDifference(k, c, a, b);
    }
  }

  /** Modulo a proper factor no power before the full order is 1. */
  lemma OrderOfFactor(c: nat, e: nat, n: nat)
    requires c > 1 && c * e == PRIME && n > 0 && Power(n, c) == 1
    ensures n >= ORDER
  {
    hide Power, Differences, Prime;
    Powers151And331();
    PowerOfOrder();
    PowerOfFactor(ORDER, c, e);
    OneMod(c);
    NotOne(151, 272122089, 411595504, c, e);
    NotOne(331, 556613938, 2069584139, c, e);
    ReturnsMultiple(c, n, 151);
    ReturnsMultiple(c, n, 331);
    SmallPrimes();
    DifferencesOfReturns(151, c);
    DifferencesOfReturns(331, c);
    var i := OnlyMultiples((x: nat) => Returns(151, c, x), 331, n);
    var j := OnlyMultiples((x: nat) => Returns(331, c, x), 151, n);
    if n < ORDER {
      assert i * 331 == j * 151 && i < 151;
      NoCommonMultiple(i, j);
    }
  }

  lemma NoCommonMultiple(i: nat, j: nat)
    requires i * 331 == j * 151 && i < 151
    ensures i == 0
  {
    var a := j - 2 * i;
    var b := i - 5 * a;
    var f := b - (a - 4 * b);
    assert i == 151 * f;
  }

  // ----- Too many powers for a small modulus -----

  ghost function Reached(c: nat, n: nat): set<int>
    requires c > 0
  {
    if n == 0 then {} else Reached(c, n - 1) + {Power(n - 1, c)}
  }

  lemma {:induction false} ReachedBy(c: nat, n: nat, x: int)
    requires c > 0 && x in Reached(c, n)
    ensures exists i: nat :: i < n && Power(i, c) == x
  {
    if x != Power(n - 1, c) {
      ReachedBy(c, n - 1, x);
    }
  }

  /** Among more powers than there are remainders two agree. */
  lemma {:induction false} Repeats(c: nat, n: nat) returns (found: bool, i: nat, j: nat)
    requires c > 0
    ensures found ==> i < j < n && Power(i, c) == Power(j, c)
    ensures !found ==> |Reached(c, n)| == n && Reached(c, n) <= Between(0, c)
  {
    hide Power;
    BetweenSize(0, c);
    found, i, j := false, 0, 0;
    if n > 0 {
      found, i, j := Repeats(c, n - 1);
      var x := Power(n - 1, c);
      if !found && x in Reached(c, n - 1) {
        ReachedBy(c, n - 1, x);
        i :| i < n - 1 && Power(i, c) == x;
        found, j := true, n - 1;
      }
    }
  }

  /** A factor other than 1 is not below the order. */
  lemma FactorsAreLarge(c: nat, e: nat)
    requires c > 1 && c * e == PRIME
    ensures c >= ORDER
  {
    hide Power, MulMod, Reached;
    if c < ORDER {
      var found, i, j := Repeats(c, ORDER);
      BetweenSize(0, c);
      if !found {
        SubsetSize(Reached(c, ORDER), Between(0, c));
      }
      PowerAdd(i, ORDER - i, c);
      PowerAdd(j, ORDER - i, c);
      PowerAdd(j - i, ORDER, c);
      PowerOfOrder();
      PowerOfFactor(ORDER, c, e);
      OneMod(c);
      OneTimes(Power(j - i, c), c);
      OrderOfFactor(c, e, j - i);
    }
  }

  /** 2^31 - 1 is prime. */
  lemma IsPrime(c: nat, e: nat)
    requires c * e == PRIME
    ensures c == 1 || e == 1
  {
    if c > 1 && e > 1 {
      FactorsAreLarge(c, e);
      assert e * c == PRIME;
      FactorsAreLarge(e, c);
      LargeProduct(c, e);
    }
    assert c != 0 && e != 0;
  }

  lemma LargeProduct(c: nat, e: nat)
    requires c >= ORDER && e >= ORDER
    ensures c * e > PRIME
  {
    assert c * e >= ORDER * e >= ORDER * ORDER;
  }
}
