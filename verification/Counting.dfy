/** Ranges of integers as sets, sizes of sets, and sequences without repetition. */
module Counting {
  predicate Distinct(s: seq<int>) {
    forall i, j | 0 <= i < j < |s| :: s[i] != s[j]
  }

  /** The integers from `lo` up to but not including `hi`. */
  ghost function Between(lo: int, hi: int): set<int>
    decreases hi - lo
  {
    if lo >= hi then {} else Between(lo, hi - 1) + {hi - 1}
  }

  lemma {:induction false} BetweenSize(lo: int, hi: int)
    requires lo <= hi
    ensures |Between(lo, hi)| == hi - lo
    ensures forall i: int :: i in Between(lo, hi) <==> lo <= i < hi
    decreases hi - lo
  {
    if lo < hi {
      BetweenSize(lo, hi - 1);
    }
  }

  lemma SubsetSize<T>(a: set<T>, b: set<T>)
    requires a <= b
    ensures |a| <= |b|
    ensures |a| == |b| ==> a == b
  {
    assert |b - a| == |b| - |a|;
  }

  function Pow2(n: nat): nat {
    if n == 0 then 1 else 2 * Pow2(n - 1)
  }

  /** The property passes to differences. */
  ghost predicate Differences(p: nat -> bool) {
    forall a: nat, b: nat | b <= a && p(a) && p(b) :: p(a - b)
  }

  lemma DifferenceHolds(p: nat -> bool, a: nat, b: nat)
    requires Differences(p) && b <= a && p(a) && p(b)
    ensures p(a - b)
  {
  }

  /** Numbers with a property that passes to differences have a common divisor with it. */
  lemma {:induction false} CommonDivisor(p: nat -> bool, m: nat, n: nat) returns (g: nat, i: nat, j: nat)
    requires m > 0 && n > 0 && p(m) && p(n) && Differences(p)
    ensures p(g) && m == i * g && n == j * g
    decreases m + n
  {
    hide Differences;
    if m == n {
      g, i, j := m, 1, 1;
    } else if m < n {
      DifferenceHolds(p, n, m);
      g, i, j := CommonDivisor(p, m, n - m);
      j := i + j;
    } else {
      DifferenceHolds(p, m, n);
      g, i, j := CommonDivisor(p, m - n, n);
      i := i + j;
    }
  }

  ghost predicate Prime(p: nat) {
    p > 1 && forall a: nat, b: nat | a * b == p :: a == 1 || b == 1
  }

  /** If a prime has such a property and 1 does not, only multiples of the prime have it. */
  lemma OnlyMultiples(p: nat -> bool, prime: nat, n: nat) returns (i: nat)
    requires Differences(p) && Prime(prime) && n > 0
    requires p(prime) && p(n) && !p(1)
    ensures n == i * prime
  {
    hide Differences;
    var g, j;
    g, i, j := CommonDivisor(p, n, prime);
    assert j * g == prime;
  }
}
