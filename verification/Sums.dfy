/** Finite sums of real-valued functions, and their behaviour under circular shifts. */
module Sums {

  /** f(lo) + ... + f(hi - 1) */
  function Sum(f: int -> real, lo: int, hi: int): real
    requires lo <= hi
    decreases hi - lo
  {
    if lo == hi then 0.0 else Sum(f, lo, hi - 1) + f(hi - 1)
  }

  lemma {:induction false} SumEqual(f: int -> real, g: int -> real, lo: int, hi: int)
    requires lo <= hi && forall i | lo <= i < hi :: f(i) == g(i)
    ensures Sum(f, lo, hi) == Sum(g, lo, hi)
    decreases hi - lo
  {
    if lo < hi {
      SumEqual(f, g, lo, hi - 1);
    }
  }

  lemma {:induction false} SumSplit(f: int -> real, lo: int, mid: int, hi: int)
    requires lo <= mid <= hi
    ensures Sum(f, lo, hi) == Sum(f, lo, mid) + Sum(f, mid, hi)
    decreases hi - mid
  {
    if mid < hi {
      SumSplit(f, lo, mid, hi - 1);
    }
  }

  lemma {:induction false} SumShift(f: int -> real, g: int -> real, lo: int, hi: int, d: int)
    requires lo <= hi && forall i | lo <= i < hi :: f(i) == g(i + d)
    ensures Sum(f, lo, hi) == Sum(g, lo + d, hi + d)
    decreases hi - lo
  {
    if lo < hi {
      SumShift(f, g, lo, hi - 1, d);
    }
  }

  lemma {:induction false} SumScale(f: int -> real, g: int -> real, c: real, lo: int, hi: int)
    requires lo <= hi && forall i | lo <= i < hi :: f(i) == Times(c, g(i))
    ensures Sum(f, lo, hi) == Times(c, Sum(g, lo, hi))
    decreases hi - lo
  {
    if lo < hi {
      SumScale(f, g, c, lo, hi - 1);
      assert c * (Sum(g, lo, hi - 1) + g(hi - 1)) == c * Sum(g, lo, hi - 1) + c * g(hi - 1);
    }
  }

  lemma {:induction false} SumNonnegative(f: int -> real, lo: int, hi: int)
    requires lo <= hi && forall i | lo <= i < hi :: f(i) >= 0.0
    ensures Sum(f, lo, hi) >= 0.0
    ensures forall i | lo <= i < hi :: f(i) <= Sum(f, lo, hi)
    decreases hi - lo
  {
    if lo < hi {
      SumNonnegative(f, lo, hi - 1);
    }
  }

  function Times(x: real, y: real): real {
    x * y
  }

  /** The square of a difference expands under the sum. */
  lemma {:induction false} SumSquares(
    a: int -> real, b: int -> real, aa: int -> real, bb: int -> real, ab: int -> real, gap: int -> real, n: nat)
    requires forall i | 0 <= i < n ::
               aa(i) == Times(a(i), a(i)) && bb(i) == Times(b(i), b(i)) && ab(i) == Times(a(i), b(i))
    requires forall i | 0 <= i < n :: gap(i) == Times(a(i) - b(i), a(i) - b(i))
    ensures Sum(gap, 0, n) == Sum(aa, 0, n) + Sum(bb, 0, n) - 2.0 * Sum(ab, 0, n)
  {
    hide Times;
    if n > 0 {
      SumSquares(a, b, aa, bb, ab, gap, n - 1);
      SquareOfDifference(a(n - 1), b(n - 1));
    }
  }

  lemma SquareOfDifference(x: real, y: real)
    ensures Times(x - y, x - y) == Times(x, x) + Times(y, y) - 2.0 * Times(x, y)
  {
  }

  lemma MultipleSign(n: int, q: int)
    requires n > 0
    ensures q >= 0 ==> n * q >= 0
    ensures q <= -2 ==> n * q <= -2 * n
  {
    if q <= -2 {
      assert n * q == n * (q + 2) - 2 * n;
      assert n * (-(q + 2)) >= 0;
    }
  }

  /** An index brought back onto a circle of `n` places. */
  function Around(i: int, n: int): int
    requires n > 0
  {
    i % n
  }

  /** The remainder of an index that is off the circle by at most one turn. */
  lemma ModOnce(i: int, n: int)
    requires n > 0 && -n <= i < n
    ensures Around(i, n) == if i < 0 then i + n else i
  {
    if i < 0 {
      assert i == n * (i / n) + i % n;
      MultipleSign(n, i / n);
    }
  }

  /** Rotating the index does not change a sum over a full circle. */
  lemma SumRotate(f: int -> real, g: int -> real, n: int, s: int)
    requires 0 <= s < n && forall i | 0 <= i < n :: g(i) == f(Around(i - s, n))
    ensures Sum(g, 0, n) == Sum(f, 0, n)
  {
    hide Around, Sum;
    forall i | 0 <= i < s ensures g(i) == f(i + (n - s)) {
      ModOnce(i - s, n);
    }
    forall i | s <= i < n ensures g(i) == f(i + (-s)) {
      ModOnce(i - s, n);
    }
    SumShift(g, f, 0, s, n - s);
    SumShift(g, f, s, n, -s);
    SumSplit(g, 0, s, n);
    SumSplit(f, 0, n - s, n);
  }

  /** Rounding toward zero. */
  function Truncate(r: real): int {
    if r >= 0.0 then r.Floor else -(-r).Floor
  }
}
