/**
 Offset estimation by cross-correlation. The transform-based correlation is taken
 at its meaning, the circular sum over the zero-padded inputs, in exact arithmetic.
 */
module Correlation {
  import opened Options
  import opened Sums

  datatype Result<+T> = Ok(value: T) | EmptyInput

  // ----- Length of the transform -----

  function PowerAtLeast(p: nat, n: nat): (q: nat)
    requires p > 0
    decreases n - p
  {
    if p >= n then p else PowerAtLeast(2 * p, n)
  }

  ghost predicate IsPowerOfTwo(p: nat) {
    p == 1 || (p > 1 && p % 2 == 0 && IsPowerOfTwo(p / 2))
  }

  /** The least power of two that is at least `n`. */
  function NextPow2(n: nat): nat {
    PowerAtLeast(1, n)
  }

  method NextPow2Loop(n: nat) returns (p: nat)
    ensures p == NextPow2(n)
  {
    p := 1;
    while p < n
      invariant p > 0 && PowerAtLeast(p, n) == NextPow2(n)
      decreases n - p
    {
      p := 2 * p;
    }
  }

  lemma {:induction false} PowerAtLeastLeast(p: nat, n: nat)
    requires IsPowerOfTwo(p) && p > 0 && (p == 1 || p / 2 < n)
    ensures var q := PowerAtLeast(p, n); IsPowerOfTwo(q) && q >= n && q > 0 && (q == 1 || q / 2 < n)
    decreases n - p
  {
    if p < n {
      PowerAtLeastLeast(2 * p, n);
    }
  }

  lemma NextPow2Least(n: nat)
    ensures var q := NextPow2(n); IsPowerOfTwo(q) && q >= n && q > 0 && (q == 1 || (q % 2 == 0 && q / 2 < n))
  {
    PowerAtLeastLeast(1, n);
  }

  // ----- Correlation, window and peak -----

  /** A signal padded with zeros. */
  function At(s: seq<real>, i: int): real {
    if 0 <= i < |s| then s[i] else 0.0
  }

  function Term(reference: seq<real>, recording: seq<real>, n: int, k: int): int -> real
    requires n > 0
  {
    i => Times(At(reference, i), At(recording, Around(i - k, n)))
  }

  /** Circular correlation at lag index `k`: the sum of reference[i] * recording[(i - k) mod n]. */
  function CorrelationAt(reference: seq<real>, recording: seq<real>, n: nat, k: int): real
    requires n > 0
  {
    Sum(Term(reference, recording, n, k), 0, n)
  }

  function CrossCorrelation(reference: seq<real>, recording: seq<real>): (x: seq<real>)
    ensures |x| == NextPow2(|reference| + |recording|) > 0
  {
    NextPow2Least(|reference| + |recording|);
    var n := NextPow2(|reference| + |recording|);
    seq(n, k requires 0 <= k < n => CorrelationAt(reference, recording, n, k))
  }

  /** A slice bound as the array library resolves it: negative ones count from the end. */
  function SliceBound(i: int, n: nat): (b: nat)
    ensures b <= n
  {
    if i < 0 then (if i + n < 0 then 0 else i + n) else if i > n then n else i
  }

  /** The lag an index stands for: the upper half of the array holds the negative ones. */
  function SignedLag(i: int, n: nat): int {
    if i <= n / 2 then i else i - n
  }

  function Abs(x: int): nat {
    if x < 0 then -x else x
  }

  /** Clears the lags outside [-maxLag, maxLag]. */
  function Windowed(x: seq<real>, maxLag: int): (w: seq<real>)
    ensures |w| == |x|
  {
    var n := |x|;
    if maxLag < n / 2 then
      var (lo, hi) := (SliceBound(maxLag + 1, n), SliceBound(n - maxLag, n));
      seq(n, i requires 0 <= i < n => if lo <= i < hi then 0.0 else x[i])
    else x
  }

  /** A bound of zero or more keeps exactly the lags up to it on both sides. */
  lemma WindowedByLag(x: seq<real>, maxLag: int)
    ensures maxLag >= 0 ==> forall i | 0 <= i < |x| ::
                              Windowed(x, maxLag)[i] == if Abs(SignedLag(i, |x|)) <= maxLag then x[i] else 0.0
  {
  }

  /** The window function works on a copy and clears a slice of it in place. */
  method WindowLag(x: array<real>, maxLag: int) returns (out: array<real>)
    ensures fresh(out) && out[..] == Windowed(x[..], maxLag)
    ensures maxLag >= 0 ==> forall i | 0 <= i < x.Length ::
                              out[i] == if Abs(SignedLag(i, x.Length)) <= maxLag then x[i] else 0.0
  {
    WindowedByLag(x[..], maxLag);
    out := new real[x.Length];
    for i := 0 to x.Length
      invariant forall k | 0 <= k < i :: out[k] == x[k]
    {
      out[i] := x[i];
    }
    var n := out.Length;
    if maxLag < n / 2 {
      var lo, hi := SliceBound(maxLag + 1, n), SliceBound(n - maxLag, n);
      var i := lo;
      while i < hi
        invariant lo <= i && (i <= hi || hi < lo)
        invariant forall k | 0 <= k < n :: out[k] == if lo <= k < i then 0.0 else x[k]
      {
        out[i] := 0.0;
        i := i + 1;
      }
    }
  }

  /** `p` is the first position of the maximum. */
  ghost predicate IsPeak(x: seq<real>, p: nat) {
    && p < |x|
    && (forall i | 0 <= i < |x| :: x[i] <= x[p])
    && (forall i | 0 <= i < p :: x[i] < x[p])
  }

  function ArgMax(x: seq<real>): (p: nat)
    requires |x| > 0
    ensures IsPeak(x, p)
  {
    if |x| == 1 then 0 else
    var q := ArgMax(x[..|x| - 1]);
    if x[|x| - 1] > x[q] then |x| - 1 else q
  }

  /** Lags past the middle wrap around; the offset is the negated lag. */
  function OffsetOf(peak: nat, n: nat): int {
    -SignedLag(peak, n)
  }

  function Searched(reference: seq<real>, recording: seq<real>, maxLag: Option<int>): (x: seq<real>)
    ensures |x| == NextPow2(|reference| + |recording|) > 0
  {
    var x := CrossCorrelation(reference, recording);
    if maxLag.Some? then Windowed(x, maxLag.value) else x
  }

  function FindOffset(reference: seq<real>, recording: seq<real>, maxLag: Option<int> := None)
    : (r: Result<int>)
    ensures r.EmptyInput? <==> reference == [] || recording == []
  {
    if |reference| == 0 || |recording| == 0 then EmptyInput else
    var x := Searched(reference, recording, maxLag);
    Ok(OffsetOf(ArgMax(x), |x|))
  }

  /** Some lag within the bound beats the zeros that the window puts everywhere else. */
  ghost predicate SomeLagStands(x: seq<real>, maxLag: nat) {
    exists i | 0 <= i < |x| && Abs(SignedLag(i, |x|)) <= maxLag :: x[i] > 0.0 || (x[i] == 0.0 && i <= maxLag)
  }

  /**
   Whether the estimate keeps to the search window, for all inputs. Lags outside are set to zero
   and still searched, so when everything inside is negative the first of them wins.
   */
  lemma WindowRespectedIff(reference: seq<real>, recording: seq<real>, maxLag: nat)
    requires |reference| > 0 && |recording| > 0
    ensures
      var x := CrossCorrelation(reference, recording);
      var offset := FindOffset(reference, recording, Some(maxLag)).value;
      && (Abs(offset) <= maxLag <==> 2 * maxLag >= |x| || SomeLagStands(x, maxLag))
      && (Abs(offset) > maxLag ==> offset == -(maxLag + 1))
  {
    hide CorrelationAt;
    var x := CrossCorrelation(reference, recording);
    NextPow2Least(|reference| + |recording|);
    if 2 * maxLag < |x| {
      PeakInWindow(x, maxLag);
    }
  }

  lemma PeakInWindow(x: seq<real>, maxLag: nat)
    requires |x| > 0 && |x| % 2 == 0 && 2 * maxLag < |x|
    ensures
      var p := ArgMax(Windowed(x, maxLag));
      && (Abs(SignedLag(p, |x|)) <= maxLag <==> SomeLagStands(x, maxLag))
      && (!SomeLagStands(x, maxLag) ==> p == maxLag + 1)
  {
    var w := Windowed(x, maxLag);
    var p := ArgMax(w);
    WindowedByLag(x, maxLag);
    assert w[maxLag + 1] == 0.0;
    if SomeLagStands(x, maxLag) {
      var i :| 0 <= i < |x| && Abs(SignedLag(i, |x|)) <= maxLag && (x[i] > 0.0 || (x[i] == 0.0 && i <= maxLag));
      assert w[i] == x[i];
    }
  }

  lemma InvertedPulse()
    ensures CorrelationAt([1.0], [-1.0], 2, 0) == -1.0
  {
    var f := Term([1.0], [-1.0], 2, 0);
    ModOnce(0, 2);
    ModOnce(1, 2);
    assert f(0) == -1.0 && f(1) == 0.0;
    assert Sum(f, 0, 2) == Sum(f, 0, 1) + f(1);
    assert Sum(f, 0, 1) == Sum(f, 0, 0) + f(0);
  }

  /** With the recording inverted, a search at lag zero only returns -1. */
  lemma OutsideWindowExample()
    ensures FindOffset([1.0], [-1.0], Some(0)) == Ok(-1)
  {
    hide CorrelationAt, Searched, ArgMax;
    assert NextPow2(2) == PowerAtLeast(2, 2) == 2;
    InvertedPulse();
    WindowRespectedIff([1.0], [-1.0], 0);
    var x := CrossCorrelation([1.0], [-1.0]);
    assert x[0] == -1.0;
    assert !SomeLagStands(x, 0);
  }

  // ----- Sub-sample refinement -----

  /** The correction of the parabola through three neighbouring values. */
  function Parabolic(before: real, peak: real, after: real): real {
    var denominator := before - 2.0 * peak + after;
    if -0.000000000001 < denominator < 0.000000000001 then 0.0
    else 0.5 * (before - after) / denominator
  }

  function Correction(x: seq<real>, p: nat): real
    requires 0 < p < |x| - 1
  {
    Parabolic(x[p - 1], x[p], x[p + 1])
  }

  /** The refined position is cut back to an integer on both branches. */
  function Refine(x: seq<real>, p: nat): int
    requires p < |x|
  {
    var n := |x|;
    if p == 0 || p == n - 1 then OffsetOf(p, n) else
    var refined := p as real + Correction(x, p);
    if refined <= (n / 2) as real then -Truncate(refined) else -Truncate(refined - n as real)
  }

  function FindOffsetSubSample(reference: seq<real>, recording: seq<real>, maxLag: Option<int> := None): int {
    var x := Searched(reference, recording, maxLag);
    Refine(x, ArgMax(x))
  }

  lemma ParabolicBound(before: real, peak: real, after: real)
    requires before <= peak && after <= peak
    ensures -0.5 <= Parabolic(before, peak, after) <= 0.5
  {
    var u, v := peak - before, peak - after;
    var denominator := before - 2.0 * peak + after;
    assert denominator == -(u + v) && before - after == v - u;
    if denominator <= -0.000000000001 {
      QuotientBound(v - u, u + v);
      assert 0.5 * (before - after) / denominator == -0.5 * ((v - u) / (u + v));
    }
  }

  lemma QuotientBound(a: real, b: real)
    requires b > 0.0 && -b <= a <= b
    ensures -1.0 <= a / b <= 1.0
  {
    var q := a / b;
    assert q * b == a;
  }

  lemma TruncateNear(k: int, delta: real)
    requires -0.5 <= delta <= 0.5
    ensures k > 0 ==> Truncate(k as real + delta) == if delta < 0.0 then k - 1 else k
    ensures k < 0 ==> Truncate(k as real + delta) == if delta > 0.0 then k + 1 else k
  {
  }

  /**
   What the refinement really returns. Away from the middle of the array it is the
   integer estimate or one sample less in magnitude; exactly at the middle a
   positive correction flips the sign.
   */
  lemma RefineExact(x: seq<real>, p: nat)
    requires IsPeak(x, p) && (|x| == 1 || |x| % 2 == 0)
    ensures
      var n := |x|;
      var coarse := OffsetOf(p, n);
      if p == 0 || p == n - 1 then Refine(x, p) == coarse
      else
        var delta := Correction(x, p);
        && -0.5 <= delta <= 0.5
        && Refine(x, p) == if p < n / 2 then (if delta < 0.0 then coarse + 1 else coarse)
                           else if p > n / 2 then (if delta > 0.0 then coarse - 1 else coarse)
                           else (if delta > 0.0 then n / 2 - 1
                                 else if delta < 0.0 then coarse + 1 else coarse)
  {
    var n := |x|;
    if 0 < p < n - 1 {
      var delta := Correction(x, p);
      ParabolicBound(x[p - 1], x[p], x[p + 1]);
      RefineAt(n, p, delta);
    }
  }

  lemma RefineAt(n: nat, p: nat, delta: real)
    requires 0 < p < n - 1 && n % 2 == 0 && -0.5 <= delta <= 0.5
    ensures
      var refined := p as real + delta;
      var coarse := OffsetOf(p, n);
      (if refined <= (n / 2) as real then -Truncate(refined) else -Truncate(refined - n as real))
      == if p < n / 2 then (if delta < 0.0 then coarse + 1 else coarse)
         else if p > n / 2 then (if delta > 0.0 then coarse - 1 else coarse)
         else (if delta > 0.0 then n / 2 - 1
               else if delta < 0.0 then coarse + 1 else coarse)
  {
    hide Truncate;
    TruncateNear(p, delta);
    TruncateNear(p - n, delta);
    assert p as real + delta - n as real == (p - n) as real + delta;
  }

  /** On the coarse estimate's side of zero, at most one sample closer to it. */
  predicate Towards(coarse: int, fine: int) {
    if coarse >= 0 then 0 <= fine <= coarse && coarse - fine <= 1 else coarse <= fine <= 0 && fine - coarse <= 1
  }

  /** The guard under which the refined lag crosses the middle of the array. */
  predicate Crosses(x: seq<real>, p: nat)
    requires p < |x|
  {
    p == |x| / 2 && 0 < p < |x| - 1 && Correction(x, p) > 0.0
  }

  /**
   Refinement moves the estimate by at most one sample and only towards zero, if and only if the
   peak is not at the middle of the array with a positive correction; there it changes sign.
   */
  lemma SubSampleIsSafe(reference: seq<real>, recording: seq<real>, maxLag: Option<int>)
    requires |reference| > 0 && |recording| > 0
    ensures
      var x := Searched(reference, recording, maxLag);
      var coarse := FindOffset(reference, recording, maxLag).value;
      var fine := FindOffsetSubSample(reference, recording, maxLag);
      && (Towards(coarse, fine) <==> !Crosses(x, ArgMax(x)))
      && (Crosses(x, ArgMax(x)) ==> coarse == -(|x| / 2) && fine == |x| / 2 - 1 > 0)
  {
    hide Correction, Refine;
    var x := Searched(reference, recording, maxLag);
    NextPow2Least(|reference| + |recording|);
    RefineExact(x, ArgMax(x));
  }

  /** Inputs that reach the crossing: the estimate is -2, the refined one 1. */
  lemma SignChangeExample()
    ensures FindOffset([0.0, -0.5, 1.0], [1.0]) == Ok(-2)
    ensures FindOffsetSubSample([0.0, -0.5, 1.0], [1.0]) == 1
  {
    var reference, recording := [0.0, -0.5, 1.0], [1.0];
    assert NextPow2(4) == PowerAtLeast(2, 4) == PowerAtLeast(4, 4) == 4;
    forall k | 0 <= k < 4 ensures CorrelationAt(reference, recording, 4, k) == At(reference, k) {
      PulseCorrelation(reference, k);
    }
    var x := CrossCorrelation(reference, recording);
    assert x == [0.0, -0.5, 1.0, 0.0];
    assert ArgMax(x) == 2;
    assert Correction(x, 2) == 0.1;
  }

  lemma PulseCorrelation(reference: seq<real>, k: nat)
    requires k < 4
    ensures CorrelationAt(reference, [1.0], 4, k) == At(reference, k)
  {
    var f := Term(reference, [1.0], 4, k);
    forall i | 0 <= i < 4 ensures f(i) == if i == k then At(reference, i) else 0.0 {
      ModOnce(i - k, 4);
    }
    assert Sum(f, 0, 4) == Sum(f, 0, 3) + f(3);
    assert Sum(f, 0, 3) == Sum(f, 0, 2) + f(2);
    assert Sum(f, 0, 2) == Sum(f, 0, 1) + f(1);
    assert Sum(f, 0, 1) == Sum(f, 0, 0) + f(0);
  }
}
