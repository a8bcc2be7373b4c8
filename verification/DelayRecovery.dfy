/**
 When offset estimation is exact: on a scaled, delayed copy of the reference in
 silence, the estimate is the true delay if and only if the delay is less than half
 the transform length and inside the search window.
 */
module DelayRecovery {
  import opened Options
  import opened Sums
  import opened Correlation

  function Silence(n: nat): seq<real> {
    seq(n, _ => 0.0)
  }

  function Scaled(gain: real, s: seq<real>): (t: seq<real>)
    ensures |t| == |s|
  {
    seq(|s|, i requires 0 <= i < |s| => gain * s[i])
  }

  /** `delay` silent samples, a scaled copy of the reference, then `tail` more silent samples. */
  function Delayed(reference: seq<real>, gain: real, delay: nat, tail: nat): (r: seq<real>)
    ensures |r| == delay + |reference| + tail
  {
    Silence(delay) + Scaled(gain, reference) + Silence(tail)
  }

  ghost predicate Audible(s: seq<real>) {
    exists i | 0 <= i < |s| :: s[i] != 0.0
  }

  // ----- Autocorrelation of the padded reference on a circle -----

  /** The reference read on a circle of `n` samples, `s` places back. */
  function BackAt(reference: seq<real>, n: int, s: int, i: int): real
    requires n > 0
  {
    At(reference, Around(i - s, n))
  }

  function Back(reference: seq<real>, n: int, s: int): int -> real
    requires n > 0
  {
    i => BackAt(reference, n, s, i)
  }

  function BackSquared(reference: seq<real>, n: int, s: int): int -> real
    requires n > 0
  {
    i => Times(BackAt(reference, n, s, i), BackAt(reference, n, s, i))
  }

  function Padded(reference: seq<real>): int -> real {
    i => At(reference, i)
  }

  function Squared(reference: seq<real>): int -> real {
    i => Times(At(reference, i), At(reference, i))
  }

  function AutoTerm(reference: seq<real>, n: int, s: int): int -> real
    requires n > 0
  {
    i => Times(At(reference, i), BackAt(reference, n, s, i))
  }

  /** The circular autocorrelation at rotation `s`. */
  function Auto(reference: seq<real>, n: nat, s: int): real
    requires n > 0
  {
    Sum(AutoTerm(reference, n, s), 0, n)
  }

  function Energy(reference: seq<real>, n: nat): real {
    Sum(Squared(reference), 0, n)
  }

  lemma LastNonzero(s: seq<real>) returns (k: nat)
    requires Audible(s)
    ensures k < |s| && s[k] != 0.0 && forall i | k < i < |s| :: s[i] == 0.0
  {
    k := |s| - 1;
    while s[k] == 0.0
      invariant k < |s| && exists i | 0 <= i <= k :: s[i] != 0.0
      invariant forall i | k < i < |s| :: s[i] == 0.0
      decreases k
    {
      k := k - 1;
    }
  }

  /** A proper rotation moves the last nonzero sample onto silence, in one direction or the other. */
  lemma RotationDiffers(reference: seq<real>, n: nat, s: nat) returns (i: nat)
    requires Audible(reference) && 0 < s < n && 2 * |reference| <= n
    ensures i < n && At(reference, i) != BackAt(reference, n, s, i)
  {
    hide Around;
    var last := LastNonzero(reference);
    if 2 * s <= n {
      i := last + s;
      ModOnce(i - s, n);
      assert BackAt(reference, n, s, i) == reference[last];
      assert At(reference, i) == 0.0;
    } else {
      i := last;
      ModOnce(i - s, n);
      assert BackAt(reference, n, s, i) == At(reference, last + (n - s)) == 0.0;
    }
  }

  /** The squared difference between the padded reference and its rotation. */
  function Gap(reference: seq<real>, n: int, s: int): int -> real
    requires n > 0
  {
    i => Times(At(reference, i) - BackAt(reference, n, s, i), At(reference, i) - BackAt(reference, n, s, i))
  }

  lemma GapPositive(reference: seq<real>, n: nat, s: nat)
    requires Audible(reference) && 0 < s < n && 2 * |reference| <= n
    ensures Sum(Gap(reference, n, s), 0, n) > 0.0
  {
    hide Times, BackAt, At;
    var gap := Gap(reference, n, s);
    forall k | 0 <= k < n ensures gap(k) >= 0.0 {
      SquarePositive(At(reference, k) - BackAt(reference, n, s, k));
    }
    SumNonnegative(gap, 0, n);
    var i := RotationDiffers(reference, n, s);
    SquarePositive(At(reference, i) - BackAt(reference, n, s, i));
    assert 0.0 < gap(i) <= Sum(gap, 0, n);
  }

  /** No proper rotation of the padded reference matches it as well as itself. */
  lemma AutoMaximal(reference: seq<real>, n: nat, s: nat)
    requires Audible(reference) && 0 < s < n && 2 * |reference| <= n
    ensures Auto(reference, n, s) < Energy(reference, n)
  {
    hide Times, BackAt, At;
    SumSquares(Padded(reference), Back(reference, n, s), Squared(reference), BackSquared(reference, n, s),
               AutoTerm(reference, n, s), Gap(reference, n, s), n);
    RotatedEnergy(reference, n, s);
    GapPositive(reference, n, s);
  }

  lemma RotatedEnergy(reference: seq<real>, n: nat, s: nat)
    requires s < n
    ensures Sum(BackSquared(reference, n, s), 0, n) == Energy(reference, n)
  {
    hide Times, Around, At;
    SumRotate(Squared(reference), BackSquared(reference, n, s), n, s);
  }

  lemma SquarePositive(x: real)
    ensures Times(x, x) >= 0.0
    ensures x != 0.0 ==> Times(x, x) > 0.0
  {
    if x > 0.0 {
      Positive(x, x);
    } else if x < 0.0 {
      Positive(-x, -x);
      SquareOfNegation(x);
    }
  }

  lemma SquareOfNegation(x: real)
    ensures Times(x, x) == Times(-x, -x)
  {
  }

  lemma EnergyPositive(reference: seq<real>, n: nat)
    requires Audible(reference) && |reference| <= n
    ensures Energy(reference, n) > 0.0
  {
    hide Times;
    var f := Squared(reference);
    forall k | 0 <= k < n ensures f(k) >= 0.0 {
      SquarePositive(At(reference, k));
    }
    SumNonnegative(f, 0, n);
    var last := LastNonzero(reference);
    SquarePositive(At(reference, last));
    assert 0.0 < f(last) <= Sum(f, 0, n);
  }

  // ----- Correlation against a delayed copy -----

  /** Inside the padded circle, the recording is the reference moved back by the delay. */
  lemma RecordingIsBack(reference: seq<real>, gain: real, delay: nat, tail: nat, n: nat, m: nat)
    requires m < n && 2 * |reference| + delay + tail <= n
    ensures At(Delayed(reference, gain, delay, tail), m) == Times(gain, BackAt(reference, n, delay, m))
  {
    hide Around;
    ModOnce(m - delay, n);
  }

  /** The rotation that lag index `k` leaves between reference and recording. */
  function Residual(delay: nat, n: nat, k: nat): (s: nat)
    requires delay < n && k < n
    ensures s < n
  {
    if k + delay < n then k + delay else k + delay - n
  }

  lemma IndexArithmetic(i: nat, k: nat, delay: nat, n: nat)
    requires i < n && k < n && delay < n
    ensures Around(Around(i - k, n) - delay, n) == Around(i - Residual(delay, n, k), n)
  {
    hide Around;
    ModOnce(i - k, n);
    var m := Around(i - k, n);
    ModOnce(m - delay, n);
    ModOnce(i - Residual(delay, n, k), n);
  }

  lemma CorrelationOfDelayed(reference: seq<real>, gain: real, delay: nat, tail: nat, n: nat, k: nat)
    requires k < n && delay < n && 2 * |reference| + delay + tail <= n
    ensures CorrelationAt(reference, Delayed(reference, gain, delay, tail), n, k)
            == Times(gain, Auto(reference, n, Residual(delay, n, k)))
  {
    hide Times;
    hide Around;
    var recording := Delayed(reference, gain, delay, tail);
    var s := Residual(delay, n, k);
    forall i | 0 <= i < n
      ensures Term(reference, recording, n, k)(i) == Times(gain, AutoTerm(reference, n, s)(i))
    {
      TermOfDelayed(reference, gain, delay, tail, n, k, i);
    }
    SumScale(Term(reference, recording, n, k), AutoTerm(reference, n, s), gain, 0, n);
  }

  lemma TermOfDelayed(reference: seq<real>, gain: real, delay: nat, tail: nat, n: nat, k: nat, i: nat)
    requires i < n && k < n && delay < n && 2 * |reference| + delay + tail <= n
    ensures Times(At(reference, i), At(Delayed(reference, gain, delay, tail), Around(i - k, n)))
            == Times(gain, Times(At(reference, i), BackAt(reference, n, Residual(delay, n, k), i)))
  {
    hide Around, Times;
    ModOnce(i - k, n);
    RecordingIsBack(reference, gain, delay, tail, n, Around(i - k, n));
    IndexArithmetic(i, k, delay, n);
    TimesOrder(At(reference, i), gain, BackAt(reference, n, Residual(delay, n, k), i));
  }

  lemma TimesOrder(x: real, gain: real, y: real)
    ensures Times(x, Times(gain, y)) == Times(gain, Times(x, y))
  {
  }

  lemma AutoZero(reference: seq<real>, n: nat)
    requires n > 0
    ensures Auto(reference, n, 0) == Energy(reference, n)
  {
    hide Times;
    hide Around;
    forall i | 0 <= i < n ensures AutoTerm(reference, n, 0)(i) == Squared(reference)(i) {
      ModOnce(i, n);
    }
    SumEqual(AutoTerm(reference, n, 0), Squared(reference), 0, n);
  }

  /** Where the peak must be: `delay` places before the end of the circle. */
  function PeakIndex(delay: nat, n: nat): (p: nat)
    requires delay < n
    ensures p < n && Residual(delay, n, p) == 0
    ensures forall k | 0 <= k < n && k != p :: Residual(delay, n, k) != 0
  {
    if delay == 0 then 0 else n - delay
  }

  /** The whole correlation of a delayed copy: a positive peak, strictly above everything else. */
  lemma StrictPeak(reference: seq<real>, gain: real, delay: nat, tail: nat)
    requires Audible(reference) && gain > 0.0
    ensures
      var x := CrossCorrelation(reference, Delayed(reference, gain, delay, tail));
      && 2 * |reference| + delay + tail <= |x|
      && x[PeakIndex(delay, |x|)] > 0.0
      && forall k | 0 <= k < |x| && k != PeakIndex(delay, |x|) :: x[k] < x[PeakIndex(delay, |x|)]
  {
    hide CorrelationAt, Energy, Residual;
    var recording := Delayed(reference, gain, delay, tail);
    var x := CrossCorrelation(reference, recording);
    var n := |x|;
    NextPow2Least(|reference| + |recording|);
    var p := PeakIndex(delay, n);
    PeakPositive(reference, gain, delay, tail, n);
    forall k | 0 <= k < n && k != p ensures x[k] < x[p] {
      PeakDominates(reference, gain, delay, tail, n, k);
    }
  }

  lemma PeakPositive(reference: seq<real>, gain: real, delay: nat, tail: nat, n: nat)
    requires Audible(reference) && gain > 0.0 && 2 * |reference| + delay + tail <= n
    ensures CorrelationAt(reference, Delayed(reference, gain, delay, tail), n, PeakIndex(delay, n))
            == Times(gain, Energy(reference, n)) > 0.0
  {
    hide Times, Auto, Energy, CorrelationAt, Audible;
    assert |reference| > 0 by { SomeSample(reference); }
    CorrelationOfDelayed(reference, gain, delay, tail, n, PeakIndex(delay, n));
    AutoZero(reference, n);
    EnergyPositive(reference, n);
    Positive(gain, Energy(reference, n));
  }

  lemma SomeSample(reference: seq<real>)
    requires Audible(reference)
    ensures |reference| > 0
  {
  }

  lemma PeakDominates(reference: seq<real>, gain: real, delay: nat, tail: nat, n: nat, k: nat)
    requires Audible(reference) && gain > 0.0 && 2 * |reference| + delay + tail <= n
    requires k < n && delay < n && k != PeakIndex(delay, n)
    ensures CorrelationAt(reference, Delayed(reference, gain, delay, tail), n, k)
            < CorrelationAt(reference, Delayed(reference, gain, delay, tail), n, PeakIndex(delay, n))
  {
    hide Times, Auto, Energy, CorrelationAt, Audible;
    var s := Residual(delay, n, k);
    PeakPositive(reference, gain, delay, tail, n);
    CorrelationOfDelayed(reference, gain, delay, tail, n, k);
    AutoMaximal(reference, n, s);
    ScaleStrict(gain, Auto(reference, n, s), Energy(reference, n));
  }

  lemma Positive(a: real, b: real)
    requires a > 0.0 && b > 0.0
    ensures Times(a, b) > 0.0
  {
  }

  lemma ScaleStrict(gain: real, a: real, b: real)
    requires gain > 0.0 && a < b
    ensures Times(gain, a) < Times(gain, b)
  {
  }

  // ----- The estimate -----

  lemma OffsetAtPeak(q: nat, delay: nat, n: nat)
    requires q < n && 2 * delay < n && (n == 1 || n % 2 == 0)
    ensures OffsetOf(q, n) == delay <==> q == PeakIndex(delay, n)
  {
  }

  /**
   Whether the window keeps the delay's index. A negative bound is resolved from the end of the
   array: -1 clears everything, and -m keeps zero lag and the delays from m on.
   */
  predicate InWindow(delay: nat, maxLag: Option<int>) {
    maxLag.None? || if maxLag.value >= 0 then delay <= maxLag.value
                    else delay == 0 || (maxLag.value < -1 && -maxLag.value <= delay)
  }

  /** A strict positive maximum at the delay's index, with a silent place before it. */
  ghost predicate PeakAt(x: seq<real>, delay: nat) {
    && 2 * delay < |x| && (|x| == 1 || |x| % 2 == 0)
    && x[PeakIndex(delay, |x|)] > 0.0
    && (forall k | 0 <= k < |x| && k != PeakIndex(delay, |x|) :: x[k] < x[PeakIndex(delay, |x|)])
    && (delay > 0 ==> exists k | 0 <= k < PeakIndex(delay, |x|) - 1 :: x[k] == 0.0)
  }

  /** A window with room for the peak keeps it; one without clears it and never returns the delay. */
  lemma WindowedPeak(x: seq<real>, delay: nat, maxLag: int)
    requires PeakAt(x, delay)
    ensures OffsetOf(ArgMax(Windowed(x, maxLag)), |x|) == delay <==> InWindow(delay, Some(maxLag))
    ensures InWindow(delay, Some(maxLag)) && (maxLag >= 0 || delay > 0)
            ==> ArgMax(Windowed(x, maxLag)) == PeakIndex(delay, |x|)
  {
    var w := Windowed(x, maxLag);
    var p := PeakIndex(delay, |x|);
    var q := ArgMax(w);
    OffsetAtPeak(q, delay, |x|);
    if InWindow(delay, Some(maxLag)) {
      if maxLag >= 0 || delay > 0 {
        assert w[p] == x[p];
        assert q == p;
      } else {
        ZeroLagKept(x, w, maxLag);
      }
    } else {
      assert w[p] == 0.0;
      var k :| 0 <= k < p - 1 && x[k] == 0.0;
      assert w[k] == 0.0;
    }
  }

  /** With a negative bound the first place of the array is the peak of what is left. */
  lemma ZeroLagKept(x: seq<real>, w: seq<real>, maxLag: int)
    requires PeakAt(x, 0) && maxLag < 0 && w == Windowed(x, maxLag)
    ensures ArgMax(w) == 0
  {
    assert forall i | 0 <= i < |x| :: w[i] == 0.0 || w[i] == x[i];
    if w[0] == 0.0 {
      assert forall i | 0 <= i < |x| :: w[i] == 0.0;
    }
  }

  lemma OffsetBelowHalf(p: nat, n: nat)
    requires p < n && n > 1
    ensures 2 * OffsetOf(p, n) < n
  {
  }

  /** Rotations past the reference's length leave no overlap on either side. */
  lemma AutoSilent(reference: seq<real>, n: nat, s: nat)
    requires |reference| <= s && s + |reference| <= n && n > 0
    ensures Auto(reference, n, s) == 0.0
  {
    hide Around;
    var f := AutoTerm(reference, n, s);
    forall i | 0 <= i < n ensures f(i) == Times(0.0, Padded(reference)(i)) {
      ModOnce(i - s, n);
    }
    SumScale(f, Padded(reference), 0.0, 0, n);
  }

  lemma SilentPlace(reference: seq<real>, gain: real, delay: nat, tail: nat, n: nat) returns (k: nat)
    requires delay > 0 && 2 * delay < n && |reference| > 0 && 2 * |reference| + delay + tail <= n
    ensures k < n - delay - 1 && CorrelationAt(reference, Delayed(reference, gain, delay, tail), n, k) == 0.0
  {
    hide CorrelationAt, Auto;
    k := if delay < |reference| then |reference| - delay else 0;
    CorrelationOfDelayed(reference, gain, delay, tail, n, k);
    AutoSilent(reference, n, Residual(delay, n, k));
  }

  lemma CorrelationHasPeak(reference: seq<real>, gain: real, delay: nat, tail: nat)
    requires Audible(reference) && gain > 0.0
    requires 2 * delay < NextPow2(|reference| + |Delayed(reference, gain, delay, tail)|)
    ensures PeakAt(CrossCorrelation(reference, Delayed(reference, gain, delay, tail)), delay)
  {
    hide CorrelationAt;
    var recording := Delayed(reference, gain, delay, tail);
    var x := CrossCorrelation(reference, recording);
    NextPow2Least(|reference| + |recording|);
    StrictPeak(reference, gain, delay, tail);
    if delay > 0 {
      SomeSample(reference);
      var k := SilentPlace(reference, gain, delay, tail, |x|);
      assert x[k] == 0.0;
    }
  }

  /** The delay comes back exactly when it is under half the transform length and within the window. */
  lemma DelayRecovered(reference: seq<real>, gain: real, delay: nat, tail: nat, maxLag: Option<int>)
    requires Audible(reference) && gain > 0.0
    ensures
      var recording := Delayed(reference, gain, delay, tail);
      FindOffset(reference, recording, maxLag) == Ok(delay)
      <==> 2 * delay < NextPow2(|reference| + |recording|) && InWindow(delay, maxLag)
  {
    hide CorrelationAt, PeakAt, InWindow, Windowed;
    SomeSample(reference);
    var recording := Delayed(reference, gain, delay, tail);
    var x := CrossCorrelation(reference, recording);
    var w := Searched(reference, recording, maxLag);
    NextPow2Least(|reference| + |recording|);
    if 2 * delay < |x| {
      CorrelationHasPeak(reference, gain, delay, tail);
      SearchedPeak(x, delay, maxLag);
    } else {
      OffsetBelowHalf(ArgMax(w), |w|);
    }
  }

  lemma SearchedPeak(x: seq<real>, delay: nat, maxLag: Option<int>)
    requires PeakAt(x, delay)
    ensures
      var w := if maxLag.Some? then Windowed(x, maxLag.value) else x;
      && (OffsetOf(ArgMax(w), |x|) == delay <==> InWindow(delay, maxLag))
      && (InWindow(delay, maxLag) && (maxLag.None? || maxLag.value >= 0) ==> ArgMax(w) == PeakIndex(delay, |x|))
  {
    if maxLag.Some? {
      WindowedPeak(x, delay, maxLag.value);
    } else {
      assert ArgMax(x) == PeakIndex(delay, |x|);
      OffsetAtPeak(ArgMax(x), delay, |x|);
    }
  }

  /** Without a window the estimate is the delay up to half the transform length, and past it aliases. */
  lemma DelayFound(reference: seq<real>, gain: real, delay: nat, tail: nat)
    requires Audible(reference) && gain > 0.0
    ensures
      var recording := Delayed(reference, gain, delay, tail);
      var n := NextPow2(|reference| + |recording|);
      FindOffset(reference, recording) == Ok(if 2 * delay < n then delay else delay - n)
  {
    hide CorrelationAt;
    SomeSample(reference);
    var recording := Delayed(reference, gain, delay, tail);
    var x := CrossCorrelation(reference, recording);
    NextPow2Least(|reference| + |recording|);
    StrictPeak(reference, gain, delay, tail);
    assert ArgMax(x) == PeakIndex(delay, |x|);
  }

  /** A delay of 4 with a transform of 8 comes back as -4. */
  lemma AliasExample()
    ensures FindOffset([1.0], Delayed([1.0], 1.0, 4, 0)) == Ok(-4)
  {
    assert [1.0][0] != 0.0;
    DelayFound([1.0], 1.0, 4, 0);
    assert NextPow2(6) == PowerAtLeast(2, 6) == PowerAtLeast(4, 6) == PowerAtLeast(8, 6) == 8;
  }

  // ----- The refinement on the same signals -----

  lemma AutoSymmetric(reference: seq<real>, n: nat, s: nat)
    requires 0 < s < n
    ensures Auto(reference, n, s) == Auto(reference, n, n - s)
  {
    hide Around, Times, BackAt, Sum;
    var f, g := AutoTerm(reference, n, n - s), AutoTerm(reference, n, s);
    forall i | 0 <= i < n ensures g(i) == f(Around(i - s, n)) {
      NeighbourTerms(reference, n, s, i);
    }
    SumRotate(f, g, n, s);
  }

  lemma NeighbourTerms(reference: seq<real>, n: nat, s: nat, i: nat)
    requires i < n && 0 < s < n
    ensures
      var j := Around(i - s, n);
      Times(At(reference, i), BackAt(reference, n, s, i)) == Times(At(reference, j), BackAt(reference, n, n - s, j))
  {
    hide Around, Times, At;
    var j := Around(i - s, n);
    ModOnce(i - s, n);
    ModOnce(j - (n - s), n);
    TimesCommutes(At(reference, i), At(reference, j));
  }

  lemma TimesCommutes(x: real, y: real)
    ensures Times(x, y) == Times(y, x)
  {
  }

  /** A parabola with one cleared neighbour leans towards the other, beyond the flatness test. */
  predicate LeansRight(after: real, peak: real) {
    after > 0.0 && 2.0 * peak - after >= 0.000000000001
  }

  predicate LeansFrom(before: real, peak: real) {
    before < 0.0 && 2.0 * peak - before >= 0.000000000001
  }

  /** A delay on the edge of the window, where a cleared neighbour pulls the estimate one short. */
  predicate PulledBack(delay: nat, maxLag: Option<int>, near: real, peak: real) {
    && delay > 1 && maxLag.Some?
    && if maxLag.value >= 0 then maxLag.value == delay && LeansRight(near, peak)
       else maxLag.value + delay == 0 && LeansFrom(near, peak)
  }

  /**
   A delay just outside the window of a negative bound: when the largest value left stands one
   place further out, its cleared neighbour can pull the estimate back onto the delay.
   */
  predicate PulledOnto(delay: nat, maxLag: Option<int>, q: nat, n: nat, far: real, near: real) {
    delay > 0 && maxLag.Some? && maxLag.value + delay + 1 == 0 && q + delay + 1 == n && LeansFrom(far, near)
  }

  /** The reference, scaled and moved by s samples, correlated with itself. */
  function Moved(reference: seq<real>, gain: real, n: nat, s: nat): real {
    if n > 0 then Times(gain, Auto(reference, n, s)) else 0.0
  }

  /** What the refined estimate is right for, on any signals delayed so. */
  ghost predicate Refinable(reference: seq<real>, gain: real, delay: nat, tail: nat, maxLag: Option<int>) {
    var recording := Delayed(reference, gain, delay, tail);
    var n := NextPow2(|reference| + |recording|);
    var near := Moved(reference, gain, n, 1);
    && 2 * delay < n
    && if InWindow(delay, maxLag) then !PulledBack(delay, maxLag, near, Times(gain, Energy(reference, n)))
       else PulledOnto(delay, maxLag, ArgMax(Searched(reference, recording, maxLag)), n,
                       Moved(reference, gain, n, 2), near)
  }

  /**
   The refined estimate is the delay exactly when the integer one is, except next to the edge of
   the window. There one neighbour is cleared: a delay on the edge then comes out one short when
   the reference, moved by one sample, correlates with itself with the wrong sign, and a negative
   bound can make a delay just outside come out right.
   */
  lemma SubSampleRecovered(reference: seq<real>, gain: real, delay: nat, tail: nat, maxLag: Option<int>)
    requires Audible(reference) && gain > 0.0
    ensures
      var recording := Delayed(reference, gain, delay, tail);
      var n := NextPow2(|reference| + |recording|);
      var fine := FindOffsetSubSample(reference, recording, maxLag);
      && (fine == delay <==> Refinable(reference, gain, delay, tail, maxLag))
      && (2 * delay < n && InWindow(delay, maxLag) && fine != delay ==> fine == delay - 1)
  {
    hide CorrelationAt, PeakAt, InWindow, Windowed, Refine, PulledBack, PulledOnto, Auto, Energy, Times;
    SomeSample(reference);
    var recording := Delayed(reference, gain, delay, tail);
    var x := CrossCorrelation(reference, recording);
    var w := Searched(reference, recording, maxLag);
    NextPow2Least(|reference| + |recording|);
    if 2 * delay < |x| {
      CorrelationHasPeak(reference, gain, delay, tail);
      PeakPositive(reference, gain, delay, tail, |x|);
      if delay > 0 {
        Neighbours(reference, gain, delay, tail, |x|, x);
      }
      RefinedPeak(x, w, delay, maxLag, Moved(reference, gain, |x|, 1), Moved(reference, gain, |x|, 2));
    } else {
      RefinedBelowHalf(w, ArgMax(w));
    }
  }

  lemma RefinedBelowHalf(w: seq<real>, q: nat)
    requires IsPeak(w, q) && |w| > 1 && |w| % 2 == 0
    ensures 2 * Refine(w, q) < |w|
  {
    hide Correction, Refine;
    RefineExact(w, q);
  }

  /** The places beside the peak, as far as the array goes. */
  ghost predicate Beside(x: seq<real>, delay: nat, near: real, far: real) {
    && (0 < delay < |x| - 1 ==> x[|x| - delay - 1] == near)
    && (1 < delay < |x| ==> x[|x| - delay + 1] == near)
    && (0 < delay < |x| - 2 ==> x[|x| - delay - 2] == far)
  }

  lemma RefinedPeak(x: seq<real>, w: seq<real>, delay: nat, maxLag: Option<int>, near: real, far: real)
    requires PeakAt(x, delay) && Beside(x, delay, near, far)
    requires w == if maxLag.Some? then Windowed(x, maxLag.value) else x
    ensures
      var pulled := PulledBack(delay, maxLag, near, x[PeakIndex(delay, |x|)]);
      var fine := Refine(w, ArgMax(w));
      && (fine == delay
          <==> if InWindow(delay, maxLag) then !pulled else PulledOnto(delay, maxLag, ArgMax(w), |x|, far, near))
      && (InWindow(delay, maxLag) && pulled ==> fine == delay - 1)
  {
    hide Correction, Refine, LeansRight, LeansFrom;
    var q := ArgMax(w);
    SearchedPeak(x, delay, maxLag);
    OffsetAtPeak(q, delay, |x|);
    RefineExact(w, q);
    if InWindow(delay, maxLag) {
      if delay > 1 {
        EdgeCorrection(x, w, delay, maxLag, near);
      }
    } else if maxLag.value >= 0 {
      NotNextToDelay(x, w, delay, maxLag.value);
    } else {
      NextOutside(x, w, delay, maxLag.value, near, far);
    }
  }

  /** A peak inside the window has balanced neighbours; one on its edge has lost one of them. */
  lemma EdgeCorrection(x: seq<real>, w: seq<real>, delay: nat, maxLag: Option<int>, near: real)
    requires PeakAt(x, delay) && delay > 1 && InWindow(delay, maxLag)
    requires x[|x| - delay - 1] == x[|x| - delay + 1] == near
    requires w == if maxLag.Some? then Windowed(x, maxLag.value) else x
    ensures
      var p := PeakIndex(delay, |x|);
      var delta := Correction(w, p);
      delta > 0.0 <==> PulledBack(delay, maxLag, near, x[p])
  {
    hide Parabolic, LeansRight, LeansFrom;
    var p := PeakIndex(delay, |x|);
    assert w[p] == x[p];
    if maxLag == Some(delay) {
      assert w[p - 1] == 0.0 && w[p + 1] == near;
      LeaningCorrection(near, w[p]);
    } else if maxLag.Some? && maxLag.value + delay == 0 {
      assert w[p - 1] == near && w[p + 1] == 0.0;
      LeaningFromCorrection(near, w[p]);
    } else {
      assert w[p - 1] == w[p + 1] == near;
      BalancedCorrection(near, w[p]);
    }
  }

  /** With a negative bound everything from the peak inwards is cleared, up to zero lag. */
  lemma NextOutside(x: seq<real>, w: seq<real>, delay: nat, maxLag: int, near: real, far: real)
    requires PeakAt(x, delay) && Beside(x, delay, near, far)
    requires maxLag < 0 && !InWindow(delay, Some(maxLag)) && w == Windowed(x, maxLag)
    ensures
      var q, n := ArgMax(w), |x|;
      && (q == n - delay - 1 ==>
            && 0 < q < n - 1
            && (Correction(w, q) > 0.0 <==> PulledOnto(delay, Some(maxLag), q, n, far, near)))
  {
    hide Parabolic, LeansFrom;
    var q, n := ArgMax(w), |x|;
    var k :| 0 <= k < PeakIndex(delay, n) - 1 && x[k] == 0.0;
    assert w[k] == 0.0;
    if q == n - delay - 1 {
      assert w[q + 1] == 0.0;
      if maxLag + delay + 1 == 0 {
        assert w[q] == near && w[q - 1] == far;
        LeaningFromCorrection(far, near);
      }
    }
  }

  lemma LeaningCorrection(near: real, peak: real)
    requires near < peak && peak > 0.0
    ensures Parabolic(0.0, peak, near) > 0.0 <==> LeansRight(near, peak)
  {
    var denominator := 0.0 - 2.0 * peak + near;
    assert denominator < 0.0;
    if denominator <= -0.000000000001 {
      QuotientSign(0.5 * near, -denominator);
      assert 0.5 * (0.0 - near) / denominator == 0.5 * near / -denominator;
    }
  }

  lemma LeaningFromCorrection(before: real, peak: real)
    requires before <= peak && peak >= 0.0
    ensures Parabolic(before, peak, 0.0) > 0.0 <==> LeansFrom(before, peak)
  {
    var denominator := before - 2.0 * peak + 0.0;
    if denominator <= -0.000000000001 {
      QuotientSign(-0.5 * before, -denominator);
      assert 0.5 * (before - 0.0) / denominator == -0.5 * before / -denominator;
    }
  }

  lemma QuotientSign(a: real, b: real)
    requires b > 0.0
    ensures a / b > 0.0 <==> a > 0.0
  {
    var q := a / b;
    assert q * b == a;
    PositiveFactor(q, b);
  }

  lemma PositiveFactor(q: real, b: real)
    requires b > 0.0
    ensures q * b > 0.0 <==> q > 0.0
  {
  }

  /** When the window clears the peak, what is left peaks neither at the middle nor one place further out. */
  lemma NotNextToDelay(x: seq<real>, w: seq<real>, delay: nat, maxLag: nat)
    requires PeakAt(x, delay) && delay > maxLag && w == Windowed(x, maxLag)
    ensures ArgMax(w) != |x| / 2 && ArgMax(w) != |x| - delay - 1
  {
    assert w[maxLag + 1] == 0.0 && w[|x| / 2] == 0.0 && w[|x| - delay - 1] == 0.0 && w[maxLag] == x[maxLag];
  }

  /** On both sides of the peak stands the reference's correlation with itself some samples away. */
  lemma Neighbours(reference: seq<real>, gain: real, delay: nat, tail: nat, n: nat, x: seq<real>)
    requires 0 < delay < n && |x| == n && 2 * |reference| + delay + tail <= n
    requires forall k | 0 <= k < n :: x[k] == CorrelationAt(reference, Delayed(reference, gain, delay, tail), n, k)
    ensures Beside(x, delay, Moved(reference, gain, n, 1), Moved(reference, gain, n, 2))
  {
    hide CorrelationAt, Auto, Times;
    CorrelationOfDelayed(reference, gain, delay, tail, n, n - delay - 1);
    AutoSymmetric(reference, n, 1);
    if delay > 1 {
      CorrelationOfDelayed(reference, gain, delay, tail, n, n - delay + 1);
    }
    if delay < n - 1 {
      CorrelationOfDelayed(reference, gain, delay, tail, n, n - delay - 2);
      AutoSymmetric(reference, n, 2);
    }
  }

  lemma BalancedCorrection(side: real, peak: real)
    ensures Parabolic(side, peak, side) == 0.0
  {
  }
}
