/**
 Offset estimation on the other side of zero: the reference carries the signal later than the
 recording does, as when a phone started late. The correlation then peaks among the positive lags,
 and the estimate is the negated distance, up to half the transform length and inside the window.
 */
module EarlyRecovery {
  import opened Options
  import opened Sums
  import opened Correlation
  import opened DelayRecovery

  /** The signal after `d` silent samples. */
  function Shifted(s: seq<real>, d: nat): (r: seq<real>)
    ensures |r| == d + |s|
  {
    Silence(d) + s
  }

  /** A scaled copy of the signal, then `tail` silent samples. */
  function Prompt(s: seq<real>, gain: real, tail: nat): (r: seq<real>)
    ensures |r| == |s| + tail
  {
    Scaled(gain, s) + Silence(tail)
  }

  /** The rotation that lag index `k` leaves between the two. */
  function Turn(d: nat, n: nat, k: nat): (r: nat)
    requires d < n && k < n
    ensures r < n && (r == 0 <==> k == d) && Residual(r, n, d) == k
  {
    if k >= d then k - d else k - d + n
  }

  lemma ShiftedIsBack(s: seq<real>, d: nat, n: nat, i: nat)
    requires i < n && d < n && d + |s| <= n
    ensures At(Shifted(s, d), i) == BackAt(s, n, d, i)
  {
    hide Around;
    ModOnce(i - d, n);
  }

  lemma PromptAt(s: seq<real>, gain: real, tail: nat, m: int)
    ensures At(Prompt(s, gain, tail), m) == Times(gain, At(s, m))
  {
  }

  lemma TermOfShifted(s: seq<real>, gain: real, d: nat, tail: nat, n: nat, k: nat, i: nat)
    requires i < n && k < n && d < n && d + |s| <= n
    ensures Term(Shifted(s, d), Prompt(s, gain, tail), n, k)(i)
            == Times(gain, AutoTerm(s, n, Turn(d, n, k))(Around(i - d, n)))
  {
    hide Around, Times, At, Shifted, Prompt;
    var r := Turn(d, n, k);
    ShiftedIsBack(s, d, n, i);
    PromptAt(s, gain, tail, Around(i - k, n));
    IndexArithmetic(i, d, r, n);
    TimesOrder(At(s, Around(i - d, n)), gain, At(s, Around(i - k, n)));
  }

  /** The correlation at each lag is the signal's own at the rotation left over. */
  lemma CorrelationOfShifted(s: seq<real>, gain: real, d: nat, tail: nat, n: nat, k: nat)
    requires k < n && d < n && d + |s| <= n
    ensures CorrelationAt(Shifted(s, d), Prompt(s, gain, tail), n, k) == Times(gain, Auto(s, n, Turn(d, n, k)))
  {
    hide Around, Times, Term, Turn;
    var h := AutoTerm(s, n, Turn(d, n, k));
    var turned := i => h(Around(i - d, n));
    forall i | 0 <= i < n ensures Term(Shifted(s, d), Prompt(s, gain, tail), n, k)(i) == Times(gain, turned(i)) {
      TermOfShifted(s, gain, d, tail, n, k, i);
    }
    SumScale(Term(Shifted(s, d), Prompt(s, gain, tail), n, k), turned, gain, 0, n);
    SumRotate(h, turned, n, d);
  }

  /** One strict positive maximum, `d` places into the array. */
  ghost predicate PeaksAt(x: seq<real>, d: nat) {
    && d < |x| && |x| % 2 == 0 && x[d] > 0.0
    && forall k | 0 <= k < |x| && k != d :: x[k] < x[d]
  }

  lemma StrictEarlyPeak(s: seq<real>, gain: real, d: nat, tail: nat)
    requires Audible(s) && gain > 0.0
    ensures PeaksAt(CrossCorrelation(Shifted(s, d), Prompt(s, gain, tail)), d)
  {
    hide CorrelationAt, Auto, Energy, Times, Turn;
    SomeSample(s);
    var x := CrossCorrelation(Shifted(s, d), Prompt(s, gain, tail));
    var n := |x|;
    NextPow2Least(d + 2 * |s| + tail);
    CorrelationOfShifted(s, gain, d, tail, n, d);
    AutoZero(s, n);
    EnergyPositive(s, n);
    Positive(gain, Energy(s, n));
    forall k | 0 <= k < n && k != d ensures x[k] < x[d] {
      CorrelationOfShifted(s, gain, d, tail, n, k);
      AutoMaximal(s, n, Turn(d, n, k));
      ScaleStrict(gain, Auto(s, n, Turn(d, n, k)), Energy(s, n));
    }
  }

  /** Without a window: the negated distance up to half the transform length, past it an alias. */
  lemma EarlyFound(s: seq<real>, gain: real, d: nat, tail: nat)
    requires Audible(s) && gain > 0.0
    ensures
      var n := NextPow2(d + 2 * |s| + tail);
      FindOffset(Shifted(s, d), Prompt(s, gain, tail)) == Ok(if 2 * d <= n then -(d as int) else n - d)
  {
    hide CorrelationAt;
    SomeSample(s);
    StrictEarlyPeak(s, gain, d, tail);
    var x := CrossCorrelation(Shifted(s, d), Prompt(s, gain, tail));
    assert ArgMax(x) == d;
  }

  // ----- Under a window -----

  /** Whether the window keeps the positive lag `d`; a negative bound counts from the end of the array. */
  predicate KeepsLag(maxLag: Option<int>, d: nat, n: nat) {
    maxLag.None? || if maxLag.value >= 0 then d <= maxLag.value
                    else d == 0 || (maxLag.value < -1 && d - maxLag.value <= n)
  }

  /** Whether `d` is the first lag the window clears. */
  predicate FirstCleared(maxLag: Option<int>, d: nat, n: nat) {
    && maxLag.Some? && d > 0
    && if maxLag.value >= 0 then d == maxLag.value + 1 else maxLag.value < -1 && d - maxLag.value == n + 1
  }

  /** Whether a kept entry comes before or above the cleared ones. */
  ghost predicate SomethingStands(x: seq<real>, maxLag: int, d: nat) {
    if maxLag >= 0 then SomeLagStands(x, maxLag) else exists k | 0 <= k < d && k < |x| :: x[k] >= 0.0
  }

  lemma EarlyPeakSearched(x: seq<real>, d: nat, maxLag: int)
    requires PeaksAt(x, d) && 2 * d <= |x|
    ensures ArgMax(Windowed(x, maxLag)) == d
            <==> KeepsLag(Some(maxLag), d, |x|)
                 || (FirstCleared(Some(maxLag), d, |x|) && !SomethingStands(x, maxLag, d))
  {
    if maxLag >= 0 {
      BoundedPeak(x, d, maxLag);
    } else {
      NegativeBoundPeak(x, d, maxLag);
    }
  }

  lemma BoundedPeak(x: seq<real>, d: nat, maxLag: nat)
    requires PeaksAt(x, d) && 2 * d <= |x|
    ensures ArgMax(Windowed(x, maxLag)) == d <==> d <= maxLag || (d == maxLag + 1 && !SomeLagStands(x, maxLag))
  {
    var w := Windowed(x, maxLag);
    WindowedByLag(x, maxLag);
    if d <= maxLag {
      assert w[d] == x[d];
    } else {
      PeakInWindow(x, maxLag);
    }
  }

  lemma NegativeBoundPeak(x: seq<real>, d: nat, maxLag: int)
    requires PeaksAt(x, d) && 2 * d <= |x| && maxLag < 0
    ensures ArgMax(Windowed(x, maxLag)) == d
            <==> KeepsLag(Some(maxLag), d, |x|)
                 || (FirstCleared(Some(maxLag), d, |x|) && !SomethingStands(x, maxLag, d))
  {
    var w := Windowed(x, maxLag);
    var lo := SliceBound(maxLag + 1, |x|);
    if maxLag == -1 {
      assert w[0] == 0.0 && forall i | 0 <= i < |x| :: w[i] == 0.0;
    } else if d < lo {
      assert w[d] == x[d];
    } else {
      assert w[lo] == 0.0 == w[d];
      assert forall i | lo <= i < |x| :: w[i] == 0.0;
      assert forall i | 0 <= i < lo :: w[i] == x[i];
    }
  }

  /**
   The offset is the negated distance exactly when the distance is at most half the transform
   length and the window keeps its lag, or its lag is the first one cleared and nothing kept is
   good enough to be preferred to the zero put there.
   */
  lemma EarlyRecovered(s: seq<real>, gain: real, d: nat, tail: nat, maxLag: Option<int>)
    requires Audible(s) && gain > 0.0
    ensures
      var x := CrossCorrelation(Shifted(s, d), Prompt(s, gain, tail));
      FindOffset(Shifted(s, d), Prompt(s, gain, tail), maxLag) == Ok(-(d as int))
      <==> 2 * d <= |x|
           && (KeepsLag(maxLag, d, |x|) || (FirstCleared(maxLag, d, |x|) && !SomethingStands(x, maxLag.value, d)))
  {
    hide CorrelationAt, KeepsLag, FirstCleared, SomethingStands, PeaksAt, Windowed;
    SomeSample(s);
    StrictEarlyPeak(s, gain, d, tail);
    var x := CrossCorrelation(Shifted(s, d), Prompt(s, gain, tail));
    PeakFacts(x, d);
    var p := ArgMax(Searched(Shifted(s, d), Prompt(s, gain, tail), maxLag));
    OffsetIsDistance(p, d, |x|);
    if maxLag.None? {
      Unwindowed(d, |x|);
    } else if 2 * d <= |x| {
      EarlyPeakSearched(x, d, maxLag.value);
    }
  }

  lemma PeakFacts(x: seq<real>, d: nat)
    requires PeaksAt(x, d)
    ensures |x| > 0 && |x| % 2 == 0 && ArgMax(x) == d
  {
  }

  lemma Unwindowed(d: nat, n: nat)
    ensures KeepsLag(None, d, n)
  {
  }

  lemma OffsetIsDistance(p: nat, d: nat, n: nat)
    requires p < n && n % 2 == 0 && d <= n
    ensures OffsetOf(p, n) + d == 0 <==> p == d && 2 * d <= n
  {
  }
}
