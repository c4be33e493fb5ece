/** Equity-curve metrics kept one sample at a time, without the history. */
module Drawdown {
  import opened Common

  datatype Status = Fresh | Stale | Unavailable

  datatype Sample = Sample(timestampMs: int, status: Status, equity: Option<real>)

  datatype Metrics = Metrics(
    sampleCount: nat, availableCount: nat, staleCount: nat, unavailableCount: nat,
    peak: Option<real>, maxDrawdown: Option<real>, maxFraction: Option<real>,
    firstTimestampMs: Option<int>, lastTimestampMs: Option<int>, finalSample: Option<Sample>)

  const EMPTY := Metrics(0, 0, 0, 0, None, None, None, None, None, None)

  function Raised(current: Option<real>, candidate: real): real {
    if current.None? || candidate > current.value then candidate else current.value
  }

  function AfterDrawdown(m: Metrics, equity: Option<real>): (Option<real>, Option<real>, Option<real>) {
    if equity.None? then (m.peak, m.maxDrawdown, m.maxFraction)
    else
      var peak := Raised(m.peak, equity.value);
      var drawdown := if peak - equity.value < 0.0 then 0.0 else peak - equity.value;
      var fraction := if peak > 0.0 then Some(Raised(m.maxFraction, drawdown / peak)) else m.maxFraction;
      (Some(peak), Some(Raised(m.maxDrawdown, drawdown)), fraction)
  }

  function AfterSample(m: Metrics, s: Sample): Metrics {
    var (peak, drawdown, fraction) := AfterDrawdown(m, s.equity);
    Metrics(
      m.sampleCount + 1,
      m.availableCount + if s.equity.Some? then 1 else 0,
      m.staleCount + if s.status.Stale? then 1 else 0,
      m.unavailableCount + if s.status.Unavailable? then 1 else 0,
      peak, drawdown, fraction,
      if m.firstTimestampMs.None? then Some(s.timestampMs) else m.firstTimestampMs,
      Some(s.timestampMs), Some(s))
  }

  function HistoryStatus(m: Metrics): Status {
    if m.unavailableCount > 0 then Unavailable else if m.staleCount > 0 then Stale else Fresh
  }

  function Run(samples: seq<Sample>): Metrics {
    if samples == [] then EMPTY else AfterSample(Run(samples[..|samples| - 1]), samples[|samples| - 1])
  }

  /** The available equities of a history, in order. */
  function Equities(samples: seq<Sample>): seq<real> {
    if samples == [] then []
    else
      var last := samples[|samples| - 1];
      Equities(samples[..|samples| - 1]) + if last.equity.Some? then [last.equity.value] else []
  }

  // ---------- what the online values mean ----------

  ghost predicate IsPeak(es: seq<real>, peak: Option<real>) {
    if es == [] then peak.None?
    else peak.Some? && peak.value in es && forall i | 0 <= i < |es| :: es[i] <= peak.value
  }

  /** The largest fall between any sample and a later (or the same) one. */
  ghost predicate IsMaxDrop(es: seq<real>, drop: Option<real>) {
    if es == [] then drop.None?
    else
      && drop.Some?
      && (forall i, j | 0 <= i <= j < |es| :: es[i] - es[j] <= drop.value)
      && (exists i, j :: 0 <= i <= j < |es| && es[i] - es[j] == drop.value)
  }

  function Fraction(high: real, low: real): real
    requires high > 0.0
  {
    (high - low) / high
  }

  ghost predicate HasPositive(es: seq<real>) {
    exists i :: 0 <= i < |es| && es[i] > 0.0
  }

  /** The largest relative fall from a positive sample to a later (or the same) one. */
  ghost predicate IsMaxRelativeDrop(es: seq<real>, fraction: Option<real>) {
    if !HasPositive(es) then fraction.None?
    else
      && fraction.Some?
      && (forall i, j | 0 <= i <= j < |es| && es[i] > 0.0 :: Fraction(es[i], es[j]) <= fraction.value)
      && (exists i, j :: 0 <= i <= j < |es| && es[i] > 0.0 && Fraction(es[i], es[j]) == fraction.value)
  }

  /** Sample `p` is the running peak at sample `k`. */
  predicate IsHighest(es: seq<real>, p: int, k: int) {
    0 <= p <= k < |es| && forall i | 0 <= i <= k :: es[i] <= es[p]
  }

  /** The largest relative fall from the running peak of the moment. */
  ghost predicate IsMaxFallFromPeak(es: seq<real>, fraction: Option<real>) {
    if !HasPositive(es) then fraction.None?
    else
      && fraction.Some?
      && (forall p, k | IsHighest(es, p, k) && es[p] > 0.0 :: Fraction(es[p], es[k]) <= fraction.value)
      && (exists p, k :: IsHighest(es, p, k) && es[p] > 0.0 && Fraction(es[p], es[k]) == fraction.value)
  }

  /** Sample `s` is the smallest positive one before sample `j`. */
  predicate IsLowestPositive(es: seq<real>, s: int, j: int) {
    0 <= s < j < |es| && es[s] > 0.0 && forall i | 0 <= i < j && es[i] > 0.0 :: es[s] <= es[i]
  }

  /** Every negative sample, measured from the smallest positive one before it, falls no deeper than
      some sample falls from its running peak. */
  ghost predicate NegativesOutfallen(es: seq<real>) {
    forall s, j | IsLowestPositive(es, s, j) && es[j] < 0.0 :: Outfallen(es, Fraction(es[s], es[j]))
  }

  ghost predicate Outfallen(es: seq<real>, fall: real) {
    exists p, k :: IsHighest(es, p, k) && es[p] > 0.0 && Fraction(es[p], es[k]) >= fall
  }

  /** No sample is negative once an earlier one was positive. */
  ghost predicate NeverBelowZero(es: seq<real>) {
    forall i, j | 0 <= i < j < |es| && es[i] > 0.0 :: es[j] >= 0.0
  }

  // ---------- proofs, one sample at a time ----------

  lemma {:induction false} StepPeak(es: seq<real>, m: Metrics, e: real)
    requires IsPeak(es, m.peak)
    ensures IsPeak(es + [e], AfterDrawdown(m, Some(e)).0)
  {
    assert (es + [e])[|es|] == e;
    if es != [] {
      var i :| 0 <= i < |es| && es[i] == m.peak.value;
      assert (es + [e])[i] == es[i];
    }
  }

  lemma {:induction false} StepMaxDrop(es: seq<real>, m: Metrics, e: real)
    requires IsPeak(es, m.peak) && IsMaxDrop(es, m.maxDrawdown)
    ensures IsMaxDrop(es + [e], AfterDrawdown(m, Some(e)).1)
  {
    var all, n := es + [e], |es|;
    var (peak, drop, _) := AfterDrawdown(m, Some(e));
    StepPeak(es, m, e);
    var at :| 0 <= at < |all| && all[at] == peak.value;
    assert all[n] == e;
    forall i, j | 0 <= i <= j < |all| ensures all[i] - all[j] <= drop.value {
      if j < n { assert es[i] - es[j] <= m.maxDrawdown.value; }
    }
    if drop.value == peak.value - e {
      assert 0 <= at <= n < |all| && all[at] - all[n] == drop.value;
    } else {
      var i, j :| 0 <= i <= j < |es| && es[i] - es[j] == m.maxDrawdown.value;
      assert all[i] - all[j] == drop.value;
    }
  }

  lemma {:induction false} FractionOrder(high: real, peak: real, low: real)
    requires 0.0 < high <= peak && low >= 0.0
    ensures Fraction(high, low) <= Fraction(peak, low)
  {
    SmallerShare(high, peak, low);
    FractionIsComplement(high, low);
    FractionIsComplement(peak, low);
  }

  lemma {:induction false} FractionIsComplement(high: real, low: real)
    requires high > 0.0
    ensures Fraction(high, low) == 1.0 - low / high
  {
    var f, share := Fraction(high, low), low / high;
    assert f * high == high - low && share * high == low;
    var gap := f - (1.0 - share);
    assert gap * high == 0.0;
    ProductSign(gap, high);
    ProductSign(-gap, high);
    assert (-gap) * high == -(gap * high);
  }

  lemma {:induction false} SmallerShare(high: real, peak: real, low: real)
    requires 0.0 < high <= peak && low >= 0.0
    ensures low / peak <= low / high
  {
    var a, b := low / high, low / peak;
    if a < b {
      ProductSign(b - a, high);
      ProductSign(b, peak - high);
      Expanded(a, b, high, peak);
      assert false;
    }
  }

  lemma {:induction false} Expanded(a: real, b: real, high: real, peak: real)
    ensures (b - a) * high == b * high - a * high && b * (peak - high) == b * peak - b * high
  {
  }

  lemma {:induction false} ProductSign(x: real, y: real)
    ensures x > 0.0 && y > 0.0 ==> x * y > 0.0
    ensures x >= 0.0 && y >= 0.0 ==> x * y >= 0.0
    ensures x < 0.0 && y > 0.0 ==> x * y < 0.0
  {
  }

  lemma {:induction false} FractionRange(high: real, low: real)
    requires 0.0 < high
    ensures low <= high ==> Fraction(high, low) >= 0.0
    ensures Fraction(high, low) <= 1.0 <==> low >= 0.0
  {
    var f := Fraction(high, low);
    assert f * high == high - low;
    ProductSign(f, high);
    ProductSign(f - 1.0, high);
    ProductSign(1.0 - f, high);
    assert (f - 1.0) * high == f * high - high && (1.0 - f) * high == high - f * high;
  }

  lemma {:induction false} PositivePeak(es: seq<real>, peak: Option<real>)
    requires IsPeak(es, peak)
    ensures HasPositive(es) <==> peak.Some? && peak.value > 0.0
  {
    if es != [] && peak.value > 0.0 {
      var i :| 0 <= i < |es| && es[i] == peak.value;
    }
  }

  lemma {:induction false} HighestInPrefix(es: seq<real>, e: real, p: nat, k: nat)
    requires k < |es|
    ensures IsHighest(es + [e], p, k) <==> IsHighest(es, p, k)
  {
    var all := es + [e];
    assert forall i | 0 <= i <= k :: all[i] == es[i];
    if IsHighest(all, p, k) {
      forall i | 0 <= i <= k ensures es[i] <= es[p] {
        assert all[i] <= all[p];
      }
    }
  }

  lemma {:induction false} PeakIsHighest(es: seq<real>, peak: real)
    requires es != [] && IsPeak(es, Some(peak))
    ensures exists p :: IsHighest(es, p, |es| - 1) && es[p] == peak
  {
    var p :| 0 <= p < |es| && es[p] == peak;
    assert IsHighest(es, p, |es| - 1);
  }

  lemma {:induction false} StepFallFromPeak(es: seq<real>, m: Metrics, e: real)
    requires IsPeak(es, m.peak) && IsMaxFallFromPeak(es, m.maxFraction)
    ensures IsMaxFallFromPeak(es + [e], AfterDrawdown(m, Some(e)).2)
  {
    var all := es + [e];
    var (peak, _, fraction) := AfterDrawdown(m, Some(e));
    StepPeak(es, m, e);
    PositivePeak(es, m.peak);
    PositivePeak(all, peak);
    if peak.value > 0.0 {
      forall p, k | IsHighest(all, p, k) && all[p] > 0.0 ensures Fraction(all[p], all[k]) <= fraction.value {
        StepFallIsBelow(es, m, e, p, k);
      }
      var p, k := StepFallIsReached(es, m, e);
    }
  }

  lemma {:induction false} FractionOnlyRises(m: Metrics, e: real)
    requires m.maxFraction.Some? ==> m.peak.Some? && m.peak.value > 0.0
    requires AfterDrawdown(m, Some(e)).0.value > 0.0
    ensures var f := AfterDrawdown(m, Some(e)).2;
            && f.Some? && f.value >= Fraction(AfterDrawdown(m, Some(e)).0.value, e)
            && (m.maxFraction.Some? ==> f.value >= m.maxFraction.value)
  {
  }

  lemma {:induction false} StepFallIsBelow(es: seq<real>, m: Metrics, e: real, p: int, k: int)
    requires IsPeak(es, m.peak) && IsMaxFallFromPeak(es, m.maxFraction) && AfterDrawdown(m, Some(e)).0.value > 0.0
    requires IsHighest(es + [e], p, k) && (es + [e])[p] > 0.0
    ensures var f := AfterDrawdown(m, Some(e)).2; f.Some? && Fraction((es + [e])[p], (es + [e])[k]) <= f.value
  {
    var all := es + [e];
    var peak := AfterDrawdown(m, Some(e)).0.value;
    PositivePeak(es, m.peak);
    FractionOnlyRises(m, e);
    if k < |es| {
      HighestInPrefix(es, e, p, k);
      assert all[p] == es[p] && all[k] == es[k] && HasPositive(es);
    } else {
      StepPeak(es, m, e);
      PeakIsHighest(all, peak);
      assert all[p] == peak && all[k] == e;
    }
  }

  lemma {:induction false} StepFallIsReached(es: seq<real>, m: Metrics, e: real) returns (p: int, k: int)
    requires IsPeak(es, m.peak) && IsMaxFallFromPeak(es, m.maxFraction) && AfterDrawdown(m, Some(e)).0.value > 0.0
    ensures IsHighest(es + [e], p, k) && (es + [e])[p] > 0.0
    ensures Some(Fraction((es + [e])[p], (es + [e])[k])) == AfterDrawdown(m, Some(e)).2
  {
    var all := es + [e];
    var (peak, _, fraction) := AfterDrawdown(m, Some(e));
    StepPeak(es, m, e);
    PositivePeak(es, m.peak);
    if fraction.value == Fraction(peak.value, e) {
      PeakIsHighest(all, peak.value);
      k := |es|;
      p :| IsHighest(all, p, k) && all[p] == peak.value;
    } else {
      assert m.maxFraction.Some? && fraction == m.maxFraction;
      p, k :| IsHighest(es, p, k) && es[p] > 0.0 && Fraction(es[p], es[k]) == m.maxFraction.value;
      HighestInPrefix(es, e, p, k);
    }
  }

  // ---------- when the fall from the peak is the largest fall ----------

  lemma {:induction false} HighestExists(es: seq<real>, k: nat) returns (p: nat)
    requires k < |es|
    ensures IsHighest(es, p, k)
  {
    if k == 0 {
      p := 0;
    } else {
      p := HighestExists(es, k - 1);
      if es[p] < es[k] { p := k; }
    }
  }

  ghost predicate PositiveBefore(es: seq<real>, n: nat)
    requires n <= |es|
  {
    exists i :: 0 <= i < n && es[i] > 0.0
  }

  lemma {:induction false} LowestPositiveExists(es: seq<real>, n: nat) returns (s: nat)
    requires n <= |es| && PositiveBefore(es, n)
    ensures s < n && es[s] > 0.0 && forall i | 0 <= i < n && es[i] > 0.0 :: es[s] <= es[i]
  {
    if PositiveBefore(es, n - 1) {
      s := LowestPositiveExists(es, n - 1);
      if 0.0 < es[n - 1] < es[s] { s := n - 1; }
    } else {
      s := n - 1;
    }
  }

  /** Below zero the relative fall is the deeper the smaller the sample it is measured from. */
  lemma {:induction false} DeeperFromLower(lower: real, high: real, low: real)
    requires 0.0 < lower <= high && low < 0.0
    ensures Fraction(high, low) <= Fraction(lower, low)
  {
    SmallerShare(lower, high, -low);
    FractionIsComplement(high, low);
    FractionIsComplement(lower, low);
    NegatedShare(low, high);
    NegatedShare(low, lower);
  }

  lemma {:induction false} NegatedShare(x: real, y: real)
    requires y > 0.0
    ensures (-x) / y == -(x / y)
  {
    var a, b := (-x) / y, x / y;
    assert a * y == -x && b * y == x;
    ProductSign(a + b, y);
    ProductSign(-(a + b), y);
    assert (a + b) * y == a * y + b * y && (-(a + b)) * y == -(a * y + b * y);
  }

  lemma {:induction false} OutfallenIsBelow(es: seq<real>, fraction: real, fall: real)
    requires IsMaxFallFromPeak(es, Some(fraction))
    ensures Outfallen(es, fall) <==> fall <= fraction
  {
    if Outfallen(es, fall) {
      var p, k :| IsHighest(es, p, k) && es[p] > 0.0 && Fraction(es[p], es[k]) >= fall;
      assert HasPositive(es);
    }
    if fall <= fraction {
      assert HasPositive(es);
      var p, k :| IsHighest(es, p, k) && es[p] > 0.0 && Fraction(es[p], es[k]) == fraction;
    }
  }

  lemma {:induction false} FallIsBelow(es: seq<real>, fraction: real, i: nat, j: nat)
    requires IsMaxFallFromPeak(es, Some(fraction)) && NegativesOutfallen(es)
    requires i <= j < |es| && es[i] > 0.0
    ensures Fraction(es[i], es[j]) <= fraction
  {
    if es[j] < 0.0 {
      var s := LowestPositiveExists(es, j);
      assert IsLowestPositive(es, s, j);
      DeeperFromLower(es[s], es[i], es[j]);
      OutfallenIsBelow(es, fraction, Fraction(es[s], es[j]));
    } else {
      var p := HighestExists(es, j);
      FractionOrder(es[i], es[p], es[j]);
      assert HasPositive(es);
    }
  }

  lemma {:induction false} LargestExactly(es: seq<real>, fraction: Option<real>)
    requires IsMaxFallFromPeak(es, fraction)
    ensures IsMaxRelativeDrop(es, fraction) <==> NegativesOutfallen(es)
  {
    if HasPositive(es) {
      if IsMaxRelativeDrop(es, fraction) {
        forall s, j | IsLowestPositive(es, s, j) && es[j] < 0.0 ensures Outfallen(es, Fraction(es[s], es[j])) {
          OutfallenIsBelow(es, fraction.value, Fraction(es[s], es[j]));
        }
      }
      if NegativesOutfallen(es) {
        forall i, j | 0 <= i <= j < |es| && es[i] > 0.0 ensures Fraction(es[i], es[j]) <= fraction.value {
          FallIsBelow(es, fraction.value, i, j);
        }
        var p, k :| IsHighest(es, p, k) && es[p] > 0.0 && Fraction(es[p], es[k]) == fraction.value;
      }
    }
  }

  // ---------- whole histories ----------

  lemma {:induction false} PeakIsMaximum(samples: seq<Sample>)
    ensures IsPeak(Equities(samples), Run(samples).peak)
  {
    if samples != [] {
      var front, last := samples[..|samples| - 1], samples[|samples| - 1];
      PeakIsMaximum(front);
      if last.equity.Some? {
        StepPeak(Equities(front), Run(front), last.equity.value);
      } else {
        assert Equities(samples) == Equities(front);
      }
    }
  }

  /** The online maximum drawdown is the largest fall over all pairs of available samples in order. */
  lemma {:induction false} DrawdownIsLargestFall(samples: seq<Sample>)
    ensures IsMaxDrop(Equities(samples), Run(samples).maxDrawdown)
  {
    if samples != [] {
      var front, last := samples[..|samples| - 1], samples[|samples| - 1];
      DrawdownIsLargestFall(front);
      PeakIsMaximum(front);
      if last.equity.Some? {
        StepMaxDrop(Equities(front), Run(front), last.equity.value);
      } else {
        assert Equities(samples) == Equities(front);
      }
    }
  }

  /** The online fraction is the largest relative fall from the running peak, whatever the samples. */
  lemma {:induction false} FractionIsLargestFallFromPeak(samples: seq<Sample>)
    ensures IsMaxFallFromPeak(Equities(samples), Run(samples).maxFraction)
  {
    if samples != [] {
      var front, last := samples[..|samples| - 1], samples[|samples| - 1];
      FractionIsLargestFallFromPeak(front);
      PeakIsMaximum(front);
      if last.equity.Some? {
        StepFallFromPeak(Equities(front), Run(front), last.equity.value);
      } else {
        assert Equities(samples) == Equities(front);
      }
    }
  }

  /** It is the largest relative fall between any samples if and only if every negative sample, measured
      from the smallest positive one before it, falls no deeper than some sample fell from its peak. */
  lemma {:induction false} FractionIsLargestExactly(samples: seq<Sample>)
    ensures IsMaxRelativeDrop(Equities(samples), Run(samples).maxFraction) <==> NegativesOutfallen(Equities(samples))
  {
    FractionIsLargestFallFromPeak(samples);
    LargestExactly(Equities(samples), Run(samples).maxFraction);
  }

  /** In particular while equity never goes below zero after being positive. */
  lemma {:induction false} FractionIsLargestRelativeFall(samples: seq<Sample>)
    requires NeverBelowZero(Equities(samples))
    ensures IsMaxRelativeDrop(Equities(samples), Run(samples).maxFraction)
  {
    FractionIsLargestExactly(samples);
  }

  /** No earlier positive sample falls to `e` by more than `fraction`. */
  ghost predicate NoDeeperFall(es: seq<real>, e: real, fraction: real) {
    forall i | 0 <= i < |es| && es[i] > 0.0 :: Fraction(es[i], e) <= fraction
  }

  /** For a caller about to take one more sample: the fraction stays the largest relative fall if and only
      if the sample is not negative, or no earlier positive sample falls to it by more than the new fraction. */
  lemma {:induction false} NextSampleExactly(samples: seq<Sample>, next: Sample)
    requires IsMaxRelativeDrop(Equities(samples), Run(samples).maxFraction) && next.equity.Some?
    ensures var fraction := AfterSample(Run(samples), next).maxFraction;
            IsMaxRelativeDrop(Equities(samples) + [next.equity.value], fraction) <==>
            (next.equity.value < 0.0 && fraction.Some? ==> NoDeeperFall(Equities(samples), next.equity.value, fraction.value))
  {
    var es, m, e := Equities(samples), Run(samples), next.equity.value;
    PeakIsMaximum(samples);
    FractionIsLargestFallFromPeak(samples);
    StepFallFromPeak(es, m, e);
    var fraction := AfterDrawdown(m, Some(e)).2;
    if fraction.Some? {
      if IsMaxRelativeDrop(es + [e], fraction) {
        NextFallIsBelow(es, e, fraction.value);
      }
      if e < 0.0 ==> NoDeeperFall(es, e, fraction.value) {
        NextIsLargest(es, m, e);
      }
    }
  }

  lemma {:induction false} NextFallIsBelow(es: seq<real>, e: real, fraction: real)
    requires IsMaxRelativeDrop(es + [e], Some(fraction))
    ensures NoDeeperFall(es, e, fraction)
  {
    var all, n := es + [e], |es|;
    forall i | 0 <= i < n && es[i] > 0.0 ensures Fraction(es[i], e) <= fraction {
      assert all[i] == es[i] && all[n] == e && HasPositive(all) && Fraction(all[i], all[n]) <= fraction;
    }
  }

  lemma {:induction false} AttainedFall(es: seq<real>, fraction: real)
    requires IsMaxFallFromPeak(es, Some(fraction))
    ensures HasPositive(es) && exists i, j :: 0 <= i <= j < |es| && es[i] > 0.0 && Fraction(es[i], es[j]) == fraction
  {
    var p, k :| IsHighest(es, p, k) && es[p] > 0.0 && Fraction(es[p], es[k]) == fraction;
  }

  lemma {:induction false} NextFall(es: seq<real>, m: Metrics, e: real, i: nat, j: nat)
    requires IsPeak(es, m.peak) && IsMaxRelativeDrop(es, m.maxFraction) && AfterDrawdown(m, Some(e)).2.Some?
    requires IsMaxFallFromPeak(es + [e], AfterDrawdown(m, Some(e)).2)
    requires e < 0.0 ==> NoDeeperFall(es, e, AfterDrawdown(m, Some(e)).2.value)
    requires i <= j <= |es| && (es + [e])[i] > 0.0
    ensures Fraction((es + [e])[i], (es + [e])[j]) <= AfterDrawdown(m, Some(e)).2.value
  {
    var all, n := es + [e], |es|;
    PositivePeak(es, m.peak);
    if j < n {
      assert all[i] == es[i] && all[j] == es[j] && HasPositive(es);
      assert Fraction(es[i], es[j]) <= m.maxFraction.value;
      FractionOnlyRises(m, e);
    } else if e >= 0.0 {
      var p := HighestExists(all, n);
      FractionOrder(all[i], all[p], e);
    } else {
      assert all[i] == es[i];
    }
  }

  lemma {:induction false} NextIsLargest(es: seq<real>, m: Metrics, e: real)
    requires IsPeak(es, m.peak) && IsMaxRelativeDrop(es, m.maxFraction) && AfterDrawdown(m, Some(e)).2.Some?
    requires IsMaxFallFromPeak(es + [e], AfterDrawdown(m, Some(e)).2) && (m.maxFraction.Some? ==> HasPositive(es))
    requires e < 0.0 ==> NoDeeperFall(es, e, AfterDrawdown(m, Some(e)).2.value)
    ensures IsMaxRelativeDrop(es + [e], AfterDrawdown(m, Some(e)).2)
  {
    var all, fraction := es + [e], AfterDrawdown(m, Some(e)).2.value;
    forall i, j | 0 <= i <= j < |all| && all[i] > 0.0 ensures Fraction(all[i], all[j]) <= fraction {
      NextFall(es, m, e, i, j);
    }
    AttainedFall(all, fraction);
  }

  /** The online fraction is never negative, and at most one exactly when equity stays nonnegative after
      being positive. */
  lemma {:induction false} FractionWithinOne(samples: seq<Sample>)
    ensures var f := Run(samples).maxFraction;
            && (f.Some? <==> HasPositive(Equities(samples)))
            && (f.Some? ==> f.value >= 0.0 && (f.value <= 1.0 <==> NeverBelowZero(Equities(samples))))
  {
    if samples != [] {
      var front, last := samples[..|samples| - 1], samples[|samples| - 1];
      FractionWithinOne(front);
      PeakIsMaximum(front);
      if last.equity.Some? {
        StepWithinOne(Equities(front), Run(front), last.equity.value);
      } else {
        assert Equities(samples) == Equities(front);
      }
    }
  }

  lemma {:induction false} StepWithinOne(es: seq<real>, m: Metrics, e: real)
    requires IsPeak(es, m.peak) && (m.maxFraction.Some? <==> HasPositive(es))
    requires m.maxFraction.Some? ==>
               m.maxFraction.value >= 0.0 && (m.maxFraction.value <= 1.0 <==> NeverBelowZero(es))
    ensures var f := AfterDrawdown(m, Some(e)).2;
            && (f.Some? <==> HasPositive(es + [e]))
            && (f.Some? ==> f.value >= 0.0 && (f.value <= 1.0 <==> NeverBelowZero(es + [e])))
  {
    var all := es + [e];
    var peak := AfterDrawdown(m, Some(e)).0;
    StepPeak(es, m, e);
    PositivePeak(es, m.peak);
    PositivePeak(all, peak);
    NeverBelowZeroGrows(es, e);
    if peak.value > 0.0 {
      FractionRange(peak.value, e);
      if !HasPositive(es) {
        assert NeverBelowZero(es);
      }
    }
  }

  lemma {:induction false} NeverBelowZeroGrows(es: seq<real>, e: real)
    ensures NeverBelowZero(es + [e]) <==> NeverBelowZero(es) && (HasPositive(es) ==> e >= 0.0)
  {
    var all := es + [e];
    assert all[|es|] == e;
    if NeverBelowZero(all) {
      forall i, j | 0 <= i < j < |es| && es[i] > 0.0 ensures es[j] >= 0.0 {
        assert all[i] == es[i] && all[j] == es[j];
      }
      if HasPositive(es) {
        var i :| 0 <= i < |es| && es[i] > 0.0;
        assert all[i] > 0.0;
      }
    }
    if NeverBelowZero(es) && (HasPositive(es) ==> e >= 0.0) {
      forall i, j | 0 <= i < j < |all| && all[i] > 0.0 ensures all[j] >= 0.0 {
        assert es[i] > 0.0;
      }
    }
  }

  /** The input that shows the condition can fail: the fraction divides by the running peak only. */
  lemma {:induction false} BelowZeroFractionDiffers()
    ensures var samples := [Sample(0, Fresh, Some(1.0)), Sample(1, Fresh, Some(2.0)), Sample(2, Fresh, Some(-1.0))];
            && Run(samples).maxFraction == Some(1.5)
            && !IsMaxRelativeDrop(Equities(samples), Run(samples).maxFraction)
  {
    var a, b, c := Sample(0, Fresh, Some(1.0)), Sample(1, Fresh, Some(2.0)), Sample(2, Fresh, Some(-1.0));
    assert [a, b, c][..2] == [a, b] && [a, b][..1] == [a] && [a][..0] == [];
    assert Run([a]) == AfterSample(EMPTY, a);
    assert Run([a, b]) == AfterSample(Run([a]), b);
    assert Run([a, b, c]) == AfterSample(Run([a, b]), c);
    var es := Equities([a, b, c]);
    assert Equities([a]) == [1.0];
    assert Equities([a, b]) == [1.0, 2.0];
    assert es == [1.0, 2.0, -1.0];
    assert es[0] > 0.0 && Fraction(es[0], es[2]) == 2.0;
  }

  /** How many samples of a history have a status. */
  function Having(samples: seq<Sample>, status: Status): nat {
    if samples == [] then 0
    else Having(samples[1..], status) + if samples[0].status == status then 1 else 0
  }

  lemma {:induction false} HavingOneMore(samples: seq<Sample>, s: Sample, status: Status)
    ensures Having(samples + [s], status) == Having(samples, status) + if s.status == status then 1 else 0
  {
    if samples == [] {
      assert samples + [s] == [s] && [s][1..] == [];
    } else {
      HavingOneMore(samples[1..], s, status);
      assert (samples + [s])[1..] == samples[1..] + [s];
    }
  }

  /** The counters count, the timestamps are the first and last, and the final sample is the last. */
  lemma {:induction false} SummaryOfHistory(samples: seq<Sample>)
    ensures var m := Run(samples);
            && m.sampleCount == |samples| && m.availableCount == |Equities(samples)|
            && m.staleCount == Having(samples, Stale) && m.unavailableCount == Having(samples, Unavailable)
            && (samples == [] ==> m.firstTimestampMs.None? && m.lastTimestampMs.None? && m.finalSample.None?)
            && (samples != [] ==>
                  && m.firstTimestampMs == Some(samples[0].timestampMs)
                  && m.lastTimestampMs == Some(samples[|samples| - 1].timestampMs)
                  && m.finalSample == Some(samples[|samples| - 1]))
  {
    if samples != [] {
      var front, last := samples[..|samples| - 1], samples[|samples| - 1];
      SummaryOfHistory(front);
      assert samples == front + [last];
      HavingOneMore(front, last, Stale);
      HavingOneMore(front, last, Unavailable);
    }
  }

  /** The history is complete exactly when no sample was stale or unavailable, and unavailable as soon as one was. */
  lemma {:induction false} StatusReflectsHistory(samples: seq<Sample>)
    ensures Run(samples).sampleCount == |samples| && Run(samples).availableCount == |Equities(samples)|
    ensures Run(samples).unavailableCount > 0 <==> exists s :: s in samples && s.status.Unavailable?
    ensures Run(samples).staleCount > 0 <==> exists s :: s in samples && s.status.Stale?
    ensures HistoryStatus(Run(samples)).Fresh? <==> forall s | s in samples :: s.status.Fresh?
  {
    if samples != [] {
      var front, last := samples[..|samples| - 1], samples[|samples| - 1];
      StatusReflectsHistory(front);
      assert samples == front + [last];
      assert last in samples && forall s | s in front :: s in samples;
    }
  }
}
