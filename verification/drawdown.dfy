/** Drawdowns of an equity curve in one pass, against their all-pairs definition. */
module Drawdown {
  import opened Common

  /** The highest equity seen up to and including index n - 1, starting from the initial equity. */
  function RunningPeak(values: seq<real>, initial: real, n: nat): (peak: real)
    requires n <= |values|
    ensures peak >= initial && forall i :: 0 <= i < n ==> values[i] <= peak
  {
    if n == 0 then initial
    else
      var before := RunningPeak(values, initial, n - 1);
      if values[n - 1] >= before then values[n - 1] else before
  }

  function Loss(value: real, peak: real): real {
    if peak > 0.0 then value / peak - 1.0 else 0.0
  }

  function DrawdownAt(values: seq<real>, initial: real, i: nat): real
    requires i < |values|
  {
    Loss(values[i], RunningPeak(values, initial, i + 1))
  }

  predicate IsLossFrom(peak: real, value: real, d: real) {
    if peak > 0.0 then value == peak * (1.0 + d) else d == 0.0
  }

  lemma LossMeans(value: real, peak: real)
    ensures IsLossFrom(peak, value, Loss(value, peak))
  {
    if peak > 0.0 {
      assert Loss(value, peak) + 1.0 == value / peak;
    }
  }

  ghost predicate IsHighest(values: seq<real>, initial: real, n: nat, peak: real)
    requires n <= |values|
  {
    && peak >= initial && (forall i :: 0 <= i < n ==> values[i] <= peak)
    && (peak == initial || exists i :: 0 <= i < n && values[i] == peak)
  }

  lemma {:induction false} RunningPeakIsHighest(values: seq<real>, initial: real, n: nat)
    requires n <= |values|
    ensures IsHighest(values, initial, n, RunningPeak(values, initial, n))
  {
    if n > 0 {
      RunningPeakIsHighest(values, initial, n - 1);
    }
  }

  /** The drawdown d at row i: equity is (1 + d) times the highest equity so far, or d is 0 when that is not
      positive. */
  lemma DrawdownMeans(values: seq<real>, initial: real, i: nat)
    requires i < |values|
    ensures var d := DrawdownAt(values, initial, i);
            exists peak :: IsHighest(values, initial, i + 1, peak) && IsLossFrom(peak, values[i], d)
  {
    var n := i + 1;
    var peak := RunningPeak(values, initial, n);
    RunningPeakIsHighest(values, initial, n);
    LossMeans(values[i], peak);
    assert IsHighest(values, initial, n, peak) && IsLossFrom(peak, values[i], DrawdownAt(values, initial, i));
  }

  /** The last index before n at which the running peak was reached or raised. */
  function PeakIndex(values: seq<real>, initial: real, n: nat): Option<nat>
    requires n <= |values|
  {
    if n == 0 then None
    else if values[n - 1] >= RunningPeak(values, initial, n - 1) then Some(n - 1)
    else PeakIndex(values, initial, n - 1)
  }

  predicate IsFirstLowest(xs: seq<real>, t: nat) {
    && t < |xs|
    && (forall i :: 0 <= i < |xs| ==> xs[t] <= xs[i])
    && (forall i :: 0 <= i < t ==> xs[t] < xs[i])
  }

  predicate IsFirstAtLeast(values: seq<real>, from: nat, level: real, r: Option<nat>) {
    match r
    case None => forall i :: from <= i < |values| ==> values[i] < level
    case Some(k) => from <= k < |values| && values[k] >= level && forall i :: from <= i < k ==> values[i] < level
  }

  method DrawdownDetails(values: seq<real>, initial: real)
    returns (drawdowns: seq<real>, peakIndex: Option<nat>, troughIndex: Option<nat>, recoveryIndex: Option<nat>)
    ensures |drawdowns| == |values|
    ensures forall i :: 0 <= i < |values| ==> drawdowns[i] == DrawdownAt(values, initial, i)
    ensures troughIndex.None? <==> values == []
    ensures troughIndex.Some? ==> IsFirstLowest(drawdowns, troughIndex.value)
    ensures peakIndex == if troughIndex.Some? then PeakIndex(values, initial, troughIndex.value + 1) else None
    ensures troughIndex.Some? && peakIndex.Some? ==>
              && peakIndex.value < |values|
              && IsFirstAtLeast(values, troughIndex.value + 1, values[peakIndex.value], recoveryIndex)
    ensures peakIndex.None? ==> recoveryIndex.None?
  {
    var peak := initial;
    var currentPeakIndex: Option<nat> := None;
    drawdowns, peakIndex, troughIndex, recoveryIndex := [], None, None, None;
    for i := 0 to |values|
      invariant |drawdowns| == i && peak == RunningPeak(values, initial, i)
      invariant currentPeakIndex == PeakIndex(values, initial, i)
      invariant forall j :: 0 <= j < i ==> drawdowns[j] == DrawdownAt(values, initial, j)
      invariant troughIndex.None? <==> i == 0
      invariant troughIndex.Some? ==> IsFirstLowest(drawdowns, troughIndex.value)
      invariant peakIndex == if troughIndex.Some? then PeakIndex(values, initial, troughIndex.value + 1) else None
    {
      if values[i] >= peak {
        peak := values[i];
        currentPeakIndex := Some(i);
      }
      var drawdown := if peak > 0.0 then values[i] / peak - 1.0 else 0.0;
      drawdowns := drawdowns + [drawdown];
      if troughIndex.None? || drawdown < drawdowns[troughIndex.value] {
        troughIndex := Some(i);
        peakIndex := currentPeakIndex;
      }
    }
    if troughIndex.Some? && peakIndex.Some? {
      PeakIndexAttains(values, initial, troughIndex.value + 1);
      recoveryIndex := FirstAtLeast(values, troughIndex.value + 1, values[peakIndex.value]);
    }
  }

  method FirstAtLeast(values: seq<real>, from: nat, level: real) returns (r: Option<nat>)
    ensures IsFirstAtLeast(values, from, level, r)
  {
    var i := from;
    while i < |values|
      invariant from <= i && forall j :: from <= j < i && j < |values| ==> values[j] < level
    {
      if values[i] >= level {
        return Some(i);
      }
      i := i + 1;
    }
    return None;
  }

  /** What the reported peak is: the last time the running maximum was attained, before which nothing was
      higher and after which everything was lower; absent exactly when equity never came back to its start. */
  lemma {:induction false} PeakIndexAttains(values: seq<real>, initial: real, n: nat)
    requires n <= |values|
    ensures var k := PeakIndex(values, initial, n);
            match k
            case None =>
              RunningPeak(values, initial, n) == initial && forall i :: 0 <= i < n ==> values[i] < initial
            case Some(k) =>
              && k < n && values[k] == RunningPeak(values, initial, n)
              && (forall i :: 0 <= i <= k ==> values[i] <= values[k])
              && (forall i :: k < i < n ==> values[i] < values[k])
  {
    if n > 0 && values[n - 1] < RunningPeak(values, initial, n - 1) {
      PeakIndexAttains(values, initial, n - 1);
    }
  }

  // ---------- the all-pairs definition ----------

  /** A level to fall from at time j: the initial equity, or any equity up to j. */
  ghost predicate IsEarlierLevel(values: seq<real>, initial: real, j: nat, level: real)
    requires j < |values|
  {
    level > 0.0 && (level == initial || exists i :: 0 <= i <= j && values[i] == level)
  }

  lemma {:induction false} RunningPeakIsALevel(values: seq<real>, initial: real, n: nat)
    requires n <= |values|
    ensures RunningPeak(values, initial, n) == initial
         || exists i :: 0 <= i < n && values[i] == RunningPeak(values, initial, n)
  {
    if n > 0 {
      RunningPeakIsALevel(values, initial, n - 1);
      if values[n - 1] >= RunningPeak(values, initial, n - 1) {
        assert values[n - 1] == RunningPeak(values, initial, n);
      } else if RunningPeak(values, initial, n - 1) != initial {
        var i :| 0 <= i < n - 1 && values[i] == RunningPeak(values, initial, n - 1);
        assert values[i] == RunningPeak(values, initial, n);
      }
    }
  }

  lemma QuotientShrinks(value: real, small: real, large: real)
    requires 0.0 < small <= large
    ensures value >= 0.0 ==> value / large <= value / small
    ensures value < 0.0 && small < large ==> value / large > value / small
  {
    var a, b := value / small, value / large;
    assert a * small == value && b * large == value;
    if value >= 0.0 && b > a {
      NonNegativeQuotient(value, small, a);
      MoreTimesMore(a, b, small, large);
    }
    if value < 0.0 && small < large && b <= a {
      NonNegativeQuotient(-value, small, -a);
      NonNegativeQuotient(-value, large, -b);
      Strictly(-a, -b, small, large);
    }
  }

  lemma NonNegativeQuotient(value: real, divisor: real, q: real)
    requires value >= 0.0 && divisor > 0.0 && q * divisor == value
    ensures q >= 0.0 && (value > 0.0 ==> q > 0.0)
  {
    if q < 0.0 {
      Positive(-q, divisor);
    }
  }

  lemma MoreTimesMore(a: real, b: real, small: real, large: real)
    requires 0.0 <= a < b && 0.0 < small <= large
    ensures a * small < b * large
  {
    Positive(b - a, small);
    NonNegative(b, large - small);
    assert (b - a) * small + b * (large - small) == b * large - a * small;
  }

  lemma Strictly(a: real, b: real, small: real, large: real)
    requires 0.0 < a <= b && 0.0 < small < large
    ensures a * small < b * large
  {
    NonNegative(b - a, small);
    Positive(b, large - small);
    assert (b - a) * small + b * (large - small) == b * large - a * small;
  }

  ghost predicate NoDeeperLossAt(values: seq<real>, initial: real, j: nat)
    requires j < |values|
  {
    forall level :: IsEarlierLevel(values, initial, j, level) ==>
      DrawdownAt(values, initial, j) <= Loss(values[j], level)
  }

  /** Dividing by the running peak finds the deepest loss at a time exactly when the equity there is not
      negative, or there is no smaller positive level to fall from. Validated curves are never negative. */
  lemma RunningPeakIsDeepestIff(values: seq<real>, initial: real, j: nat)
    requires j < |values| && RunningPeak(values, initial, j + 1) > 0.0
    ensures NoDeeperLossAt(values, initial, j) <==>
              (values[j] >= 0.0
               || forall level :: IsEarlierLevel(values, initial, j, level) ==>
                    level == RunningPeak(values, initial, j + 1))
  {
    var peak := RunningPeak(values, initial, j + 1);
    forall level | IsEarlierLevel(values, initial, j, level)
      ensures level <= peak
      ensures values[j] >= 0.0 ==> DrawdownAt(values, initial, j) <= Loss(values[j], level)
      ensures values[j] < 0.0 && level < peak ==> DrawdownAt(values, initial, j) > Loss(values[j], level)
    {
      QuotientShrinks(values[j], level, peak);
    }
  }

  /** The pass's lowest drawdown is the worst loss between any earlier level and any later equity, and some
      pair attains it. */
  lemma WorstDrawdownIsWorstPair(values: seq<real>, initial: real, drawdowns: seq<real>, t: nat)
    requires |drawdowns| == |values| && forall i :: 0 <= i < |values| ==> drawdowns[i] == DrawdownAt(values, initial, i)
    requires IsFirstLowest(drawdowns, t)
    requires initial > 0.0 && forall i :: 0 <= i < |values| ==> values[i] >= 0.0
    ensures forall j, level :: 0 <= j < |values| && IsEarlierLevel(values, initial, j, level) ==>
              drawdowns[t] <= Loss(values[j], level)
    ensures exists level :: IsEarlierLevel(values, initial, t, level) && drawdowns[t] == Loss(values[t], level)
  {
    forall j, level | 0 <= j < |values| && IsEarlierLevel(values, initial, j, level)
      ensures drawdowns[t] <= Loss(values[j], level)
    {
      RunningPeakIsDeepestIff(values, initial, j);
      assert NoDeeperLossAt(values, initial, j);
      assert drawdowns[t] <= drawdowns[j];
    }
    RunningPeakIsALevel(values, initial, t + 1);
    var peak := RunningPeak(values, initial, t + 1);
    assert IsEarlierLevel(values, initial, t, peak);
  }
}
