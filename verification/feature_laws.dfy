/** What the feature operators compute, in terms of the rows they look at. */
module FeatureLaws {
  import opened Common
  import opened Statistics
  import opened FeatureDsl
  import opened RobustScore

  // ---------- the window before a row ----------

  /** Row i has `bars` rows before it, and each holds a number. */
  ghost predicate FullWindow(source: Column, bars: nat, i: nat)
    requires i < |source|
  {
    i >= bars && forall k :: i - bars <= k < i ==> source[k].Num?
  }

  /** Adding up rows lo, lo + 1, ..., hi - 1 of a column. */
  ghost function RowsTotal(source: Column, lo: nat, hi: nat): real
    requires lo <= hi <= |source| && forall k :: lo <= k < hi ==> source[k].Num?
  {
    if lo == hi then 0.0 else RowsTotal(source, lo, hi - 1) + source[hi - 1].v
  }

  lemma {:induction false} SumIsTotal(source: Column, lo: nat, hi: nat)
    requires lo <= hi <= |source| && forall k :: lo <= k < hi ==> source[k].Num?
    ensures AllNumeric(source[lo..hi]) && Sum(Numbers(source[lo..hi])) == RowsTotal(source, lo, hi)
    decreases hi
  {
    if lo < hi {
      SumIsTotal(source, lo, hi - 1);
      var rows := Numbers(source[lo..hi]);
      assert rows[..|rows| - 1] == Numbers(source[lo..hi - 1]);
    }
  }

  lemma WindowIsFull(source: Column, bars: nat, i: nat)
    requires bars >= 1 && i < |source|
    ensures FullWindow(source, bars, i) <==> i >= bars && AllNumeric(source[i - bars..i])
    ensures FullWindow(source, bars, i) ==>
              var window := Numbers(source[i - bars..i]);
              |window| == bars && forall k :: 0 <= k < bars ==> window[k] == source[i - bars + k].v
  {
    if i >= bars && AllNumeric(source[i - bars..i]) {
      forall k | i - bars <= k < i ensures source[k].Num? {
        assert source[i - bars..i][k - (i - bars)] == source[k];
      }
    }
  }

  lemma WindowedOnFull(op: Operator, source: Column, bars: nat, i: nat)
    requires op.Windowed() && bars >= 1 && i < |source|
    ensures FullWindow(source, bars, i) ==> AllNumeric(source[i - bars..i]) && Numbers(source[i - bars..i]) != []
    ensures WindowedAt(op, source, bars, i)
         == if FullWindow(source, bars, i) then Rolled(op, Numbers(source[i - bars..i]), NumericOf(source[i]))
            else Missing
  {
    WindowIsFull(source, bars, i);
  }

  // ---------- percent change, mean and ratio ----------

  lemma ChangeFromBase(current: real, base: real, p: real)
    requires base != 0.0 && p == (current - base) / base
    ensures current == base * (1.0 + p)
  {
    assert p * base == current - base;
  }

  /** A percent change relates the row to the one `bars` rows before it. */
  lemma PercentChangeMeans(source: Column, bars: nat, i: nat)
    requires bars >= 1 && i < |source|
    ensures var out := WindowedAt(PctChange, source, bars, i);
            && (out.Num? <==> FullWindow(source, bars, i) && source[i].Num? && source[i - bars].v != 0.0)
            && (out.Num? ==> source[i].v == source[i - bars].v * (1.0 + out.v))
            && (!out.Num? ==> out == Missing)
  {
    WindowedOnFull(PctChange, source, bars, i);
    WindowIsFull(source, bars, i);
    var out := WindowedAt(PctChange, source, bars, i);
    if out.Num? {
      ChangeFromBase(source[i].v, source[i - bars].v, out.v);
    }
  }

  lemma Divided(total: real, n: nat, mean: real)
    requires n >= 1 && mean == total / n as real
    ensures mean * n as real == total
    ensures mean == 0.0 <==> total == 0.0
  {
  }

  /** A rolling mean times the window length is the total of the `bars` rows before the row. */
  lemma RollingMeanMeans(source: Column, bars: nat, i: nat)
    requires bars >= 1 && i < |source|
    ensures var out := WindowedAt(RollingMean, source, bars, i);
            && (out.Num? <==> FullWindow(source, bars, i))
            && (out.Num? ==> out.v * bars as real == RowsTotal(source, i - bars, i))
            && (!out.Num? ==> out == Missing)
  {
    WindowedOnFull(RollingMean, source, bars, i);
    if FullWindow(source, bars, i) {
      SumIsTotal(source, i - bars, i);
      WindowIsFull(source, bars, i);
      Divided(RowsTotal(source, i - bars, i), bars, WindowedAt(RollingMean, source, bars, i).v);
    }
  }

  lemma RatioOf(current: real, mean: real, ratio: real)
    requires mean != 0.0 && ratio == current / mean
    ensures ratio * mean == current
  {
  }

  /** A rolling ratio times the rolling mean is the row's own value. */
  lemma RollingRatioMeans(source: Column, bars: nat, i: nat)
    requires bars >= 1 && i < |source|
    ensures var out, mean := WindowedAt(RollingRatio, source, bars, i), WindowedAt(RollingMean, source, bars, i);
            && (out.Num? <==> mean.Num? && mean.v != 0.0 && source[i].Num?)
            && (out.Num? ==> out.v * mean.v == source[i].v)
            && (!out.Num? ==> out == Missing)
  {
    WindowedOnFull(RollingRatio, source, bars, i);
    WindowedOnFull(RollingMean, source, bars, i);
    var out, mean := WindowedAt(RollingRatio, source, bars, i), WindowedAt(RollingMean, source, bars, i);
    if out.Num? {
      RatioOf(source[i].v, mean.v, out.v);
    }
  }

  // ---------- order statistics ----------

  function CountBelow(xs: seq<real>, v: real): nat {
    if xs == [] then 0 else CountBelow(xs[1..], v) + if xs[0] < v then 1 else 0
  }

  function CountAbove(xs: seq<real>, v: real): nat {
    if xs == [] then 0 else CountAbove(xs[1..], v) + if xs[0] > v then 1 else 0
  }

  /** At most half of the numbers lie below v and at most half above it. */
  predicate IsCentre(xs: seq<real>, v: real) {
    2 * CountBelow(xs, v) <= |xs| && 2 * CountAbove(xs, v) <= |xs|
  }

  lemma {:induction false} InsertCounts(x: real, xs: seq<real>, v: real)
    ensures CountBelow(Insert(x, xs), v) == CountBelow(xs, v) + if x < v then 1 else 0
    ensures CountAbove(Insert(x, xs), v) == CountAbove(xs, v) + if x > v then 1 else 0
  {
    if xs == [] || x <= xs[0] {
      assert ([x] + xs)[1..] == xs;
    } else {
      InsertCounts(x, xs[1..], v);
      assert ([xs[0]] + Insert(x, xs[1..]))[1..] == Insert(x, xs[1..]);
    }
  }

  lemma {:induction false} SortedCounts(xs: seq<real>, v: real)
    ensures CountBelow(Sorted(xs), v) == CountBelow(xs, v) && CountAbove(Sorted(xs), v) == CountAbove(xs, v)
  {
    if xs != [] {
      SortedCounts(xs[1..], v);
      InsertCounts(xs[0], Sorted(xs[1..]), v);
    }
  }

  /** In an ascending list only the elements before place k can be below something no greater than element k. */
  lemma {:induction false} FewBelow(xs: seq<real>, k: nat, v: real)
    requires Ascending(xs) && k <= |xs| && (k < |xs| ==> v <= xs[k])
    ensures CountBelow(xs, v) <= k
  {
    if xs != [] {
      if k == 0 {
        FewBelow(xs[1..], 0, v);
      } else {
        FewBelow(xs[1..], k - 1, v);
      }
    }
  }

  /** And only those after place k above something no smaller than element k. */
  lemma {:induction false} FewAbove(xs: seq<real>, k: nat, v: real)
    requires Ascending(xs) && k <= |xs| && (0 < k ==> xs[k - 1] <= v)
    ensures CountAbove(xs, v) <= |xs| - k
  {
    if xs != [] {
      if k == 0 {
        FewAbove(xs[1..], 0, v);
      } else {
        FewAbove(xs[1..], k - 1, v);
      }
    }
  }

  /** The median is a centre of its numbers. */
  lemma MedianIsCentre(xs: seq<real>)
    requires xs != []
    ensures IsCentre(xs, Median(xs))
  {
    var n, m, ordered := |xs|, Median(xs), Sorted(xs);
    SortedIsSorted(xs);
    SortedCounts(xs, m);
    if n % 2 == 1 {
      FewBelow(ordered, n / 2, m);
      FewAbove(ordered, n / 2 + 1, m);
    } else {
      assert ordered[n / 2 - 1] <= m <= ordered[n / 2];
      FewBelow(ordered, n / 2, m);
      FewAbove(ordered, n / 2, m);
    }
  }

  lemma ScoreSolves(current: real, median: real, mad: real, z: real)
    requires ScoreAgainst(current, median, mad) == Some(z)
    ensures mad != 0.0 && current == median + z * (1.4826 * mad)
  {
    var scale := 1.4826 * mad;
    assert scale != 0.0;
    assert z * scale == current - median;
  }

  /** The distances of the numbers from a centre. */
  function DistancesFrom(xs: seq<real>, m: real): seq<real> {
    seq(|xs|, i requires 0 <= i < |xs| => if xs[i] >= m then xs[i] - m else m - xs[i])
  }

  lemma DistancesAreDeviations(window: seq<real>, m: real)
    ensures DistancesFrom(window, m) == Deviations(window, m)
  {
  }

  /** The median of the window and the median distance from it are what they are called. */
  lemma CentresOf(window: seq<real>)
    requires window != []
    ensures var m := Median(window);
            && IsCentre(window, m) && IsCentre(DistancesFrom(window, m), Mad(window))
  {
    DistancesAreDeviations(window, Median(window));
    MedianIsCentre(window);
    MedianIsCentre(Deviations(window, Median(window)));
  }

  predicate ScoreHolds(out: Scalar, current: real, median: real, mad: real) {
    && (out.Num? <==> mad != 0.0)
    && (out.Num? ==> current == median + out.v * (1.4826 * mad))
    && (!out.Num? ==> out == Missing)
  }

  lemma ScoreAgainstMeans(current: real, median: real, mad: real)
    ensures ScoreHolds(OfOption(ScoreAgainst(current, median, mad)), current, median, mad)
  {
    var score := ScoreAgainst(current, median, mad);
    if score.Some? {
      ScoreSolves(current, median, mad, score.value);
    }
  }

  lemma ScoreMeans(window: seq<real>, current: real)
    requires window != []
    ensures ScoreHolds(Rolled(RobustZscore, window, Some(current)), current, Median(window), Mad(window))
  {
    RolledScore(window, current);
    ScoreAgainstMeans(current, Median(window), Mad(window));
  }

  /** A robust z-score z places the row's value 1.4826 * z median distances from a centre of the `bars` rows before
      it; the median distance is a centre of their distances from that centre. */
  lemma RobustScoreMeans(source: Column, bars: nat, i: nat)
    requires bars >= 1 && i < |source| && FullWindow(source, bars, i) && source[i].Num?
    ensures AllNumeric(source[i - bars..i]) && |Numbers(source[i - bars..i])| == bars
    ensures var window := Numbers(source[i - bars..i]);
            && IsCentre(window, Median(window)) && IsCentre(DistancesFrom(window, Median(window)), Mad(window))
            && ScoreHolds(WindowedAt(RobustZscore, source, bars, i), source[i].v, Median(window), Mad(window))
  {
    WindowIsFull(source, bars, i);
    WindowedOnFull(RobustZscore, source, bars, i);
    var window := Numbers(source[i - bars..i]);
    CentresOf(window);
    ScoreMeans(window, source[i].v);
  }

  lemma NoScoreWithoutWindow(source: Column, bars: nat, i: nat)
    requires bars >= 1 && i < |source| && !(FullWindow(source, bars, i) && source[i].Num?)
    ensures WindowedAt(RobustZscore, source, bars, i) == Missing
  {
    WindowedOnFull(RobustZscore, source, bars, i);
  }

  // ---------- the other operators ----------

  /** Comparisons hold of numbers on the right side of the threshold, and of nothing else. */
  lemma ComparisonMeans(setting: Setting, log1p: real -> real, inputs: seq<Column>, i: nat)
    requires inputs != [] && forall k :: 0 <= k < |inputs| ==> i < |inputs[k]|
    ensures var x := inputs[0][i];
            && RowValue(GreaterEqual, setting, log1p, inputs, i) == Flag(x.Num? && x.v >= setting.threshold)
            && RowValue(LessEqual, setting, log1p, inputs, i) == Flag(x.Num? && x.v <= setting.threshold)
  {
  }

  /** The absolute value is the number or its opposite, whichever is not negative; log1p takes no negative number. */
  lemma TransformMeans(setting: Setting, log1p: real -> real, inputs: seq<Column>, i: nat)
    requires inputs != [] && forall k :: 0 <= k < |inputs| ==> i < |inputs[k]|
    ensures var x, out := inputs[0][i], RowValue(Absolute, setting, log1p, inputs, i);
            if x.Num? then out.Num? && out.v >= 0.0 && (out.v == x.v || out.v == -x.v) else out == Missing
    ensures var x, out := inputs[0][i], RowValue(Log1p, setting, log1p, inputs, i);
            if x.Num? && x.v >= 0.0 then out == Num(log1p(x.v)) else out == Missing
  {
  }

  /** Minimum and maximum are among the inputs of the row and bound them all; one input without a number is enough
      for there to be none. */
  lemma ExtremeMeans(setting: Setting, log1p: real -> real, inputs: seq<Column>, i: nat)
    requires inputs != [] && forall k :: 0 <= k < |inputs| ==> i < |inputs[k]|
    ensures var least := RowValue(Minimum, setting, log1p, inputs, i);
            var most := RowValue(Maximum, setting, log1p, inputs, i);
            if forall k :: 0 <= k < |inputs| ==> inputs[k][i].Num? then
              && least.Num? && most.Num?
              && (exists k :: 0 <= k < |inputs| && inputs[k][i].v == least.v)
              && (exists k :: 0 <= k < |inputs| && inputs[k][i].v == most.v)
              && forall k :: 0 <= k < |inputs| ==> least.v <= inputs[k][i].v <= most.v
            else least == Missing && most == Missing
  {
    var row := Row(inputs, i);
    if AllNumeric(row) {
      var xs := Numbers(row);
      SmallestIsAttained(xs);
      LargestIsAttained(xs);
      assert forall k :: 0 <= k < |inputs| ==> inputs[k][i] == row[k] && xs[k] == row[k].v;
      var a :| 0 <= a < |xs| && xs[a] == Smallest(xs);
      var b :| 0 <= b < |xs| && xs[b] == Largest(xs);
      assert inputs[a][i].v == Smallest(xs) && inputs[b][i].v == Largest(xs);
    } else {
      var k :| 0 <= k < |row| && !row[k].Num?;
      assert !inputs[k][i].Num?;
    }
  }

  /** ALL holds when every input of the row is on, ANY when some input is. */
  lemma LogicMeans(setting: Setting, log1p: real -> real, inputs: seq<Column>, i: nat)
    requires inputs != [] && forall k :: 0 <= k < |inputs| ==> i < |inputs[k]|
    ensures RowValue(AllOf, setting, log1p, inputs, i) == Flag(forall k :: 0 <= k < |inputs| ==> IsOn(inputs[k][i]))
    ensures RowValue(AnyOf, setting, log1p, inputs, i) == Flag(exists k :: 0 <= k < |inputs| && IsOn(inputs[k][i]))
  {
    var row := Row(inputs, i);
    assert forall k :: 0 <= k < |inputs| ==> (Truthy(row[k]) <==> IsOn(inputs[k][i]));
  }

  // ---------- parameters ----------

  /** Rounding moves a number by at most one half, and a number exactly between two to the even one. */
  lemma RoundsToNearest(x: real)
    ensures var r := RoundHalfEven(x);
            -0.5 <= x - r as real <= 0.5 && (x - r as real == 0.5 || x - r as real == -0.5 ==> r % 2 == 0)
  {
  }

  /** An accepted window is positive and spans, up to a relative error of one billionth, a whole number of candles;
      `raw` is the exact number. */
  lemma WindowBarsMeans(hours: real, minutes: nat, raw: real)
    requires minutes >= 1 && raw * minutes as real == hours * 60.0
    ensures var r := WindowBars(hours, minutes);
            r.Some? ==>
              && hours > 0.0 && r.value >= 1 && -0.5 <= raw - r.value as real <= 0.5
              && AbsR(raw - r.value as real) <= 0.000000001 * Tolerated(raw, r.value)
  {
    ExactQuotient(hours * 60.0, minutes, raw);
    var r := WindowBars(hours, minutes);
    if r.Some? {
      RoundsToNearest(raw);
      WithinTolerance(raw, r.value);
    }
  }

  lemma ExactQuotient(total: real, n: nat, raw: real)
    requires n >= 1 && raw * n as real == total
    ensures total / n as real == raw
  {
  }

  function Tolerated(raw: real, bars: nat): real {
    if AbsR(raw) < bars as real then bars as real else if AbsR(raw) < 1.0 then 1.0 else AbsR(raw)
  }

  lemma WithinTolerance(raw: real, bars: nat)
    requires bars >= 1 && IsClose(raw, bars as real)
    ensures AbsR(raw - bars as real) <= 0.000000001 * Tolerated(raw, bars)
  {
  }

  /** What a node's parameters resolve to: its own window, its own threshold, or its constant. */
  lemma SettingMeans(node: Node, parameters: map<string, real>, minutes: nat)
    requires minutes >= 1
    ensures var r := SettingOf(node, parameters, minutes);
            && (node.op.RollingMean? || node.op.RollingRatio? || node.op.RobustZscore? || node.op.PctChange? ==>
                  if node.window.None? || node.window.value !in parameters then r == Err(MissingParameter)
                  else if WindowBars(parameters[node.window.value], minutes).None? then r == Err(MisalignedWindow)
                  else r.Ok? && Some(r.value.bars) == WindowBars(parameters[node.window.value], minutes))
            && (node.op.GreaterEqual? || node.op.LessEqual? ==>
                  if node.threshold.Some? then
                    if node.threshold.value in parameters then
                      r.Ok? && r.value.threshold == parameters[node.threshold.value]
                    else r == Err(MissingParameter)
                  else if node.constant.Some? then r.Ok? && r.value.threshold == node.constant.value
                  else r == Err(MissingParameter))
  {
  }
}
