/** What the backtest engine does with a signal column: onset, cooldown, labels, counters. */
module BacktestEngine {
  import opened Common
  import opened Statistics
  import opened FeatureDsl

  // ---------- cooldown ----------

  function CooldownBars(cooldown: nat, candle: nat): nat
    requires candle >= 1
  {
    (cooldown + candle - 1) / candle
  }

  /** The last accepted index before n, or a value too far back to matter. */
  function LastAccepted(signal: seq<bool>, bars: nat, n: nat): int
    requires n <= |signal|
    decreases n, 0
  {
    if n == 0 then -(bars as int) - 1
    else if AcceptedAt(signal, bars, n - 1) then n - 1
    else LastAccepted(signal, bars, n - 1)
  }

  predicate AcceptedAt(signal: seq<bool>, bars: nat, i: nat)
    requires i < |signal|
    decreases i, 1
  {
    signal[i] && i - LastAccepted(signal, bars, i) > bars
  }

  method ApplyCooldown(signal: seq<bool>, cooldown: nat, candle: nat) returns (output: seq<bool>)
    requires candle >= 1
    ensures |output| == |signal|
    ensures forall i :: 0 <= i < |signal| ==> output[i] == AcceptedAt(signal, CooldownBars(cooldown, candle), i)
  {
    if cooldown == 0 {
      forall i | 0 <= i < |signal| ensures signal[i] == AcceptedAt(signal, 0, i) {
        AcceptedLieBefore(signal, 0, i);
      }
      return signal;
    }
    var bars := CooldownBars(cooldown, candle);
    var last := -(bars as int) - 1;
    output := [];
    for i := 0 to |signal|
      invariant |output| == i && last == LastAccepted(signal, bars, i)
      invariant forall j :: 0 <= j < i ==> output[j] == AcceptedAt(signal, bars, j)
    {
      var accepted := signal[i] && i - last > bars;
      output := output + [accepted];
      if accepted {
        last := i;
      }
    }
  }

  lemma {:induction false} AcceptedLieBefore(signal: seq<bool>, bars: nat, n: nat)
    requires n <= |signal|
    ensures LastAccepted(signal, bars, n) < n
    ensures LastAccepted(signal, bars, n) >= 0 ==> AcceptedAt(signal, bars, LastAccepted(signal, bars, n))
    ensures LastAccepted(signal, bars, n) >= 0 || LastAccepted(signal, bars, n) == -(bars as int) - 1
    ensures forall j :: 0 <= j < n && AcceptedAt(signal, bars, j) ==> j <= LastAccepted(signal, bars, n)
  {
    if n == 0 {
    } else {
      AcceptedLieBefore(signal, bars, n - 1);
    }
  }

  /** Accepted triggers are more than the cooldown apart, in bars and therefore in seconds. */
  lemma AcceptedAreSpaced(signal: seq<bool>, cooldown: nat, candle: nat, i: nat, j: nat)
    requires candle >= 1 && i < j < |signal|
    requires var bars := CooldownBars(cooldown, candle); AcceptedAt(signal, bars, i) && AcceptedAt(signal, bars, j)
    ensures j - i > CooldownBars(cooldown, candle)
    ensures (j - i) * candle > cooldown
  {
    AcceptedLieBefore(signal, CooldownBars(cooldown, candle), j);
    BarsOutlastCooldown(j - i, cooldown, candle);
  }

  lemma BarsOutlastCooldown(distance: nat, cooldown: nat, candle: nat)
    requires candle >= 1 && distance > CooldownBars(cooldown, candle)
    ensures distance * candle > cooldown
  {
    CeilingCovers(cooldown, candle);
    ProductsFollow(CooldownBars(cooldown, candle), CooldownBars(cooldown, candle), candle);
    ProductsFollow(CooldownBars(cooldown, candle) + 1, distance, candle);
  }

  lemma CeilingCovers(cooldown: nat, candle: nat)
    requires candle >= 1
    ensures var bars := CooldownBars(cooldown, candle);
            cooldown <= bars * candle < cooldown + candle && (cooldown % candle == 0 <==> bars * candle == cooldown)
  {
    var bars := CooldownBars(cooldown, candle);
    DivisionRest(cooldown + candle - 1, candle);
    DivisionRest(cooldown, candle);
    if bars * candle == cooldown {
      RemainderIs(cooldown, candle, bars, 0);
    } else if cooldown % candle == 0 {
      RemainderIs(cooldown + candle - 1, candle, cooldown / candle, candle - 1);
    }
  }

  /** Each trigger is covered by an accepted one at most `bars` before it (itself, if accepted). */
  lemma EveryTriggerIsCovered(signal: seq<bool>, bars: nat, t: nat) returns (a: nat)
    requires t < |signal| && signal[t]
    ensures a <= t && t - a <= bars && AcceptedAt(signal, bars, a)
    ensures !AcceptedAt(signal, bars, t) ==> a < t
  {
    AcceptedLieBefore(signal, bars, t);
    a := if AcceptedAt(signal, bars, t) then t else LastAccepted(signal, bars, t);
  }

  ghost function Accepted(signal: seq<bool>, bars: nat): set<nat> {
    set i: nat | i < |signal| && AcceptedAt(signal, bars, i)
  }

  ghost predicate Schedule(signal: seq<bool>, bars: nat, times: set<nat>) {
    && (forall t :: t in times ==> t < |signal| && signal[t])
    && forall s, t :: s in times && t in times && s < t ==> t - s > bars
  }

  /** Pairing each time of any schedule with a distinct accepted trigger. */
  lemma {:induction false} ScheduleInjects(signal: seq<bool>, bars: nat, times: set<nat>)
    returns (covers: map<nat, nat>)
    requires Schedule(signal, bars, times)
    ensures covers.Keys == times && covers.Values <= Accepted(signal, bars)
    ensures forall t :: t in times ==> covers[t] <= t && t - covers[t] <= bars
    ensures |covers.Values| == |times|
    decreases times
  {
    if times == {} {
      covers := map[];
    } else {
      var t := Pick(times);
      var rest := ScheduleInjects(signal, bars, times - {t});
      var a := EveryTriggerIsCovered(signal, bars, t);
      forall s | s in rest ensures rest[s] != a {
        CoversStayApart(s, t, rest[s], a, bars);
      }
      covers := rest[t := a];
      ValuesGrow(rest, t, a);
    }
  }

  lemma CoversStayApart(s: nat, t: nat, a: nat, b: nat, bars: nat)
    requires s != t && (s < t ==> t - s > bars) && (t < s ==> s - t > bars)
    requires a <= s && s - a <= bars && b <= t && t - b <= bars
    ensures a != b
  {
  }

  lemma ValuesGrow<K, V>(m: map<K, V>, k: K, v: V)
    requires k !in m && v !in m.Values
    ensures m[k := v].Values == m.Values + {v} && |m[k := v].Values| == |m.Values| + 1
  {
    var m' := m[k := v];
    forall x | x in m.Values + {v} ensures x in m'.Values {
      if x == v {
        assert m'[k] == x;
      } else {
        var j :| j in m && m[j] == x;
        assert m'[j] == x;
      }
    }
  }

  /** Measured in whole candles the greedy cooldown is an optimal schedule: it is itself spaced, and no spaced set
      of triggers is larger. */
  lemma CooldownIsOptimal(signal: seq<bool>, bars: nat, times: set<nat>)
    requires Schedule(signal, bars, times)
    ensures Schedule(signal, bars, Accepted(signal, bars)) && |times| <= |Accepted(signal, bars)|
  {
    var covers := ScheduleInjects(signal, bars, times);
    SubsetIsSmaller(covers.Values, Accepted(signal, bars));
    forall s, t | s in Accepted(signal, bars) && t in Accepted(signal, bars) && s < t
      ensures t - s > bars
    {
      AcceptedLieBefore(signal, bars, t);
    }
  }

  /** Triggers pairwise more than the configured seconds apart. */
  ghost predicate ScheduleInSeconds(signal: seq<bool>, cooldown: nat, candle: nat, times: set<nat>) {
    && (forall t :: t in times ==> t < |signal| && signal[t])
    && forall s, t :: s in times && t in times && s < t ==> (t - s) * candle > cooldown
  }

  ghost predicate NoLargerSchedule(signal: seq<bool>, cooldown: nat, candle: nat)
    requires candle >= 1
  {
    forall times :: ScheduleInSeconds(signal, cooldown, candle, times) ==>
      |times| <= |Accepted(signal, CooldownBars(cooldown, candle))|
  }

  /** When the candle length divides the cooldown, seconds and candles ask for the same spacing. */
  lemma SecondsAreCandles(signal: seq<bool>, cooldown: nat, candle: nat, times: set<nat>)
    requires candle >= 1 && cooldown % candle == 0 && ScheduleInSeconds(signal, cooldown, candle, times)
    ensures Schedule(signal, CooldownBars(cooldown, candle), times)
  {
    var bars := CooldownBars(cooldown, candle);
    CeilingCovers(cooldown, candle);
    forall s, t | s in times && t in times && s < t ensures t - s > bars {
      if t - s <= bars {
        ProductsFollow(t - s, bars, candle);
      }
    }
  }

  /** Otherwise triggers at 0 and `bars` are far enough apart, but only the first is accepted. */
  lemma RoundedUpCooldownLosesATrigger(cooldown: nat, candle: nat) returns (signal: seq<bool>)
    requires candle >= 1 && cooldown % candle != 0
    ensures !NoLargerSchedule(signal, cooldown, candle)
  {
    var bars := CooldownBars(cooldown, candle);
    CeilingCovers(cooldown, candle);
    signal := seq(bars + 1, i => i == 0 || i == bars);
    var times: set<nat> := {0, bars};
    assert ScheduleInSeconds(signal, cooldown, candle, times);
    forall i: nat | i in Accepted(signal, bars) ensures i in {0} {
      if i == bars {
        OnlyFirstAccepted(signal, bars, bars);
      }
    }
    SubsetIsSmaller(Accepted(signal, bars), {0});
    assert |times| == 2;
  }

  /** Measured in the configured seconds, the greedy cooldown is optimal for every signal exactly when the candle
      length divides it. */
  lemma OptimalInSecondsIffCandleDivides(cooldown: nat, candle: nat)
    requires candle >= 1
    ensures cooldown % candle == 0 <==> forall signal: seq<bool> :: NoLargerSchedule(signal, cooldown, candle)
  {
    if cooldown % candle == 0 {
      forall signal: seq<bool> ensures NoLargerSchedule(signal, cooldown, candle) {
        forall times | ScheduleInSeconds(signal, cooldown, candle, times)
          ensures |times| <= |Accepted(signal, CooldownBars(cooldown, candle))|
        {
          SecondsAreCandles(signal, cooldown, candle, times);
          CooldownIsOptimal(signal, CooldownBars(cooldown, candle), times);
        }
      }
    } else {
      var signal := RoundedUpCooldownLosesATrigger(cooldown, candle);
    }
  }

  ghost predicate RejectedWithinCooldown(signal: seq<bool>, cooldown: nat, candle: nat, t: nat)
    requires candle >= 1 && t < |signal|
  {
    exists a: nat :: a < t && AcceptedAt(signal, CooldownBars(cooldown, candle), a) && (t - a) * candle <= cooldown
  }

  /** Counting in whole candles rounds the cooldown up: a rejected trigger is always within the cooldown of an
      accepted one exactly when the candle length divides it. */
  lemma RejectionIsExactIffCandleDivides(cooldown: nat, candle: nat)
    requires candle >= 1
    ensures cooldown % candle == 0 <==>
            forall signal: seq<bool>, t: nat ::
              t < |signal| && signal[t] && !AcceptedAt(signal, CooldownBars(cooldown, candle), t) ==>
                RejectedWithinCooldown(signal, cooldown, candle, t)
  {
    var bars := CooldownBars(cooldown, candle);
    CeilingCovers(cooldown, candle);
    if cooldown % candle == 0 {
      forall signal: seq<bool>, t: nat | t < |signal| && signal[t] && !AcceptedAt(signal, bars, t)
        ensures RejectedWithinCooldown(signal, cooldown, candle, t)
      {
        var a := EveryTriggerIsCovered(signal, bars, t);
        ProductsFollow(t - a, bars, candle);
      }
    } else {
      var signal := seq(bars + 1, i => i == 0 || i == bars);
      OnlyFirstAccepted(signal, bars, bars);
      assert signal[bars] && !AcceptedAt(signal, bars, bars);
      forall a: nat | a < bars && AcceptedAt(signal, bars, a)
        ensures (bars - a) * candle > cooldown
      {
        assert a == 0;
      }
      assert !RejectedWithinCooldown(signal, cooldown, candle, bars);
    }
  }

  lemma {:induction false} OnlyFirstAccepted(signal: seq<bool>, bars: nat, n: nat)
    requires bars >= 1 && |signal| == bars + 1 && 1 <= n <= bars
    requires forall i :: 0 <= i <= bars ==> signal[i] == (i == 0 || i == bars)
    ensures LastAccepted(signal, bars, n) == 0
  {
    if n == 1 {
      assert LastAccepted(signal, bars, 0) == -(bars as int) - 1;
    } else {
      OnlyFirstAccepted(signal, bars, n - 1);
    }
  }

  // ---------- no look-ahead, all the way to the accepted signal ----------

  lemma {:induction false} CooldownSeesNoFuture(signal: seq<bool>, bars: nat, n: nat, i: nat)
    requires i <= n <= |signal|
    ensures LastAccepted(signal[..n], bars, i) == LastAccepted(signal, bars, i)
    ensures i < n ==> AcceptedAt(signal[..n], bars, i) == AcceptedAt(signal, bars, i)
  {
    if i > 0 {
      CooldownSeesNoFuture(signal, bars, n, i - 1);
    }
  }

  function Onsets(values: seq<Scalar>): seq<bool> {
    seq(|values|, i requires 0 <= i < |values| => OnsetAt(values, i))
  }

  function Cooled(signal: seq<bool>, cooldown: nat, candle: nat): seq<bool>
    requires candle >= 1
  {
    seq(|signal|, i requires 0 <= i < |signal| => AcceptedAt(signal, CooldownBars(cooldown, candle), i))
  }

  /** The events the engine scores for one dataset and parameter choice. */
  ghost function Events(g: Graph, columns: Values, env: Env, cooldown: nat): Result<seq<bool>, EvalError>
    requires env.minutes >= 1
  {
    match Evaluated(g, columns, env)
    case Err(e) => Err(e)
    case Ok(all) =>
      if g.signal in all then Ok(Cooled(Onsets(all[g.signal]), cooldown, env.minutes * 60)) else Err(UnknownColumn)
  }

  /** The row switches on: a Boolean that holds, a number other than zero or a float that is not finite, after a row
      that is none of these. */
  ghost predicate RisingEdge(column: Column, i: nat)
    requires i < |column|
  {
    IsOn(column[i]) && (i == 0 || !IsOn(column[i - 1]))
  }

  /** What the events say about the signal column, with rows `rowSeconds` apart: each is a rising edge, any two are
      more than the cooldown apart, and every rising edge has one less than the cooldown and one row before it, or
      is one. */
  ghost predicate FollowsSignal(column: Column, events: seq<bool>, cooldown: nat, rowSeconds: nat) {
    && |events| == |column|
    && (forall i: nat :: i < |events| && events[i] ==> RisingEdge(column, i))
    && (forall i: nat, j: nat :: i < j < |events| && events[i] && events[j] ==> (j - i) * rowSeconds > cooldown)
    && (forall t: nat :: t < |column| && RisingEdge(column, t) ==> CoveredWithin(events, t, cooldown, rowSeconds))
  }

  ghost predicate CoveredWithin(events: seq<bool>, t: nat, cooldown: nat, rowSeconds: nat) {
    exists a: nat :: a <= t && a < |events| && events[a] && (t - a) * rowSeconds < cooldown + rowSeconds
  }

  lemma CooledFollowsSignal(column: Column, cooldown: nat, candle: nat)
    requires candle >= 1
    ensures FollowsSignal(column, Cooled(Onsets(column), cooldown, candle), cooldown, candle)
  {
    var raw := Onsets(column);
    var bars := CooldownBars(cooldown, candle);
    var events := Cooled(raw, cooldown, candle);
    forall i: nat, j: nat | i < j < |events| && events[i] && events[j] ensures (j - i) * candle > cooldown {
      AcceptedAreSpaced(raw, cooldown, candle, i, j);
    }
    forall t: nat | t < |column| && RisingEdge(column, t) ensures CoveredWithin(events, t, cooldown, candle) {
      assert raw[t];
      var a := EveryTriggerIsCovered(raw, bars, t);
      CeilingCovers(cooldown, candle);
      ProductsFollow(t - a, bars, candle);
      assert events[a];
    }
  }

  method RunSignal(g: Graph, columns: Values, env: Env, cooldown: nat) returns (r: Result<seq<bool>, EvalError>)
    requires env.minutes >= 1
    ensures r == Events(g, columns, env, cooldown)
    ensures r.Ok? <==> Evaluated(g, columns, env).Ok? && g.signal in Evaluated(g, columns, env).value
    ensures r.Ok? ==> FollowsSignal(Evaluated(g, columns, env).value[g.signal], r.value, cooldown, env.minutes * 60)
  {
    var evaluated := Evaluate(g, columns, env);
    if evaluated.Err? {
      return Err(evaluated.error);
    }
    if g.signal !in evaluated.value {
      return Err(UnknownColumn);
    }
    var raw := Onset(evaluated.value[g.signal]);
    assert raw == Onsets(evaluated.value[g.signal]);
    var signal := ApplyCooldown(raw, cooldown, env.minutes * 60);
    assert signal == Cooled(raw, cooldown, env.minutes * 60);
    CooledFollowsSignal(evaluated.value[g.signal], cooldown, env.minutes * 60);
    return Ok(signal);
  }

  /** The same of the events themselves. */
  lemma EventsFollowSignal(g: Graph, columns: Values, env: Env, cooldown: nat)
    requires env.minutes >= 1 && Events(g, columns, env, cooldown).Ok?
    ensures Evaluated(g, columns, env).Ok? && g.signal in Evaluated(g, columns, env).value
    ensures FollowsSignal(Evaluated(g, columns, env).value[g.signal], Events(g, columns, env, cooldown).value,
                          cooldown, env.minutes * 60)
  {
    CooledFollowsSignal(Evaluated(g, columns, env).value[g.signal], cooldown, env.minutes * 60);
  }

  /** Whatever arrives later, the events of the first n rows are already final. */
  lemma EventsSeeNoFuture(g: Graph, columns: Values, env: Env, cooldown: nat, n: nat)
    requires env.minutes >= 1 && EquallySized(columns) && n <= SizeOf(columns)
    ensures Events(g, columns, env, cooldown).Ok? ==> n <= |Events(g, columns, env, cooldown).value|
    ensures Events(g, Prefix(columns, n), env, cooldown)
         == match Events(g, columns, env, cooldown) case Err(e) => Err(e) case Ok(events) => Ok(events[..n])
  {
    NoLookAhead(g, columns, env, n);
    var whole := Evaluated(g, columns, env);
    if whole.Ok? && g.signal in whole.value {
      var candle := env.minutes * 60;
      var bars := CooldownBars(cooldown, candle);
      var column := whole.value[g.signal];
      assert |column| == SizeOf(columns);
      var raw := Onsets(column);
      assert Onsets(column[..n]) == raw[..n];
      forall i | 0 <= i < n ensures AcceptedAt(raw[..n], bars, i) == AcceptedAt(raw, bars, i) {
        CooldownSeesNoFuture(raw, bars, n, i);
      }
      assert Cooled(raw[..n], cooldown, candle) == Cooled(raw, cooldown, candle)[..n];
    }
  }

  // ---------- labels ----------

  /** Did price move by the threshold within the next `bars` rows; None when the horizon or the close is unusable. */
  function LabelAt(high: seq<real>, low: seq<real>, close: seq<real>, bars: nat, threshold: real, i: nat): Option<bool>
    requires |high| == |low| == |close| && i < |close| && bars >= 1
  {
    if i + 1 + bars > |close| || close[i] <= 0.0 then None
    else Some(Largest(high[i + 1..i + 1 + bars]) / close[i] - 1.0 >= threshold
              || 1.0 - Smallest(low[i + 1..i + 1 + bars]) / close[i] >= threshold)
  }

  /** A horizon shorter than one candle asks for the extreme of nothing, which raises at the first usable close. */
  method FutureAbsoluteMoveLabels(
      high: seq<real>, low: seq<real>, close: seq<real>, horizonHours: nat, candle: nat, threshold: real)
    returns (r: Result<seq<Option<bool>>, ()>)
    requires |high| == |low| == |close| && candle >= 1
    ensures r.Err? <==> horizonHours * 3600 < candle && exists i :: 0 <= i < |close| && close[i] > 0.0
    ensures r.Ok? ==> |r.value| == |close|
    ensures r.Ok? && horizonHours * 3600 < candle ==> forall i :: 0 <= i < |close| ==> r.value[i] == None
    ensures r.Ok? && horizonHours * 3600 >= candle ==>
              forall i :: 0 <= i < |close| ==>
                r.value[i] == LabelAt(high, low, close, horizonHours * 3600 / candle, threshold, i)
  {
    var bars := horizonHours * 3600 / candle;
    HorizonBars(horizonHours * 3600, candle);
    var labels: seq<Option<bool>> := [];
    for i := 0 to |close|
      invariant |labels| == i
      invariant bars == 0 ==> forall j :: 0 <= j < i ==> close[j] <= 0.0 && labels[j] == None
      invariant bars >= 1 ==> forall j :: 0 <= j < i ==> labels[j] == LabelAt(high, low, close, bars, threshold, j)
    {
      if i + 1 + bars > |close| || close[i] <= 0.0 {
        if bars == 0 {
          assert close[i] <= 0.0;
        }
        labels := labels + [None];
      } else if bars == 0 {
        return Err(());
      } else {
        var up := Largest(high[i + 1..i + 1 + bars]) / close[i] - 1.0 >= threshold;
        var down := 1.0 - Smallest(low[i + 1..i + 1 + bars]) / close[i] >= threshold;
        labels := labels + [Some(up || down)];
      }
    }
    return Ok(labels);
  }

  lemma HorizonBars(seconds: nat, candle: nat)
    requires candle >= 1
    ensures seconds / candle == 0 <==> seconds < candle
  {
    DivisionRest(seconds, candle);
    if seconds / candle >= 1 {
      ProductsFollow(1, seconds / candle, candle);
    } else {
      RemainderIs(seconds, candle, 0, seconds % candle);
    }
  }

  lemma QuotientsFollow(a: real, b: real, c: real)
    requires c > 0.0 && a <= b
    ensures a / c <= b / c
  {
    assert b / c - a / c == (b - a) / c;
  }

  /** There is no label exactly when the horizon reaches past the last row or the close is not positive. */
  lemma NoLabelIff(high: seq<real>, low: seq<real>, close: seq<real>, bars: nat, threshold: real, i: nat)
    requires |high| == |low| == |close| && i < |close| && bars >= 1
    ensures LabelAt(high, low, close, bars, threshold, i) == None <==> i + bars >= |close| || close[i] <= 0.0
  {
  }

  /** The label says exactly: some row within the horizon moved up or down by the threshold. */
  lemma LabelMeansSomeMove(high: seq<real>, low: seq<real>, close: seq<real>, bars: nat, threshold: real, i: nat)
    requires |high| == |low| == |close| && i < |close| && bars >= 1 && i + 1 + bars <= |close| && close[i] > 0.0
    ensures LabelAt(high, low, close, bars, threshold, i) == Some(
              exists j :: i < j <= i + bars
                && (high[j] / close[i] - 1.0 >= threshold || 1.0 - low[j] / close[i] >= threshold))
  {
    var highs, lows := high[i + 1..i + 1 + bars], low[i + 1..i + 1 + bars];
    LargestIsAttained(highs);
    SmallestIsAttained(lows);
    var top, bottom := Largest(highs), Smallest(lows);
    var up :| 0 <= up < bars && highs[up] == top;
    var down :| 0 <= down < bars && lows[down] == bottom;
    assert high[i + 1 + up] == top && low[i + 1 + down] == bottom;
    forall j | i < j <= i + bars
      ensures high[j] / close[i] <= top / close[i] && bottom / close[i] <= low[j] / close[i]
    {
      assert high[j] == highs[j - i - 1] && low[j] == lows[j - i - 1];
      QuotientsFollow(high[j], top, close[i]);
      QuotientsFollow(bottom, low[j], close[i]);
    }
  }

  /** A label is final once its horizon has passed; before that the prefix has none. This is how far the last
      selection rows read into the holdout. */
  lemma LabelsSettleAfterHorizon(
      high: seq<real>, low: seq<real>, close: seq<real>, bars: nat, threshold: real, n: nat, i: nat)
    requires |high| == |low| == |close| && i < n <= |close| && bars >= 1
    ensures LabelAt(high[..n], low[..n], close[..n], bars, threshold, i)
         == if i + bars < n then LabelAt(high, low, close, bars, threshold, i) else None
  {
    if i + bars < n {
      assert high[..n][i + 1..i + 1 + bars] == high[i + 1..i + 1 + bars];
      assert low[..n][i + 1..i + 1 + bars] == low[i + 1..i + 1 + bars];
    }
  }

  // ---------- counters ----------

  datatype Counters = Counters(signals: nat, hits: nat, observations: nat, positives: nat)

  datatype Part = Part(signal: seq<bool>, labels: seq<Option<bool>>)

  /** How many rows of a part satisfy a property of (triggered, label). */
  function CountRows(p: Part, n: nat, wanted: (bool, bool) -> bool): nat
    requires |p.signal| == |p.labels| && n <= |p.signal|
  {
    if n == 0 then 0
    else CountRows(p, n - 1, wanted)
         + if p.labels[n - 1].Some? && wanted(p.signal[n - 1], p.labels[n - 1].value) then 1 else 0
  }

  /** That is, the size of the set of such rows. */
  lemma {:induction false} CountRowsIsCardinality(p: Part, n: nat, wanted: (bool, bool) -> bool)
    requires |p.signal| == |p.labels| && n <= |p.signal|
    ensures var rows := set i | 0 <= i < n && p.labels[i].Some? && wanted(p.signal[i], p.labels[i].value);
            CountRows(p, n, wanted) == |rows|
  {
    if n > 0 {
      CountRowsIsCardinality(p, n - 1, wanted);
      var all := set i | 0 <= i < n && p.labels[i].Some? && wanted(p.signal[i], p.labels[i].value);
      var some := set i | 0 <= i < n - 1 && p.labels[i].Some? && wanted(p.signal[i], p.labels[i].value);
      assert all == some + if n - 1 in all then {n - 1} else {};
    }
  }

  function CountAll(parts: seq<Part>, wanted: (bool, bool) -> bool): nat
    requires forall p :: p in parts ==> |p.signal| == |p.labels|
  {
    if parts == [] then 0
    else
      var p := parts[|parts| - 1];
      CountAll(parts[..|parts| - 1], wanted) + CountRows(p, |p.signal|, wanted)
  }

  function Tally(parts: seq<Part>): Counters
    requires forall p :: p in parts ==> |p.signal| == |p.labels|
  {
    Counters(CountAll(parts, (t, l) => t), CountAll(parts, (t, l) => t && l), CountAll(parts, (t, l) => true),
             CountAll(parts, (t, l) => l))
  }

  method CountMetrics(parts: seq<Part>) returns (c: Counters)
    requires forall p :: p in parts ==> |p.signal| == |p.labels|
    ensures c.signals == CountAll(parts, (triggered, moved) => triggered)
    ensures c.hits == CountAll(parts, (triggered, moved) => triggered && moved)
    ensures c.observations == CountAll(parts, (triggered, moved) => true)
    ensures c.positives == CountAll(parts, (triggered, moved) => moved)
    ensures c.hits <= c.signals <= c.observations && c.hits <= c.positives <= c.observations
    ensures c.signals + c.positives - c.hits <= c.observations
  {
    c := Counters(0, 0, 0, 0);
    for k := 0 to |parts|
      invariant c == Tally(parts[..k])
      invariant c.hits <= c.signals && c.hits <= c.positives && c.signals + c.positives - c.hits <= c.observations
    {
      assert parts[..k + 1][..k] == parts[..k];
      var p := parts[k];
      ghost var before := c;
      for i := 0 to |p.signal|
        invariant c.signals == before.signals + CountRows(p, i, (t, l) => t)
        invariant c.hits == before.hits + CountRows(p, i, (t, l) => t && l)
        invariant c.observations == before.observations + CountRows(p, i, (t, l) => true)
        invariant c.positives == before.positives + CountRows(p, i, (t, l) => l)
        invariant c.hits <= c.signals && c.hits <= c.positives && c.signals + c.positives - c.hits <= c.observations
      {
        if p.labels[i].Some? {
          var moved := p.labels[i].value;
          c := c.(observations := c.observations + 1, positives := c.positives + if moved then 1 else 0);
          if p.signal[i] {
            c := c.(signals := c.signals + 1, hits := c.hits + if moved then 1 else 0);
          }
        }
      }
    }
    assert parts[..|parts|] == parts;
  }
}
