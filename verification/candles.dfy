/** Bounded rolling candle windows, and the contiguous closed window read from them. */
module Candles {
  import opened Common

  datatype Bar = Bar(open: real, high: real, low: real, close: real, baseVolume: real, quoteVolume: Option<real>)

  datatype Candle = Candle(instrument: string, receivedAt: int, interval: string, openTime: int, closeTime: int,
                           bar: Bar, isClosed: bool, takerBuyBase: Option<real>, takerBuyQuote: Option<real>) {
    function WindowKey(): Key { Key(instrument, interval) }
  }

  datatype Key = Key(instrument: string, interval: string)

  type Windows = map<Key, seq<Candle>>

  // ---------- one window ----------

  /** A closed bar replayed unchanged; live bars are refreshed even when unchanged. */
  predicate DuplicateClosed(existing: Candle, current: Candle) {
    && existing.isClosed && current.isClosed
    && (existing.interval, existing.openTime, existing.closeTime, existing.bar)
       == (current.interval, current.openTime, current.closeTime, current.bar)
  }

  predicate Refuses(existing: Candle, current: Candle) {
    (existing.isClosed && !current.isClosed) || DuplicateClosed(existing, current)
  }

  function Preferred(existing: Candle, current: Candle): Candle {
    if Refuses(existing, current) then existing else current
  }

  function FirstAt(window: seq<Candle>, t: int, from: nat): (r: Option<nat>)
    requires from <= |window|
    ensures r.Some? ==> from <= r.value < |window| && window[r.value].openTime == t
    ensures r.None? ==> forall i :: from <= i < |window| ==> window[i].openTime != t
    decreases |window| - from
  {
    if from == |window| then None
    else if window[from].openTime == t then Some(from)
    else FirstAt(window, t, from + 1)
  }

  /** The last entry is looked at first, then the window from its oldest entry. */
  function Slot(window: seq<Candle>, t: int): (r: Option<nat>)
    ensures r.Some? ==> r.value < |window| && window[r.value].openTime == t
    ensures r.None? ==> forall i :: 0 <= i < |window| ==> window[i].openTime != t
  {
    if window != [] && window[|window| - 1].openTime == t then Some(|window| - 1) else FirstAt(window, t, 0)
  }

  function Upserted(window: seq<Candle>, candle: Candle, maxSize: nat): (seq<Candle>, bool) {
    if window == [] || candle.openTime > window[|window| - 1].openTime then (LastOf(window + [candle], maxSize), true)
    else
      match Slot(window, candle.openTime)
      case None => (window, false)
      case Some(i) => if Refuses(window[i], candle) then (window, false) else (window[i := candle], true)
  }

  function WindowOf(windows: Windows, key: Key): seq<Candle> {
    if key in windows then windows[key] else []
  }

  // ---------- the store ----------

  datatype Event = Arrive(candle: Candle) | Forget(instrument: string)

  function Stepped(windows: Windows, event: Event, maxSize: nat): Windows {
    match event
    case Arrive(candle) =>
      windows[candle.WindowKey() := Upserted(WindowOf(windows, candle.WindowKey()), candle, maxSize).0]
    case Forget(instrument) => map key | key in windows && key.instrument != instrument :: windows[key]
  }

  function Run(windows: Windows, events: seq<Event>, maxSize: nat): Windows
    decreases |events|
  {
    if events == [] then windows
    else Stepped(Run(windows, events[..|events| - 1], maxSize), events[|events| - 1], maxSize)
  }

  function AsArrivals(candles: seq<Candle>): (r: seq<Event>)
    ensures |r| == |candles|
  {
    seq(|candles|, i requires 0 <= i < |candles| => Arrive(candles[i]))
  }

  predicate Ascending(candles: seq<Candle>) {
    forall i, j :: 0 <= i < j < |candles| ==> candles[i].openTime <= candles[j].openTime
  }

  predicate StrictlyAscending(candles: seq<Candle>) {
    forall i, j :: 0 <= i < j < |candles| ==> candles[i].openTime < candles[j].openTime
  }

  /** Stable insertion: after every candle that opens no later. */
  function Inserted(sorted: seq<Candle>, candle: Candle): seq<Candle> {
    if sorted == [] || sorted[|sorted| - 1].openTime <= candle.openTime then sorted + [candle]
    else Inserted(sorted[..|sorted| - 1], candle) + [sorted[|sorted| - 1]]
  }

  function SortedByOpen(candles: seq<Candle>): seq<Candle> {
    if candles == [] then [] else Inserted(SortedByOpen(candles[..|candles| - 1]), candles[|candles| - 1])
  }

  class CandleWindowStore {
    const maxSize: nat
    var windows: Windows

    constructor (maxSize: nat)
      requires maxSize >= 1
      ensures this.maxSize == maxSize && windows == map[]
    {
      this.maxSize := maxSize;
      windows := map[];
    }

    method Upsert(candle: Candle) returns (accepted: bool)
      modifies this
      ensures windows == Stepped(old(windows), Arrive(candle), maxSize)
      ensures accepted == Upserted(WindowOf(old(windows), candle.WindowKey()), candle, maxSize).1
    {
      var key := candle.WindowKey();
      if key !in windows {
        windows := windows[key := []];
      }
      var window := windows[key];
      if window == [] || candle.openTime > window[|window| - 1].openTime {
        windows := windows[key := LastOf(window + [candle], maxSize)];
        return true;
      }
      if candle.openTime == window[|window| - 1].openTime {
        if Refuses(window[|window| - 1], candle) {
          assert windows == old(windows)[key := window];
          return false;
        }
        windows := windows[key := window[|window| - 1 := candle]];
        return true;
      }
      for index := 0 to |window|
        invariant windows == old(windows)[key := window]
        invariant FirstAt(window, candle.openTime, 0) == FirstAt(window, candle.openTime, index)
      {
        if window[index].openTime == candle.openTime {
          if Refuses(window[index], candle) {
            return false;
          }
          windows := windows[key := window[index := candle]];
          return true;
        }
      }
      return false;
    }

    method Extend(candles: seq<Candle>)
      modifies this
      ensures windows == Run(old(windows), AsArrivals(SortedByOpen(candles)), maxSize)
    {
      var sorted := SortedByOpen(candles);
      ghost var events := AsArrivals(sorted);
      for i := 0 to |sorted|
        invariant windows == Run(old(windows), events[..i], maxSize)
      {
        assert events[..i + 1][..i] == events[..i];
        var _ := Upsert(sorted[i]);
      }
      assert events[..|sorted|] == events;
    }

    method Invalidate(instrument: string)
      modifies this
      ensures windows == Stepped(old(windows), Forget(instrument), maxSize)
    {
      windows := map key | key in windows && key.instrument != instrument :: windows[key];
    }
  }

  // ---------- what a window holds after any run ----------

  /** The candles of one key, in order of arrival, since its instrument was last invalidated. */
  function Arrivals(key: Key, events: seq<Event>): seq<Candle> {
    if events == [] then []
    else
      var before := Arrivals(key, events[..|events| - 1]);
      match events[|events| - 1]
      case Arrive(candle) =>
        if candle.instrument == key.instrument && candle.interval == key.interval then before + [candle] else before
      case Forget(instrument) => if instrument == key.instrument then [] else before
  }

  /** Open times later than everything that arrived before them. */
  function Records(arrivals: seq<Candle>): seq<int> {
    if arrivals == [] then []
    else
      var before := Records(arrivals[..|arrivals| - 1]);
      var t := arrivals[|arrivals| - 1].openTime;
      if before == [] || t > before[|before| - 1] then before + [t] else before
  }

  /** All arrivals for one open time folded together: a closed candle never yields to an open one. */
  function Resolved(arrivals: seq<Candle>, t: int): Option<Candle> {
    if arrivals == [] then None
    else
      var candle := arrivals[|arrivals| - 1];
      var before := Resolved(arrivals[..|arrivals| - 1], t);
      if candle.openTime != t then before
      else if before.None? then Some(candle)
      else Some(Preferred(before.value, candle))
  }

  function OpenTimes(candles: seq<Candle>): (r: seq<int>)
    ensures |r| == |candles|
  {
    seq(|candles|, i requires 0 <= i < |candles| => candles[i].openTime)
  }

  /** The window holds the latest `maxSize` record times, each with everything that arrived for it. */
  ghost predicate Holds(window: seq<Candle>, arrivals: seq<Candle>, maxSize: nat) {
    && OpenTimes(window) == LastOf(Records(arrivals), maxSize)
    && forall i :: 0 <= i < |window| ==> Resolved(arrivals, window[i].openTime) == Some(window[i])
  }

  ghost predicate Increasing(xs: seq<int>) {
    forall i, j :: 0 <= i < j < |xs| ==> xs[i] < xs[j]
  }

  lemma {:induction false} RecordsIncrease(arrivals: seq<Candle>)
    ensures Increasing(Records(arrivals))
    ensures arrivals != [] ==> Records(arrivals) != []
    ensures forall a :: a in arrivals ==> a.openTime <= Records(arrivals)[|Records(arrivals)| - 1]
  {
    if arrivals != [] {
      var before := arrivals[..|arrivals| - 1];
      RecordsIncrease(before);
      forall a | a in arrivals ensures a.openTime <= Records(arrivals)[|Records(arrivals)| - 1] {
        if a in before {
        } else {
          assert a == arrivals[|arrivals| - 1];
        }
      }
    }
  }

  lemma {:induction false} UnseenIsUnresolved(arrivals: seq<Candle>, t: int)
    requires forall a :: a in arrivals ==> a.openTime != t
    ensures Resolved(arrivals, t) == None
  {
    if arrivals != [] {
      assert arrivals[|arrivals| - 1] in arrivals;
      UnseenIsUnresolved(arrivals[..|arrivals| - 1], t);
    }
  }

  lemma HoldsAscends(window: seq<Candle>, arrivals: seq<Candle>, maxSize: nat)
    requires maxSize >= 1 && Holds(window, arrivals, maxSize)
    ensures StrictlyAscending(window)
    ensures window == [] <==> Records(arrivals) == []
    ensures window != [] ==> window[|window| - 1].openTime == Records(arrivals)[|Records(arrivals)| - 1]
  {
    RecordsIncrease(arrivals);
    SuffixIncreases(Records(arrivals), maxSize);
    TimesAscend(window);
  }

  lemma SuffixIncreases(times: seq<int>, n: nat)
    requires Increasing(times) && n >= 1
    ensures var last := LastOf(times, n);
            && Increasing(last) && (last == [] <==> times == [])
            && (times != [] ==> last[|last| - 1] == times[|times| - 1])
  {
  }

  lemma TimesAscend(candles: seq<Candle>)
    requires Increasing(OpenTimes(candles))
    ensures StrictlyAscending(candles)
    ensures candles != [] ==> OpenTimes(candles)[|candles| - 1] == candles[|candles| - 1].openTime
  {
    forall i, j | 0 <= i < j < |candles| ensures candles[i].openTime < candles[j].openTime {
      assert OpenTimes(candles)[i] < OpenTimes(candles)[j];
    }
  }

  lemma RecordsGrow(arrivals: seq<Candle>, candle: Candle)
    ensures var records := Records(arrivals);
            if records == [] || candle.openTime > records[|records| - 1]
            then
              && Records(arrivals + [candle]) == records + [candle.openTime]
              && Resolved(arrivals, candle.openTime) == None
            else Records(arrivals + [candle]) == records
  {
    assert (arrivals + [candle])[..|arrivals|] == arrivals;
    RecordsIncrease(arrivals);
    var records := Records(arrivals);
    if records == [] || candle.openTime > records[|records| - 1] {
      UnseenIsUnresolved(arrivals, candle.openTime);
    }
  }

  lemma UpsertKeepsHolding(window: seq<Candle>, arrivals: seq<Candle>, candle: Candle, maxSize: nat)
    requires maxSize >= 1 && Holds(window, arrivals, maxSize)
    ensures Holds(Upserted(window, candle, maxSize).0, arrivals + [candle], maxSize)
  {
    HoldsAscends(window, arrivals, maxSize);
    RecordsGrow(arrivals, candle);
    if window == [] || candle.openTime > window[|window| - 1].openTime {
      AppendKeepsHolding(window, arrivals, candle, maxSize);
    } else {
      LateKeepsHolding(window, arrivals, candle, maxSize);
    }
  }

  /** An arrival that is no record touches the entry for its open time, if that is still held, and nothing else. */
  lemma LateKeepsHolding(window: seq<Candle>, arrivals: seq<Candle>, candle: Candle, maxSize: nat)
    requires Holds(window, arrivals, maxSize) && StrictlyAscending(window)
    requires Records(arrivals + [candle]) == Records(arrivals)
    requires window != [] && candle.openTime <= window[|window| - 1].openTime
    ensures Holds(Upserted(window, candle, maxSize).0, arrivals + [candle], maxSize)
  {
    var later := arrivals + [candle];
    var upserted := Upserted(window, candle, maxSize).0;
    assert OpenTimes(upserted) == OpenTimes(window);
    forall i | 0 <= i < |window| ensures Resolved(later, upserted[i].openTime) == Some(upserted[i]) {
      assert later[..|later| - 1] == arrivals;
      assert Resolved(arrivals, window[i].openTime) == Some(window[i]);
    }
  }

  lemma AppendKeepsHolding(window: seq<Candle>, arrivals: seq<Candle>, candle: Candle, maxSize: nat)
    requires maxSize >= 1 && Holds(window, arrivals, maxSize)
    requires Resolved(arrivals, candle.openTime) == None
    requires Records(arrivals + [candle]) == Records(arrivals) + [candle.openTime]
    ensures Holds(LastOf(window + [candle], maxSize), arrivals + [candle], maxSize)
  {
    var later := arrivals + [candle];
    assert later[..|later| - 1] == arrivals;
    LastOfGrows(Records(arrivals), candle.openTime, maxSize);
    var kept := LastOf(window + [candle], maxSize);
    assert OpenTimes(window + [candle]) == OpenTimes(window) + [candle.openTime];
    assert OpenTimes(kept) == LastOf(OpenTimes(window + [candle]), maxSize);
    forall i | 0 <= i < |kept| ensures Resolved(later, kept[i].openTime) == Some(kept[i]) {
      if i < |kept| - 1 {
        assert kept[i] in window;
      }
    }
  }

  /** An accepted candle is in the window, a refused one leaves it alone, and sending either again changes nothing;
      a closed candle is refused the second time. */
  lemma UpsertIsIdempotent(window: seq<Candle>, candle: Candle, maxSize: nat)
    requires maxSize >= 1 && StrictlyAscending(window)
    ensures var (once, accepted) := Upserted(window, candle, maxSize);
            && (accepted ==> candle in once)
            && (!accepted ==> once == window)
            && Upserted(once, candle, maxSize).0 == once
            && (Upserted(once, candle, maxSize).1 <==> accepted && !candle.isClosed)
  {
    var (once, accepted) := Upserted(window, candle, maxSize);
    if window == [] || candle.openTime > window[|window| - 1].openTime {
      assert once[|once| - 1] == candle;
    } else if accepted {
      var i := Slot(window, candle.openTime).value;
      assert once[i] == candle;
      assert once[i := candle] == once;
    }
  }

  /** The window of one key depends only on that key's arrivals since its last invalidation. */
  lemma {:induction false} StoreHoldsEveryKey(key: Key, events: seq<Event>, maxSize: nat)
    requires maxSize >= 1
    ensures Holds(WindowOf(Run(map[], events, maxSize), key), Arrivals(key, events), maxSize)
  {
    if events != [] {
      var before := events[..|events| - 1];
      StoreHoldsEveryKey(key, before, maxSize);
      var windows := Run(map[], before, maxSize);
      var event := events[|events| - 1];
      if event.Arrive? && event.candle.WindowKey() == key {
        UpsertKeepsHolding(WindowOf(windows, key), Arrivals(key, before), event.candle, maxSize);
      }
    }
  }

  lemma {:induction false} ClosedStaysClosed(arrivals: seq<Candle>, t: int, closed: Candle)
    requires closed in arrivals && closed.isClosed && closed.openTime == t
    ensures Resolved(arrivals, t).Some? && Resolved(arrivals, t).value.isClosed
  {
    var before := arrivals[..|arrivals| - 1];
    if closed in before {
      ClosedStaysClosed(before, t, closed);
    } else {
      assert arrivals[|arrivals| - 1] == closed;
    }
  }

  /** Once a closed candle has arrived, the window never shows an open one for that time again. */
  lemma WindowNeverReopens(key: Key, events: seq<Event>, maxSize: nat, closed: Candle, shown: Candle)
    requires maxSize >= 1
    requires closed in Arrivals(key, events) && closed.isClosed
    requires shown in WindowOf(Run(map[], events, maxSize), key) && shown.openTime == closed.openTime
    ensures shown.isClosed
  {
    StoreHoldsEveryKey(key, events, maxSize);
    ClosedStaysClosed(Arrivals(key, events), closed.openTime, closed);
  }

  /** What becomes of an arrival for an open time the window holds: an open candle never replaces a closed one, nor
      does a closed one with the same interval, times and bar, whenever it was received; every other arrival takes
      the entry's place. An arrival no later than the window that finds no entry is refused. */
  lemma UpsertDecides(window: seq<Candle>, candle: Candle, maxSize: nat)
    requires StrictlyAscending(window) && window != [] && candle.openTime <= window[|window| - 1].openTime
    ensures var (after, accepted) := Upserted(window, candle, maxSize);
            && ((exists i :: 0 <= i < |window| && window[i].openTime == candle.openTime)
                || (after == window && !accepted))
            && forall i :: 0 <= i < |window| && window[i].openTime == candle.openTime ==>
                 var shown := window[i];
                 && after == (if accepted then window[i := candle] else window)
                 && (accepted <==>
                      !shown.isClosed
                      || (candle.isClosed && !(shown.interval == candle.interval && SameBar(shown, candle))))
  {
  }

  /** The rest of the two candles, in particular when they were received, does not matter. */
  predicate SameBar(a: Candle, b: Candle) {
    a.openTime == b.openTime && a.closeTime == b.closeTime && a.bar == b.bar
  }

  /** The last arrival for an open time, or the last closed one. */
  function LastAt(arrivals: seq<Candle>, t: int, closedOnly: bool): Option<Candle> {
    if arrivals == [] then None
    else
      var last := arrivals[|arrivals| - 1];
      if last.openTime == t && (closedOnly ==> last.isClosed) then Some(last)
      else LastAt(arrivals[..|arrivals| - 1], t, closedOnly)
  }

  ghost predicate ShowsLatest(shown: Candle, arrivals: seq<Candle>, t: int) {
    var last, closed := LastAt(arrivals, t, false), LastAt(arrivals, t, true);
    && shown in arrivals && shown.openTime == t && last.Some?
    && (closed.None? ==> !shown.isClosed && shown == last.value)
    && (closed.Some? ==> shown.isClosed && shown.interval == closed.value.interval && SameBar(shown, closed.value))
  }

  lemma {:induction false} ResolvedIsLatest(arrivals: seq<Candle>, t: int)
    ensures LastAt(arrivals, t, true).Some? ==>
              LastAt(arrivals, t, true).value.isClosed && LastAt(arrivals, t, true).value.openTime == t
    ensures match Resolved(arrivals, t)
            case None => LastAt(arrivals, t, false).None? && LastAt(arrivals, t, true).None?
            case Some(shown) => ShowsLatest(shown, arrivals, t)
  {
    if arrivals != [] {
      var before, last := arrivals[..|arrivals| - 1], arrivals[|arrivals| - 1];
      assert arrivals == before + [last];
      ResolvedIsLatest(before, t);
    }
  }

  /** After any run, each entry of a window shows the bar of the last closed candle that arrived for its key and open
      time since the last invalidation, or the last candle that arrived when none was closed. */
  lemma WindowShowsLatest(key: Key, events: seq<Event>, maxSize: nat, shown: Candle)
    requires maxSize >= 1 && shown in WindowOf(Run(map[], events, maxSize), key)
    ensures ShowsLatest(shown, Arrivals(key, events), shown.openTime)
  {
    StoreHoldsEveryKey(key, events, maxSize);
    ResolvedIsLatest(Arrivals(key, events), shown.openTime);
  }

  // ---------- batches ----------

  lemma {:induction false} InsertedKeeps(sorted: seq<Candle>, candle: Candle)
    ensures multiset(Inserted(sorted, candle)) == multiset(sorted) + multiset{candle}
    decreases |sorted|
  {
    if sorted == [] || sorted[|sorted| - 1].openTime <= candle.openTime {
    } else {
      InsertedKeeps(sorted[..|sorted| - 1], candle);
      assert sorted == sorted[..|sorted| - 1] + [sorted[|sorted| - 1]];
    }
  }

  lemma InsertedMember(sorted: seq<Candle>, candle: Candle, c: Candle)
    ensures c in Inserted(sorted, candle) <==> c in sorted || c == candle
  {
    InsertedKeeps(sorted, candle);
    assert c in Inserted(sorted, candle) <==> c in multiset(Inserted(sorted, candle));
  }

  lemma {:induction false} InsertedAscends(sorted: seq<Candle>, candle: Candle)
    requires Ascending(sorted)
    ensures Ascending(Inserted(sorted, candle))
    decreases |sorted|
  {
    if sorted == [] || sorted[|sorted| - 1].openTime <= candle.openTime {
    } else {
      var last := sorted[|sorted| - 1];
      var rest := sorted[..|sorted| - 1];
      InsertedAscends(rest, candle);
      var front := Inserted(rest, candle);
      forall i | 0 <= i < |front| ensures front[i].openTime <= last.openTime {
        InsertedMember(rest, candle, front[i]);
      }
    }
  }

  lemma {:induction false} SortedAscends(candles: seq<Candle>)
    ensures Ascending(SortedByOpen(candles)) && multiset(SortedByOpen(candles)) == multiset(candles)
  {
    if candles != [] {
      SortedAscends(candles[..|candles| - 1]);
      InsertedAscends(SortedByOpen(candles[..|candles| - 1]), candles[|candles| - 1]);
      InsertedKeeps(SortedByOpen(candles[..|candles| - 1]), candles[|candles| - 1]);
      assert candles == candles[..|candles| - 1] + [candles[|candles| - 1]];
    }
  }

  /** In open-time order nothing arrives late: every open time is a record. */
  lemma {:induction false} SortedArrivalsAllCount(arrivals: seq<Candle>, a: Candle)
    requires Ascending(arrivals) && a in arrivals
    ensures a.openTime in Records(arrivals)
  {
    var before := arrivals[..|arrivals| - 1];
    var last := arrivals[|arrivals| - 1];
    RecordsIncrease(before);
    if a in before {
      SortedArrivalsAllCount(before, a);
    } else if before != [] {
      RecordsReach(before);
      assert before[|before| - 1] == arrivals[|arrivals| - 2];
    }
  }

  lemma {:induction false} RecordsReach(arrivals: seq<Candle>)
    requires Ascending(arrivals) && arrivals != []
    ensures Records(arrivals) != [] && Records(arrivals)[|Records(arrivals)| - 1] == arrivals[|arrivals| - 1].openTime
  {
    var before := arrivals[..|arrivals| - 1];
    if before != [] {
      RecordsReach(before);
      assert arrivals[|arrivals| - 2].openTime <= arrivals[|arrivals| - 1].openTime;
    }
  }

  /** The candles of a batch that belong to one key, in batch order. */
  function OfKey(key: Key, candles: seq<Candle>): seq<Candle> {
    if candles == [] then []
    else
      var rest, last := OfKey(key, candles[..|candles| - 1]), candles[|candles| - 1];
      if last.instrument == key.instrument && last.interval == key.interval then rest + [last] else rest
  }

  lemma {:induction false} OfKeyAscends(key: Key, candles: seq<Candle>)
    requires Ascending(candles)
    ensures Ascending(OfKey(key, candles))
    ensures Arrivals(key, AsArrivals(candles)) == OfKey(key, candles)
    ensures forall a :: a in OfKey(key, candles) <==> a in candles && a.WindowKey() == key
  {
    if candles != [] {
      var before := candles[..|candles| - 1];
      OfKeyAscends(key, before);
      assert AsArrivals(candles)[..|candles| - 1] == AsArrivals(before);
      forall a | a in OfKey(key, before) ensures a.openTime <= candles[|candles| - 1].openTime {
        assert a in before;
      }
    }
  }

  lemma SuffixIsLatest(times: seq<int>, n: nat, t: int)
    requires Increasing(times) && t in times
    ensures t in LastOf(times, n) || (|LastOf(times, n)| == n && forall u :: u in LastOf(times, n) ==> t < u)
  {
    var at :| 0 <= at < |times| && times[at] == t;
    if |times| > n && at >= |times| - n {
      assert LastOf(times, n)[at - (|times| - n)] == t;
    }
  }

  /** Extending an empty store keeps, for each key, the latest `maxSize` open times of the batch: whatever is
      missing from the window is older than all of it, and then the window is full. */
  lemma BatchKeepsLatest(batch: seq<Candle>, maxSize: nat, a: Candle)
    requires maxSize >= 1 && a in batch
    ensures var times := OpenTimes(WindowOf(Run(map[], AsArrivals(SortedByOpen(batch)), maxSize), a.WindowKey()));
            a.openTime in times || (|times| == maxSize && forall t :: t in times ==> a.openTime < t)
  {
    var sorted := SortedByOpen(batch);
    SortedAscends(batch);
    assert a in multiset(sorted);
    OfKeyAscends(a.WindowKey(), sorted);
    var arrivals := OfKey(a.WindowKey(), sorted);
    StoreHoldsEveryKey(a.WindowKey(), AsArrivals(sorted), maxSize);
    SortedArrivalsAllCount(arrivals, a);
    RecordsIncrease(arrivals);
    SuffixIsLatest(Records(arrivals), maxSize, a.openTime);
  }

  /** The candles of one open time, in order. */
  function AtTime(candles: seq<Candle>, t: int): seq<Candle> {
    if candles == [] then []
    else
      var last := candles[|candles| - 1];
      AtTime(candles[..|candles| - 1], t) + if last.openTime == t then [last] else []
  }

  lemma AtTimeGrows(candles: seq<Candle>, candle: Candle, t: int)
    ensures AtTime(candles + [candle], t) == AtTime(candles, t) + if candle.openTime == t then [candle] else []
  {
    assert (candles + [candle])[..|candles|] == candles;
  }

  lemma {:induction false} InsertedLast(sorted: seq<Candle>, candle: Candle, t: int)
    ensures AtTime(Inserted(sorted, candle), t) == AtTime(sorted, t) + if candle.openTime == t then [candle] else []
    decreases |sorted|
  {
    if sorted == [] || sorted[|sorted| - 1].openTime <= candle.openTime {
      AtTimeGrows(sorted, candle, t);
    } else {
      var rest, last := sorted[..|sorted| - 1], sorted[|sorted| - 1];
      InsertedLast(rest, candle, t);
      AtTimeGrows(Inserted(rest, candle), last, t);
    }
  }

  /** Sorting by open time leaves the candles of one open time in the order they had. */
  lemma {:induction false} SortIsStable(candles: seq<Candle>, t: int)
    ensures AtTime(SortedByOpen(candles), t) == AtTime(candles, t)
  {
    if candles != [] {
      SortIsStable(candles[..|candles| - 1], t);
      InsertedLast(SortedByOpen(candles[..|candles| - 1]), candles[|candles| - 1], t);
    }
  }

  lemma {:induction false} KeyThenTime(key: Key, candles: seq<Candle>, t: int)
    ensures AtTime(OfKey(key, candles), t) == OfKey(key, AtTime(candles, t))
  {
    if candles != [] {
      var front, last := candles[..|candles| - 1], candles[|candles| - 1];
      KeyThenTime(key, front, t);
      AtTimeGrows(OfKey(key, front), last, t);
      if last.openTime == t {
        assert (AtTime(front, t) + [last])[..|AtTime(front, t)|] == AtTime(front, t);
      } else {
        assert AtTime(candles, t) == AtTime(front, t);
        assert AtTime(OfKey(key, front), t) + [] == AtTime(OfKey(key, front), t);
      }
    }
  }

  lemma {:induction false} ResolvedByTime(arrivals: seq<Candle>, t: int)
    ensures Resolved(arrivals, t) == Resolved(AtTime(arrivals, t), t)
  {
    if arrivals != [] {
      var front, last := arrivals[..|arrivals| - 1], arrivals[|arrivals| - 1];
      ResolvedByTime(front, t);
      if last.openTime == t {
        assert (AtTime(front, t) + [last])[..|AtTime(front, t)|] == AtTime(front, t);
      } else {
        assert AtTime(arrivals, t) == AtTime(front, t);
      }
    }
  }

  /** Extending an empty store shows, for every open time it holds, what the batch in its own order resolves to: among
      candles of one key and open time the order of the batch decides, not the sort. */
  lemma BatchShowsItsOrder(batch: seq<Candle>, maxSize: nat, key: Key, shown: Candle)
    requires maxSize >= 1 && shown in WindowOf(Run(map[], AsArrivals(SortedByOpen(batch)), maxSize), key)
    ensures Resolved(OfKey(key, batch), shown.openTime) == Some(shown)
  {
    var sorted, t := SortedByOpen(batch), shown.openTime;
    SortedAscends(batch);
    OfKeyAscends(key, sorted);
    StoreHoldsEveryKey(key, AsArrivals(sorted), maxSize);
    ResolvedByTime(OfKey(key, sorted), t);
    KeyThenTime(key, sorted, t);
    SortIsStable(batch, t);
    KeyThenTime(key, batch, t);
    ResolvedByTime(OfKey(key, batch), t);
  }

  // ---------- the contiguous closed window ----------

  const MINUTE := 60_000

  function IntervalDuration(interval: string): (r: Option<int>)
    ensures r.Some? ==> r.value >= 5 * MINUTE
  {
    if interval == "5m" then Some(5 * MINUTE)
    else if interval == "15m" then Some(15 * MINUTE)
    else if interval == "1h" then Some(60 * MINUTE)
    else if interval == "2h" then Some(120 * MINUTE)
    else if interval == "4h" then Some(240 * MINUTE)
    else if interval == "1d" then Some(1440 * MINUTE)
    else if interval == "1w" then Some(10080 * MINUTE)
    else None
  }

  /** The seven intervals in terms of one another and of the millisecond, and no others. */
  lemma IntervalsNest(interval: string)
    ensures IntervalDuration("1h") == Some(3_600_000)
    ensures 12 * IntervalDuration("5m").value == 4 * IntervalDuration("15m").value == IntervalDuration("1h").value
    ensures IntervalDuration("2h").value == 2 * IntervalDuration("1h").value
    ensures IntervalDuration("4h").value == 4 * IntervalDuration("1h").value
    ensures IntervalDuration("1d").value == 24 * IntervalDuration("1h").value
    ensures IntervalDuration("1w").value == 7 * IntervalDuration("1d").value
    ensures IntervalDuration(interval).Some? <==> interval in ["5m", "15m", "1h", "2h", "4h", "1d", "1w"]
  {
    assert "5m"[0] != "1h"[0] && "15m"[1] != "1h"[1] && |"15m"| == 3;
    assert "2h"[0] != "4h"[0] && "1d"[1] != "1w"[1] && "1d"[1] != "1h"[1] && "1w"[1] != "1h"[1];
  }

  datatype WindowError = SizeNotPositive | UnsupportedInterval

  /** Closed, of the asked interval, and closing no later than the cutoff when there is one. */
  predicate Eligible(candle: Candle, interval: string, duration: int, cutoff: Option<int>) {
    candle.isClosed && candle.interval == interval && (cutoff.None? || candle.openTime + duration <= cutoff.value)
  }

  function Eligibles(candles: seq<Candle>, interval: string, duration: int, cutoff: Option<int>): seq<Candle> {
    if candles == [] then []
    else
      var rest := Eligibles(candles[..|candles| - 1], interval, duration, cutoff);
      var last := candles[|candles| - 1];
      if Eligible(last, interval, duration, cutoff) then rest + [last] else rest
  }

  predicate OneApart(window: seq<Candle>, duration: int) {
    forall i :: 0 < i < |window| ==> window[i].openTime - window[i - 1].openTime == duration
  }

  function ContiguousClosedWindow(candles: seq<Candle>, interval: string, size: int, cutoff: Option<int>):
    Result<seq<Candle>, WindowError>
  {
    if size < 1 then Err(SizeNotPositive)
    else
      match IntervalDuration(interval)
      case None => Err(UnsupportedInterval)
      case Some(duration) =>
        var eligible := SortedByOpen(Eligibles(candles, interval, duration, cutoff));
        if |eligible| < size then Ok([])
        else
          var window := LastOf(eligible, size);
          if OneApart(window, duration) then Ok(window) else Ok([])
  }

  /** `size` open times, each one duration after the one before. */
  function Ticks(start: int, duration: int, size: nat): seq<int>
    decreases size
  {
    if size == 0 then [] else [start] + Ticks(start + duration, duration, size - 1)
  }

  lemma {:induction false} TicksAt(start: int, duration: int, size: nat, k: nat)
    requires k < size
    ensures |Ticks(start, duration, size)| == size && Ticks(start, duration, size)[k] == start + k * duration
    decreases size
  {
    if size > 1 {
      TicksAt(start + duration, duration, size - 1, if k == 0 then 0 else k - 1);
    }
  }

  lemma {:induction false} TicksLength(start: int, duration: int, size: nat)
    ensures |Ticks(start, duration, size)| == size
    decreases size
  {
    if size > 0 {
      TicksLength(start + duration, duration, size - 1);
    }
  }

  lemma {:induction false} OneApartIsTicks(window: seq<Candle>, duration: int)
    requires window != [] && OneApart(window, duration)
    ensures OpenTimes(window) == Ticks(window[0].openTime, duration, |window|)
  {
    if |window| > 1 {
      OneApartIsTicks(window[1..], duration);
      assert OpenTimes(window) == [window[0].openTime] + OpenTimes(window[1..]);
    } else {
      var start := window[0].openTime;
      assert Ticks(start, duration, 1) == [start] + Ticks(start + duration, duration, 0);
    }
  }

  lemma TicksAreOneApart(window: seq<Candle>, start: int, duration: int)
    requires OpenTimes(window) == Ticks(start, duration, |window|)
    ensures OneApart(window, duration)
  {
    forall i | 0 < i < |window| ensures window[i].openTime - window[i - 1].openTime == duration {
      TicksAt(start, duration, |window|, i);
      TicksAt(start, duration, |window|, i - 1);
      ProductsFollow(i - 1, i - 1, if duration >= 0 then duration else 0);
      assert OpenTimes(window)[i] == window[i].openTime && OpenTimes(window)[i - 1] == window[i - 1].openTime;
      assert i * duration - (i - 1) * duration == duration;
    }
  }

  lemma {:induction false} TicksAreLater(start: int, duration: int, size: nat, t: int)
    requires duration > 0 && t in Ticks(start, duration, size)
    ensures t >= start && (t == start || t in Ticks(start + duration, duration, size - 1))
    decreases size
  {
    if t != start {
      assert t in Ticks(start + duration, duration, size - 1);
      TicksAreLater(start + duration, duration, size - 1, t);
    }
  }

  lemma FirstIsMember(times: seq<int>)
    requires times != []
    ensures times[0] in times
  {
  }

  /** Increasing times that are the ticks as a set are the ticks in order. */
  lemma {:induction false} TicksInOrder(times: seq<int>, start: int, duration: int, size: nat)
    requires duration > 0 && Increasing(times)
    requires forall t :: t in times <==> t in Ticks(start, duration, size)
    ensures times == Ticks(start, duration, size)
    decreases size
  {
    var ticks := Ticks(start, duration, size);
    if size == 0 {
      if times != [] {
        FirstIsMember(times);
      }
    } else {
      assert ticks[0] == start && start in times;
      TicksAreLater(start, duration, size, times[0]);
      var rest := times[1..];
      var later := Ticks(start + duration, duration, size - 1);
      assert times[0] == start;
      forall t ensures t in rest <==> t in later {
        if t in rest {
          TicksAreLater(start, duration, size, t);
        }
        if t in later {
          assert t in ticks[1..];
          TicksAreLater(start + duration, duration, size - 1, t);
          assert t in times && t != times[0];
        }
      }
      TicksInOrder(rest, start + duration, duration, size - 1);
    }
  }

  // ---------- suffixes of a sorted list of times ----------

  ghost predicate NonDecreasing(times: seq<int>) {
    forall i, j :: 0 <= i < j < |times| ==> times[i] <= times[j]
  }

  /** `start` occurs, and after it exactly the remaining ticks do, once each. */
  ghost predicate CountsFrom(times: seq<int>, start: int, duration: int, size: nat)
    requires size >= 1
  {
    && multiset(times)[start] >= 1
    && forall t :: t > start ==> multiset(times)[t] == if t in Ticks(start + duration, duration, size - 1) then 1 else 0
  }

  lemma {:induction false} TicksIncrease(start: int, duration: int, size: nat)
    requires duration > 0
    ensures Increasing(Ticks(start, duration, size))
    decreases size
  {
    if size > 0 {
      var rest := Ticks(start + duration, duration, size - 1);
      TicksIncrease(start + duration, duration, size - 1);
      forall j | 0 <= j < |rest| ensures start < rest[j] {
        TicksAreLater(start + duration, duration, size - 1, rest[j]);
      }
      assert Ticks(start, duration, size) == [start] + rest;
    }
  }

  lemma {:induction false} IncreasingCounts(times: seq<int>, t: int)
    requires Increasing(times)
    ensures multiset(times)[t] == if t in times then 1 else 0
  {
    if times != [] {
      var front, last := times[..|times| - 1], times[|times| - 1];
      IncreasingCounts(front, t);
      assert times == front + [last];
      assert last !in front;
    }
  }

  lemma CountSplits(times: seq<int>, i: nat, t: int)
    requires i <= |times|
    ensures multiset(times)[t] == multiset(times[..i])[t] + multiset(times[i..])[t]
    ensures multiset(times[..i])[t] > 0 <==> t in times[..i]
    ensures multiset(times[i..])[t] > 0 <==> t in times[i..]
  {
    assert times == times[..i] + times[i..];
  }

  lemma NoRepeats(times: seq<int>)
    requires NonDecreasing(times) && forall t :: multiset(times)[t] <= 1
    ensures Increasing(times)
  {
    forall i, j | 0 <= i < j < |times| ensures times[i] != times[j] {
      CountSplits(times, j, times[i]);
      assert times[..j][i] == times[i] && times[j..][0] == times[j];
    }
  }

  /** In a sorted list, times after the from-th are counted behind it only. */
  lemma CountAfter(times: seq<int>, from: nat, t: int)
    requires NonDecreasing(times) && from < |times| && times[from] < t
    ensures multiset(times)[t] == multiset(times[from + 1..])[t]
  {
    CountSplits(times, from + 1, t);
  }

  lemma TailTicks(times: seq<int>, from: nat, duration: int, size: nat)
    requires from < |times| && size == |times| - from && times[from..] == Ticks(times[from], duration, size)
    ensures times[from + 1..] == Ticks(times[from] + duration, duration, size - 1)
  {
    assert times[from + 1..] == times[from..][1..];
  }

  lemma LastTicksCount(times: seq<int>, from: nat, duration: int, size: nat)
    requires NonDecreasing(times) && from < |times| && size == |times| - from && duration > 0
    requires times[from..] == Ticks(times[from], duration, size)
    ensures CountsFrom(times, times[from], duration, size)
  {
    var later := Ticks(times[from] + duration, duration, size - 1);
    TailTicks(times, from, duration, size);
    TicksIncrease(times[from] + duration, duration, size - 1);
    assert times[from] in times;
    forall t | t > times[from] ensures multiset(times)[t] == if t in later then 1 else 0 {
      CountAfter(times, from, t);
      IncreasingCounts(later, t);
    }
  }

  lemma {:induction false} LastOccurrence(times: seq<int>, t: int) returns (at: nat)
    requires t in times
    ensures at < |times| && times[at] == t && t !in times[at + 1..]
  {
    if times[|times| - 1] == t {
      at := |times| - 1;
    } else {
      at := LastOccurrence(times[..|times| - 1], t);
      assert times[at + 1..] == times[..|times| - 1][at + 1..] + [times[|times| - 1]];
    }
  }

  lemma CountsGiveTicks(times: seq<int>, start: int, duration: int, size: nat)
    requires NonDecreasing(times) && size >= 1 && duration > 0 && CountsFrom(times, start, duration, size)
    ensures |times| >= size && LastOf(times, size) == Ticks(start, duration, size)
  {
    assert start in times;
    var at := LastOccurrence(times, start);
    RestIsTicks(times, start, duration, size, at);
    TicksLength(start + duration, duration, size - 1);
    assert times[at..] == [start] + times[at + 1..];
  }

  lemma SuffixNonDecreasing(times: seq<int>, i: nat)
    requires NonDecreasing(times) && i <= |times|
    ensures NonDecreasing(times[i..])
  {
  }

  lemma RestIsTicks(times: seq<int>, start: int, duration: int, size: nat, at: nat)
    requires NonDecreasing(times) && size >= 1 && duration > 0 && CountsFrom(times, start, duration, size)
    requires at < |times| && times[at] == start && start !in times[at + 1..]
    ensures times[at + 1..] == Ticks(start + duration, duration, size - 1)
  {
    RestCounts(times, start, duration, size, at);
    SuffixNonDecreasing(times, at + 1);
    TicksOnceInOrder(times[at + 1..], start + duration, duration, size - 1);
  }

  ghost predicate TicksOnce(times: seq<int>, start: int, duration: int, size: nat) {
    forall t :: multiset(times)[t] == if t in Ticks(start, duration, size) then 1 else 0
  }

  lemma TicksOnceInOrder(times: seq<int>, start: int, duration: int, size: nat)
    requires NonDecreasing(times) && duration > 0 && TicksOnce(times, start, duration, size)
    ensures times == Ticks(start, duration, size)
  {
    NoRepeats(times);
    forall t ensures t in times <==> t in Ticks(start, duration, size) {
      assert t in times <==> multiset(times)[t] > 0;
    }
    TicksInOrder(times, start, duration, size);
  }

  lemma RestCounts(times: seq<int>, start: int, duration: int, size: nat, at: nat)
    requires NonDecreasing(times) && size >= 1 && duration > 0 && CountsFrom(times, start, duration, size)
    requires at < |times| && times[at] == start && start !in times[at + 1..]
    ensures TicksOnce(times[at + 1..], start + duration, duration, size - 1)
  {
    var rest, later := times[at + 1..], Ticks(start + duration, duration, size - 1);
    forall t ensures multiset(rest)[t] == if t in later then 1 else 0 {
      RestCount(times, start, duration, size, at, t);
    }
  }

  lemma RestCount(times: seq<int>, start: int, duration: int, size: nat, at: nat, t: int)
    requires NonDecreasing(times) && size >= 1 && duration > 0 && CountsFrom(times, start, duration, size)
    requires at < |times| && times[at] == start && start !in times[at + 1..]
    ensures multiset(times[at + 1..])[t] == if t in Ticks(start + duration, duration, size - 1) then 1 else 0
  {
    CountSplits(times, at + 1, t);
    if t > start {
      CountAfter(times, at, t);
    } else {
      NotBehind(times, at, t);
      NoTickBy(start, duration, size - 1, t);
    }
  }

  lemma NotBehind(times: seq<int>, at: nat, t: int)
    requires NonDecreasing(times) && at < |times| && t <= times[at] && times[at] !in times[at + 1..]
    ensures t !in times[at + 1..]
  {
    var rest := times[at + 1..];
    forall i | 0 <= i < |rest| ensures rest[i] != t {
      assert rest[i] == times[at + 1 + i] && rest[i] in rest;
    }
  }

  lemma NoTickBy(start: int, duration: int, size: nat, t: int)
    requires duration > 0 && t <= start
    ensures t !in Ticks(start + duration, duration, size)
  {
    if t in Ticks(start + duration, duration, size) {
      TicksAreLater(start + duration, duration, size, t);
    }
  }

  // ---------- the window ----------

  lemma {:induction false} InsertedTimes(sorted: seq<Candle>, candle: Candle)
    ensures multiset(OpenTimes(Inserted(sorted, candle))) == multiset(OpenTimes(sorted)) + multiset{candle.openTime}
    decreases |sorted|
  {
    if sorted == [] || sorted[|sorted| - 1].openTime <= candle.openTime {
      assert OpenTimes(sorted + [candle]) == OpenTimes(sorted) + [candle.openTime];
    } else {
      var front, last := sorted[..|sorted| - 1], sorted[|sorted| - 1];
      InsertedTimes(front, candle);
      assert OpenTimes(Inserted(front, candle) + [last]) == OpenTimes(Inserted(front, candle)) + [last.openTime];
      assert OpenTimes(sorted) == OpenTimes(front) + [last.openTime];
    }
  }

  lemma {:induction false} SortedTimes(candles: seq<Candle>)
    ensures multiset(OpenTimes(SortedByOpen(candles))) == multiset(OpenTimes(candles))
  {
    if candles != [] {
      var front, last := candles[..|candles| - 1], candles[|candles| - 1];
      SortedTimes(front);
      InsertedTimes(SortedByOpen(front), last);
      assert OpenTimes(candles) == OpenTimes(front) + [last.openTime];
    }
  }

  /** How many eligible candles open at t. */
  function EligibleCount(t: int, candles: seq<Candle>, interval: string, duration: int, cutoff: Option<int>): nat {
    if candles == [] then 0
    else
      var last := candles[|candles| - 1];
      EligibleCount(t, candles[..|candles| - 1], interval, duration, cutoff)
      + if last.openTime == t && last.isClosed && last.interval == interval
           && (cutoff.None? || t + duration <= cutoff.value) then 1 else 0
  }

  lemma {:induction false} EligiblesCounted(
      candles: seq<Candle>, interval: string, duration: int, cutoff: Option<int>, t: int)
    ensures EligibleCount(t, candles, interval, duration, cutoff)
         == multiset(OpenTimes(Eligibles(candles, interval, duration, cutoff)))[t]
  {
    if candles != [] {
      var front, last := candles[..|candles| - 1], candles[|candles| - 1];
      EligiblesCounted(front, interval, duration, cutoff, t);
      var rest := Eligibles(front, interval, duration, cutoff);
      assert OpenTimes(rest + [last]) == OpenTimes(rest) + [last.openTime];
    }
  }

  lemma {:induction false} EligiblesChosen(candles: seq<Candle>, interval: string, duration: int, cutoff: Option<int>)
    ensures forall c :: c in Eligibles(candles, interval, duration, cutoff)
                        <==> c in candles && Eligible(c, interval, duration, cutoff)
  {
    if candles != [] {
      EligiblesChosen(candles[..|candles| - 1], interval, duration, cutoff);
      assert candles == candles[..|candles| - 1] + [candles[|candles| - 1]];
    }
  }

  /** Some eligible candle opens at `start`, and from then on they open at exactly the next size - 1 ticks,
      one candle at each. */
  ghost predicate CompleteFrom(
      start: int, candles: seq<Candle>, interval: string, duration: int, size: nat, cutoff: Option<int>)
    requires size >= 1
  {
    && EligibleCount(start, candles, interval, duration, cutoff) >= 1
    && forall t :: t > start ==>
         EligibleCount(t, candles, interval, duration, cutoff)
           == if t in Ticks(start + duration, duration, size - 1) then 1 else 0
  }

  lemma CompleteIsCounts(
      start: int, candles: seq<Candle>, interval: string, duration: int, size: nat, cutoff: Option<int>)
    requires size >= 1
    ensures CompleteFrom(start, candles, interval, duration, size, cutoff)
       <==> CountsFrom(OpenTimes(SortedByOpen(Eligibles(candles, interval, duration, cutoff))), start, duration, size)
  {
    var eligible := Eligibles(candles, interval, duration, cutoff);
    SortedTimes(eligible);
    forall t
      ensures EligibleCount(t, candles, interval, duration, cutoff) == multiset(OpenTimes(SortedByOpen(eligible)))[t]
    {
      EligiblesCounted(candles, interval, duration, cutoff, t);
    }
  }

  lemma AscendingTimes(candles: seq<Candle>)
    requires Ascending(candles)
    ensures NonDecreasing(OpenTimes(candles))
  {
  }

  lemma LastOfTimes(candles: seq<Candle>, n: nat)
    ensures OpenTimes(LastOf(candles, n)) == LastOf(OpenTimes(candles), n)
  {
  }

  lemma OneApartCounts(sorted: seq<Candle>, duration: int, size: nat)
    requires Ascending(sorted) && 1 <= size <= |sorted| && duration > 0 && OneApart(LastOf(sorted, size), duration)
    ensures var start := LastOf(sorted, size)[0].openTime;
            && OpenTimes(LastOf(sorted, size)) == Ticks(start, duration, size)
            && CountsFrom(OpenTimes(sorted), start, duration, size)
  {
    OneApartIsTicks(LastOf(sorted, size), duration);
    LastOfTimes(sorted, size);
    AscendingTimes(sorted);
    LastTicksCount(OpenTimes(sorted), |sorted| - size, duration, size);
  }

  lemma CountsOneApart(sorted: seq<Candle>, start: int, duration: int, size: nat)
    requires Ascending(sorted) && size >= 1 && duration > 0 && CountsFrom(OpenTimes(sorted), start, duration, size)
    ensures |sorted| >= size && OneApart(LastOf(sorted, size), duration)
  {
    AscendingTimes(sorted);
    CountsGiveTicks(OpenTimes(sorted), start, duration, size);
    LastOfTimes(sorted, size);
    TicksAreOneApart(LastOf(sorted, size), start, duration);
  }

  lemma EligiblesAscend(candles: seq<Candle>, interval: string, duration: int, cutoff: Option<int>)
    ensures var sorted := SortedByOpen(Eligibles(candles, interval, duration, cutoff));
            Ascending(sorted) && forall c :: c in sorted ==> c in candles && Eligible(c, interval, duration, cutoff)
  {
    var eligible := Eligibles(candles, interval, duration, cutoff);
    SortedAscends(eligible);
    EligiblesChosen(candles, interval, duration, cutoff);
    forall c | c in SortedByOpen(eligible) ensures c in eligible {
      assert c in multiset(SortedByOpen(eligible));
    }
  }

  /** For any candles at all: a window is returned exactly when the closed candles up to the cutoff end in `size`
      consecutive intervals with nothing missing, repeated or off the grid; it is then those candles, oldest first. */
  lemma ContiguousWindowIff(candles: seq<Candle>, interval: string, size: int, cutoff: Option<int>)
    requires size >= 1 && IntervalDuration(interval).Some?
    ensures var duration := IntervalDuration(interval).value;
            var result := ContiguousClosedWindow(candles, interval, size, cutoff);
            && result.Ok?
            && (result.value != [] <==> exists start :: CompleteFrom(start, candles, interval, duration, size, cutoff))
            && (result.value != [] ==>
                  && OpenTimes(result.value) == Ticks(result.value[0].openTime, duration, size)
                  && CompleteFrom(result.value[0].openTime, candles, interval, duration, size, cutoff)
                  && forall c :: c in result.value ==> c in candles && Eligible(c, interval, duration, cutoff))
  {
    var duration := IntervalDuration(interval).value;
    var sorted := SortedByOpen(Eligibles(candles, interval, duration, cutoff));
    var result := ContiguousClosedWindow(candles, interval, size, cutoff).value;
    EligiblesAscend(candles, interval, duration, cutoff);
    if result != [] {
      OneApartCounts(sorted, duration, size);
      CompleteIsCounts(result[0].openTime, candles, interval, duration, size, cutoff);
    }
    if exists start :: CompleteFrom(start, candles, interval, duration, size, cutoff) {
      var start :| CompleteFrom(start, candles, interval, duration, size, cutoff);
      CompleteIsCounts(start, candles, interval, duration, size, cutoff);
      CountsOneApart(sorted, start, duration, size);
    }
  }
}
