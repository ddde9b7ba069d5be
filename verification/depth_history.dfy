/** Depth observations: what the market state records about one instrument's book, and when it forgets it. */
module DepthHistory {
  import opened Common
  import opened Exchange
  import opened OrderBook

  datatype RangeNotional = RangeNotional(midPrice: Option<real>, bids: real, asks: real, fullyCovered: bool)

  predicate Within(k: BookSide, price: real, bound: real) {
    if k.Bids? then price >= bound else price <= bound
  }

  function BidFloor(mid: real, percent: real): real { mid * (1.0 - percent / 100.0) }

  function AskCeiling(mid: real, percent: real): real { mid * (1.0 + percent / 100.0) }

  function Worth(price: real, quantity: real): real { price * quantity }

  function LevelsNotional(levels: seq<BookLevel>, k: BookSide, bound: real): real {
    if levels == [] then 0.0
    else (if Within(k, levels[0].price, bound) then Worth(levels[0].price, levels[0].quantity) else 0.0)
         + LevelsNotional(levels[1..], k, bound)
  }

  function Mid(view: View): real
    requires view.bids != [] && view.asks != []
  {
    (view.bids[0].price + view.asks[0].price) / 2.0
  }

  /** Visible liquidity inside a symmetric range around the mid price; a range outside (0, 100) is an error. */
  function NotionalWithinRange(view: View, percent: real): Result<RangeNotional, ()> {
    if percent <= 0.0 || percent >= 100.0 then Err(())
    else if view.bids == [] || view.asks == [] then Ok(RangeNotional(None, 0.0, 0.0, false))
    else
      var mid := Mid(view);
      var floor, ceiling := BidFloor(mid, percent), AskCeiling(mid, percent);
      Ok(RangeNotional(
           Some(mid), LevelsNotional(view.bids, Bids, floor), LevelsNotional(view.asks, Asks, ceiling),
           && view.synchronized
           && view.bids[|view.bids| - 1].price <= floor && view.asks[|view.asks| - 1].price >= ceiling))
  }

  /** The range reaches `percent` hundredths of the mid price to either side, and only a range strictly between none
      and all of it is accepted. */
  lemma RangeBounds(view: View, mid: real, percent: real)
    ensures 100.0 * BidFloor(mid, percent) == mid * (100.0 - percent)
    ensures 100.0 * AskCeiling(mid, percent) == mid * (100.0 + percent)
    ensures NotionalWithinRange(view, percent).Err? <==> !(0.0 < percent < 100.0)
    ensures 0.0 < percent < 100.0 ==>
              var r := NotionalWithinRange(view, percent).value;
              && (r.midPrice.Some? <==> view.bids != [] && view.asks != [])
              && (r.midPrice.Some? ==> 2.0 * r.midPrice.value == view.bids[0].price + view.asks[0].price)
              && (r.midPrice.None? ==> r.bids == 0.0 && r.asks == 0.0 && !r.fullyCovered)
  {
    assert mid * (percent / 100.0) * 100.0 == mid * percent;
  }

  // ---------- the reference: a sum over the complete book, in no particular order ----------

  function Share(side: Side, k: BookSide, bound: real, p: real): real
    requires p in side
  {
    if Within(k, p, bound) then Worth(p, side[p]) else 0.0
  }

  ghost function BookNotional(side: Side, keys: set<real>, k: BookSide, bound: real): real
    requires keys <= side.Keys
  {
    if keys == {} then 0.0
    else
      var p := Pick(keys);
      Share(side, k, bound, p) + BookNotional(side, keys - {p}, k, bound)
  }

  lemma {:induction false} BookNotionalTakesAny(side: Side, keys: set<real>, k: BookSide, bound: real, p: real)
    requires keys <= side.Keys && p in keys
    ensures BookNotional(side, keys, k, bound)
         == Share(side, k, bound, p) + BookNotional(side, keys - {p}, k, bound)
    decreases keys
  {
    var q := Pick(keys);
    if q != p {
      BookNotionalTakesAny(side, keys - {q}, k, bound, p);
      BookNotionalTakesAny(side, keys - {p}, k, bound, q);
      assert keys - {q} - {p} == keys - {p} - {q};
    }
  }

  /** What one price adds: price times quantity on the near side of the bound, nothing beyond it. */
  lemma OnePriceAdds(side: Side, keys: set<real>, k: BookSide, bound: real, p: real)
    requires keys <= side.Keys && p in keys
    ensures var near := if k.Bids? then p >= bound else p <= bound;
            BookNotional(side, keys, k, bound)
              == BookNotional(side, keys - {p}, k, bound) + if near then p * side[p] else 0.0
  {
    BookNotionalTakesAny(side, keys, k, bound, p);
  }

  lemma {:induction false} OutsideAddsNothing(side: Side, keys: set<real>, extra: set<real>, k: BookSide, bound: real)
    requires keys + extra <= side.Keys && keys !! extra
    requires forall p :: p in extra ==> !Within(k, p, bound)
    ensures BookNotional(side, keys + extra, k, bound) == BookNotional(side, keys, k, bound)
    decreases extra
  {
    if extra == {} {
      assert keys + extra == keys;
    } else {
      var p := Witness(extra);
      BookNotionalTakesAny(side, keys + extra, k, bound, p);
      assert keys + extra - {p} == keys + (extra - {p});
      OutsideAddsNothing(side, keys, extra - {p}, k, bound);
    }
  }

  ghost function Prices(levels: seq<BookLevel>): set<real> {
    set i | 0 <= i < |levels| :: levels[i].price
  }

  lemma {:induction false} LevelsSumTheirPrices(side: Side, levels: seq<BookLevel>, k: BookSide, bound: real)
    requires forall i :: 0 <= i < |levels| ==> levels[i].price in side && side[levels[i].price] == levels[i].quantity
    requires forall i, j :: 0 <= i < j < |levels| ==> levels[i].price != levels[j].price
    ensures LevelsNotional(levels, k, bound) == BookNotional(side, Prices(levels), k, bound)
  {
    if levels == [] {
      assert Prices(levels) == {};
    } else {
      PricesWithoutFirst(levels);
      LevelsSumTheirPrices(side, levels[1..], k, bound);
      BookNotionalTakesAny(side, Prices(levels), k, bound, levels[0].price);
    }
  }

  lemma PricesWithoutFirst(levels: seq<BookLevel>)
    requires levels != []
    requires forall i, j :: 0 <= i < j < |levels| ==> levels[i].price != levels[j].price
    ensures levels[0].price in Prices(levels)
    ensures Prices(levels) - {levels[0].price} == Prices(levels[1..])
  {
    var rest := levels[1..];
    assert forall i :: 0 <= i < |rest| ==> rest[i].price == levels[i + 1].price;
    forall x | x in Prices(levels) - {levels[0].price}
      ensures x in Prices(rest)
    {
      var i :| 0 <= i < |levels| && levels[i].price == x;
      assert rest[i - 1].price == x;
    }
  }

  /** A top-N view whose last level reaches the bound misses nothing inside it. */
  lemma CoveredViewIsComplete(side: Side, levels: seq<BookLevel>, k: BookSide, depth: nat, bound: real)
    requires IsTop(levels, side, k, depth) && levels != []
    requires if k.Bids? then levels[|levels| - 1].price <= bound else levels[|levels| - 1].price >= bound
    ensures LevelsNotional(levels, k, bound) == BookNotional(side, side.Keys, k, bound)
  {
    LevelsSumTheirPrices(side, levels, k, bound);
    var shown := Prices(levels);
    assert shown <= side.Keys;
    forall p | p in side.Keys - shown
      ensures !Within(k, p, bound)
    {
      assert forall i :: 0 <= i < |levels| ==> levels[i].price in shown;
      assert Better(k, levels[|levels| - 1].price, p);
    }
    OutsideAddsNothing(side, shown, side.Keys - shown, k, bound);
    assert shown + (side.Keys - shown) == side.Keys;
  }

  // ---------- observations ----------

  datatype Observation = Observation(
    observedAt: int, bidNotional: real, askNotional: real, rangePercent: real, midPrice: real,
    spreadBps: Option<real>, generation: nat)

  datatype BestLevels = BestLevels(observedAt: int, bidNotional: real, askNotional: real, generation: nat)

  ghost predicate IsBest(side: Side, k: BookSide, p: real) {
    p in side && forall q :: q in side ==> q == p || Better(k, p, q)
  }

  lemma TopStartsWithBest(side: Side, levels: seq<BookLevel>, k: BookSide, depth: nat)
    requires IsTop(levels, side, k, depth) && levels != []
    ensures IsBest(side, k, levels[0].price) && side[levels[0].price] == levels[0].quantity
  {
    forall p | p in side && p != levels[0].price
      ensures Better(k, levels[0].price, p)
    {
      if i :| 0 <= i < |levels| && levels[i].price == p {
        assert Better(k, levels[0].price, levels[i].price);
      }
    }
  }

  /** o tells the truth about the complete book s: liquidity within the range around the true mid price. */
  ghost predicate IsExact(o: Observation, s: Replica) {
    exists bid, ask :: IsExactAround(o, s, bid, ask)
  }

  ghost predicate IsExactAround(o: Observation, s: Replica, bid: real, ask: real) {
    && IsBest(s.bids, Bids, bid) && IsBest(s.asks, Asks, ask)
    && o.midPrice == (bid + ask) / 2.0
    && o.bidNotional == BookNotional(s.bids, s.bids.Keys, Bids, BidFloor(o.midPrice, o.rangePercent))
    && o.askNotional == BookNotional(s.asks, s.asks.Keys, Asks, AskCeiling(o.midPrice, o.rangePercent))
    && o.spreadBps == if o.midPrice > 0.0 then Some((ask - bid) / o.midPrice * 10000.0) else None
  }

  ghost predicate IsExactBest(o: BestLevels, s: Replica) {
    exists bid, ask :: IsExactBestOf(o, s, bid, ask)
  }

  ghost predicate IsExactBestOf(o: BestLevels, s: Replica, bid: real, ask: real) {
    && IsBest(s.bids, Bids, bid) && IsBest(s.asks, Asks, ask)
    && o.bidNotional == bid * s.bids[bid] && o.askNotional == ask * s.asks[ask]
  }

  function BestOf(view: View, at: int): BestLevels
    requires view.bids != [] && view.asks != []
  {
    BestLevels(at, Worth(view.bids[0].price, view.bids[0].quantity), Worth(view.asks[0].price, view.asks[0].quantity),
               view.generation)
  }

  function ObservationOf(view: View, ranged: RangeNotional, percent: real, at: int): Observation
    requires view.bids != [] && view.asks != [] && ranged.midPrice.Some?
  {
    var mid := ranged.midPrice.value;
    var spread := if mid > 0.0 then Some((view.asks[0].price - view.bids[0].price) / mid * 10000.0) else None;
    Observation(at, ranged.bids, ranged.asks, percent, mid, spread, view.generation)
  }

  lemma BestOfIsExact(s: Replica, view: View, depth: nat, at: int)
    requires IsTop(view.bids, s.bids, Bids, depth) && IsTop(view.asks, s.asks, Asks, depth)
    requires view.bids != [] && view.asks != []
    ensures IsExactBest(BestOf(view, at), s)
  {
    TopStartsWithBest(s.bids, view.bids, Bids, depth);
    TopStartsWithBest(s.asks, view.asks, Asks, depth);
    assert IsExactBestOf(BestOf(view, at), s, view.bids[0].price, view.asks[0].price);
  }

  lemma ObservationIsExact(s: Replica, view: View, percent: real, ranged: RangeNotional, at: int)
    requires view.bids != [] && view.asks != [] && ranged.midPrice == Some(Mid(view))
    requires IsBest(s.bids, Bids, view.bids[0].price) && IsBest(s.asks, Asks, view.asks[0].price)
    requires ranged.bids == BookNotional(s.bids, s.bids.Keys, Bids, BidFloor(Mid(view), percent))
    requires ranged.asks == BookNotional(s.asks, s.asks.Keys, Asks, AskCeiling(Mid(view), percent))
    ensures IsExact(ObservationOf(view, ranged, percent, at), s)
  {
    assert IsExactAround(ObservationOf(view, ranged, percent, at), s, view.bids[0].price, view.asks[0].price);
  }

  lemma CoveredRangeIsExact(s: Replica, view: View, depth: nat, percent: real, ranged: RangeNotional, at: int)
    requires IsTop(view.bids, s.bids, Bids, depth) && IsTop(view.asks, s.asks, Asks, depth)
    requires NotionalWithinRange(view, percent) == Ok(ranged) && ranged.fullyCovered
    ensures IsExact(ObservationOf(view, ranged, percent, at), s)
  {
    TopStartsWithBest(s.bids, view.bids, Bids, depth);
    TopStartsWithBest(s.asks, view.asks, Asks, depth);
    CoveredViewIsComplete(s.bids, view.bids, Bids, depth, BidFloor(Mid(view), percent));
    CoveredViewIsComplete(s.asks, view.asks, Asks, depth, AskCeiling(Mid(view), percent));
    ObservationIsExact(s, view, percent, ranged, at);
  }

  // ---------- when a range is covered, without looking at the view ----------

  predicate Beyond(k: BookSide, price: real, bound: real) {
    if k.Bids? then price <= bound else price >= bound
  }

  ghost function Inside(side: Side, k: BookSide, bound: real): set<real> {
    set p | p in side && !Beyond(k, p, bound)
  }

  /** Some price lies at or beyond the bound, and fewer than `depth` lie before it. */
  ghost predicate SideCovered(side: Side, k: BookSide, depth: nat, bound: real) {
    (exists p :: p in side && Beyond(k, p, bound)) && |Inside(side, k, bound)| < depth
  }

  lemma {:induction false} PricesCount(levels: seq<BookLevel>)
    requires forall i, j :: 0 <= i < j < |levels| ==> levels[i].price != levels[j].price
    ensures |Prices(levels)| == |levels|
  {
    if levels == [] {
      assert Prices(levels) == {};
    } else {
      PricesWithoutFirst(levels);
      PricesCount(levels[1..]);
    }
  }

  lemma HiddenIsWorse(side: Side, levels: seq<BookLevel>, k: BookSide, depth: nat, p: real)
    requires IsTop(levels, side, k, depth) && levels != [] && p in side
    ensures p in Prices(levels) || Better(k, levels[|levels| - 1].price, p)
  {
    if p !in Prices(levels) {
      assert forall i :: 0 <= i < |levels| ==> levels[i].price in Prices(levels);
    }
  }

  lemma BeyondIsCovered(side: Side, levels: seq<BookLevel>, k: BookSide, depth: nat, bound: real)
    requires IsTop(levels, side, k, depth) && levels != [] && Beyond(k, levels[|levels| - 1].price, bound)
    ensures SideCovered(side, k, depth, bound)
  {
    var last := levels[|levels| - 1].price;
    var front := levels[..|levels| - 1];
    forall p | p in Inside(side, k, bound) ensures p in Prices(front) {
      HiddenIsWorse(side, levels, k, depth, p);
      var i :| 0 <= i < |levels| && levels[i].price == p;
      assert front[i].price == p;
    }
    PricesCount(front);
    SubsetIsSmaller(Inside(side, k, bound), Prices(front));
  }

  lemma CoveredIsBeyond(side: Side, levels: seq<BookLevel>, k: BookSide, depth: nat, bound: real)
    requires IsTop(levels, side, k, depth) && levels != [] && !Beyond(k, levels[|levels| - 1].price, bound)
    ensures !SideCovered(side, k, depth, bound)
  {
    var shown := Prices(levels);
    forall i | 0 <= i < |levels| ensures levels[i].price in Inside(side, k, bound) {
      if i < |levels| - 1 {
        assert Better(k, levels[i].price, levels[|levels| - 1].price);
      }
    }
    PricesCount(levels);
    SubsetIsSmaller(shown, Inside(side, k, bound));
    if |levels| < depth {
      assert shown <= side.Keys && |side.Keys| == |side|;
      SubsetOfSameSize(shown, side.Keys);
    }
  }

  /** The best `depth` levels of each side reach both ends of the range around the mid price. */
  ghost predicate RangeCovered(s: Replica, depth: nat, percent: real) {
    exists bid, ask :: RangeCoveredAround(s, depth, percent, bid, ask)
  }

  ghost predicate RangeCoveredAround(s: Replica, depth: nat, percent: real, bid: real, ask: real) {
    && IsBest(s.bids, Bids, bid) && IsBest(s.asks, Asks, ask)
    && SideCovered(s.bids, Bids, depth, BidFloor((bid + ask) / 2.0, percent))
    && SideCovered(s.asks, Asks, depth, AskCeiling((bid + ask) / 2.0, percent))
  }

  lemma BestIsUnique(side: Side, k: BookSide, p: real, q: real)
    requires IsBest(side, k, p) && IsBest(side, k, q)
    ensures p == q
  {
  }

  lemma EmptyViewIsUncovered(s: Replica, view: View, depth: nat, percent: real)
    requires depth >= 1 && IsTop(view.bids, s.bids, Bids, depth) && IsTop(view.asks, s.asks, Asks, depth)
    requires view.bids == [] || view.asks == []
    ensures !RangeCovered(s, depth, percent)
  {
    assert view.bids == [] ==> |s.bids| == 0;
    assert view.asks == [] ==> |s.asks| == 0;
  }

  /** The flag computed from the top-N view says what RangeCovered says about the complete book. */
  lemma CoverageFlagIsRight(s: Replica, view: View, depth: nat, percent: real, ranged: RangeNotional)
    requires depth >= 1 && IsTop(view.bids, s.bids, Bids, depth) && IsTop(view.asks, s.asks, Asks, depth)
    requires NotionalWithinRange(view, percent) == Ok(ranged)
    ensures ranged.fullyCovered <==> view.synchronized && RangeCovered(s, depth, percent)
  {
    if view.bids == [] || view.asks == [] {
      EmptyViewIsUncovered(s, view, depth, percent);
    } else {
      LastLevelsDecide(s, view, depth, percent, BidFloor(Mid(view), percent), AskCeiling(Mid(view), percent));
    }
  }

  lemma LastLevelsDecide(s: Replica, view: View, depth: nat, percent: real, floor: real, ceiling: real)
    requires IsTop(view.bids, s.bids, Bids, depth) && IsTop(view.asks, s.asks, Asks, depth)
    requires view.bids != [] && view.asks != []
    requires floor == BidFloor(Mid(view), percent) && ceiling == AskCeiling(Mid(view), percent)
    ensures RangeCovered(s, depth, percent)
       <==> view.bids[|view.bids| - 1].price <= floor && view.asks[|view.asks| - 1].price >= ceiling
  {
    SideFlagIsRight(s.bids, view.bids, Bids, depth, floor);
    SideFlagIsRight(s.asks, view.asks, Asks, depth, ceiling);
    CoveredAroundBest(s, depth, percent, view.bids[0].price, view.asks[0].price);
  }

  lemma SideFlagIsRight(side: Side, levels: seq<BookLevel>, k: BookSide, depth: nat, bound: real)
    requires IsTop(levels, side, k, depth) && levels != []
    ensures IsBest(side, k, levels[0].price)
    ensures Beyond(k, levels[|levels| - 1].price, bound) <==> SideCovered(side, k, depth, bound)
  {
    TopStartsWithBest(side, levels, k, depth);
    if Beyond(k, levels[|levels| - 1].price, bound) {
      BeyondIsCovered(side, levels, k, depth, bound);
    } else {
      CoveredIsBeyond(side, levels, k, depth, bound);
    }
  }

  lemma CoveredAroundBest(s: Replica, depth: nat, percent: real, bid: real, ask: real)
    requires IsBest(s.bids, Bids, bid) && IsBest(s.asks, Asks, ask)
    ensures RangeCovered(s, depth, percent) <==> RangeCoveredAround(s, depth, percent, bid, ask)
  {
    if RangeCovered(s, depth, percent) {
      var b, a :| RangeCoveredAround(s, depth, percent, b, a);
      BestIsUnique(s.bids, Bids, b, bid);
      BestIsUnique(s.asks, Asks, a, ask);
    }
  }

  /** Appending to a bounded deque. */
  function Pushed<T>(items: seq<T>, x: T, capacity: nat): seq<T>
    requires capacity >= 1
  {
    LastOf(items + [x], capacity)
  }

  lemma PushedKeepsGeneration(items: seq<Observation>, o: Observation, capacity: nat, generation: nat)
    requires capacity >= 1 && o.generation == generation
    requires forall i :: 0 <= i < |items| ==> items[i].generation == generation
    ensures var all := Pushed(items, o, capacity);
            |all| <= capacity && forall i :: 0 <= i < |all| ==> all[i].generation == generation
  {
  }

  /** Any two observations are at least the sampling interval apart, in order. */
  ghost predicate Sampled(items: seq<Observation>, interval: int) {
    forall i, j :: 0 <= i < j < |items| ==> items[j].observedAt - items[i].observedAt >= interval
  }

  lemma PushedKeepsSampling(items: seq<Observation>, o: Observation, capacity: nat, interval: int)
    requires capacity >= 1 && interval > 0 && Sampled(items, interval)
    requires items != [] ==> o.observedAt - items[|items| - 1].observedAt >= interval
    ensures Sampled(Pushed(items, o, capacity), interval)
  {
    var all := items + [o];
    forall i, j | 0 <= i < j < |all| ensures all[j].observedAt - all[i].observedAt >= interval {
      if j == |items| && i < |items| - 1 {
        assert items[|items| - 1].observedAt - items[i].observedAt >= interval;
      }
    }
  }

  function Items<T>(h: Option<seq<T>>): seq<T> { if h.Some? then h.value else [] }

  class MarketDepth {
    const book: LocalOrderBook
    const rangePercent: real
    const historySize: nat
    const sampleInterval: int
    var history: Option<seq<Observation>>
    var best: Option<seq<BestLevels>>

    ghost predicate Valid()
      reads this, book
    {
      && book.Valid()
      && 0.0 < rangePercent < 100.0 && historySize >= 2 && sampleInterval > 0
      && |Items(history)| <= historySize && |Items(best)| <= historySize && Sampled(Items(history), sampleInterval)
      && (forall i :: 0 <= i < |Items(history)| ==> Items(history)[i].generation == book.generation)
      && (forall i :: 0 <= i < |Items(best)| ==> Items(best)[i].generation == book.generation)
    }

    constructor (venue: Venue, depth: nat, rangePercent: real, historySize: nat, sampleInterval: int)
      requires depth >= 1 && 0.0 < rangePercent < 100.0 && historySize >= 2 && sampleInterval > 0
      ensures Valid() && fresh(book) && book.State() == FRESH && history == None && best == None
    {
      book := new LocalOrderBook(venue, depth);
      this.rangePercent, this.historySize, this.sampleInterval := rangePercent, historySize, sampleInterval;
      history, best := None, None;
    }

    method ApplyDelta(d: Delta) returns (outcome: Outcome)
      requires Valid()
      modifies this, book
      ensures Valid()
      ensures book.State() == AfterDelta(book.venue, old(book.State()), d)
      ensures outcome == Verdict(book.venue, old(book.State()), d)
      ensures outcome.OutOfSync? ==> history == None && best == None
      ensures outcome == Ignored ==> history == old(history) && best == old(best)
      ensures outcome == Applied ==>
                Recorded(old(Items(history)), d.receivedAt) && RecordedBest(old(best), d.receivedAt)
    {
      outcome := book.ApplyDelta(d);
      if outcome.OutOfSync? {
        InvalidateBook();
      } else if outcome == Applied {
        RecordOrderBook(d.receivedAt);
      }
    }

    method ApplySnapshot(snap: Snapshot, requireBridge: bool) returns (applied: bool)
      requires Valid()
      modifies this, book
      ensures Valid()
      ensures book.State() == AfterSnapshot(old(book.State()), snap, requireBridge)
      ensures applied == !SnapshotIsStale(old(book.State()), snap)
      ensures !applied ==> history == old(history) && best == old(best)
      ensures applied ==>
                Recorded(old(Items(history)), snap.receivedAt) && RecordedBest(old(best), snap.receivedAt)
    {
      applied := book.ApplySnapshot(snap, requireBridge);
      if applied {
        RecordOrderBook(snap.receivedAt);
      }
    }

    method InvalidateBook()
      requires book.Valid() && 0.0 < rangePercent < 100.0 && historySize >= 2 && sampleInterval > 0
      modifies this, book
      ensures Valid() && history == None && best == None
      ensures book.State() == Invalidated(old(book.State()))
    {
      book.Invalidate();
      history := None;
      best := None;
    }

    /** items is `before` plus one exact observation of the current book, oldest dropped when full. */
    ghost predicate Observes(o: Observation, items: seq<Observation>, before: seq<Observation>, at: int)
      reads book
      requires historySize >= 1
    {
      && items == Pushed(before, o, historySize)
      && o.observedAt == at && o.rangePercent == rangePercent && o.generation == book.generation
      && IsExact(o, book.State())
    }

    /** What one recording does to the history: nothing inside the sampling interval or while unsynchronized,
        drop it when the view cannot see the whole range, and otherwise add one exact observation. */
    ghost predicate Recorded(before: seq<Observation>, at: int)
      reads `history, book
      requires historySize >= 1
    {
      var tooSoon := before != [] && at - before[|before| - 1].observedAt < sampleInterval;
      if tooSoon || !book.synchronized then Items(history) == before
      else if !RangeCovered(book.State(), book.depth, rangePercent) then history == None
      else exists o :: Observes(o, Items(history), before, at)
    }

    /** What one recording does to the best levels: one more exact entry whenever the book is synchronized and has
        both sides, and nothing otherwise. */
    ghost predicate RecordedBest(before: Option<seq<BestLevels>>, at: int)
      reads `best, book
      requires historySize >= 1
    {
      if book.synchronized && book.bids != map[] && book.asks != map[] then
        exists o :: ObservesBest(o, Items(best), Items(before), at)
      else best == before
    }

    ghost predicate ObservesBest(o: BestLevels, items: seq<BestLevels>, before: seq<BestLevels>, at: int)
      reads book
      requires historySize >= 1
    {
      && items == Pushed(before, o, historySize)
      && o.observedAt == at && o.generation == book.generation && IsExactBest(o, book.State())
    }

    method RecordOrderBook(observedAt: int)
      requires Valid()
      modifies this
      ensures Valid()
      ensures Recorded(old(Items(history)), observedAt)
      ensures RecordedBest(old(best), observedAt)
    {
      var view := book.GetView();
      RecordBestLevels(view, observedAt);
      RecordRange(view, observedAt);
    }

    method RecordRange(view: View, observedAt: int)
      requires Valid()
      requires IsTop(view.bids, book.bids, Bids, book.depth) && IsTop(view.asks, book.asks, Asks, book.depth)
      requires view.synchronized == book.synchronized && view.generation == book.generation
      modifies this`history
      ensures Valid()
      ensures Recorded(old(Items(history)), observedAt)
    {
      var observations := Items(history);
      history := Some(observations);
      if observations != [] {
        var elapsed := observedAt - observations[|observations| - 1].observedAt;
        if elapsed < sampleInterval {
          return;
        }
      }
      if !view.synchronized {
        return;
      }
      var ranged := NotionalWithinRange(view, rangePercent).value;
      CoverageFlagIsRight(book.State(), view, book.depth, rangePercent, ranged);
      if !ranged.fullyCovered {
        history := None;
        return;
      }
      var o := ObservationOf(view, ranged, rangePercent, observedAt);
      CoveredRangeIsExact(book.State(), view, book.depth, rangePercent, ranged, observedAt);
      PushedKeepsGeneration(observations, o, historySize, book.generation);
      PushedKeepsSampling(observations, o, historySize, sampleInterval);
      assert Observes(o, Pushed(observations, o, historySize), observations, observedAt);
      history := Some(Pushed(observations, o, historySize));
      assert Observes(o, Items(history), observations, observedAt);
    }

    method RecordBestLevels(view: View, observedAt: int)
      requires Valid()
      requires IsTop(view.bids, book.bids, Bids, book.depth) && IsTop(view.asks, book.asks, Asks, book.depth)
      requires view.synchronized == book.synchronized && view.generation == book.generation
      modifies this`best
      ensures Valid()
      ensures RecordedBest(old(best), observedAt)
    {
      if view.synchronized && view.bids != [] && view.asks != [] {
        var earlier := Items(best);
        // The generations always agree here, so this never clears anything.
        if earlier != [] && earlier[|earlier| - 1].generation != view.generation {
          earlier := [];
        }
        var o := BestOf(view, observedAt);
        BestOfIsExact(book.State(), view, book.depth, observedAt);
        best := Some(Pushed(earlier, o, historySize));
        assert ObservesBest(o, Items(best), old(Items(best)), observedAt);
      }
    }

    /** The generation filter never removes anything. */
    method GetHistory() returns (result: seq<Observation>)
      requires Valid()
      ensures result == Items(history)
    {
      var all := Items(history);
      result := [];
      for i := 0 to |all|
        invariant result == all[..i]
      {
        if all[i].generation == book.generation {
          result := result + [all[i]];
        }
      }
    }
  }
}
