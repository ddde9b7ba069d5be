/** The exchange side: a book that evolves by numbered updates carrying absolute quantities. */
module Exchange {
  import opened Common

  datatype BookLevel = BookLevel(price: real, quantity: real)

  /** Price levels are validated on construction: positive price, non-negative quantity. */
  type Level = l: BookLevel | l.price > 0.0 && l.quantity >= 0.0 witness BookLevel(1.0, 0.0)

  /** One side of a book: the resting quantity at each listed price. */
  type Side = map<real, real>

  datatype BookSide = Bids | Asks

  datatype Book = Book(bids: Side, asks: Side) {
    function Get(k: BookSide): Side { if k.Bids? then bids else asks }
  }

  datatype Update = Update(id: int, bids: seq<Level>, asks: seq<Level>) {
    function Get(k: BookSide): seq<Level> { if k.Bids? then bids else asks }
  }

  /** A venue's book for one instrument: where it started and every numbered update since. */
  datatype Exchange = Exchange(genesis: Book, genesisId: int, updates: seq<Update>)

  function Lookup(side: Side, p: real): Option<real> {
    if p in side then Some(side[p]) else None
  }

  function ApplyLevel(side: Side, l: Level): Side {
    if l.quantity == 0.0 then side - {l.price} else side[l.price := l.quantity]
  }

  function ApplyLevels(side: Side, levels: seq<Level>): Side {
    if levels == [] then side
    else ApplyLevel(ApplyLevels(side, levels[..|levels| - 1]), levels[|levels| - 1])
  }

  /** The quantity of the last level that names price p. */
  function LastMention(levels: seq<Level>, p: real): Option<real> {
    if levels == [] then None
    else if levels[|levels| - 1].price == p then Some(levels[|levels| - 1].quantity)
    else LastMention(levels[..|levels| - 1], p)
  }

  /** A mention with quantity zero deletes the price; no mention leaves it alone. */
  function Overwrite(before: Option<real>, mention: Option<real>): Option<real> {
    match mention
    case None => before
    case Some(q) => if q == 0.0 then None else Some(q)
  }

  lemma {:induction false} ApplyLevelsLookup(side: Side, levels: seq<Level>, p: real)
    ensures Lookup(ApplyLevels(side, levels), p) == Overwrite(Lookup(side, p), LastMention(levels, p))
  {
    if levels == [] {
    } else {
      ApplyLevelsLookup(side, levels[..|levels| - 1], p);
    }
  }

  /** The book after the first n updates. */
  function BookAfter(ex: Exchange, n: nat): Book
    requires n <= |ex.updates|
  {
    if n == 0 then ex.genesis
    else
      var b := BookAfter(ex, n - 1);
      Book(ApplyLevels(b.bids, ex.updates[n - 1].bids), ApplyLevels(b.asks, ex.updates[n - 1].asks))
  }

  /** The id the venue publishes for the book after n updates. */
  function IdAt(ex: Exchange, n: nat): int
    requires n <= |ex.updates|
  {
    if n == 0 then ex.genesisId else ex.updates[n - 1].id
  }

  /** What updates lo..hi together do to price p. */
  function NetEffect(ex: Exchange, k: BookSide, lo: nat, hi: nat, p: real): Option<real>
    requires lo <= hi <= |ex.updates|
    decreases hi
  {
    if lo == hi then None
    else
      match LastMention(ex.updates[hi - 1].Get(k), p)
      case Some(q) => Some(q)
      case None => NetEffect(ex, k, lo, hi - 1, p)
  }

  lemma {:induction false} BookAdvances(ex: Exchange, k: BookSide, lo: nat, hi: nat, p: real)
    requires lo <= hi <= |ex.updates|
    ensures Lookup(BookAfter(ex, hi).Get(k), p)
         == Overwrite(Lookup(BookAfter(ex, lo).Get(k), p), NetEffect(ex, k, lo, hi, p))
    decreases hi
  {
    if lo < hi {
      BookAdvances(ex, k, lo, hi - 1, p);
      ApplyLevelsLookup(BookAfter(ex, hi - 1).Get(k), ex.updates[hi - 1].Get(k), p);
    }
  }

  lemma {:induction false} NoEffectOnSuffix(ex: Exchange, k: BookSide, lo: nat, mid: nat, hi: nat, p: real)
    requires lo <= mid <= hi <= |ex.updates|
    requires NetEffect(ex, k, lo, hi, p) == None
    ensures NetEffect(ex, k, mid, hi, p) == None
    decreases hi
  {
    if mid < hi {
      NoEffectOnSuffix(ex, k, lo, mid, hi - 1, p);
    }
  }

  /** Absolute quantities make an overlapping batch harmless: replaying updates lo..hi over the book
      at any position inside that range gives the book at hi, at every price known before. */
  lemma OverlapIsHarmless(ex: Exchange, k: BookSide, lo: nat, mid: nat, hi: nat, p: real, before: Option<real>)
    requires lo <= mid <= hi <= |ex.updates|
    requires before == Lookup(BookAfter(ex, mid).Get(k), p) || NetEffect(ex, k, lo, hi, p).Some?
    ensures Overwrite(before, NetEffect(ex, k, lo, hi, p)) == Lookup(BookAfter(ex, hi).Get(k), p)
  {
    BookAdvances(ex, k, lo, hi, p);
    BookAdvances(ex, k, mid, hi, p);
    if NetEffect(ex, k, lo, hi, p) == None {
      NoEffectOnSuffix(ex, k, lo, mid, hi, p);
    }
  }
}

/** The local replica of one instrument's book, with each venue's sequence rules. */
module OrderBook {
  import opened Common
  import opened Exchange

  datatype Venue = BinanceSpot | BinancePerpetual | Okx | OtherVenue {
    predicate IsBinance() { BinanceSpot? || BinancePerpetual? }
  }

  datatype Snapshot = Snapshot(
    sequenceId: Option<int>, exchangeTime: int, receivedAt: int, bids: seq<Level>, asks: seq<Level>)
  {
    function Get(k: BookSide): seq<Level> { if k.Bids? then bids else asks }
  }

  datatype Delta = Delta(
    finalId: Option<int>, firstId: Option<int>, previousId: Option<int>,
    exchangeTime: int, receivedAt: int, bids: seq<Level>, asks: seq<Level>)
  {
    function Get(k: BookSide): seq<Level> { if k.Bids? then bids else asks }

    /** A missing or zero first id reads as the final id. */
    function First(): int
      requires finalId.Some?
    {
      if firstId.Some? && firstId.value != 0 then firstId.value else finalId.value
    }
  }

  datatype Reason = NoSnapshot | NoFinalId | SequenceGap

  datatype Outcome = Applied | Ignored | OutOfSync(reason: Reason)

  /** Everything a LocalOrderBook remembers. */
  datatype Replica = Replica(
    bids: Side, asks: Side, sequenceId: Option<int>, exchangeTime: Option<int>, updatedAt: Option<int>,
    synchronized: bool, generation: nat, firstDelta: bool)
  {
    function Get(k: BookSide): Side { if k.Bids? then bids else asks }
  }

  const FRESH := Replica(map[], map[], None, None, None, false, 0, true)

  // ---------- what each operation does, as functions of the replica ----------

  /** Levels a snapshot lists: only positive quantities, the last one at each price. */
  function Listed(levels: seq<Level>): Side {
    if levels == [] then map[]
    else
      var l := levels[|levels| - 1];
      var rest := Listed(levels[..|levels| - 1]);
      if l.quantity > 0.0 then rest[l.price := l.quantity] else rest
  }

  predicate SnapshotIsStale(s: Replica, snap: Snapshot) {
    && s.synchronized && s.exchangeTime.Some?
    && (snap.exchangeTime < s.exchangeTime.value
        || (snap.exchangeTime == s.exchangeTime.value && snap.sequenceId == s.sequenceId))
  }

  function AfterSnapshot(s: Replica, snap: Snapshot, bridge: bool): Replica {
    if SnapshotIsStale(s, snap) then s
    else Replica(Listed(snap.bids), Listed(snap.asks), snap.sequenceId, Some(snap.exchangeTime), Some(snap.receivedAt),
                 snap.sequenceId.Some? && !bridge, s.generation, true)
  }

  function Invalidated(s: Replica): Replica {
    s.(synchronized := false, generation := if s.synchronized then s.generation + 1 else s.generation)
  }

  /** The id a first delta after a snapshot has to span. */
  function BridgeId(venue: Venue, snapshotId: int): int {
    if venue.BinancePerpetual? then snapshotId else snapshotId + 1
  }

  function BinanceVerdict(venue: Venue, s: Replica, d: Delta): Outcome
    requires venue.IsBinance() && s.sequenceId.Some? && d.finalId.Some?
  {
    var local, final := s.sequenceId.value, d.finalId.value;
    if s.firstDelta then
      if final < BridgeId(venue, local) then Ignored
      else if d.First() <= BridgeId(venue, local) then Applied
      else OutOfSync(SequenceGap)
    else if final <= local then Ignored
    else if d.previousId.Some? then
      if d.previousId == s.sequenceId then Applied else OutOfSync(SequenceGap)
    else if d.First() <= local + 1 then Applied
    else OutOfSync(SequenceGap)
  }

  function Verdict(venue: Venue, s: Replica, d: Delta): Outcome {
    if s.sequenceId.None? || (!s.synchronized && !s.firstDelta) then OutOfSync(NoSnapshot)
    else if d.finalId.None? then OutOfSync(NoFinalId)
    else if venue.IsBinance() then BinanceVerdict(venue, s, d)
    else if venue.Okx? then
      if d.finalId == s.sequenceId then Ignored
      else if d.previousId == s.sequenceId then Applied
      else OutOfSync(SequenceGap)
    else if d.finalId.value <= s.sequenceId.value then Ignored
    else Applied
  }

  /** A delta whose first id is missing or zero is judged as if it were the final id; any other first id counts. */
  lemma MissingFirstIdIsFinal(venue: Venue, s: Replica, d: Delta)
    requires d.finalId.Some?
    ensures d.firstId == None || d.firstId == Some(0) ==>
              Verdict(venue, s, d) == Verdict(venue, s, d.(firstId := d.finalId))
    ensures d.firstId.Some? && d.firstId.value != 0 ==> d.First() == d.firstId.value
  {
  }

  function AfterDelta(venue: Venue, s: Replica, d: Delta): Replica {
    match Verdict(venue, s, d)
    case Applied =>
      Replica(ApplyLevels(s.bids, d.bids), ApplyLevels(s.asks, d.asks), d.finalId,
              Some(d.exchangeTime), Some(d.receivedAt), true, s.generation, false)
    case Ignored => s
    case OutOfSync(reason) => if reason == NoSnapshot then s else Invalidated(s)
  }

  // ---------- the mutable book ----------

  datatype View = View(
    bids: seq<Level>, asks: seq<Level>, sequenceId: Option<int>, exchangeTime: Option<int>, updatedAt: Option<int>,
    synchronized: bool, generation: nat)

  predicate Better(k: BookSide, a: real, b: real) { if k.Bids? then a > b else a < b }

  /** levels are the best `depth` entries of side, best first. */
  ghost predicate IsTop(levels: seq<BookLevel>, side: Side, k: BookSide, depth: nat) {
    && |levels| == Min(depth, |side|)
    && (forall i :: 0 <= i < |levels| ==> levels[i].price in side && side[levels[i].price] == levels[i].quantity)
    && (forall i, j :: 0 <= i < j < |levels| ==> Better(k, levels[i].price, levels[j].price))
    && (forall p :: p in side && (forall i :: 0 <= i < |levels| ==> levels[i].price != p)
          ==> forall i :: 0 <= i < |levels| ==> Better(k, levels[i].price, p))
  }

  lemma {:induction false} BestExists(keys: set<real>, k: BookSide)
    requires keys != {}
    ensures exists m :: m in keys && forall x :: x in keys ==> x == m || Better(k, m, x)
  {
    var a := Witness(keys);
    var rest := keys - {a};
    if rest == {} {
      assert keys == {a};
      assert forall x :: x in keys ==> x == a || Better(k, a, x);
    } else {
      BestExists(rest, k);
      var m: real :| m in rest && forall x :: x in rest ==> x == m || Better(k, m, x);
      var best := if Better(k, a, m) then a else m;
      assert forall x :: x in keys ==> x == a || x in rest;
      assert forall x :: x in keys ==> x == best || Better(k, best, x);
    }
  }

  ghost predicate DistinctPrices(levels: seq<Level>) {
    forall i, j :: 0 <= i < j < |levels| ==> levels[i].price != levels[j].price
  }

  lemma {:induction false} UnnamedPrice(levels: seq<Level>, p: real)
    requires forall i :: 0 <= i < |levels| ==> levels[i].price != p
    ensures LastMention(levels, p) == None
  {
    if levels != [] {
      UnnamedPrice(levels[..|levels| - 1], p);
    }
  }

  /** A snapshot that names each price once says what applying its levels to an empty book would say. */
  lemma {:induction false} SnapshotIsABookFromNothing(levels: seq<Level>)
    requires DistinctPrices(levels)
    ensures Listed(levels) == ApplyLevels(map[], levels)
  {
    if levels == [] {
    } else {
      var front, l := levels[..|levels| - 1], levels[|levels| - 1];
      SnapshotIsABookFromNothing(front);
      UnnamedPrice(front, l.price);
      ApplyLevelsLookup(map[], front, l.price);
    }
  }

  /** A snapshot side lists exactly the prices it gives a positive quantity, with the last such quantity. */
  lemma {:induction false} ListedMeans(levels: seq<Level>, p: real)
    ensures p in Listed(levels) <==> exists i :: 0 <= i < |levels| && levels[i].price == p && levels[i].quantity > 0.0
    ensures p in Listed(levels) ==>
              exists i :: 0 <= i < |levels| && levels[i].price == p && levels[i].quantity == Listed(levels)[p] > 0.0
                && forall j :: i < j < |levels| && levels[j].price == p ==> levels[j].quantity == 0.0
  {
    if levels != [] {
      var front, l := levels[..|levels| - 1], levels[|levels| - 1];
      ListedMeans(front, p);
      if p in Listed(levels) {
        if l.price == p && l.quantity > 0.0 {
          assert levels[|levels| - 1].quantity == Listed(levels)[p];
        } else {
          var i :| 0 <= i < |front| && front[i].price == p && front[i].quantity == Listed(front)[p] > 0.0
                   && forall j :: i < j < |front| && front[j].price == p ==> front[j].quantity == 0.0;
          assert levels[i] == front[i];
        }
      }
      if i :| 0 <= i < |levels| && levels[i].price == p && levels[i].quantity > 0.0 {
        if i < |front| {
          assert front[i] == levels[i];
        }
      }
    }
  }

  predicate PositiveSide(side: Side) {
    forall p :: p in side ==> p > 0.0 && side[p] >= 0.0
  }

  lemma {:induction false} LevelsStayPositive(side: Side, levels: seq<Level>)
    requires PositiveSide(side)
    ensures PositiveSide(ApplyLevels(side, levels))
  {
    if levels == [] {
    } else {
      LevelsStayPositive(side, levels[..|levels| - 1]);
    }
  }

  lemma {:induction false} ListedIsPositive(levels: seq<Level>)
    ensures PositiveSide(Listed(levels))
  {
    if levels == [] {
    } else {
      ListedIsPositive(levels[..|levels| - 1]);
    }
  }

  class LocalOrderBook {
    const venue: Venue
    const depth: nat
    var bids: Side
    var asks: Side
    var sequenceId: Option<int>
    var exchangeTime: Option<int>
    var updatedAt: Option<int>
    var synchronized: bool
    var generation: nat
    var firstDelta: bool

    function State(): Replica
      reads this
    {
      Replica(bids, asks, sequenceId, exchangeTime, updatedAt, synchronized, generation, firstDelta)
    }

    ghost predicate Valid()
      reads this
    {
      && depth >= 1
      && PositiveSide(bids) && PositiveSide(asks)
      && (synchronized ==> sequenceId.Some?)
    }

    constructor (venue: Venue, depth: nat)
      requires depth >= 1
      ensures Valid() && State() == FRESH && this.venue == venue && this.depth == depth
    {
      this.venue, this.depth := venue, depth;
      bids, asks := map[], map[];
      sequenceId, exchangeTime, updatedAt := None, None, None;
      synchronized, generation, firstDelta := false, 0, true;
    }

    method ApplySnapshot(snap: Snapshot, requireBridge: bool) returns (applied: bool)
      requires Valid()
      modifies this
      ensures Valid()
      ensures State() == AfterSnapshot(old(State()), snap, requireBridge)
      ensures applied == !SnapshotIsStale(old(State()), snap)
      ensures !applied <==>
                && old(synchronized) && old(exchangeTime).Some?
                && (snap.exchangeTime < old(exchangeTime).value
                    || (snap.exchangeTime == old(exchangeTime).value && snap.sequenceId == old(sequenceId)))
      ensures !applied ==> State() == old(State())
      ensures applied ==>
                && sequenceId == snap.sequenceId && exchangeTime == Some(snap.exchangeTime)
                && updatedAt == Some(snap.receivedAt) && generation == old(generation) && firstDelta
                && (synchronized <==> snap.sequenceId.Some? && !requireBridge)
    {
      if synchronized && exchangeTime.Some? {
        if snap.exchangeTime < exchangeTime.value {
          return false;
        }
        if snap.exchangeTime == exchangeTime.value && snap.sequenceId == sequenceId {
          return false;
        }
      }
      bids := ListLevels(snap.bids);
      asks := ListLevels(snap.asks);
      sequenceId := snap.sequenceId;
      exchangeTime := Some(snap.exchangeTime);
      updatedAt := Some(snap.receivedAt);
      synchronized := sequenceId.Some? && !requireBridge;
      firstDelta := true;
      ListedIsPositive(snap.bids);
      ListedIsPositive(snap.asks);
      return true;
    }

    method ApplyDelta(d: Delta) returns (outcome: Outcome)
      requires Valid()
      modifies this
      ensures Valid()
      ensures State() == AfterDelta(venue, old(State()), d)
      ensures outcome == Verdict(venue, old(State()), d)
      ensures outcome == Applied ==>
                && sequenceId == d.finalId && exchangeTime == Some(d.exchangeTime) && updatedAt == Some(d.receivedAt)
                && synchronized && !firstDelta && generation == old(generation)
      ensures outcome == Ignored ==> State() == old(State())
      ensures outcome.OutOfSync? ==>
                && !synchronized && bids == old(bids) && asks == old(asks) && sequenceId == old(sequenceId)
                && firstDelta == old(firstDelta)
                && generation == old(generation) + if old(synchronized) then 1 else 0
      ensures (old(sequenceId).None? || (!old(synchronized) && !old(firstDelta))) <==> outcome == OutOfSync(NoSnapshot)
      ensures outcome != OutOfSync(NoSnapshot) ==> (d.finalId.None? <==> outcome == OutOfSync(NoFinalId))
    {
      if sequenceId.None? || (!synchronized && !firstDelta) {
        return OutOfSync(NoSnapshot);
      }
      if d.finalId.None? {
        Invalidate();
        return OutOfSync(NoFinalId);
      }
      if venue.IsBinance() {
        var verdict := ValidateBinance(d, d.finalId.value);
        if verdict != Applied {
          return verdict;
        }
      } else if venue.Okx? {
        if d.finalId.value == sequenceId.value {
          return Ignored;
        }
        if d.previousId != sequenceId {
          Invalidate();
          return OutOfSync(SequenceGap);
        }
      } else if d.finalId.value <= sequenceId.value {
        return Ignored;
      }
      LevelsStayPositive(bids, d.bids);
      LevelsStayPositive(asks, d.asks);
      bids := MergeLevels(bids, d.bids);
      asks := MergeLevels(asks, d.asks);
      sequenceId := d.finalId;
      exchangeTime := Some(d.exchangeTime);
      updatedAt := Some(d.receivedAt);
      synchronized := true;
      firstDelta := false;
      return Applied;
    }

    method ValidateBinance(d: Delta, final: int) returns (verdict: Outcome)
      requires Valid() && venue.IsBinance() && sequenceId.Some? && d.finalId == Some(final)
      modifies this
      ensures verdict == BinanceVerdict(venue, old(State()), d)
      ensures State() == if verdict.OutOfSync? then Invalidated(old(State())) else old(State())
    {
      var first := d.First();
      if firstDelta {
        if (venue.BinancePerpetual? && final < sequenceId.value) || (venue.BinanceSpot? && final <= sequenceId.value) {
          return Ignored;
        }
        var bridge := if venue.BinancePerpetual? then sequenceId.value else sequenceId.value + 1;
        if first <= bridge <= final {
          return Applied;
        }
        Invalidate();
        return OutOfSync(SequenceGap);
      }
      if final <= sequenceId.value {
        return Ignored;
      }
      if d.previousId.Some? {
        if d.previousId != sequenceId {
          Invalidate();
          return OutOfSync(SequenceGap);
        }
        return Applied;
      }
      if first <= sequenceId.value + 1 <= final {
        return Applied;
      }
      Invalidate();
      return OutOfSync(SequenceGap);
    }

    method Invalidate()
      requires Valid()
      modifies this
      ensures Valid()
      ensures State() == Invalidated(old(State()))
      ensures !synchronized && generation == old(generation) + if old(synchronized) then 1 else 0
      ensures bids == old(bids) && asks == old(asks) && sequenceId == old(sequenceId)
    {
      if synchronized {
        generation := generation + 1;
      }
      synchronized := false;
    }

    static method ListLevels(levels: seq<Level>) returns (side: Side)
      ensures side == Listed(levels)
    {
      side := map[];
      for i := 0 to |levels|
        invariant side == Listed(levels[..i])
      {
        assert levels[..i + 1][..i] == levels[..i];
        if levels[i].quantity > 0.0 {
          side := side[levels[i].price := levels[i].quantity];
        }
      }
      assert levels[..|levels|] == levels;
    }

    static method MergeLevels(target: Side, levels: seq<Level>) returns (side: Side)
      ensures side == ApplyLevels(target, levels)
    {
      side := target;
      for i := 0 to |levels|
        invariant side == ApplyLevels(target, levels[..i])
      {
        assert levels[..i + 1][..i] == levels[..i];
        if levels[i].quantity == 0.0 {
          side := side - {levels[i].price};
        } else {
          side := side[levels[i].price := levels[i].quantity];
        }
      }
      assert levels[..|levels|] == levels;
    }

    static method Ranked(side: Side, k: BookSide, depth: nat) returns (top: seq<Level>)
      requires PositiveSide(side)
      ensures IsTop(top, side, k, depth)
    {
      top := [];
      var rest := side.Keys;
      while |top| < depth && rest != {}
        invariant rest <= side.Keys && |top| + |rest| == |side| && |top| <= depth
        invariant forall i :: 0 <= i < |top| ==> top[i].price in side && side[top[i].price] == top[i].quantity
        invariant forall i, j :: 0 <= i < j < |top| ==> Better(k, top[i].price, top[j].price)
        invariant forall i, p :: 0 <= i < |top| && p in rest ==> Better(k, top[i].price, p)
        invariant forall p :: p in side && (forall i :: 0 <= i < |top| ==> top[i].price != p) ==> p in rest
        decreases |rest|
      {
        BestExists(rest, k);
        var best :| best in rest && forall x :: x in rest ==> x == best || Better(k, best, x);
        ghost var before := top;
        top := top + [BookLevel(best, side[best])];
        rest := rest - {best};
        forall p | p in side && (forall i :: 0 <= i < |top| ==> top[i].price != p)
          ensures p in rest
        {
          assert top[|before|].price != p;
          forall i | 0 <= i < |before| ensures before[i].price != p { assert top[i].price != p; }
        }
      }
    }

    /** An immutable top-of-book view. */
    method GetView() returns (view: View)
      requires Valid()
      ensures IsTop(view.bids, bids, Bids, depth) && IsTop(view.asks, asks, Asks, depth)
      ensures view.sequenceId == sequenceId && view.exchangeTime == exchangeTime && view.updatedAt == updatedAt
      ensures view.synchronized == synchronized && view.generation == generation
    {
      var topBids := Ranked(bids, Bids, depth);
      var topAsks := Ranked(asks, Asks, depth);
      view := View(topBids, topAsks, sequenceId, exchangeTime, updatedAt, synchronized, generation);
    }
  }
}
