/** Replica soundness: over any run of exact snapshots, invalidations and deltas that were lost, duplicated
    or reordered on the way, a local book that holds a sequence id holds the venue's book at that id. */
module ReplicaSoundness {
  import opened Common
  import opened Exchange
  import opened OrderBook

  /** The prices at which a replica is accountable: a depth-limited snapshot only speaks for some. */
  datatype Coverage = Coverage(bids: iset<real>, asks: iset<real>) {
    ghost function Get(k: BookSide): iset<real> { if k.Bids? then bids else asks }
  }

  /** Binance ids grow with every update; OKX ids may go down but never repeat. */
  ghost predicate IdsFit(ex: Exchange, venue: Venue) {
    && !venue.OtherVenue?
    && forall m: nat, n: nat :: m < n <= |ex.updates| ==>
         if venue.IsBinance() then IdAt(ex, m) < IdAt(ex, n) else IdAt(ex, m) != IdAt(ex, n)
  }

  ghost predicate IdsGrow(ex: Exchange) {
    forall m: nat, n: nat :: m < n <= |ex.updates| ==> IdAt(ex, m) < IdAt(ex, n)
  }

  /** d is the venue's own batch of updates lo..hi: the same net effect, truthfully labelled. */
  ghost predicate Carries(ex: Exchange, venue: Venue, d: Delta, lo: nat, hi: nat) {
    && lo <= hi <= |ex.updates|
    && d.finalId == Some(IdAt(ex, hi))
    && (forall k: BookSide, p :: LastMention(d.Get(k), p) == NetEffect(ex, k, lo, hi, p))
    && (d.previousId.Some? ==> d.previousId.value == IdAt(ex, lo))
    && (venue.IsBinance() ==> lo < hi && (d.firstId.Some? ==> IdAt(ex, lo) < d.firstId.value))
  }

  /** snap lists the book after `at` updates exactly, at the prices it covers. */
  ghost predicate Captures(ex: Exchange, snap: Snapshot, at: nat, known: Coverage) {
    && at <= |ex.updates|
    && snap.sequenceId == Some(IdAt(ex, at))
    && forall k: BookSide, p :: p in known.Get(k) ==>
         Lookup(Listed(snap.Get(k)), p) == Lookup(BookAfter(ex, at).Get(k), p)
  }

  datatype Event =
    | TakeSnapshot(snap: Snapshot, bridge: bool, at: nat, known: Coverage)
    | TakeDelta(delta: Delta, lo: nat, hi: nat)
    | Invalidation

  /** Nothing is assumed about order, repetition or loss of events, nor about events without an id. */
  ghost predicate Honest(ex: Exchange, venue: Venue, e: Event) {
    match e
    case TakeSnapshot(snap, bridge, at, known) => snap.sequenceId.Some? ==> Captures(ex, snap, at, known)
    case TakeDelta(delta, lo, hi) => delta.finalId.Some? ==> Carries(ex, venue, delta, lo, hi)
    case Invalidation => true
  }

  datatype World = World(replica: Replica, known: Coverage)

  ghost function Touched(ex: Exchange, k: BookSide, lo: nat, hi: nat): iset<real>
    requires lo <= hi <= |ex.updates|
  {
    iset p | NetEffect(ex, k, lo, hi, p).Some?
  }

  ghost function Step(ex: Exchange, venue: Venue, w: World, e: Event): World
    requires Honest(ex, venue, e)
  {
    match e
    case TakeSnapshot(snap, bridge, at, known) =>
      World(AfterSnapshot(w.replica, snap, bridge), if SnapshotIsStale(w.replica, snap) then w.known else known)
    case TakeDelta(delta, lo, hi) =>
      World(AfterDelta(venue, w.replica, delta),
            if Verdict(venue, w.replica, delta) != Applied then w.known
            else Coverage(w.known.bids + Touched(ex, Bids, lo, hi), w.known.asks + Touched(ex, Asks, lo, hi)))
    case Invalidation => World(Invalidated(w.replica), w.known)
  }

  ghost function Run(ex: Exchange, venue: Venue, events: seq<Event>): World
    requires forall e :: e in events ==> Honest(ex, venue, e)
  {
    if events == [] then World(FRESH, Coverage(iset{}, iset{}))
    else Step(ex, venue, Run(ex, venue, events[..|events| - 1]), events[|events| - 1])
  }

  /** At every known price the replica shows the venue's book after n updates, and it knows that id. */
  ghost predicate StandsAt(ex: Exchange, w: World, n: nat) {
    && n <= |ex.updates|
    && w.replica.sequenceId == Some(IdAt(ex, n))
    && forall k: BookSide, p :: p in w.known.Get(k) ==>
         Lookup(w.replica.Get(k), p) == Lookup(BookAfter(ex, n).Get(k), p)
  }

  ghost predicate Sound(ex: Exchange, w: World) {
    w.replica.sequenceId.Some? ==> exists n :: StandsAt(ex, w, n)
  }

  lemma IdsOrderPositions(ex: Exchange, venue: Venue, m: nat, n: nat)
    requires IdsFit(ex, venue) && m <= |ex.updates| && n <= |ex.updates|
    ensures IdAt(ex, m) == IdAt(ex, n) <==> m == n
    ensures venue.IsBinance() ==> (IdAt(ex, m) < IdAt(ex, n) <==> m < n)
  {
    if m < n {
      assert if venue.IsBinance() then IdAt(ex, m) < IdAt(ex, n) else IdAt(ex, m) != IdAt(ex, n);
    } else if n < m {
      assert if venue.IsBinance() then IdAt(ex, n) < IdAt(ex, m) else IdAt(ex, n) != IdAt(ex, m);
    }
  }

  /** The sequence rules never let a batch jump over an update the replica has not seen. */
  lemma AcceptedDeltaSpansReplica(ex: Exchange, venue: Venue, s: Replica, n: nat, d: Delta, lo: nat, hi: nat)
    requires IdsFit(ex, venue) && Carries(ex, venue, d, lo, hi)
    requires n <= |ex.updates| && s.sequenceId == Some(IdAt(ex, n))
    requires Verdict(venue, s, d) == Applied
    ensures lo <= n
    ensures venue.IsBinance() ==> n <= hi
    ensures venue.Okx? ==> lo == n
  {
    IdsOrderPositions(ex, venue, lo, n);
    IdsOrderPositions(ex, venue, n, hi);
    IdsOrderPositions(ex, venue, lo, hi);
  }

  lemma AppliedDeltaIsExact(ex: Exchange, venue: Venue, w: World, n: nat, d: Delta, lo: nat, hi: nat)
    requires IdsFit(ex, venue) && Carries(ex, venue, d, lo, hi) && StandsAt(ex, w, n)
    requires Verdict(venue, w.replica, d) == Applied
    ensures StandsAt(ex, Step(ex, venue, w, TakeDelta(d, lo, hi)), hi)
  {
    AcceptedDeltaSpansReplica(ex, venue, w.replica, n, d, lo, hi);
    var w' := Step(ex, venue, w, TakeDelta(d, lo, hi));
    forall k: BookSide, p | p in w'.known.Get(k)
      ensures Lookup(w'.replica.Get(k), p) == Lookup(BookAfter(ex, hi).Get(k), p)
    {
      ApplyLevelsLookup(w.replica.Get(k), d.Get(k), p);
      OverlapIsHarmless(ex, k, lo, n, hi, p, Lookup(w.replica.Get(k), p));
    }
  }

  lemma StepKeepsSound(ex: Exchange, venue: Venue, w: World, e: Event)
    requires IdsFit(ex, venue) && Honest(ex, venue, e) && Sound(ex, w)
    ensures Sound(ex, Step(ex, venue, w, e))
  {
    var w' := Step(ex, venue, w, e);
    if w'.replica.sequenceId.Some? {
      match e
      case TakeSnapshot(snap, bridge, at, known) =>
        if SnapshotIsStale(w.replica, snap) {
        } else {
          assert StandsAt(ex, w', at);
        }
      case TakeDelta(delta, lo, hi) =>
        var n :| StandsAt(ex, w, n);
        if Verdict(venue, w.replica, delta) == Applied {
          AppliedDeltaIsExact(ex, venue, w, n, delta, lo, hi);
        } else {
          assert StandsAt(ex, w', n);
        }
      case Invalidation =>
        var n :| StandsAt(ex, w, n);
        assert StandsAt(ex, w', n);
    }
  }

  /** The replica is never silently wrong. */
  lemma {:induction false} ReplicaIsSound(ex: Exchange, venue: Venue, events: seq<Event>)
    requires IdsFit(ex, venue)
    requires forall e :: e in events ==> Honest(ex, venue, e)
    ensures Sound(ex, Run(ex, venue, events))
  {
    if events == [] {
    } else {
      ReplicaIsSound(ex, venue, events[..|events| - 1]);
      StepKeepsSound(ex, venue, Run(ex, venue, events[..|events| - 1]), events[|events| - 1]);
    }
  }

  ghost const EVERY_PRICE := Coverage(iset p: real | true, iset p: real | true)

  /** With full-depth snapshots every price is known from the first snapshot on. */
  lemma {:induction false} FullDepthCoversAll(ex: Exchange, venue: Venue, events: seq<Event>)
    requires forall e :: e in events ==> Honest(ex, venue, e)
    requires forall e :: e in events && e.TakeSnapshot? ==> e.known == EVERY_PRICE
    ensures var w := Run(ex, venue, events); w.replica.sequenceId.Some? ==> w.known == EVERY_PRICE
  {
    if events == [] {
    } else {
      FullDepthCoversAll(ex, venue, events[..|events| - 1]);
    }
  }

  /** With full-depth snapshots the two local maps are the venue's two maps, at exactly the local id. */
  lemma FullDepthReplicaIsTheBook(ex: Exchange, venue: Venue, events: seq<Event>)
    requires IdsFit(ex, venue)
    requires forall e :: e in events ==> Honest(ex, venue, e)
    requires forall e :: e in events && e.TakeSnapshot? ==> e.known == EVERY_PRICE
    ensures var s := Run(ex, venue, events).replica;
            s.sequenceId.Some? ==>
              exists n: nat :: n <= |ex.updates| && IdAt(ex, n) == s.sequenceId.value
                       && s.bids == BookAfter(ex, n).bids && s.asks == BookAfter(ex, n).asks
  {
    ReplicaIsSound(ex, venue, events);
    FullDepthCoversAll(ex, venue, events);
    var w := Run(ex, venue, events);
    if w.replica.sequenceId.Some? {
      var n :| StandsAt(ex, w, n);
      SameLookupsSameSide(w.replica.Get(Bids), BookAfter(ex, n).Get(Bids));
      SameLookupsSameSide(w.replica.Get(Asks), BookAfter(ex, n).Get(Asks));
      assert IdAt(ex, n) == w.replica.sequenceId.value;
    }
  }

  lemma SameLookupsSameSide(a: Side, b: Side)
    requires forall p :: Lookup(a, p) == Lookup(b, p)
    ensures a == b
  {
    forall p ensures (p in a <==> p in b) && (p in a ==> a[p] == b[p]) {
      assert Lookup(a, p) == Lookup(b, p);
    }
  }

  /** What the rules decide, in terms of positions instead of ids: a synchronized Binance replica past its
      first delta takes exactly the batch that starts where it stands, skips what lies behind, and
      refuses the rest. */
  lemma BinancePreviousIdDecides(ex: Exchange, venue: Venue, s: Replica, n: nat, d: Delta, lo: nat, hi: nat)
    requires venue.IsBinance() && IdsFit(ex, venue) && Carries(ex, venue, d, lo, hi)
    requires n <= |ex.updates| && s.sequenceId == Some(IdAt(ex, n)) && s.synchronized && !s.firstDelta
    requires d.previousId.Some?
    ensures Verdict(venue, s, d) == if hi <= n then Ignored else if lo == n then Applied else OutOfSync(SequenceGap)
  {
    IdsOrderPositions(ex, venue, lo, n);
    IdsOrderPositions(ex, venue, n, hi);
  }

  /** Without a previous id, and with consecutive ids labelled from the first update on, a batch is taken
      exactly when it overlaps or touches the replica's position and moves it forward. */
  lemma BinanceFirstIdDecides(ex: Exchange, venue: Venue, s: Replica, n: nat, d: Delta, lo: nat, hi: nat)
    requires venue.IsBinance() && IdsFit(ex, venue) && Carries(ex, venue, d, lo, hi)
    requires forall m: nat :: m <= |ex.updates| ==> IdAt(ex, m) == ex.genesisId + m
    requires ex.genesisId >= 0
    requires n <= |ex.updates| && s.sequenceId == Some(IdAt(ex, n)) && s.synchronized && !s.firstDelta
    requires d.previousId.None? && d.firstId == Some(IdAt(ex, lo) + 1)
    ensures Verdict(venue, s, d) == if hi <= n then Ignored else if lo <= n then Applied else OutOfSync(SequenceGap)
  {
    assert IdAt(ex, lo) == ex.genesisId + lo && IdAt(ex, n) == ex.genesisId + n && IdAt(ex, hi) == ex.genesisId + hi;
  }

  /** OKX takes exactly the batch that starts where the replica stands, even one whose id is lower. */
  lemma OkxPreviousIdDecides(ex: Exchange, s: Replica, n: nat, d: Delta, lo: nat, hi: nat)
    requires IdsFit(ex, Okx) && Carries(ex, Okx, d, lo, hi)
    requires n <= |ex.updates| && s.sequenceId == Some(IdAt(ex, n)) && s.synchronized
    requires d.previousId.Some?
    ensures Verdict(Okx, s, d) == if hi == n then Ignored else if lo == n then Applied else OutOfSync(SequenceGap)
  {
    IdsOrderPositions(ex, Okx, hi, n);
    IdsOrderPositions(ex, Okx, lo, n);
  }

  // ---------- exchange times ----------

  /** times[n] is the venue's time of update n; every snapshot and delta with an id reports the time of its update. */
  ghost predicate Dated(ex: Exchange, times: seq<int>, e: Event) {
    && |times| == |ex.updates| + 1
    && match e
       case TakeSnapshot(snap, bridge, at, known) =>
         snap.sequenceId.Some? ==> at < |times| && snap.exchangeTime == times[at]
       case TakeDelta(delta, lo, hi) => delta.finalId.Some? ==> hi < |times| && delta.exchangeTime == times[hi]
       case Invalidation => true
  }

  ghost predicate Nondecreasing(times: seq<int>) {
    forall m, n :: 0 <= m < n < |times| ==> times[m] <= times[n]
  }

  /** The replica stands somewhere in the venue's history and knows the time of that place. */
  ghost predicate DatedAt(ex: Exchange, times: seq<int>, s: Replica, n: nat) {
    n <= |ex.updates| && |times| == |ex.updates| + 1
    && s.sequenceId == Some(IdAt(ex, n)) && s.exchangeTime == Some(times[n])
  }

  ghost predicate KnowsItsTime(ex: Exchange, times: seq<int>, s: Replica) {
    && (s.synchronized ==> s.sequenceId.Some?)
    && (s.sequenceId.Some? ==> exists n: nat :: DatedAt(ex, times, s, n))
  }

  lemma StepKeepsTime(ex: Exchange, venue: Venue, times: seq<int>, w: World, e: Event)
    requires Honest(ex, venue, e) && Dated(ex, times, e) && KnowsItsTime(ex, times, w.replica)
    ensures KnowsItsTime(ex, times, Step(ex, venue, w, e).replica)
  {
    var s, s' := w.replica, Step(ex, venue, w, e).replica;
    if s'.sequenceId.Some? {
      match e
      case TakeSnapshot(snap, bridge, at, known) =>
        if SnapshotIsStale(s, snap) {
        } else {
          assert DatedAt(ex, times, s', at);
        }
      case TakeDelta(delta, lo, hi) =>
        if Verdict(venue, s, delta) == Applied {
          assert DatedAt(ex, times, s', hi);
        } else {
          var n: nat :| DatedAt(ex, times, s, n);
          assert DatedAt(ex, times, s', n);
        }
      case Invalidation =>
        var n: nat :| DatedAt(ex, times, s, n);
        assert DatedAt(ex, times, s', n);
    }
  }

  lemma {:induction false} RunKeepsTime(ex: Exchange, venue: Venue, times: seq<int>, events: seq<Event>)
    requires forall e :: e in events ==> Honest(ex, venue, e) && Dated(ex, times, e)
    ensures KnowsItsTime(ex, times, Run(ex, venue, events).replica)
  {
    if events == [] {
    } else {
      var front := events[..|events| - 1];
      RunKeepsTime(ex, venue, times, front);
      StepKeepsTime(ex, venue, times, Run(ex, venue, front), events[|events| - 1]);
    }
  }

  /** A synchronized replica is moved by a snapshot exactly when that is later, or another one of the same time. */
  predicate Supersedes(s: Replica, snap: Snapshot) {
    s.exchangeTime.None? || s.exchangeTime.value < snap.exchangeTime
    || (s.exchangeTime.value == snap.exchangeTime && s.sequenceId != snap.sequenceId)
  }

  /** Over any run: at a synchronized replica a snapshot either changes nothing, or leaves it with the snapshot's
      id, time and positive levels, and the latter exactly when it supersedes what the replica has. */
  lemma SnapshotsMoveForward(
      ex: Exchange, venue: Venue, times: seq<int>, events: seq<Event>,
      snap: Snapshot, bridge: bool, at: nat, known: Coverage)
    requires forall e :: e in events ==> Honest(ex, venue, e) && Dated(ex, times, e)
    requires var e := TakeSnapshot(snap, bridge, at, known); Honest(ex, venue, e) && Dated(ex, times, e)
    ensures var s := Run(ex, venue, events).replica;
            var s' := AfterSnapshot(s, snap, bridge);
            && (s.synchronized && !Supersedes(s, snap) ==> s' == s)
            && (!s.synchronized || Supersedes(s, snap) ==>
                  && s'.sequenceId == snap.sequenceId && s'.exchangeTime == Some(snap.exchangeTime)
                  && s'.bids == Listed(snap.bids) && s'.asks == Listed(snap.asks)
                  && (s'.synchronized <==> snap.sequenceId.Some? && !bridge))
            && (s.synchronized ==> s.exchangeTime.Some? && s'.exchangeTime.Some?
                                   && s.exchangeTime.value <= s'.exchangeTime.value)
  {
    RunKeepsTime(ex, venue, times, events);
    var s := Run(ex, venue, events).replica;
    if s.synchronized {
      var n: nat :| DatedAt(ex, times, s, n);
    }
  }

  /** In terms of positions: the snapshot of update `at` moves a synchronized replica standing at n. */
  ghost predicate MovesBack(ex: Exchange, times: seq<int>, s: Replica, snap: Snapshot, n: nat, at: nat) {
    && s.synchronized && DatedAt(ex, times, s, n) && at < n
    && snap.sequenceId == Some(IdAt(ex, at)) && snap.exchangeTime == times[at]
    && AfterSnapshot(s, snap, false) != s && AfterSnapshot(s, snap, false).sequenceId == snap.sequenceId
  }

  /** With growing ids, no snapshot ever moves a synchronized replica back exactly when the venue's times are
      strictly increasing: one of the same time as a later update is taken although its id is lower. */
  lemma NeverMovedBackIff(ex: Exchange, times: seq<int>)
    requires IdsGrow(ex) && |times| == |ex.updates| + 1 && Nondecreasing(times)
    ensures (forall s, snap, n: nat, at: nat :: !MovesBack(ex, times, s, snap, n, at))
       <==> forall m, n :: 0 <= m < n < |times| ==> times[m] < times[n]
  {
    if m: nat, n: nat :| m < n < |times| && times[m] == times[n] {
      var s := Replica(map[], map[], Some(IdAt(ex, n)), Some(times[n]), Some(0), true, 0, false);
      var snap := Snapshot(Some(IdAt(ex, m)), times[m], 0, [], []);
      assert IdAt(ex, m) < IdAt(ex, n);
      assert MovesBack(ex, times, s, snap, n, m);
    }
  }

  // ---------- why the side conditions are there ----------

  /** On the remaining venues a batch that is applied and does not start late leaves the exact book. */
  lemma OtherVenueIsExactWhenLossless(ex: Exchange, w: World, n: nat, d: Delta, lo: nat, hi: nat)
    requires Carries(ex, OtherVenue, d, lo, hi) && StandsAt(ex, w, n) && lo <= n <= hi
    requires Verdict(OtherVenue, w.replica, d) == Applied
    ensures StandsAt(ex, Step(ex, OtherVenue, w, TakeDelta(d, lo, hi)), hi)
  {
    var w' := Step(ex, OtherVenue, w, TakeDelta(d, lo, hi));
    forall k: BookSide, p | p in w'.known.Get(k)
      ensures Lookup(w'.replica.Get(k), p) == Lookup(BookAfter(ex, hi).Get(k), p)
    {
      ApplyLevelsLookup(w.replica.Get(k), d.Get(k), p);
      OverlapIsHarmless(ex, k, lo, n, hi, p, Lookup(w.replica.Get(k), p));
    }
  }

  lemma GrowingIdsOrder(ex: Exchange, m: nat, n: nat)
    requires IdsGrow(ex) && m <= |ex.updates| && n <= |ex.updates|
    ensures IdAt(ex, m) < IdAt(ex, n) <==> m < n
  {
    if n < m {
      assert IdAt(ex, n) < IdAt(ex, m);
    }
  }

  /** No applied batch starts after the update whose id the replica holds. */
  ghost predicate StartsInTime(ex: Exchange, w: World, e: Event)
    requires Honest(ex, OtherVenue, e)
  {
    e.TakeDelta? && Verdict(OtherVenue, w.replica, e.delta) == Applied ==>
      IdAt(ex, e.lo) <= w.replica.sequenceId.value
  }

  ghost predicate Lossless(ex: Exchange, events: seq<Event>)
    requires forall e :: e in events ==> Honest(ex, OtherVenue, e)
  {
    events == []
    || (Lossless(ex, events[..|events| - 1])
        && StartsInTime(ex, Run(ex, OtherVenue, events[..|events| - 1]), events[|events| - 1]))
  }

  lemma OtherStepKeepsSound(ex: Exchange, w: World, e: Event)
    requires IdsGrow(ex) && Honest(ex, OtherVenue, e) && Sound(ex, w) && StartsInTime(ex, w, e)
    ensures Sound(ex, Step(ex, OtherVenue, w, e))
  {
    var w' := Step(ex, OtherVenue, w, e);
    if w'.replica.sequenceId.Some? {
      if e.TakeSnapshot? && !SnapshotIsStale(w.replica, e.snap) {
        assert StandsAt(ex, w', e.at);
      } else {
        var n :| StandsAt(ex, w, n);
        if e.TakeDelta? && Verdict(OtherVenue, w.replica, e.delta) == Applied {
          GrowingIdsOrder(ex, n, e.lo);
          GrowingIdsOrder(ex, n, e.hi);
          OtherVenueIsExactWhenLossless(ex, w, n, e.delta, e.lo, e.hi);
        } else {
          assert StandsAt(ex, w', n);
        }
      }
    }
  }

  /** Over any run in which no applied batch starts late, whatever was repeated or came out of order, such a
      venue's replica is never wrong either. */
  lemma {:induction false} OtherVenueIsSoundWhenLossless(ex: Exchange, events: seq<Event>)
    requires IdsGrow(ex)
    requires forall e :: e in events ==> Honest(ex, OtherVenue, e)
    requires Lossless(ex, events)
    ensures Sound(ex, Run(ex, OtherVenue, events))
  {
    if events == [] {
    } else {
      var front := events[..|events| - 1];
      OtherVenueIsSoundWhenLossless(ex, front);
      OtherStepKeepsSound(ex, Run(ex, OtherVenue, front), events[|events| - 1]);
    }
  }

  /** A venue with these ids, a replica that is right after n updates, and a batch lo..hi that it applies. */
  ghost predicate Applicable(ids: seq<int>, ex: Exchange, w: World, d: Delta, n: nat, lo: nat, hi: nat) {
    && |ids| == |ex.updates| + 1 && (forall m: nat :: m < |ids| ==> IdAt(ex, m) == ids[m])
    && StandsAt(ex, w, n) && Carries(ex, OtherVenue, d, lo, hi) && Verdict(OtherVenue, w.replica, d) == Applied
  }

  ghost predicate AlwaysExact(ids: seq<int>, n: nat, lo: nat, hi: nat) {
    forall ex, w, d :: Applicable(ids, ex, w, d, n, lo, hi) ==>
      StandsAt(ex, Step(ex, OtherVenue, w, TakeDelta(d, lo, hi)), hi)
  }

  /** The book is right after applying a batch, whatever the updates were, exactly when the batch does not start
      after the position of the replica. */
  lemma OtherVenueIsExactIff(ids: seq<int>, n: nat, lo: nat, hi: nat)
    requires (forall a, b :: 0 <= a < b < |ids| ==> ids[a] < ids[b]) && n < hi < |ids| && lo <= hi
    ensures AlwaysExact(ids, n, lo, hi) <==> lo <= n
  {
    if lo <= n {
      forall ex, w, d | Applicable(ids, ex, w, d, n, lo, hi)
        ensures StandsAt(ex, Step(ex, OtherVenue, w, TakeDelta(d, lo, hi)), hi)
      {
        OtherVenueIsExactWhenLossless(ex, w, n, d, lo, hi);
      }
    } else {
      var ex, w, d := LateBatchLeavesWrongBook(ids, n, lo, hi);
    }
  }

  /** The one update at position n + 1 lists a bid; a batch that starts after it says nothing about that bid. */
  lemma LateBatchLeavesWrongBook(ids: seq<int>, n: nat, lo: nat, hi: nat) returns (ex: Exchange, w: World, d: Delta)
    requires (forall a, b :: 0 <= a < b < |ids| ==> ids[a] < ids[b]) && n < lo <= hi < |ids|
    ensures Applicable(ids, ex, w, d, n, lo, hi)
    ensures !StandsAt(ex, Step(ex, OtherVenue, w, TakeDelta(d, lo, hi)), hi)
  {
    ex := OneBid(ids, n);
    w := World(Replica(map[], map[], Some(ids[n]), Some(0), Some(0), true, 0, false), EVERY_PRICE);
    d := Delta(Some(ids[hi]), None, None, 0, 0, [], []);
    OneBidBook(ids, n, n);
    OneBidBook(ids, n, hi);
    forall k: BookSide, p ensures LastMention(d.Get(k), p) == NetEffect(ex, k, lo, hi, p) {
      OneBidIsOver(ids, n, k, lo, hi, p);
    }
    var after := Step(ex, OtherVenue, w, TakeDelta(d, lo, hi));
    assert 1.0 in after.known.Get(Bids);
    assert Lookup(after.replica.Get(Bids), 1.0) != Lookup(BookAfter(ex, hi).Get(Bids), 1.0);
  }

  const ONE_BID: Level := BookLevel(1.0, 1.0)

  function OneBid(ids: seq<int>, n: nat): (ex: Exchange)
    requires n + 1 < |ids|
    ensures |ex.updates| == |ids| - 1 && forall m: nat :: m < |ids| ==> IdAt(ex, m) == ids[m]
  {
    Exchange(Book(map[], map[]), ids[0],
             seq(|ids| - 1, i requires 0 <= i < |ids| - 1 => Update(ids[i + 1], if i == n then [ONE_BID] else [], [])))
  }

  lemma {:induction false} OneBidBook(ids: seq<int>, n: nat, m: nat)
    requires n + 1 < |ids| && m < |ids|
    ensures m <= n ==> BookAfter(OneBid(ids, n), m) == Book(map[], map[])
    ensures m > n ==> 1.0 in BookAfter(OneBid(ids, n), m).bids
  {
    if m > 0 {
      OneBidBook(ids, n, m - 1);
      OneLevel(BookAfter(OneBid(ids, n), m - 1).bids, ONE_BID);
    }
  }

  lemma {:induction false} OneBidIsOver(ids: seq<int>, n: nat, k: BookSide, lo: nat, hi: nat, p: real)
    requires n < lo <= hi < |ids|
    ensures NetEffect(OneBid(ids, n), k, lo, hi, p) == None
    decreases hi
  {
    if lo < hi {
      OneBidIsOver(ids, n, k, lo, hi - 1, p);
    }
  }

  /** Bybit and Hyperliquid only drop old ids: losing the second of three updates goes unnoticed. */
  lemma OtherVenueMissesALostDelta() returns (ex: Exchange, s: Replica, d: Delta)
    ensures |ex.updates| == 3 && forall m: nat, n: nat :: m < n <= 3 ==> IdAt(ex, m) < IdAt(ex, n)
    ensures s.synchronized && s.sequenceId == Some(IdAt(ex, 1)) && s.bids == BookAfter(ex, 1).bids
    ensures Carries(ex, OtherVenue, d, 2, 3)
    ensures Verdict(OtherVenue, s, d) == Applied
    ensures AfterDelta(OtherVenue, s, d).sequenceId == Some(IdAt(ex, 3))
    ensures AfterDelta(OtherVenue, s, d).bids != BookAfter(ex, 3).bids
  {
    var first, second, third: Level := BookLevel(1.0, 1.0), BookLevel(2.0, 2.0), BookLevel(3.0, 3.0);
    ex := Exchange(Book(map[], map[]), 10,
                   [Update(11, [first], []), Update(12, [second], []), Update(13, [third], [])]);
    d := Delta(Some(13), None, None, 0, 0, [third], []);
    s := Replica(map[1.0 := 1.0], map[], Some(11), Some(0), Some(0), true, 0, false);
    OneLevel(map[], first);
    OneLevel(BookAfter(ex, 1).bids, second);
    OneLevel(BookAfter(ex, 2).bids, third);
    OneLevel(s.bids, third);
    assert 2.0 in BookAfter(ex, 3).bids && 2.0 !in ApplyLevels(s.bids, d.bids);
    forall k: BookSide, p ensures LastMention(d.Get(k), p) == NetEffect(ex, k, 2, 3, p) {
      assert NetEffect(ex, k, 2, 2, p) == None;
      assert ex.updates[2].Get(k) == d.Get(k);
    }
  }

  lemma OneLevel(side: Side, l: Level)
    ensures ApplyLevels(side, [l]) == ApplyLevel(side, l)
  {
    assert [l][..0] == [];
  }
}
