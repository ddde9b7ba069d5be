/** How the supervisor brings one Binance book up: buffer the stream until a depth delta arrives, fetch a
    REST snapshot, replay the buffer over it, then follow the live stream. */
module Bootstrap {
  import opened Common
  import opened Exchange
  import opened OrderBook
  import opened ReplicaSoundness

  const STREAM_BOOTSTRAP_BUFFER_SIZE := 10_000

  datatype Item = Depth(delta: Delta) | OtherEvent | Termination

  /** `resyncs` counts the snapshots fetched after a gap; a recycled stream stops at its first gap instead. */
  datatype Feed = Feed(replica: Replica, resyncs: nat, stopped: bool)

  /** One event through the ingestion path. On a gap the stream is either torn down or the book is
      re-seeded with the next REST answer, which again needs a bridging delta. */
  function Process(venue: Venue, f: Feed, item: Item, rest: nat -> Snapshot, recycle: bool): Feed {
    if f.stopped || !item.Depth? then f
    else
      var after := AfterDelta(venue, f.replica, item.delta);
      if !Verdict(venue, f.replica, item.delta).OutOfSync? then f.(replica := after)
      else if recycle then f.(replica := after, stopped := true)
      else Feed(AfterSnapshot(after, rest(f.resyncs), true), f.resyncs + 1, false)
  }

  function ProcessAll(venue: Venue, f: Feed, items: seq<Item>, rest: nat -> Snapshot, recycle: bool): Feed {
    if items == [] then f
    else Process(venue, ProcessAll(venue, f, items[..|items| - 1], rest, recycle), items[|items| - 1], rest, recycle)
  }

  datatype BridgeOutcome = Waiting | StreamEnded | BufferFilled | Gap | Following(resyncs: nat)

  /** Where buffering ends: the first item that is a depth delta, a termination, or fills the buffer. */
  function BufferEnd(items: seq<Item>, from: nat): (end: nat)
    requires from <= |items|
    ensures from <= end <= |items|
    ensures forall i :: from <= i < end ==> items[i].OtherEvent? && i + 1 < STREAM_BOOTSTRAP_BUFFER_SIZE
    ensures end < |items| ==> !items[end].OtherEvent? || end + 1 >= STREAM_BOOTSTRAP_BUFFER_SIZE
    decreases |items| - from
  {
    if from == |items| || !items[from].OtherEvent? || from + 1 >= STREAM_BOOTSTRAP_BUFFER_SIZE then from
    else BufferEnd(items, from + 1)
  }

  /** The items processed before the stream ends. */
  function UntilTermination(items: seq<Item>, from: nat): (end: nat)
    requires from <= |items|
    ensures from <= end <= |items|
    ensures forall i :: from <= i < end ==> !items[i].Termination?
    ensures end < |items| ==> items[end].Termination?
    decreases |items| - from
  {
    if from == |items| || items[from].Termination? then from else UntilTermination(items, from + 1)
  }

  /** One instrument's bridge task over everything its queue delivers. */
  method Bridge(book: LocalOrderBook, items: seq<Item>, snapshot: Snapshot, rest: nat -> Snapshot, recycle: bool)
    returns (outcome: BridgeOutcome)
    requires book.Valid()
    modifies book
    ensures book.Valid()
    ensures
      var k := BufferEnd(items, 0);
      if k == |items| then outcome == Waiting && book.State() == old(book.State())
      else if items[k].Termination? then outcome == StreamEnded && book.State() == old(book.State())
      else if k + 1 >= STREAM_BOOTSTRAP_BUFFER_SIZE then outcome == BufferFilled && book.State() == old(book.State())
      else
        var seeded := Feed(AfterSnapshot(old(book.State()), snapshot, true), 0, false);
        var end := UntilTermination(items, 0);
        var f := ProcessAll(book.venue, seeded, items[..end], rest, recycle);
        && book.State() == f.replica
        && outcome == if f.stopped then Gap else if end < |items| then StreamEnded else Following(f.resyncs)
  {
    var next := 0;
    var sawDelta := false;
    while !sawDelta
      invariant 0 <= next <= |items|
      invariant !sawDelta ==> BufferEnd(items, 0) == BufferEnd(items, next)
      invariant sawDelta ==> next > 0 && BufferEnd(items, 0) == next - 1 && items[next - 1].Depth?
                             && next < STREAM_BOOTSTRAP_BUFFER_SIZE
      invariant forall i :: 0 <= i < next ==> !items[i].Termination?
      invariant book.State() == old(book.State()) && book.Valid()
      decreases |items| - next, !sawDelta
    {
      if next == |items| {
        return Waiting;
      }
      if items[next].Termination? {
        return StreamEnded;
      }
      next := next + 1;
      if next >= STREAM_BOOTSTRAP_BUFFER_SIZE {
        return BufferFilled;
      }
      sawDelta := items[next - 1].Depth?;
    }

    var applied := book.ApplySnapshot(snapshot, true);
    ghost var seeded := Feed(AfterSnapshot(old(book.State()), snapshot, true), 0, false);
    var end := UntilTermination(items, 0);
    var resyncs := 0;
    for i := 0 to end
      invariant book.Valid()
      invariant ProcessAll(book.venue, seeded, items[..i], rest, recycle) == Feed(book.State(), resyncs, false)
    {
      assert items[..i + 1][..i] == items[..i];
      if items[i].Depth? {
        var verdict := book.ApplyDelta(items[i].delta);
        if verdict.OutOfSync? {
          if recycle {
            assert items[..end][..i + 1] == items[..i + 1];
            StoppedStays(book.venue, seeded, items[..end], i + 1, rest, recycle);
            return Gap;
          }
          applied := book.ApplySnapshot(rest(resyncs), true);
          resyncs := resyncs + 1;
        }
      }
    }
    outcome := if end < |items| then StreamEnded else Following(resyncs);
  }

  lemma {:induction false} StoppedStays(
      venue: Venue, f: Feed, items: seq<Item>, n: nat, rest: nat -> Snapshot, recycle: bool)
    requires n <= |items| && ProcessAll(venue, f, items[..n], rest, recycle).stopped
    ensures ProcessAll(venue, f, items, rest, recycle) == ProcessAll(venue, f, items[..n], rest, recycle)
    decreases |items|
  {
    if n == |items| {
      assert items[..n] == items;
    } else {
      assert items[..|items| - 1][..n] == items[..n];
      StoppedStays(venue, f, items[..|items| - 1], n, rest, recycle);
    }
  }

  // ---------- completeness on a chained stream ----------

  /** Each delta names the one before it, or without a previous id starts no later than right after it. */
  ghost predicate Chained(ds: seq<Delta>) {
    && (forall i :: 0 <= i < |ds| ==> ds[i].finalId.Some? && ds[i].First() <= ds[i].finalId.value)
    && forall i :: 0 < i < |ds| ==> Follows(ds[i - 1], ds[i])
  }

  predicate Follows(before: Delta, d: Delta)
    requires before.finalId.Some? && d.finalId.Some?
  {
    && before.finalId.value < d.finalId.value
    && if d.previousId.Some? then d.previousId == before.finalId else d.First() <= before.finalId.value + 1
  }

  function DeltasOf(items: seq<Item>): seq<Delta> {
    if items == [] then []
    else
      var rest := DeltasOf(items[..|items| - 1]);
      if items[|items| - 1].Depth? then rest + [items[|items| - 1].delta] else rest
  }

  /** The delta reaches the id that the first delta after the snapshot has to span. */
  predicate Reaches(venue: Venue, seeded: Replica, d: Delta)
    requires seeded.sequenceId.Some? && d.finalId.Some?
  {
    if venue.BinancePerpetual? then d.finalId.value >= seeded.sequenceId.value
    else d.finalId.value > seeded.sequenceId.value
  }

  /** The delta starts no later than that id. */
  predicate Bridges(venue: Venue, seeded: Replica, d: Delta)
    requires seeded.sequenceId.Some? && d.finalId.Some?
  {
    if venue.BinancePerpetual? then d.First() <= seeded.sequenceId.value
    else d.First() <= seeded.sequenceId.value + 1
  }

  /** Delta k is the first to reach the bridge id but starts after it. */
  predicate MissesBridge(venue: Venue, seeded: Replica, ds: seq<Delta>, k: nat)
    requires seeded.sequenceId.Some? && k < |ds| && forall i :: 0 <= i < |ds| ==> ds[i].finalId.Some?
  {
    && Reaches(venue, seeded, ds[k]) && !Bridges(venue, seeded, ds[k])
    && (k == 0 || !Reaches(venue, seeded, ds[k - 1]))
  }

  /** The first delta that reaches the bridge id, if there is one, spans it. */
  ghost predicate Bridged(venue: Venue, seeded: Replica, ds: seq<Delta>)
    requires seeded.sequenceId.Some? && Chained(ds)
  {
    forall k: nat :: k < |ds| ==> !MissesBridge(venue, seeded, ds, k)
  }

  /** After a chained prefix: still waiting for the bridge, or synchronized at the last delta's final id. */
  ghost predicate InStep(venue: Venue, seeded: Replica, ds: seq<Delta>, s: Replica)
    requires seeded.sequenceId.Some? && Chained(ds)
  {
    if ds == [] || !Reaches(venue, seeded, ds[|ds| - 1]) then s == seeded
    else s.synchronized && !s.firstDelta && s.sequenceId == ds[|ds| - 1].finalId && s.generation == seeded.generation
  }

  lemma ChainedPrefix(before: seq<Delta>, d: Delta)
    requires Chained(before + [d])
    ensures Chained(before) && d.finalId.Some? && d.First() <= d.finalId.value
    ensures before != [] ==> Follows(before[|before| - 1], d)
  {
    var ds := before + [d];
    assert ds[|before|] == d;
    assert forall i :: 0 <= i < |before| ==> before[i] == ds[i];
    if before != [] {
      assert Follows(ds[|before| - 1], ds[|before|]);
    }
  }

  lemma BridgedPrefix(venue: Venue, seeded: Replica, before: seq<Delta>, d: Delta)
    requires seeded.sequenceId.Some? && Chained(before) && Chained(before + [d])
    ensures Bridged(venue, seeded, before + [d]) <==>
              (Bridged(venue, seeded, before) && !MissesBridge(venue, seeded, before + [d], |before|))
  {
    forall k: nat | k < |before|
      ensures MissesBridge(venue, seeded, before + [d], k) <==> MissesBridge(venue, seeded, before, k)
    {
    }
  }

  /** One more delta of the chain is out of sync exactly when it misses the bridge. */
  lemma InStepAdvances(venue: Venue, seeded: Replica, before: seq<Delta>, d: Delta, s: Replica)
    requires venue.IsBinance() && seeded.sequenceId.Some? && seeded.firstDelta
    requires Chained(before + [d]) && Chained(before) && InStep(venue, seeded, before, s)
    ensures Verdict(venue, s, d).OutOfSync? <==> MissesBridge(venue, seeded, before + [d], |before|)
    ensures !Verdict(venue, s, d).OutOfSync? ==> InStep(venue, seeded, before + [d], AfterDelta(venue, s, d))
  {
    ChainedPrefix(before, d);
    var ds := before + [d];
    assert ds[|ds| - 1] == d;
  }

  lemma {:induction false} ChainedItems(items: seq<Item>)
    requires items != [] && Chained(DeltasOf(items))
    ensures Chained(DeltasOf(items[..|items| - 1]))
  {
    if items[|items| - 1].Depth? {
      ChainedPrefix(DeltasOf(items[..|items| - 1]), items[|items| - 1].delta);
    }
  }

  /** Replaying a chained stream: in step and without a gap as long as the bridge was spanned, and otherwise a gap
      has been reported. */
  lemma {:induction false} ChainedReplay(
      venue: Venue, seeded: Replica, seen: nat, items: seq<Item>, rest: nat -> Snapshot, recycle: bool)
    requires venue.IsBinance() && seeded.sequenceId.Some? && seeded.firstDelta && Chained(DeltasOf(items))
    ensures var f := ProcessAll(venue, Feed(seeded, seen, false), items, rest, recycle);
            if Bridged(venue, seeded, DeltasOf(items))
            then !f.stopped && f.resyncs == seen && InStep(venue, seeded, DeltasOf(items), f.replica)
            else f.stopped || f.resyncs > seen
  {
    if items == [] {
    } else {
      var front, last := items[..|items| - 1], items[|items| - 1];
      ChainedItems(items);
      ChainedReplay(venue, seeded, seen, front, rest, recycle);
      if last.Depth? {
        var before := DeltasOf(front);
        ChainedPrefix(before, last.delta);
        BridgedPrefix(venue, seeded, before, last.delta);
        if Bridged(venue, seeded, before) {
          InStepAdvances(venue, seeded, before, last.delta,
                         ProcessAll(venue, Feed(seeded, seen, false), front, rest, recycle).replica);
        }
      }
    }
  }

  /** Bootstrap completeness, both ways: replaying a chained stream over a snapshot reports no gap exactly when
      the first delta that reaches the bridge id, if any, does not start after it. */
  lemma NoGapIffBridged(venue: Venue, seeded: Replica, items: seq<Item>, rest: nat -> Snapshot, recycle: bool)
    requires venue.IsBinance() && seeded.sequenceId.Some? && seeded.firstDelta && Chained(DeltasOf(items))
    ensures var f := ProcessAll(venue, Feed(seeded, 0, false), items, rest, recycle);
            (!f.stopped && f.resyncs == 0) <==> Bridged(venue, seeded, DeltasOf(items))
  {
    ChainedReplay(venue, seeded, 0, items, rest, recycle);
  }

  /** A snapshot taken at an id between two chained perpetual deltas: nothing was lost, and a gap is reported. */
  lemma HoleIsReportedAsGap(rest: nat -> Snapshot) returns (seeded: Replica, items: seq<Item>)
    ensures seeded == FRESH.(sequenceId := Some(15)) && Chained(DeltasOf(items))
    ensures DeltasOf(items) == [Delta(Some(10), Some(5), None, 0, 0, [], []),
                                Delta(Some(30), Some(20), Some(10), 0, 0, [], [])]
    ensures ProcessAll(BinancePerpetual, Feed(seeded, 0, false), items, rest, true).stopped
  {
    seeded := FRESH.(sequenceId := Some(15));
    var a, b := Delta(Some(10), Some(5), None, 0, 0, [], []), Delta(Some(30), Some(20), Some(10), 0, 0, [], []);
    items := [Depth(a), Depth(b)];
    TwoDeltas(a, b);
    assert MissesBridge(BinancePerpetual, seeded, [a, b], 1);
    ChainedReplay(BinancePerpetual, seeded, 0, items, rest, true);
    RecycledFeedsNeverResync(BinancePerpetual, Feed(seeded, 0, false), items, rest);
  }

  lemma TwoDeltas(a: Delta, b: Delta)
    ensures DeltasOf([Depth(a), Depth(b)]) == [a, b]
  {
    var items := [Depth(a), Depth(b)];
    assert items[..1] == [Depth(a)] && items[..1][..0] == [];
    assert DeltasOf([]) == [] && DeltasOf([Depth(a)]) == [a];
  }

  lemma {:induction false} RecycledFeedsNeverResync(venue: Venue, f: Feed, items: seq<Item>, rest: nat -> Snapshot)
    requires f.resyncs == 0
    ensures ProcessAll(venue, f, items, rest, true).resyncs == 0
  {
    if items != [] {
      RecycledFeedsNeverResync(venue, f, items[..|items| - 1], rest);
    }
  }

  /** Contiguous ranges: each delta starts right after the one before it. */
  ghost predicate Gapless(ds: seq<Delta>) {
    Chained(ds) && forall i :: 0 < i < |ds| ==> ds[i].First() == ds[i - 1].finalId.value + 1
  }

  /** On contiguous ranges the snapshot only has to reach the first buffered delta. */
  lemma GaplessIsBridgedIff(venue: Venue, seeded: Replica, ds: seq<Delta>)
    requires seeded.sequenceId.Some? && Gapless(ds) && ds != []
    ensures Bridged(venue, seeded, ds) <==> Bridges(venue, seeded, ds[0])
  {
    assert ds[0].First() <= ds[0].finalId.value;
    if Bridges(venue, seeded, ds[0]) {
      forall k: nat | k < |ds| ensures !MissesBridge(venue, seeded, ds, k) {
        assert k > 0 ==> ds[k].First() == ds[k - 1].finalId.value + 1;
      }
    } else {
      assert MissesBridge(venue, seeded, ds, 0);
    }
  }

  /** Without gaps in the ranges there is no gap in the replay exactly when the snapshot reaches the first
      buffered delta. */
  lemma NoGapIffSnapshotReaches(
      venue: Venue, seeded: Replica, items: seq<Item>, rest: nat -> Snapshot, recycle: bool)
    requires venue.IsBinance() && seeded.sequenceId.Some? && seeded.firstDelta
    requires Gapless(DeltasOf(items)) && DeltasOf(items) != []
    ensures var f := ProcessAll(venue, Feed(seeded, 0, false), items, rest, recycle);
            (!f.stopped && f.resyncs == 0) <==> Bridges(venue, seeded, DeltasOf(items)[0])
  {
    NoGapIffBridged(venue, seeded, items, rest, recycle);
    GaplessIsBridgedIff(venue, seeded, DeltasOf(items));
  }

  // ---------- the replayed book is the venue's book ----------

  /** The k-th delta of the stream carries updates cuts[k]..cuts[k + 1]. */
  ghost predicate Streams(ex: Exchange, venue: Venue, ds: seq<Delta>, cuts: seq<nat>) {
    && |cuts| == |ds| + 1
    && forall k :: 0 <= k < |ds| ==> Carries(ex, venue, ds[k], cuts[k], cuts[k + 1])
  }

  lemma {:induction false} ReplayKeepsSound(
      ex: Exchange, venue: Venue, seeded: World, seen: nat, items: seq<Item>, cuts: seq<nat>, rest: nat -> Snapshot,
      recycle: bool)
    returns (w: World)
    requires venue.IsBinance() && IdsFit(ex, venue) && Sound(ex, seeded)
    requires seeded.replica.sequenceId.Some? && seeded.replica.firstDelta
    requires Chained(DeltasOf(items)) && Streams(ex, venue, DeltasOf(items), cuts)
    requires Bridged(venue, seeded.replica, DeltasOf(items))
    ensures Sound(ex, w)
    ensures w.replica == ProcessAll(venue, Feed(seeded.replica, seen, false), items, rest, recycle).replica
    ensures seeded.known.bids <= w.known.bids && seeded.known.asks <= w.known.asks
  {
    if items == [] {
      w := seeded;
    } else {
      var front, last := items[..|items| - 1], items[|items| - 1];
      if last.Depth? {
        var before := DeltasOf(front);
        ChainedPrefix(before, last.delta);
        BridgedPrefix(venue, seeded.replica, before, last.delta);
        StreamsPrefix(ex, venue, before, last.delta, cuts);
        w := ReplayKeepsSound(ex, venue, seeded, seen, front, cuts[..|cuts| - 1], rest, recycle);
        ChainedReplay(venue, seeded.replica, seen, front, rest, recycle);
        InStepAdvances(venue, seeded.replica, before, last.delta, w.replica);
        var e := TakeDelta(last.delta, cuts[|before|], cuts[|before| + 1]);
        StepKeepsSound(ex, venue, w, e);
        w := Step(ex, venue, w, e);
      } else {
        w := ReplayKeepsSound(ex, venue, seeded, seen, front, cuts, rest, recycle);
      }
    }
  }

  lemma StreamsPrefix(ex: Exchange, venue: Venue, before: seq<Delta>, d: Delta, cuts: seq<nat>)
    requires Streams(ex, venue, before + [d], cuts)
    ensures Streams(ex, venue, before, cuts[..|cuts| - 1])
    ensures Carries(ex, venue, d, cuts[|before|], cuts[|before| + 1])
  {
    var ds := before + [d];
    assert ds[|before|] == d;
    var shorter := cuts[..|cuts| - 1];
    forall k | 0 <= k < |before| ensures Carries(ex, venue, before[k], shorter[k], shorter[k + 1]) {
      assert Carries(ex, venue, ds[k], cuts[k], cuts[k + 1]);
    }
  }

  /** The replica shows the venue's book after update n, with its id, at every price known. */
  ghost predicate Shows(ex: Exchange, s: Replica, n: nat, known: Coverage) {
    && n <= |ex.updates| && s.sequenceId == Some(IdAt(ex, n))
    && forall k: BookSide, p :: p in known.Get(k) ==> Lookup(s.Get(k), p) == Lookup(BookAfter(ex, n).Get(k), p)
  }

  /** A feed that was just seeded from the venue at update `at` follows a bridged chain without a gap: untouched until
      a delta reaches the bridge id, from then on synchronized and showing the venue after the last delta. */
  lemma SeededFeedFollows(
      ex: Exchange, venue: Venue, seeded: Replica, seen: nat, at: nat, known: Coverage,
      items: seq<Item>, cuts: seq<nat>, rest: nat -> Snapshot, recycle: bool)
    requires venue.IsBinance() && IdsFit(ex, venue) && seeded.firstDelta && Shows(ex, seeded, at, known)
    requires Chained(DeltasOf(items)) && Streams(ex, venue, DeltasOf(items), cuts)
    requires Bridged(venue, seeded, DeltasOf(items))
    ensures var ds := DeltasOf(items);
            var f := ProcessAll(venue, Feed(seeded, seen, false), items, rest, recycle);
            && !f.stopped && f.resyncs == seen
            && if ds == [] || !Reaches(venue, seeded, ds[|ds| - 1]) then f.replica == seeded
               else f.replica.synchronized && Shows(ex, f.replica, cuts[|ds|], known)
  {
    var ds := DeltasOf(items);
    var w0 := World(seeded, known);
    assert StandsAt(ex, w0, at);
    ChainedReplay(venue, seeded, seen, items, rest, recycle);
    var w := ReplayKeepsSound(ex, venue, w0, seen, items, cuts, rest, recycle);
    if ds != [] && Reaches(venue, seeded, ds[|ds| - 1]) {
      assert Carries(ex, venue, ds[|ds| - 1], cuts[|ds| - 1], cuts[|ds| - 1 + 1]);
      var n :| StandsAt(ex, w, n);
      IdsOrderPositions(ex, venue, n, cuts[|ds|]);
      forall k: BookSide, p | p in known.Get(k)
        ensures Lookup(w.replica.Get(k), p) == Lookup(BookAfter(ex, cuts[|ds|]).Get(k), p)
      {
        assert p in w.known.Get(k);
      }
    }
  }

  /** From any unsynchronized replica: snapshot, then replay. Once a delta has reached the bridge id the
      replica is synchronized and shows the venue's book after the last delta, at every price the
      snapshot covered; before that it is untouched. */
  lemma BootstrapRebuildsTheBook(
      ex: Exchange, venue: Venue, start: Replica, snap: Snapshot, at: nat, known: Coverage,
      items: seq<Item>, cuts: seq<nat>, rest: nat -> Snapshot, recycle: bool)
    requires venue.IsBinance() && IdsFit(ex, venue) && !start.synchronized && Captures(ex, snap, at, known)
    requires Chained(DeltasOf(items)) && DeltasOf(items) != [] && Streams(ex, venue, DeltasOf(items), cuts)
    requires Bridged(venue, AfterSnapshot(start, snap, true), DeltasOf(items))
    ensures var ds := DeltasOf(items);
            var seeded := AfterSnapshot(start, snap, true);
            var f := ProcessAll(venue, Feed(seeded, 0, false), items, rest, recycle);
            && Shows(ex, seeded, at, known) && !seeded.synchronized && seeded.generation == start.generation
            && !f.stopped && f.resyncs == 0
            && if !Reaches(venue, seeded, ds[|ds| - 1]) then f.replica == seeded
               else f.replica.synchronized && Shows(ex, f.replica, cuts[|ds|], known)
  {
    SeededFeedFollows(ex, venue, AfterSnapshot(start, snap, true), 0, at, known, items, cuts, rest, recycle);
  }

  // ---------- past a gap ----------

  lemma {:induction false} ProcessSplits(
      venue: Venue, f: Feed, before: seq<Item>, after: seq<Item>, rest: nat -> Snapshot, recycle: bool)
    ensures ProcessAll(venue, f, before + after, rest, recycle)
         == ProcessAll(venue, ProcessAll(venue, f, before, rest, recycle), after, rest, recycle)
  {
    if after == [] {
      assert before + after == before;
    } else {
      var items := before + after;
      assert items[..|items| - 1] == before + after[..|after| - 1];
      ProcessSplits(venue, f, before, after[..|after| - 1], rest, recycle);
    }
  }

  /** The delta that finds the replica out of sync, at the end of what has been processed so far. */
  ghost predicate GapsAfter(
      venue: Venue, f: Feed, before: seq<Item>, d: Delta, rest: nat -> Snapshot, recycle: bool)
  {
    var g := ProcessAll(venue, f, before, rest, recycle);
    !g.stopped && Verdict(venue, g.replica, d).OutOfSync?
  }

  lemma {:induction false} SynchronizedHasId(
      venue: Venue, f: Feed, items: seq<Item>, rest: nat -> Snapshot, recycle: bool)
    requires f.replica.synchronized ==> f.replica.sequenceId.Some?
    ensures var g := ProcessAll(venue, f, items, rest, recycle);
            g.replica.synchronized ==> g.replica.sequenceId.Some?
  {
    if items != [] {
      SynchronizedHasId(venue, f, items[..|items| - 1], rest, recycle);
    }
  }

  /** Right after a gap on a kept stream the next REST answer has replaced the book: its id, its sides, and no
      synchronization until a delta bridges it. */
  lemma GapReseeds(
      ex: Exchange, venue: Venue, f: Feed, before: seq<Item>, d: Delta, rest: nat -> Snapshot, at: nat, known: Coverage)
    requires f.replica.synchronized ==> f.replica.sequenceId.Some?
    requires GapsAfter(venue, f, before, d, rest, false)
    requires Captures(ex, rest(ProcessAll(venue, f, before, rest, false).resyncs), at, known)
    ensures var g := ProcessAll(venue, f, before, rest, false);
            var h := ProcessAll(venue, f, before + [Depth(d)], rest, false);
            && !h.stopped && h.resyncs == g.resyncs + 1
            && Shows(ex, h.replica, at, known) && !h.replica.synchronized && h.replica.firstDelta
  {
    SynchronizedHasId(venue, f, before, rest, false);
    OneMoreItem(venue, f, before, Depth(d), rest, false);
  }

  lemma OneMoreItem(venue: Venue, f: Feed, before: seq<Item>, item: Item, rest: nat -> Snapshot, recycle: bool)
    ensures ProcessAll(venue, f, before + [item], rest, recycle)
         == Process(venue, ProcessAll(venue, f, before, rest, recycle), item, rest, recycle)
  {
    assert (before + [item])[..|before|] == before;
  }

  /** Completeness past any gap, however many there were before: when the REST answer captures the venue and the
      rest of the chain bridges its id, there is no further gap, and the book ends synchronized at the last delta as
      the venue's book. */
  lemma RecoversAfterGap(
      ex: Exchange, venue: Venue, f: Feed, before: seq<Item>, d: Delta, after: seq<Item>, cuts: seq<nat>,
      rest: nat -> Snapshot, at: nat, known: Coverage)
    requires venue.IsBinance() && IdsFit(ex, venue) && (f.replica.synchronized ==> f.replica.sequenceId.Some?)
    requires GapsAfter(venue, f, before, d, rest, false)
    requires Captures(ex, rest(ProcessAll(venue, f, before, rest, false).resyncs), at, known)
    requires Chained(DeltasOf(after)) && Streams(ex, venue, DeltasOf(after), cuts)
    requires Bridged(venue, FRESH.(sequenceId := Some(IdAt(ex, at))), DeltasOf(after))
    ensures var ds := DeltasOf(after);
            var g := ProcessAll(venue, f, before, rest, false);
            var h := ProcessAll(venue, f, before + [Depth(d)] + after, rest, false);
            && !h.stopped && h.resyncs == g.resyncs + 1
            && if ds == [] || !Reaches(venue, FRESH.(sequenceId := Some(IdAt(ex, at))), ds[|ds| - 1])
               then Shows(ex, h.replica, at, known) && !h.replica.synchronized
               else h.replica.synchronized && Shows(ex, h.replica, cuts[|ds|], known)
  {
    var g := ProcessAll(venue, f, before, rest, false);
    var h := ProcessAll(venue, f, before + [Depth(d)], rest, false);
    GapReseeds(ex, venue, f, before, d, rest, at, known);
    ProcessSplits(venue, f, before + [Depth(d)], after, rest, false);
    BridgeDependsOnId(venue, FRESH.(sequenceId := Some(IdAt(ex, at))), h.replica, DeltasOf(after));
    SeededFeedFollows(ex, venue, h.replica, g.resyncs + 1, at, known, after, cuts, rest, false);
    assert h == Feed(h.replica, g.resyncs + 1, false);
  }

  lemma BridgeDependsOnId(venue: Venue, a: Replica, b: Replica, ds: seq<Delta>)
    requires a.sequenceId.Some? && a.sequenceId == b.sequenceId && Chained(ds)
    ensures Bridged(venue, a, ds) <==> Bridged(venue, b, ds)
  {
    forall k: nat | k < |ds| ensures MissesBridge(venue, a, ds, k) <==> MissesBridge(venue, b, ds, k) {
    }
  }

  /** On a recycled stream the first gap is the end: the book is left unsynchronized with what it had, no REST answer
      is used, and nothing that follows is applied. */
  lemma GapStopsRecycledStream(
      venue: Venue, f: Feed, before: seq<Item>, d: Delta, after: seq<Item>, rest: nat -> Snapshot)
    requires f.replica.synchronized ==> f.replica.sequenceId.Some?
    requires GapsAfter(venue, f, before, d, rest, true)
    ensures var g := ProcessAll(venue, f, before, rest, true);
            var h := ProcessAll(venue, f, before + [Depth(d)] + after, rest, true);
            && h.stopped && h.resyncs == g.resyncs && !h.replica.synchronized
            && h.replica.bids == g.replica.bids && h.replica.asks == g.replica.asks
            && h.replica.sequenceId == g.replica.sequenceId
  {
    SynchronizedHasId(venue, f, before, rest, true);
    OneMoreItem(venue, f, before, Depth(d), rest, true);
    var items := before + [Depth(d)] + after;
    assert items[..|before| + 1] == before + [Depth(d)];
    StoppedStays(venue, f, items, |before| + 1, rest, true);
  }

  /** Between two REST answers of the perpetual's stream: the gap at 116 is answered at 125, and 130 bridges it. */
  lemma FollowsAfterOneGap(rest: nat -> Snapshot) returns (items: seq<Item>)
    requires rest(0).sequenceId == Some(125)
    ensures DeltasOf(items) == [Delta(Some(105), Some(95), None, 0, 0, [], []),
                                Delta(Some(120), Some(116), Some(115), 0, 0, [], []),
                                Delta(Some(130), Some(121), Some(120), 0, 0, [], [])]
    ensures var f := ProcessAll(BinancePerpetual, Feed(FRESH.(sequenceId := Some(100)), 0, false), items, rest, false);
            !f.stopped && f.resyncs == 1 && f.replica.synchronized && f.replica.sequenceId == Some(130)
  {
    var a := Delta(Some(105), Some(95), None, 0, 0, [], []);
    var b := Delta(Some(120), Some(116), Some(115), 0, 0, [], []);
    var c := Delta(Some(130), Some(121), Some(120), 0, 0, [], []);
    items := [Depth(a), Depth(b), Depth(c)];
    TwoDeltas(a, b);
    assert items[..2] == [Depth(a), Depth(b)] && DeltasOf(items[..2]) == [a, b];
    var f0 := Feed(FRESH.(sequenceId := Some(100)), 0, false);
    var f1 := Process(BinancePerpetual, f0, Depth(a), rest, false);
    var f2 := Process(BinancePerpetual, f1, Depth(b), rest, false);
    assert items[..1] == [Depth(a)] && items[..2][..1] == items[..1] && items[..1][..0] == [];
    assert ProcessAll(BinancePerpetual, f0, items[..1], rest, false) == f1;
    assert ProcessAll(BinancePerpetual, f0, items[..2], rest, false) == f2;
  }
}
