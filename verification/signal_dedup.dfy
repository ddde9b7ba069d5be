/** Signal deduplication: a bounded, purging memory against the full history. */
module SignalDedup {
  import opened Common

  datatype Occurrence = Occurrence(
    strategy: string, version: string, symbol: string, fingerprint: string, occurredAt: int)
  {
    function CooldownKey(): Key { Key(strategy, fingerprint) }
  }

  datatype Key = Key(strategy: string, fingerprint: string)

  datatype Config = Config(cooldown: int, capacity: nat) {
    predicate Valid() { cooldown >= 0 && capacity >= 1 }
  }

  datatype Call = Call(occurrence: Occurrence, now: int)

  // ---------- the bounded implementation ----------

  /** Occurrences in insertion order, and when each key was last emitted. */
  datatype Memory = Memory(seen: seq<Occurrence>, emitted: map<Key, int>)

  const EMPTY := Memory([], map[])

  function Purged(c: Config, emitted: map<Key, int>, now: int): map<Key, int> {
    map key | key in emitted && now - emitted[key] < c.cooldown :: emitted[key]
  }

  function Remember(c: Config, m: Memory, call: Call): (bool, Memory)
    requires c.Valid()
  {
    var key := call.occurrence.CooldownKey();
    if call.occurrence in m.seen then (false, m)
    else
      var seen := LastOf(m.seen + [call.occurrence], c.capacity);
      if c.cooldown == 0 then (true, Memory(seen, m.emitted))
      else
        var live := Purged(c, m.emitted, call.now);
        if key in live && call.now - live[key] < c.cooldown then (false, Memory(seen, live))
        else (true, Memory(seen, live[key := call.now]))
  }

  class SignalDeduplicator {
    const config: Config
    var seen: seq<Occurrence>
    var emitted: map<Key, int>

    function State(): Memory
      reads this
    {
      Memory(seen, emitted)
    }

    constructor (config: Config)
      requires config.Valid()
      ensures this.config == config && State() == EMPTY
    {
      this.config := config;
      seen, emitted := [], map[];
    }

    method EvictOldest()
      requires config.Valid()
      modifies this`seen
      ensures seen == LastOf(old(seen), config.capacity)
    {
      while |seen| > config.capacity
        invariant LastOf(seen, config.capacity) == LastOf(old(seen), config.capacity)
        decreases |seen|
      {
        assert seen[1..][|seen| - 1 - config.capacity..] == seen[|seen| - config.capacity..];
        seen := seen[1..];
      }
    }

    method Accept(occurrence: Occurrence, now: int) returns (accepted: bool)
      requires config.Valid() && |seen| <= config.capacity
      modifies this
      ensures |seen| <= config.capacity
      ensures (accepted, State()) == Remember(config, old(State()), Call(occurrence, now))
    {
      if occurrence in seen {
        return false;
      }
      seen := seen + [occurrence];
      EvictOldest();
      if config.cooldown == 0 {
        return true;
      }
      emitted := map key | key in emitted && !(now - emitted[key] >= config.cooldown) :: emitted[key];
      assert emitted == Purged(config, old(emitted), now);
      var key := occurrence.CooldownKey();
      if key in emitted && now - emitted[key] < config.cooldown {
        return false;
      }
      emitted := emitted[key := now];
      return true;
    }
  }

  // ---------- the specification: everything is remembered ----------

  datatype Emission = Emission(key: Key, at: int)

  /** Every occurrence that was not a duplicate, suppressed ones included, and every emission. */
  datatype History = History(occurrences: seq<Occurrence>, emissions: seq<Emission>)

  ghost predicate CoolingDown(c: Config, h: History, key: Key, now: int) {
    exists e :: e in h.emissions && e.key == key && now - e.at < c.cooldown
  }

  ghost function Judge(c: Config, h: History, call: Call): (bool, History)
    requires c.Valid()
  {
    if call.occurrence in LastOf(h.occurrences, c.capacity) then (false, h)
    else
      var key := Key(call.occurrence.strategy, call.occurrence.fingerprint);
      var remembered := h.occurrences + [call.occurrence];
      if CoolingDown(c, h, key, call.now) then (false, History(remembered, h.emissions))
      else (true, History(remembered, h.emissions + [Emission(key, call.now)]))
  }

  // ---------- whole runs ----------

  /** The memory after the first n calls. */
  function MemoryAt(c: Config, calls: seq<Call>, n: nat): Memory
    requires c.Valid() && n <= |calls|
  {
    if n == 0 then EMPTY else Remember(c, MemoryAt(c, calls, n - 1), calls[n - 1]).1
  }

  ghost function HistoryAt(c: Config, calls: seq<Call>, n: nat): History
    requires c.Valid() && n <= |calls|
  {
    if n == 0 then History([], []) else Judge(c, HistoryAt(c, calls, n - 1), calls[n - 1]).1
  }

  /** What the deduplicator answers to call k of a run. */
  predicate Accepts(c: Config, calls: seq<Call>, k: nat)
    requires c.Valid() && k < |calls|
  {
    Remember(c, MemoryAt(c, calls, k), calls[k]).0
  }

  /** What the full history says it should answer. */
  ghost predicate ShouldAccept(c: Config, calls: seq<Call>, k: nat)
    requires c.Valid() && k < |calls|
  {
    Judge(c, HistoryAt(c, calls, k), calls[k]).0
  }

  ghost predicate DecidesAlike(c: Config, calls: seq<Call>)
    requires c.Valid()
  {
    forall k: nat :: k < |calls| ==> Accepts(c, calls, k) == ShouldAccept(c, calls, k)
  }

  ghost predicate Reads(calls: seq<Call>, ts: seq<int>) {
    |calls| == |ts| && forall i :: 0 <= i < |ts| ==> calls[i].now == ts[i]
  }

  /** An emission at reading i can be forgotten at reading j although reading k is still within its cooldown. */
  ghost predicate ForgetsTooEarly(c: Config, ts: seq<int>, i: nat, j: nat, k: nat) {
    i <= j < k < |ts| && ts[j] - ts[i] >= c.cooldown && ts[k] - ts[i] < c.cooldown
  }

  ghost predicate Risky(c: Config, ts: seq<int>) {
    exists i: nat, j: nat, k: nat :: ForgetsTooEarly(c, ts, i, j, k)
  }

  // ---------- clocks that are not risky ----------

  /** e no longer matters to any reading from the n-th on. */
  ghost predicate Expired(c: Config, ts: seq<int>, n: nat, e: Emission) {
    forall k: nat :: n <= k < |ts| ==> ts[k] - e.at >= c.cooldown
  }

  ghost predicate ReadBefore(ts: seq<int>, n: nat, at: int) {
    exists i: nat :: i < n && i < |ts| && ts[i] == at
  }

  /** After n calls the memory holds all that can still matter. */
  ghost predicate Represents(c: Config, m: Memory, h: History, ts: seq<int>, n: nat)
    requires c.Valid()
  {
    && m.seen == LastOf(h.occurrences, c.capacity)
    && (forall e :: e in h.emissions ==> ReadBefore(ts, n, e.at))
    && (c.cooldown > 0 ==>
          && (forall key :: key in m.emitted ==> Emission(key, m.emitted[key]) in h.emissions)
          && forall e :: e in h.emissions ==>
               Expired(c, ts, n, e) || (e.key in m.emitted && e.at <= m.emitted[e.key]))
  }

  /** Once read and past its cooldown at reading n, an emission stays past it. */
  lemma ExpiresForGood(c: Config, ts: seq<int>, n: nat, e: Emission)
    requires !Risky(c, ts) && n < |ts| && ReadBefore(ts, n + 1, e.at) && ts[n] - e.at >= c.cooldown
    ensures Expired(c, ts, n, e)
  {
    var i: nat :| i < n + 1 && i < |ts| && ts[i] == e.at;
    forall k: nat | n <= k < |ts| ensures ts[k] - e.at >= c.cooldown {
      if k > n {
        assert !ForgetsTooEarly(c, ts, i, n, k);
      }
    }
  }

  /** Without a cooldown nothing ever cools down, unless the clock falls behind an emission. */
  lemma NothingCoolsDown(c: Config, m: Memory, h: History, ts: seq<int>, n: nat, key: Key)
    requires c.Valid() && c.cooldown == 0 && !Risky(c, ts) && n < |ts| && Represents(c, m, h, ts, n)
    ensures !CoolingDown(c, h, key, ts[n])
  {
    forall e | e in h.emissions ensures ts[n] - e.at >= 0 {
      var i: nat :| i < n && i < |ts| && ts[i] == e.at;
      assert !ForgetsTooEarly(c, ts, i, i, n);
    }
  }

  lemma CoolingDownSameWay(c: Config, m: Memory, h: History, ts: seq<int>, n: nat, key: Key)
    requires c.Valid() && !Risky(c, ts) && n < |ts| && Represents(c, m, h, ts, n)
    ensures CoolingDown(c, h, key, ts[n]) <==> c.cooldown > 0 && key in m.emitted && ts[n] - m.emitted[key] < c.cooldown
  {
    if c.cooldown == 0 {
      NothingCoolsDown(c, m, h, ts, n, key);
    } else {
      if CoolingDown(c, h, key, ts[n]) {
        var e :| e in h.emissions && e.key == key && ts[n] - e.at < c.cooldown;
        assert !Expired(c, ts, n, e);
      }
      if key in m.emitted && ts[n] - m.emitted[key] < c.cooldown {
        assert Emission(key, m.emitted[key]) in h.emissions;
      }
    }
  }

  lemma EmissionsStayCovered(c: Config, m: Memory, h: History, ts: seq<int>, n: nat, call: Call, e: Emission)
    requires c.Valid() && !Risky(c, ts) && 1 <= n <= |ts| && ts[n - 1] == call.now && Represents(c, m, h, ts, n - 1)
    requires c.cooldown > 0 && e in Judge(c, h, call).1.emissions
    requires Remember(c, m, call).0 == Judge(c, h, call).0
    ensures var m' := Remember(c, m, call).1;
            Expired(c, ts, n, e) || (e.key in m'.emitted && e.at <= m'.emitted[e.key])
  {
    if e in h.emissions && !Expired(c, ts, n - 1, e) {
      var last := Emission(e.key, m.emitted[e.key]);
      assert last in h.emissions;
      if call.now - last.at >= c.cooldown {
        assert ReadBefore(ts, n - 1, last.at);
        ExpiresForGood(c, ts, n - 1, last);
      }
    }
  }

  lemma StepRefines(c: Config, m: Memory, h: History, ts: seq<int>, n: nat, call: Call)
    requires c.Valid() && !Risky(c, ts) && 1 <= n <= |ts| && ts[n - 1] == call.now && Represents(c, m, h, ts, n - 1)
    ensures var (accepted, m') := Remember(c, m, call);
            var (wanted, h') := Judge(c, h, call);
            accepted == wanted && Represents(c, m', h', ts, n)
  {
    var key := call.occurrence.CooldownKey();
    CoolingDownSameWay(c, m, h, ts, n - 1, key);
    LastOfGrows(h.occurrences, call.occurrence, c.capacity);
    var (accepted, m') := Remember(c, m, call);
    var (wanted, h') := Judge(c, h, call);
    forall e | e in h'.emissions ensures ReadBefore(ts, n, e.at) {
      if e in h.emissions {
        assert ReadBefore(ts, n - 1, e.at);
      }
    }
    if c.cooldown > 0 {
      forall e | e in h'.emissions
        ensures Expired(c, ts, n, e) || (e.key in m'.emitted && e.at <= m'.emitted[e.key])
      {
        EmissionsStayCovered(c, m, h, ts, n, call, e);
      }
      forall k | k in m'.emitted ensures Emission(k, m'.emitted[k]) in h'.emissions {
        if k in m.emitted && m'.emitted[k] == m.emitted[k] {
          assert Emission(k, m.emitted[k]) in h.emissions;
        }
      }
    }
  }

  lemma {:induction false} RunRefines(c: Config, calls: seq<Call>, ts: seq<int>, n: nat)
    requires c.Valid() && !Risky(c, ts) && Reads(calls, ts) && n <= |ts|
    ensures Represents(c, MemoryAt(c, calls, n), HistoryAt(c, calls, n), ts, n)
  {
    if n > 0 {
      RunRefines(c, calls, ts, n - 1);
      StepRefines(c, MemoryAt(c, calls, n - 1), HistoryAt(c, calls, n - 1), ts, n, calls[n - 1]);
    }
  }

  lemma SafeClockDecidesAlike(c: Config, calls: seq<Call>, ts: seq<int>)
    requires c.Valid() && !Risky(c, ts) && Reads(calls, ts)
    ensures DecidesAlike(c, calls)
  {
    forall k: nat | k < |calls| ensures Accepts(c, calls, k) == ShouldAccept(c, calls, k) {
      RunRefines(c, calls, ts, k);
      StepRefines(c, MemoryAt(c, calls, k), HistoryAt(c, calls, k), ts, k + 1, calls[k]);
    }
  }

  // ---------- clocks that are ----------

  /** Three signals and a repetition of the first one's key. */
  datatype Cast = Cast(lead: Occurrence, first: Occurrence, purging: Occurrence, again: Occurrence) {
    predicate Valid() {
      && lead.CooldownKey() != first.CooldownKey() && purging.CooldownKey() != first.CooldownKey()
      && purging != lead
      && again.CooldownKey() == first.CooldownKey() && again != first
    }

    /** Emit `first` at i, let `purging` purge at j, repeat the first signal at k; duplicates fill the rest. */
    function At(i: nat, j: nat, k: nat, x: int): Occurrence {
      if x < i then lead else if x == i || x < j then first else if x < k then purging else again
    }
  }

  ghost predicate Plays(o: Cast, ts: seq<int>, i: nat, j: nat, k: nat, calls: seq<Call>) {
    |calls| == |ts| && forall x :: 0 <= x < |ts| ==> calls[x] == Call(o.At(i, j, k, x), ts[x])
  }

  function RiskyCalls(o: Cast, ts: seq<int>, i: nat, j: nat, k: nat): (calls: seq<Call>)
    ensures Reads(calls, ts) && Plays(o, ts, i, j, k, calls)
  {
    seq(|ts|, x requires 0 <= x < |ts| => Call(o.At(i, j, k, x), ts[x]))
  }

  /** What has occurred after n of these calls. */
  ghost predicate Played(o: Cast, i: nat, j: nat, k: nat, n: nat, h: History) {
    && (n > 0 ==> h.occurrences != [] && h.occurrences[|h.occurrences| - 1] == o.At(i, j, k, n - 1))
    && (n == 0 ==> h.occurrences == [])
    && o.again !in h.occurrences
    && (n <= i ==> o.first !in h.occurrences)
    && (n <= i + 1 || n <= j ==> o.purging !in h.occurrences)
  }

  /** When the first signal's key was emitted, on both sides. */
  ghost predicate Emitted(c: Config, o: Cast, ts: seq<int>, i: nat, j: nat, n: nat, m: Memory, h: History)
    requires i < |ts|
  {
    var key := o.first.CooldownKey();
    && (n <= i ==> key !in m.emitted && forall e :: e in h.emissions ==> e.key != key)
    && (n > i ==> Emission(key, ts[i]) in h.emissions)
    && (c.cooldown > 0 && i < n <= j ==> key in m.emitted && m.emitted[key] == ts[i])
    && (c.cooldown > 0 && n > j ==> key !in m.emitted)
  }

  lemma RepeatIsIgnored(c: Config, m: Memory, h: History, call: Call)
    requires c.Valid() && m.seen == LastOf(h.occurrences, c.capacity)
    requires h.occurrences != [] && h.occurrences[|h.occurrences| - 1] == call.occurrence
    ensures Remember(c, m, call) == (false, m) && Judge(c, h, call) == (false, h)
  {
    var recent := LastOf(h.occurrences, c.capacity);
    assert recent[|recent| - 1] == call.occurrence;
  }

  lemma RecentIsPast(h: History, n: nat, o: Occurrence)
    requires o !in h.occurrences
    ensures o !in LastOf(h.occurrences, n)
  {
  }

  lemma FreshIsRemembered(c: Config, m: Memory, h: History, call: Call)
    requires c.Valid() && m.seen == LastOf(h.occurrences, c.capacity) && call.occurrence !in h.occurrences
    ensures Remember(c, m, call).1.seen == LastOf(h.occurrences + [call.occurrence], c.capacity)
    ensures Judge(c, h, call).1.occurrences == h.occurrences + [call.occurrence]
  {
    RecentIsPast(h, c.capacity, call.occurrence);
    LastOfGrows(h.occurrences, call.occurrence, c.capacity);
  }

  lemma PlayAdvances(o: Cast, i: nat, j: nat, k: nat, n: nat, h: History)
    requires o.Valid() && i <= j < k && n < k && Played(o, i, j, k, n, h)
    ensures var now := o.At(i, j, k, n);
            if n > 0 && now == o.At(i, j, k, n - 1) then Played(o, i, j, k, n + 1, h)
            else now !in h.occurrences && forall emissions ::
              Played(o, i, j, k, n + 1, History(h.occurrences + [now], emissions))
  {
  }

  lemma FirstIsEmitted(c: Config, m: Memory, h: History, call: Call)
    requires c.Valid() && m.seen == LastOf(h.occurrences, c.capacity) && call.occurrence !in h.occurrences
    requires call.occurrence.CooldownKey() !in m.emitted
    requires forall e :: e in h.emissions ==> e.key != call.occurrence.CooldownKey()
    ensures var (accepted, m') := Remember(c, m, call);
            && accepted && Emission(call.occurrence.CooldownKey(), call.now) in Judge(c, h, call).1.emissions
            && (c.cooldown > 0 ==> call.occurrence.CooldownKey() in m'.emitted
                                   && m'.emitted[call.occurrence.CooldownKey()] == call.now)
  {
    RecentIsPast(h, c.capacity, call.occurrence);
  }

  lemma OtherKeyAdvances(c: Config, m: Memory, h: History, call: Call, key: Key, at: int)
    requires c.Valid() && call.occurrence.CooldownKey() != key
    ensures key !in m.emitted ==> key !in Remember(c, m, call).1.emitted
    ensures (forall e :: e in h.emissions ==> e.key != key) ==>
              forall e :: e in Judge(c, h, call).1.emissions ==> e.key != key
    ensures Emission(key, at) in h.emissions ==> Emission(key, at) in Judge(c, h, call).1.emissions
    ensures (c.cooldown > 0 && call.occurrence !in m.seen && call.now - at >= c.cooldown
             && key in m.emitted && m.emitted[key] == at) ==> key !in Remember(c, m, call).1.emitted
  {
  }

  lemma EmissionAdvances(c: Config, o: Cast, ts: seq<int>, i: nat, j: nat, k: nat, n: nat, m: Memory, h: History)
    requires c.Valid() && o.Valid() && ForgetsTooEarly(c, ts, i, j, k) && n < k
    requires m.seen == LastOf(h.occurrences, c.capacity)
    requires Played(o, i, j, k, n, h) && Emitted(c, o, ts, i, j, n, m, h)
    ensures var call := Call(o.At(i, j, k, n), ts[n]);
            && Emitted(c, o, ts, i, j, n + 1, Remember(c, m, call).1, Judge(c, h, call).1)
            && (n == i ==> Remember(c, m, call).0)
  {
    var call := Call(o.At(i, j, k, n), ts[n]);
    if n > 0 && call.occurrence == o.At(i, j, k, n - 1) {
      RepeatIsIgnored(c, m, h, call);
    } else {
      PlayAdvances(o, i, j, k, n, h);
      if n == i {
        FirstIsEmitted(c, m, h, call);
      } else {
        RecentIsPast(h, c.capacity, call.occurrence);
        OtherKeyAdvances(c, m, h, call, o.first.CooldownKey(), ts[i]);
      }
    }
  }

  lemma MemoryAdvances(c: Config, o: Cast, i: nat, j: nat, k: nat, n: nat, now: int, m: Memory, h: History)
    requires c.Valid() && o.Valid() && i <= j < k && n < k
    requires m.seen == LastOf(h.occurrences, c.capacity) && Played(o, i, j, k, n, h)
    ensures var call := Call(o.At(i, j, k, n), now);
            && Remember(c, m, call).1.seen == LastOf(Judge(c, h, call).1.occurrences, c.capacity)
            && Played(o, i, j, k, n + 1, Judge(c, h, call).1)
  {
    var call := Call(o.At(i, j, k, n), now);
    PlayAdvances(o, i, j, k, n, h);
    if n > 0 && call.occurrence == o.At(i, j, k, n - 1) {
      RepeatIsIgnored(c, m, h, call);
    } else {
      FreshIsRemembered(c, m, h, call);
      var h' := Judge(c, h, call).1;
      assert h' == History(h.occurrences + [call.occurrence], h'.emissions);
    }
  }

  ghost predicate Staged(c: Config, o: Cast, ts: seq<int>, i: nat, j: nat, k: nat, n: nat, m: Memory, h: History)
    requires c.Valid() && i < |ts|
  {
    && m.seen == LastOf(h.occurrences, c.capacity)
    && Played(o, i, j, k, n, h) && Emitted(c, o, ts, i, j, n, m, h)
  }

  lemma StageAdvances(
      c: Config, o: Cast, ts: seq<int>, i: nat, j: nat, k: nat, n: nat, next: nat, m: Memory, h: History, call: Call,
      m': Memory, h': History)
    requires c.Valid() && o.Valid() && ForgetsTooEarly(c, ts, i, j, k) && n < k && next == n + 1
    requires Staged(c, o, ts, i, j, k, n, m, h) && call == Call(o.At(i, j, k, n), ts[n])
    requires m' == Remember(c, m, call).1 && h' == Judge(c, h, call).1
    ensures Staged(c, o, ts, i, j, k, next, m', h')
  {
    MemoryAdvances(c, o, i, j, k, n, ts[n], m, h);
    EmissionAdvances(c, o, ts, i, j, k, n, m, h);
  }

  /** The play up to call n. */
  ghost predicate StagedUpTo(c: Config, o: Cast, ts: seq<int>, i: nat, j: nat, k: nat, n: nat, calls: seq<Call>)
    requires c.Valid() && i < |ts| && n <= |calls|
  {
    && (n > 0 ==> StagedUpTo(c, o, ts, i, j, k, n - 1, calls))
    && Staged(c, o, ts, i, j, k, n, MemoryAt(c, calls, n), HistoryAt(c, calls, n))
  }

  lemma NothingStaged(c: Config, o: Cast, ts: seq<int>, i: nat, j: nat, k: nat, calls: seq<Call>)
    requires c.Valid() && i <= j < |ts|
    ensures StagedUpTo(c, o, ts, i, j, k, 0, calls)
  {
  }

  lemma RiskyStep(c: Config, o: Cast, ts: seq<int>, i: nat, j: nat, k: nat, n: nat, calls: seq<Call>)
    requires c.Valid() && o.Valid() && ForgetsTooEarly(c, ts, i, j, k) && 0 < n <= k && Plays(o, ts, i, j, k, calls)
    requires StagedUpTo(c, o, ts, i, j, k, n - 1, calls)
    ensures StagedUpTo(c, o, ts, i, j, k, n, calls)
  {
    var m, h := MemoryAt(c, calls, n - 1), HistoryAt(c, calls, n - 1);
    StageAdvances(
      c, o, ts, i, j, k, n - 1, n, m, h, calls[n - 1], MemoryAt(c, calls, n), HistoryAt(c, calls, n));
  }

  lemma {:induction false} RiskyRun(
      c: Config, o: Cast, ts: seq<int>, i: nat, j: nat, k: nat, n: nat, calls: seq<Call>)
    requires c.Valid() && o.Valid() && ForgetsTooEarly(c, ts, i, j, k) && n <= k && Plays(o, ts, i, j, k, calls)
    ensures StagedUpTo(c, o, ts, i, j, k, n, calls)
  {
    if n == 0 {
      NothingStaged(c, o, ts, i, j, k, calls);
    } else {
      RiskyRun(c, o, ts, i, j, k, n - 1, calls);
      RiskyStep(c, o, ts, i, j, k, n, calls);
    }
  }

  /** The version, the symbol and the time of an occurrence do not matter to its cooldown. */
  predicate SameSignal(o: Occurrence, p: Occurrence) {
    o.strategy == p.strategy && o.fingerprint == p.fingerprint
  }

  /** Two calls of one run are both accepted although they carry the same signal within one cooldown. */
  ghost predicate EmitsTwice(c: Config, calls: seq<Call>, a: nat, b: nat)
    requires c.Valid()
  {
    && a < b < |calls| && Accepts(c, calls, a) && Accepts(c, calls, b)
    && SameSignal(calls[a].occurrence, calls[b].occurrence)
    && calls[b].now - calls[a].now < c.cooldown
  }

  ghost predicate NeverEmitsTwice(c: Config, calls: seq<Call>)
    requires c.Valid()
  {
    forall a: nat, b: nat :: !EmitsTwice(c, calls, a, b)
  }

  /** A risky clock has a run that repeats a signal within its cooldown, where the full history would not. */
  lemma RiskyClockEmitsTwice(c: Config, ts: seq<int>, i: nat, j: nat, k: nat) returns (calls: seq<Call>)
    requires c.Valid() && ForgetsTooEarly(c, ts, i, j, k)
    ensures Reads(calls, ts) && EmitsTwice(c, calls, i, k) && !ShouldAccept(c, calls, k)
  {
    var o := Cast(Occurrence("lead", "1", "x", "f", 0), Occurrence("first", "1", "x", "f", 0),
                  Occurrence("other", "1", "x", "f", 0), Occurrence("first", "1", "x", "f", 1));
    assert o.Valid() by {
      assert "lead"[0] != "first"[0] && "first"[0] != "other"[0];
    }
    calls := RiskyCalls(o, ts, i, j, k);
    assert calls[i] == Call(o.first, ts[i]) && calls[k] == Call(o.again, ts[k]);
    FirstIsAccepted(c, o, ts, i, j, k);
    RepetitionIsAccepted(c, o, ts, i, j, k);
  }

  lemma FirstIsAccepted(c: Config, o: Cast, ts: seq<int>, i: nat, j: nat, k: nat)
    requires c.Valid() && o.Valid() && ForgetsTooEarly(c, ts, i, j, k)
    ensures Accepts(c, RiskyCalls(o, ts, i, j, k), i)
  {
    var calls := RiskyCalls(o, ts, i, j, k);
    RiskyRun(c, o, ts, i, j, k, i, calls);
    EmissionAdvances(c, o, ts, i, j, k, i, MemoryAt(c, calls, i), HistoryAt(c, calls, i));
    assert calls[i] == Call(o.At(i, j, k, i), ts[i]);
  }

  lemma RepetitionIsAccepted(c: Config, o: Cast, ts: seq<int>, i: nat, j: nat, k: nat)
    requires c.Valid() && o.Valid() && ForgetsTooEarly(c, ts, i, j, k)
    ensures Accepts(c, RiskyCalls(o, ts, i, j, k), k) && !ShouldAccept(c, RiskyCalls(o, ts, i, j, k), k)
  {
    var calls := RiskyCalls(o, ts, i, j, k);
    RiskyRun(c, o, ts, i, j, k, k, calls);
    var h := HistoryAt(c, calls, k);
    RecentIsPast(h, c.capacity, o.again);
    assert calls[k] == Call(o.again, ts[k]);
    assert CoolingDown(c, h, o.again.CooldownKey(), ts[k]) by {
      assert Emission(o.first.CooldownKey(), ts[i]) in h.emissions;
    }
  }

  // ---------- exactly when ----------

  /** Forgetting changes no decision, whatever the signals, exactly when no reading lets the memory drop an
      emission that a later reading still needs. */
  lemma DecidesAlikeIff(c: Config, ts: seq<int>)
    requires c.Valid()
    ensures (forall calls :: Reads(calls, ts) ==> DecidesAlike(c, calls)) <==> !Risky(c, ts)
  {
    if Risky(c, ts) {
      var i: nat, j: nat, k: nat :| ForgetsTooEarly(c, ts, i, j, k);
      var calls := RiskyClockEmitsTwice(c, ts, i, j, k);
      assert Accepts(c, calls, k) != ShouldAccept(c, calls, k);
    } else {
      forall calls | Reads(calls, ts) ensures DecidesAlike(c, calls) {
        SafeClockDecidesAlike(c, calls, ts);
      }
    }
  }

  lemma {:induction false} EmissionsStay(c: Config, calls: seq<Call>, a: nat, n: nat)
    requires c.Valid() && a < n <= |calls| && ShouldAccept(c, calls, a)
    ensures Emission(calls[a].occurrence.CooldownKey(), calls[a].now) in HistoryAt(c, calls, n).emissions
  {
    if a < n - 1 {
      EmissionsStay(c, calls, a, n - 1);
    }
  }

  /** The cooldown is kept between any two emissions of one signal under exactly the same condition. */
  lemma CooldownIsKeptIff(c: Config, ts: seq<int>)
    requires c.Valid()
    ensures (forall calls :: Reads(calls, ts) ==> NeverEmitsTwice(c, calls)) <==> !Risky(c, ts)
  {
    if Risky(c, ts) {
      var i: nat, j: nat, k: nat :| ForgetsTooEarly(c, ts, i, j, k);
      var calls := RiskyClockEmitsTwice(c, ts, i, j, k);
      assert !NeverEmitsTwice(c, calls);
    } else {
      forall calls | Reads(calls, ts) ensures NeverEmitsTwice(c, calls) {
        SafeClockDecidesAlike(c, calls, ts);
        AlikeNeverEmitsTwice(c, calls);
      }
    }
  }

  lemma AlikeNeverEmitsTwice(c: Config, calls: seq<Call>)
    requires c.Valid() && DecidesAlike(c, calls)
    ensures NeverEmitsTwice(c, calls)
  {
    forall a: nat, b: nat | a < b < |calls| && Accepts(c, calls, a) ensures !EmitsTwice(c, calls, a, b) {
      EmissionsStay(c, calls, a, b);
      if SameSignal(calls[a].occurrence, calls[b].occurrence) && calls[b].now - calls[a].now < c.cooldown {
        StillCoolingDown(c, calls, a, b);
      }
    }
  }

  lemma StillCoolingDown(c: Config, calls: seq<Call>, a: nat, b: nat)
    requires c.Valid() && a < b < |calls| && SameSignal(calls[a].occurrence, calls[b].occurrence)
    requires Emission(calls[a].occurrence.CooldownKey(), calls[a].now) in HistoryAt(c, calls, b).emissions
    requires calls[b].now - calls[a].now < c.cooldown
    ensures !ShouldAccept(c, calls, b)
  {
    var e := Emission(calls[a].occurrence.CooldownKey(), calls[a].now);
    assert e.key == Key(calls[b].occurrence.strategy, calls[b].occurrence.fingerprint);
  }

  ghost predicate EmittedBy(c: Config, calls: seq<Call>, j: nat, e: Emission)
    requires c.Valid() && j < |calls|
  {
    && ShouldAccept(c, calls, j) && e.at == calls[j].now
    && e.key.strategy == calls[j].occurrence.strategy && e.key.fingerprint == calls[j].occurrence.fingerprint
  }

  ghost predicate EmittedBefore(c: Config, calls: seq<Call>, n: nat, e: Emission)
    requires c.Valid() && n <= |calls|
  {
    exists j: nat :: j < n && EmittedBy(c, calls, j, e)
  }

  lemma JudgeEmits(c: Config, h: History, call: Call, e: Emission)
    requires c.Valid()
    ensures var (accepted, h') := Judge(c, h, call);
            var emitted := Emission(Key(call.occurrence.strategy, call.occurrence.fingerprint), call.now);
            e in h'.emissions <==> (e in h.emissions || (accepted && e == emitted))
  {
  }

  lemma {:induction false} EmissionsAreAccepted(c: Config, calls: seq<Call>, n: nat, e: Emission)
    requires c.Valid() && n <= |calls|
    ensures e in HistoryAt(c, calls, n).emissions <==> EmittedBefore(c, calls, n, e)
  {
    if n > 0 {
      var k := n - 1;
      EmissionsAreAccepted(c, calls, k, e);
      EmittedGrows(c, calls, n, e, EmittedBy(c, calls, k, e));
      JudgeEmits(c, HistoryAt(c, calls, k), calls[k], e);
    }
  }

  lemma EmittedGrows(c: Config, calls: seq<Call>, n: nat, e: Emission, byLast: bool)
    requires c.Valid() && 0 < n <= |calls| && byLast == EmittedBy(c, calls, n - 1, e)
    ensures EmittedBefore(c, calls, n, e) <==> EmittedBefore(c, calls, n - 1, e) || byLast
  {
    if EmittedBefore(c, calls, n, e) {
      var j: nat :| j < n && EmittedBy(c, calls, j, e);
      assert j < n - 1 ==> EmittedBefore(c, calls, n - 1, e);
    }
  }

  /** While the memory decides like the full history: a call is refused exactly when its occurrence is among the last
      `capacity` distinct ones or an accepted call of the same signal is less than the cooldown ago; a suppressed
      occurrence is remembered too. */
  lemma AcceptedIff(c: Config, calls: seq<Call>, k: nat)
    requires c.Valid() && k < |calls| && DecidesAlike(c, calls)
    ensures var repeated := calls[k].occurrence in LastOf(HistoryAt(c, calls, k).occurrences, c.capacity);
            && (Accepts(c, calls, k) <==>
                 && !repeated
                 && forall j: nat ::
                      j < k && Accepts(c, calls, j) && SameSignal(calls[j].occurrence, calls[k].occurrence) ==>
                        calls[k].now - calls[j].now >= c.cooldown)
            && HistoryAt(c, calls, k + 1).occurrences
                 == HistoryAt(c, calls, k).occurrences + if repeated then [] else [calls[k].occurrence]
  {
    var key := Key(calls[k].occurrence.strategy, calls[k].occurrence.fingerprint);
    var h := HistoryAt(c, calls, k);
    if CoolingDown(c, h, key, calls[k].now) {
      var e :| e in h.emissions && e.key == key && calls[k].now - e.at < c.cooldown;
      EmissionsAreAccepted(c, calls, k, e);
      var j: nat :| j < k && EmittedBy(c, calls, j, e);
    }
    forall j: nat | j < k && Accepts(c, calls, j) && SameSignal(calls[j].occurrence, calls[k].occurrence)
      ensures Emission(key, calls[j].now) in h.emissions
    {
      assert EmittedBy(c, calls, j, Emission(key, calls[j].now));
      assert EmittedBefore(c, calls, k, Emission(key, calls[j].now));
      EmissionsAreAccepted(c, calls, k, Emission(key, calls[j].now));
    }
  }

  ghost predicate NeverBackwards(calls: seq<Call>) {
    forall i, j :: 0 <= i < j < |calls| ==> calls[i].now <= calls[j].now
  }

  /** With a clock that never runs backwards: a signal is refused exactly when it is among the last `capacity`
      distinct occurrences or its key was emitted within the cooldown. */
  lemma DeduplicatorDecidesLikeFullHistory(c: Config, calls: seq<Call>)
    requires c.Valid() && NeverBackwards(calls)
    ensures DecidesAlike(c, calls) && NeverEmitsTwice(c, calls)
  {
    var ts := seq(|calls|, i requires 0 <= i < |calls| => calls[i].now);
    SafeClockDecidesAlike(c, calls, ts);
    AlikeNeverEmitsTwice(c, calls);
  }

  /** A clock that goes 0, 10, 5 under a cooldown of 10 lets one signal out at 0 and again at 5. */
  lemma BackwardClockEmitsTwice() returns (c: Config, calls: seq<Call>)
    ensures c == Config(10, 5) && Reads(calls, [0, 10, 5]) && EmitsTwice(c, calls, 0, 2) && !DecidesAlike(c, calls)
  {
    c := Config(10, 5);
    var ts := [0, 10, 5];
    calls := RiskyClockEmitsTwice(c, ts, 0, 1, 2);
    assert Accepts(c, calls, 2) != ShouldAccept(c, calls, 2);
  }
}
