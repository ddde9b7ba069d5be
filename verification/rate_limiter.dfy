/** The sliding-window limiter for public REST calls, over whole runs of clock readings. */
module RateLimiter {
  datatype Config = Config(maxCalls: nat, period: real) {
    predicate Valid() { maxCalls >= 1 && period > 0.0 }
  }

  /** A caller that reads the clock is either admitted at once or told how long to sleep. */
  datatype Answer = Granted | Sleep(seconds: real)

  function Purged(calls: seq<real>, cutoff: real): seq<real> {
    if calls != [] && calls[0] <= cutoff then Purged(calls[1..], cutoff) else calls
  }

  function Answered(c: Config, calls: seq<real>, now: real): (Answer, seq<real>)
    requires c.Valid()
  {
    var live := Purged(calls, now - c.period);
    if |live| < c.maxCalls then (Granted, live + [now])
    else
      var left := c.period - (now - live[0]);
      (Sleep(if left < 0.0 then 0.0 else left), live)
  }

  /** All grants after a run of clock readings, oldest first. */
  function Grants(c: Config, readings: seq<real>): seq<real>
    requires c.Valid()
  {
    if readings == [] then []
    else
      var now := readings[|readings| - 1];
      var before := readings[..|readings| - 1];
      if Answered(c, Queue(c, before), now).0.Granted? then Grants(c, before) + [now] else Grants(c, before)
  }

  /** The limiter's deque after a run of clock readings. */
  function Queue(c: Config, readings: seq<real>): seq<real>
    requires c.Valid()
  {
    if readings == [] then []
    else Answered(c, Queue(c, readings[..|readings| - 1]), readings[|readings| - 1]).1
  }

  /** One more reading, spelled out. */
  lemma ReadingAnswered(c: Config, past: seq<real>, now: real)
    requires c.Valid()
    ensures var live := Purged(Queue(c, past), now - c.period);
            if |live| < c.maxCalls
            then Queue(c, past + [now]) == live + [now] && Grants(c, past + [now]) == Grants(c, past) + [now]
            else Queue(c, past + [now]) == live && Grants(c, past + [now]) == Grants(c, past)
  {
    assert (past + [now])[..|past|] == past;
  }

  lemma OneMoreRead(past: seq<real>, clock: seq<real>, used: nat)
    requires used < |clock|
    ensures past + clock[..used] + [clock[used]] == past + clock[..used + 1]
  {
  }

  class AsyncRateLimiter {
    const config: Config
    var calls: seq<real>

    constructor (config: Config)
      requires config.Valid()
      ensures this.config == config && calls == Queue(config, [])
    {
      this.config := config;
      calls := [];
    }

    method PurgeUpTo(cutoff: real)
      modifies this
      ensures calls == Purged(old(calls), cutoff)
    {
      while calls != [] && calls[0] <= cutoff
        invariant Purged(calls, cutoff) == Purged(old(calls), cutoff)
        decreases |calls|
      {
        calls := calls[1..];
      }
    }

    /** One turn of the loop: purge at the reading, and take a slot if one is free. */
    method TryOnce(ghost past: seq<real>, now: real) returns (granted: bool)
      requires config.Valid() && calls == Queue(config, past)
      modifies this
      ensures calls == Queue(config, past + [now])
      ensures Grants(config, past + [now]) == if granted then Grants(config, past) + [now] else Grants(config, past)
    {
      ReadingAnswered(config, past, now);
      PurgeUpTo(now - config.period);
      granted := |calls| < config.maxCalls;
      if granted {
        calls := calls + [now];
      }
    }

    /** One acquisition: clock readings until a grant. `past` is everything read before. */
    method Acquire(ghost past: seq<real>, clock: seq<real>) returns (used: nat, granted: bool)
      requires config.Valid() && calls == Queue(config, past)
      modifies this
      ensures used <= |clock| && calls == Queue(config, past + clock[..used])
      ensures !granted ==> used == |clock| && Grants(config, past + clock) == Grants(config, past)
      ensures granted ==> used >= 1 && Grants(config, past + clock[..used]) == Grants(config, past) + [clock[used - 1]]
    {
      used, granted := 0, false;
      ghost var read := past;
      while used < |clock| && !granted
        invariant used <= |clock| && read == past + clock[..used] && calls == Queue(config, read)
        invariant granted ==> used >= 1 && Grants(config, read) == Grants(config, past) + [clock[used - 1]]
        invariant !granted ==> Grants(config, read) == Grants(config, past)
        decreases |clock| - used, !granted
      {
        granted := TryOnce(read, clock[used]);
        OneMoreRead(past, clock, used);
        read, used := read + [clock[used]], used + 1;
      }
      assert clock[..|clock|] == clock;
    }
  }

  // ---------- whole runs ----------

  ghost predicate Nondecreasing(xs: seq<real>) {
    forall i, j :: 0 <= i < j < |xs| ==> xs[i] <= xs[j]
  }

  /** What purging drops is old, and it keeps the rest in order. */
  lemma {:induction false} PurgedIsSuffix(calls: seq<real>, cutoff: real) returns (k: nat)
    ensures k <= |calls| && Purged(calls, cutoff) == calls[k..]
    ensures forall i :: 0 <= i < k ==> calls[i] <= cutoff
    ensures k < |calls| ==> calls[k] > cutoff
  {
    if calls != [] && calls[0] <= cutoff {
      var rest := PurgedIsSuffix(calls[1..], cutoff);
      k := rest + 1;
    } else {
      k := 0;
    }
  }

  lemma {:induction false} PurgingTwice(calls: seq<real>, earlier: real, later: real)
    requires earlier <= later
    ensures Purged(Purged(calls, earlier), later) == Purged(calls, later)
  {
    if calls != [] && calls[0] <= earlier {
      PurgingTwice(calls[1..], earlier, later);
    }
  }

  lemma {:induction false} PurgedAppend(calls: seq<real>, now: real, cutoff: real)
    requires cutoff < now
    ensures Purged(calls + [now], cutoff) == Purged(calls, cutoff) + [now]
  {
    if calls != [] && calls[0] <= cutoff {
      PurgedAppend(calls[1..], now, cutoff);
      assert (calls + [now])[1..] == calls[1..] + [now];
    } else if calls == [] {
      assert calls + [now] == [now];
    }
  }

  /** Over any run the deque is a suffix of the grant history: what a scan of every grant would leave alive. */
  lemma {:induction false} QueueIsWindow(c: Config, readings: seq<real>)
    requires c.Valid() && Nondecreasing(readings) && readings != []
    ensures Queue(c, readings) == Purged(Grants(c, readings), readings[|readings| - 1] - c.period)
  {
    var now := readings[|readings| - 1];
    var before := readings[..|readings| - 1];
    PurgedHistory(c, before, now);
    PurgedAppend(Grants(c, before), now, now - c.period);
  }

  /** The live part of the deque at a later reading is the live part of the whole grant history. */
  lemma {:induction false} PurgedHistory(c: Config, before: seq<real>, now: real)
    requires c.Valid() && Nondecreasing(before + [now])
    ensures Purged(Queue(c, before), now - c.period) == Purged(Grants(c, before), now - c.period)
    decreases |before|
  {
    if before != [] {
      var last := before[|before| - 1];
      var rest := before[..|before| - 1];
      assert rest + [last] == before && (before + [now])[..|before|] == before;
      assert (before + [now])[|before| - 1] <= (before + [now])[|before|];
      PurgedHistory(c, rest, last);
      PurgedAppend(Grants(c, rest), last, last - c.period);
      PurgingTwice(Grants(c, before), last - c.period, now - c.period);
    }
  }

  /** Over any run, any maxCalls + 1 consecutive grants span at least the period. */
  lemma {:induction false} GrantsAreSpread(c: Config, readings: seq<real>, i: nat)
    requires c.Valid() && Nondecreasing(readings) && i + c.maxCalls < |Grants(c, readings)|
    ensures Grants(c, readings)[i + c.maxCalls] - Grants(c, readings)[i] >= c.period
    decreases |readings|
  {
    var now := readings[|readings| - 1];
    var before := readings[..|readings| - 1];
    var earlier := Grants(c, before);
    if i + c.maxCalls < |earlier| {
      GrantsAreSpread(c, before, i);
    } else {
      assert before + [now] == readings;
      PurgedHistory(c, before, now);
      var k := PurgedIsSuffix(earlier, now - c.period);
      assert earlier[i] <= now - c.period;
    }
  }

  lemma {:induction false} GrantsAreReadings(c: Config, readings: seq<real>)
    requires c.Valid() && Nondecreasing(readings)
    ensures Nondecreasing(Grants(c, readings))
    ensures Grants(c, readings) != [] ==>
              readings != [] && Grants(c, readings)[|Grants(c, readings)| - 1] <= readings[|readings| - 1]
    decreases |readings|
  {
    if readings != [] {
      GrantsAreReadings(c, readings[..|readings| - 1]);
    }
  }

  /** The number of grants strictly inside the last period. */
  ghost function Recent(grants: seq<real>, cutoff: real): nat {
    if grants == [] then 0
    else Recent(grants[1..], cutoff) + if grants[0] > cutoff then 1 else 0
  }

  lemma {:induction false} RecentCountsLive(grants: seq<real>, cutoff: real)
    requires Nondecreasing(grants)
    ensures Recent(grants, cutoff) == |Purged(grants, cutoff)|
  {
    if grants != [] {
      RecentCountsLive(grants[1..], cutoff);
      if grants[0] > cutoff && |grants| > 1 {
        assert grants[1..][0] == grants[1] > cutoff;
      }
    }
  }

  /** g is the oldest of the grants after the cutoff. */
  ghost predicate IsOldestAfter(g: real, grants: seq<real>, cutoff: real) {
    g in grants && g > cutoff && forall h :: h in grants && h > cutoff ==> g <= h
  }

  lemma OldestLive(c: Config, readings: seq<real>, now: real)
    requires c.Valid() && Nondecreasing(readings + [now])
    requires Purged(Grants(c, readings), now - c.period) != []
    ensures var g := Purged(Grants(c, readings), now - c.period)[0];
            IsOldestAfter(g, Grants(c, readings), now - c.period) && g <= now
  {
    var grants := Grants(c, readings);
    var k := PurgedIsSuffix(grants, now - c.period);
    assert (readings + [now])[..|readings|] == readings;
    GrantsAreReadings(c, readings);
    assert readings != [] ==> (readings + [now])[|readings| - 1] <= (readings + [now])[|readings|];
    assert grants[k] <= grants[|grants| - 1];
    forall h | h in grants && h > now - c.period ensures grants[k] <= h {
      var i :| 0 <= i < |grants| && grants[i] == h;
    }
  }

  lemma LiveGrantsAreRecent(c: Config, readings: seq<real>, now: real)
    requires c.Valid() && Nondecreasing(readings + [now])
    ensures Recent(Grants(c, readings), now - c.period) == |Purged(Grants(c, readings), now - c.period)|
  {
    assert (readings + [now])[..|readings|] == readings;
    GrantsAreReadings(c, readings);
    RecentCountsLive(Grants(c, readings), now - c.period);
  }

  lemma AnswerMeans(c: Config, calls: seq<real>, now: real)
    requires c.Valid()
    requires var live := Purged(calls, now - c.period); live != [] ==> now - c.period < live[0] <= now
    ensures var answer, live := Answered(c, calls, now).0, Purged(calls, now - c.period);
            && (answer.Granted? <==> |live| < c.maxCalls)
            && (answer.Sleep? ==>
                  live != [] && 0.0 < answer.seconds <= c.period && live[0] == now + answer.seconds - c.period)
  {
    var live := Purged(calls, now - c.period);
    if |live| >= c.maxCalls {
      var left := c.period - (now - live[0]);
      assert 0.0 < left <= c.period;
    }
  }

  /** A caller sleeps only when it must: it is admitted exactly when fewer than maxCalls grants lie within the
      last period, and otherwise sleeps exactly until the oldest of those leaves it. */
  lemma SleepsOnlyWhenFull(c: Config, readings: seq<real>, now: real)
    requires c.Valid() && Nondecreasing(readings + [now])
    ensures var answer := Answered(c, Queue(c, readings), now).0;
            && (answer.Granted? <==> Recent(Grants(c, readings), now - c.period) < c.maxCalls)
            && (answer.Sleep? ==>
                  && 0.0 < answer.seconds <= c.period
                  && IsOldestAfter(now + answer.seconds - c.period, Grants(c, readings), now - c.period))
  {
    PurgedHistory(c, readings, now);
    LiveGrantsAreRecent(c, readings, now);
    var live := Purged(Grants(c, readings), now - c.period);
    if live != [] {
      OldestLive(c, readings, now);
    }
    AnswerMeans(c, Queue(c, readings), now);
  }
}
