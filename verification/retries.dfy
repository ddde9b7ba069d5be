/** The retry budget: every counted failure is charged, so no order is retried forever. */
module Retries {
  import opened Common
  import opened WorkOrder
  import opened Lifecycle

  ghost function Total(counts: Counts, keys: set<IssueKey>): nat {
    if keys == {} then 0
    else
      var key := Pick(keys);
      CountOf(counts, key) + Total(counts, keys - {key})
  }

  lemma {:induction false} TotalTakesAny(counts: Counts, keys: set<IssueKey>, key: IssueKey)
    requires key in keys
    ensures Total(counts, keys) == CountOf(counts, key) + Total(counts, keys - {key})
    decreases keys
  {
    var first := Pick(keys);
    if first != key {
      TotalTakesAny(counts, keys - {first}, key);
      TotalTakesAny(counts, keys - {key}, first);
      assert keys - {first} - {key} == keys - {key} - {first};
    }
  }

  /** Charging a failure raises the total by the number of issues it names. */
  lemma {:induction false} BumpRaisesTotal(counts: Counts, bumped: set<IssueKey>, keys: set<IssueKey>)
    ensures Total(Bumped(counts, bumped), keys) == Total(counts, keys) + |bumped * keys|
    decreases keys
  {
    if keys == {} {
    } else {
      var key := Pick(keys);
      BumpRaisesTotal(counts, bumped, keys - {key});
      if key in bumped {
        assert bumped * keys == bumped * (keys - {key}) + {key};
      } else {
        assert bumped * keys == bumped * (keys - {key});
      }
    }
  }

  lemma {:induction false} UnseenIssuesAddNothing(counts: Counts, extra: set<IssueKey>)
    ensures Total(counts, counts.Keys + extra) == Total(counts, counts.Keys)
    decreases extra
  {
    if extra == {} {
      assert counts.Keys + extra == counts.Keys;
    } else {
      var key := Pick(extra);
      UnseenIssuesAddNothing(counts, extra - {key});
      if key in counts {
        assert counts.Keys + extra == counts.Keys + (extra - {key});
      } else {
        TotalTakesAny(counts, counts.Keys + extra, key);
        assert counts.Keys + extra - {key} == counts.Keys + (extra - {key});
      }
    }
  }

  lemma {:induction false} TotalBounded(counts: Counts, keys: set<IssueKey>, limit: nat)
    requires forall key :: key in keys ==> CountOf(counts, key) <= limit
    ensures Total(counts, keys) <= |keys| * limit
    decreases keys
  {
    if keys == {} {
    } else {
      TotalBounded(counts, keys - {Pick(keys)}, limit);
      assert |keys| * limit == (|keys| - 1) * limit + limit;
    }
  }

  /** Between resets: an order that is still alive has budget left, and every attempt is charged somewhere. */
  ghost predicate Budgeted(c: Config, o: Order) {
    && (!o.status.DeadLetter? ==>
          o.attempts < c.maxAttempts && forall key :: CountOf(o.issues, key) <= c.sameIssueLimit)
    && o.attempts <= Total(o.issues, o.issues.Keys)
  }

  lemma RequeueKeepsBudget(
      c: Config, o: Order, stage: Stage, results: Results, counted: bool, keys: set<IssueKey>, userAction: bool)
    requires c.Valid() && Budgeted(c, o) && !o.status.DeadLetter? && (counted ==> keys != {})
    ensures var o' := Requeued(c, o, stage, results, counted, keys, userAction);
            && Budgeted(c, o')
            && (counted ==> c.maxAttempts - o'.attempts < c.maxAttempts - o.attempts)
  {
    if counted {
      var o' := Requeued(c, o, stage, results, counted, keys, userAction);
      BumpRaisesTotal(o.issues, keys, o.issues.Keys + keys);
      UnseenIssuesAddNothing(o.issues, keys);
      assert o'.issues.Keys == o.issues.Keys + keys;
      assert keys * (o.issues.Keys + keys) == keys;
      if !o'.status.DeadLetter? {
        forall key ensures CountOf(o'.issues, key) <= c.sameIssueLimit {
          assert key in Recurring(c, o'.issues, keys) <==> key in keys && CountOf(o'.issues, key) > c.sameIssueLimit;
        }
      }
    }
  }

  lemma PersistKeepsBudget(c: Config, s: System)
    requires c.Valid() && Inv(c, s) && Budgeted(c, s.order) && Step(c, s, Persist).Some?
    ensures Budgeted(c, Persisted(c, s).order)
  {
    var o, stage, r := s.order, s.worker.stage, s.worker.results;
    var report := ResultAt(r, stage).value;
    match stage
    case Strategy =>
    case Backtest =>
    case Optimize => RequeueKeepsBudget(c, o, Optimize, r, true, DefaultKey(Optimize, "incomplete"), false);
    case _ =>
      var back := if stage.ReviewImplementation? then Strategy else Backtest;
      if report.verdict.Incomplete? {
        RequeueKeepsBudget(c, o, stage, r, true, DefaultKey(stage, "incomplete"), false);
      } else {
        RequeueKeepsBudget(c, o, back, r, true, FindingKeys(stage, back, report), report.userAction);
      }
  }

  lemma StepKeepsBudget(c: Config, s: System, e: Event)
    requires c.Valid() && Inv(c, s) && Budgeted(c, s.order) && Step(c, s, e).Some?
    ensures Budgeted(c, Step(c, s, e).value.order)
  {
    var o, w := s.order, s.worker;
    if e.Persist? {
      PersistKeepsBudget(c, s);
    } else if e.Materialize? {
      RequeueKeepsBudget(c, o, Dataset, w.results, true, DefaultKey(Dataset, "acquisition"), false);
    } else if e.TurnTimesOut? {
      RequeueKeepsBudget(c, o, w.stage, w.results, true, DefaultKey(w.stage, "timeout"), false);
    } else if e.QuotaError? || e.GracefulStop? {
      RequeueKeepsBudget(c, o, w.stage, w.results, false, {}, false);
    }
  }

  /** Over every run: a queued or user-blocked order has attempts to spare, no issue over its limit, and at
      most (number of distinct issues) * limit attempts behind it. */
  lemma {:induction false} RunKeepsBudget(c: Config, states: seq<System>, events: seq<Event>)
    requires c.Valid() && IsRun(c, states, events)
    ensures var o := states[|states| - 1].order;
            && Budgeted(c, o)
            && (!o.status.DeadLetter? ==> o.attempts <= |o.issues| * c.sameIssueLimit)
    decreases |events|
  {
    var s := states[|states| - 1];
    if events == [] {
    } else {
      var n := |events| - 1;
      RunKeepsBudget(c, states[..n + 1], events[..n]);
      RunKeepsInv(c, states[..n + 1], events[..n]);
      assert Step(c, states[n], events[n]) == Some(states[n + 1]);
      StepKeepsBudget(c, states[n], events[n]);
    }
    if !s.order.status.DeadLetter? {
      TotalBounded(s.order.issues, s.order.issues.Keys, c.sameIssueLimit);
    }
  }

  // ---------- a series of counted failures ----------

  datatype Failure = Failure(stage: Stage, results: Results, keys: set<IssueKey>, userAction: bool)

  function AfterFailures(c: Config, o: Order, failures: seq<Failure>): Order {
    if failures == [] then o
    else
      var before := AfterFailures(c, o, failures[..|failures| - 1]);
      var f := failures[|failures| - 1];
      if before.status.DeadLetter? then before else Requeued(c, before, f.stage, f.results, true, f.keys, f.userAction)
  }

  function Occurrences(failures: seq<Failure>, key: IssueKey): nat {
    if failures == [] then 0
    else Occurrences(failures[..|failures| - 1], key) + if key in failures[|failures| - 1].keys then 1 else 0
  }

  ghost predicate Exhausted(c: Config, failures: seq<Failure>) {
    |failures| >= c.maxAttempts || exists key :: Occurrences(failures, key) > c.sameIssueLimit
  }

  /** A fresh order is dead-lettered exactly when it failed maxAttempts times or one issue came up more than
      the limit allows; until then its counters are the exact tallies. */
  lemma {:induction false} DeadLetterIffExhausted(c: Config, o: Order, failures: seq<Failure>)
    requires c.Valid() && o.attempts == 0 && o.issues == map[] && !o.status.DeadLetter?
    ensures AfterFailures(c, o, failures).status.DeadLetter? <==> Exhausted(c, failures)
    ensures var o' := AfterFailures(c, o, failures);
            !o'.status.DeadLetter? ==>
              o'.attempts == |failures| && forall key :: CountOf(o'.issues, key) == Occurrences(failures, key)
  {
    if failures == [] {
    } else {
      var front, f := failures[..|failures| - 1], failures[|failures| - 1];
      DeadLetterIffExhausted(c, o, front);
      var before := AfterFailures(c, o, front);
      if before.status.DeadLetter? {
        if key :| Occurrences(front, key) > c.sameIssueLimit {
          assert Occurrences(failures, key) > c.sameIssueLimit;
        }
      } else {
        var after := AfterFailures(c, o, failures);
        forall key ensures CountOf(after.issues, key) == Occurrences(failures, key) {
          assert CountOf(before.issues, key) == Occurrences(front, key);
        }
        forall key ensures Occurrences(front, key) <= c.sameIssueLimit {}
        if key :| Occurrences(failures, key) > c.sameIssueLimit {
          assert key in Recurring(c, after.issues, f.keys);
        }
        if Recurring(c, after.issues, f.keys) != {} {
          var key := Pick(Recurring(c, after.issues, f.keys));
          assert Occurrences(failures, key) > c.sameIssueLimit;
        }
      }
    }
  }

  ghost function TotalOccurrences(failures: seq<Failure>, keys: set<IssueKey>): nat {
    if keys == {} then 0
    else
      var key := Pick(keys);
      Occurrences(failures, key) + TotalOccurrences(failures, keys - {key})
  }

  lemma {:induction false} FailureAddsOccurrence(failures: seq<Failure>, f: Failure, keys: set<IssueKey>)
    ensures TotalOccurrences(failures + [f], keys) == TotalOccurrences(failures, keys) + |f.keys * keys|
    decreases keys
  {
    assert (failures + [f])[..|failures|] == failures;
    if keys == {} {
    } else {
      var key := Pick(keys);
      FailureAddsOccurrence(failures, f, keys - {key});
      if key in f.keys {
        assert f.keys * keys == f.keys * (keys - {key}) + {key};
      } else {
        assert f.keys * keys == f.keys * (keys - {key});
      }
    }
  }

  lemma {:induction false} EveryFailureOccurs(failures: seq<Failure>, keys: set<IssueKey>)
    requires forall f :: f in failures ==> f.keys != {} && f.keys <= keys
    ensures TotalOccurrences(failures, keys) >= |failures|
  {
    if failures == [] {
    } else {
      var front, f := failures[..|failures| - 1], failures[|failures| - 1];
      EveryFailureOccurs(front, keys);
      FailureAddsOccurrence(front, f, keys);
      assert front + [f] == failures;
      assert f in failures && f.keys * keys == f.keys;
    }
  }

  lemma {:induction false} OccurrencesBounded(failures: seq<Failure>, keys: set<IssueKey>, limit: nat)
    requires forall key :: Occurrences(failures, key) <= limit
    ensures TotalOccurrences(failures, keys) <= |keys| * limit
    decreases keys
  {
    if keys == {} {
    } else {
      OccurrencesBounded(failures, keys - {Pick(keys)}, limit);
      assert |keys| * limit == (|keys| - 1) * limit + limit;
    }
  }

  /** With k distinct issues in play, k * limit + 1 counted failures always end the retries. */
  lemma FewIssuesMeanFewRetries(c: Config, o: Order, failures: seq<Failure>, keys: set<IssueKey>)
    requires c.Valid() && o.attempts == 0 && o.issues == map[] && !o.status.DeadLetter?
    requires forall f :: f in failures ==> f.keys != {} && f.keys <= keys
    requires |failures| > |keys| * c.sameIssueLimit
    ensures AfterFailures(c, o, failures).status.DeadLetter?
  {
    DeadLetterIffExhausted(c, o, failures);
    EveryFailureOccurs(failures, keys);
    if !Exhausted(c, failures) {
      OccurrencesBounded(failures, keys, c.sameIssueLimit);
    }
  }
}
