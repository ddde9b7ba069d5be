/** The two halves together: planned partitions, fully published, normalize to the requested series. */
module ArchivePipeline {
  import opened Common
  import opened Calendar
  import opened Archive
  import opened StrategyData

  /** The partition holds the published candle of every boundary on the days it covers, and nothing else. */
  ghost predicate Publishes(epoch: int, f: Fetch, p: Period, q: Request, candle: int -> Row)
    requires q.Valid() && p.day.Valid()
  {
    && f.Available?
    && forall r :: r in f.rows <==> r.open % q.duration == 0 && Covers(p, DayOf(epoch, r.open)) && r == candle(r.open)
  }

  ghost predicate CandlesAreCanonical(q: Request, candle: int -> Row)
    requires q.Valid()
  {
    forall open :: candle(open).open == open && candle(open).close == open + q.duration - 1
  }

  lemma {:induction false} CoveredBySome(plan: seq<Period>, x: int) returns (i: nat)
    requires WellFormed(plan) && Coverage(plan, x) >= 1
    ensures i < |plan| && Covers(plan[i], x)
  {
    if Covers(plan[|plan| - 1], x) {
      i := |plan| - 1;
    } else {
      i := CoveredBySome(plan[..|plan| - 1], x);
    }
  }

  lemma {:induction false} UncoveredByAll(plan: seq<Period>, x: int, i: nat)
    requires WellFormed(plan) && Coverage(plan, x) == 0 && i < |plan|
    ensures !Covers(plan[i], x)
  {
    if i < |plan| - 1 {
      UncoveredByAll(plan[..|plan| - 1], x, i);
    }
  }

  lemma {:induction false} EveryBoundaryIsPlanned(
      epoch: int, q: Request, start: Date, end: Date, plan: seq<Period>, open: int)
    requires q.Valid() && open % q.duration == 0 && q.end % q.duration == 0 && q.start <= open < q.end
    requires start.Valid() && end.Valid()
    requires start.Ordinal() == DayOf(epoch, q.start) && end.Ordinal() == DayOf(epoch, q.end)
    requires PlanFor(plan, start, end, FirstOfMonth(end)) && DayOf(epoch, q.end - q.duration) < DayOf(epoch, q.end)
    ensures WellFormed(plan) && Coverage(plan, DayOf(epoch, open)) == 1
  {
    GridStep(open, q.end, q.duration);
    DaysFollow(epoch, q.start, open);
    DaysFollow(epoch, open, q.end - q.duration);
    BeforeIsOrdinalOrder(start, end);
    MaterializePlanIsExact(plan, start, end);
  }

  lemma {:induction false} PlannedBoundaryHasItsCandle(
      epoch: int, q: Request, plan: seq<Period>, fetched: seq<Fetch>, candle: int -> Row, open: int)
    requires q.Valid() && WellFormed(plan) && |fetched| == |plan| && CandlesAreCanonical(q, candle)
    requires forall i :: 0 <= i < |plan| ==> Publishes(epoch, fetched[i], plan[i], q, candle)
    requires q.start <= open < q.end && open % q.duration == 0 && Coverage(plan, DayOf(epoch, open)) >= 1
    ensures candle(open) in Relevant(q, fetched)
  {
    var i := CoveredBySome(plan, DayOf(epoch, open));
    var r, f := candle(open), fetched[i];
    assert Publishes(epoch, f, plan[i], q, candle);
    assert r.open == open && r in f.rows;
    assert f in fetched && InRange(q, r);
  }

  lemma {:induction false} UnplannedBoundaryHasNoRow(
      epoch: int, q: Request, plan: seq<Period>, fetched: seq<Fetch>, candle: int -> Row, r: Row)
    requires q.Valid() && WellFormed(plan) && |fetched| == |plan|
    requires forall i :: 0 <= i < |plan| ==> Publishes(epoch, fetched[i], plan[i], q, candle)
    requires r in Relevant(q, fetched)
    ensures Coverage(plan, DayOf(epoch, r.open)) != 0 && r.open % q.duration == 0 && r == candle(r.open)
  {
    var i :| 0 <= i < |fetched| && fetched[i].Available? && r in fetched[i].rows;
    assert Publishes(epoch, fetched[i], plan[i], q, candle);
    if Coverage(plan, DayOf(epoch, r.open)) == 0 {
      UncoveredByAll(plan, DayOf(epoch, r.open), i);
    }
  }

  /** A fully published range normalizes exactly when its last candle opens on a day before the end's date: the
      planner leaves out the end's own, incomplete day. */
  lemma {:induction false} PublishedRangeNormalizesIff(
      epoch: int, q: Request, start: Date, end: Date, plan: seq<Period>, fetched: seq<Fetch>, candle: int -> Row)
    requires q.Valid() && q.start < q.end && q.start % q.duration == 0 && q.end % q.duration == 0
    requires start.Valid() && end.Valid()
    requires start.Ordinal() == DayOf(epoch, q.start) && end.Ordinal() == DayOf(epoch, q.end)
    requires PlanFor(plan, start, end, FirstOfMonth(end)) && WellFormed(plan) && |fetched| == |plan|
    requires CandlesAreCanonical(q, candle)
    requires forall i :: 0 <= i < |plan| ==> Publishes(epoch, fetched[i], plan[i], q, candle)
    ensures Complete(q, Relevant(q, fetched)) <==> DayOf(epoch, q.end - q.duration) < DayOf(epoch, q.end)
  {
    var rows := Relevant(q, fetched);
    forall r | r in rows
      ensures Coverage(plan, DayOf(epoch, r.open)) != 0 && Canonical(q, r) && r == candle(r.open)
    {
      UnplannedBoundaryHasNoRow(epoch, q, plan, fetched, candle, r);
    }
    if DayOf(epoch, q.end - q.duration) < DayOf(epoch, q.end) {
      forall k: int | q.start <= k * q.duration < q.end
        ensures exists r :: r in rows && r.open == k * q.duration
      {
        RemainderIs(k * q.duration, q.duration, k, 0);
        EveryBoundaryIsPlanned(epoch, q, start, end, plan, k * q.duration);
        PlannedBoundaryHasItsCandle(epoch, q, plan, fetched, candle, k * q.duration);
        assert candle(k * q.duration).open == k * q.duration;
      }
    } else {
      var k := LastBoundary(q);
      DaysFollow(epoch, k * q.duration, q.end);
      EndDayIsUnplanned(start, end, plan);
      assert forall r :: r in rows ==> r.open != k * q.duration;
    }
  }

  lemma {:induction false} LastBoundary(q: Request) returns (k: int)
    requires q.Valid() && q.start < q.end && q.start % q.duration == 0 && q.end % q.duration == 0
    ensures k * q.duration == q.end - q.duration && q.start <= k * q.duration < q.end
  {
    DivisionRest(q.end, q.duration);
    k := q.end / q.duration - 1;
    ProductsFollow(k, k, q.duration);
    GridStep(q.start, q.end, q.duration);
  }

  const HALF_DAY := 43_200_000

  /** Noon of the second day, requested in twelve-hour candles. */
  const UNTIL_NOON := Request(0, 3 * HALF_DAY, HALF_DAY)

  const HALF_DAY_CANDLE: int -> Row := open => Row(open, open + HALF_DAY - 1, [])

  const BOTH_HALVES := Available([HALF_DAY_CANDLE(0), HALF_DAY_CANDLE(HALF_DAY)])

  lemma {:induction false} UntilNoon(epoch: int)
    ensures var q := UNTIL_NOON;
            && q.Valid() && q.start < q.end && q.start % q.duration == 0 && q.end % q.duration == 0
            && DayOf(epoch, q.start) == epoch && DayOf(epoch, q.end) == epoch + 1
            && DayOf(epoch, q.end - q.duration) == epoch + 1
    ensures CandlesAreCanonical(UNTIL_NOON, HALF_DAY_CANDLE)
  {
  }

  /** From the first of any month to noon of the second: both candles of the one planned day are published, the
      third is never asked for, and the series is refused. */
  lemma {:induction false} NoonEndDoesNotNormalize(first: Date) returns (end: Date, plan: seq<Period>)
    requires first.Valid() && first.day == 1
    ensures var q, epoch := UNTIL_NOON, first.Ordinal();
            && q.Valid() && q.start < q.end && q.start % q.duration == 0 && q.end % q.duration == 0
            && end.Valid() && PlanFor(plan, first, end, FirstOfMonth(end)) && WellFormed(plan) && |plan| == 1
            && first.Ordinal() == DayOf(epoch, q.start) && end.Ordinal() == DayOf(epoch, q.end)
            && CandlesAreCanonical(q, HALF_DAY_CANDLE) && Publishes(epoch, BOTH_HALVES, plan[0], q, HALF_DAY_CANDLE)
            && !Complete(q, Relevant(q, [BOTH_HALVES]))
  {
    end := NextDay(first);
    plan := FirstDayPlan(first);
    UntilNoon(first.Ordinal());
    PublishedHalves(first);
    PublishedRangeNormalizesIff(first.Ordinal(), UNTIL_NOON, first, end, plan, [BOTH_HALVES], HALF_DAY_CANDLE);
  }

  lemma {:induction false} PublishedHalves(start: Date)
    requires start.Valid()
    ensures UNTIL_NOON.Valid() && Publishes(start.Ordinal(), BOTH_HALVES, Daily(start), UNTIL_NOON, HALF_DAY_CANDLE)
  {
    forall r: Row
      ensures r in BOTH_HALVES.rows <==>
                && r.open % HALF_DAY == 0 && Covers(Daily(start), DayOf(start.Ordinal(), r.open))
                && r == HALF_DAY_CANDLE(r.open)
    {
      HalvesOfADay(r.open);
    }
  }

  lemma {:induction false} HalvesOfADay(t: int)
    ensures t % HALF_DAY == 0 && t / DAY_MS == 0 <==> t == 0 || t == HALF_DAY
  {
  }
}
