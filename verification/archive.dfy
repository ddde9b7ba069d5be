/** Calendar dates as the archive planner uses them, and the day numbers they stand for. */
module Calendar {
  import opened Common

  datatype Date = Date(year: nat, month: nat, day: nat) {
    predicate Valid() { year >= 1 && 1 <= month <= 12 && 1 <= day <= DaysIn(year, month) }

    /** Months counted from year 0. */
    function Index(): int { 12 * year + month - 1 }

    function Ordinal(): int
      requires Valid()
    {
      MonthStart(Index()) + day - 1
    }
  }

  predicate LeapYear(year: nat) { year % 4 == 0 && (year % 100 != 0 || year % 400 == 0) }

  function DaysIn(year: nat, month: nat): (days: nat)
    ensures 28 <= days <= 31
  {
    if month == 2 then if LeapYear(year) then 29 else 28
    else if month == 4 || month == 6 || month == 9 || month == 11 then 30
    else 31
  }

  /** The length of the month with this number. */
  function Length(index: nat): (days: nat)
    ensures 28 <= days <= 31
  {
    DaysIn(YearOf(index), MonthOf(index))
  }

  function YearOf(index: nat): nat { if index < 12 then 0 else YearOf(index - 12) + 1 }

  function MonthOf(index: nat): nat { if index < 12 then index + 1 else MonthOf(index - 12) }

  /** The day number of the first day of a month. */
  function MonthStart(index: nat): int {
    if index == 0 then 0 else MonthStart(index - 1) + Length(index - 1)
  }

  lemma {:induction false} IndexSplits(year: nat, month: nat)
    requires 1 <= month <= 12
    ensures YearOf(12 * year + month - 1) == year && MonthOf(12 * year + month - 1) == month
  {
    if year > 0 {
      IndexSplits(year - 1, month);
    }
  }

  // ---------- the Gregorian calendar in closed form ----------

  /** The years before this one, from year 0 on, that have a 29th of February. */
  function LeapDaysBefore(year: nat): int { (year + 3) / 4 - (year + 99) / 100 + (year + 399) / 400 }

  /** Days of a common year before each month. */
  const OFFSETS := [0, 31, 59, 90, 120, 151, 181, 212, 243, 273, 304, 334]

  /** 1 from March on in a year with a leap day. */
  function LeapDayBy(year: nat, month: nat): int {
    if month > 2 then LeapDaysBefore(year + 1) - LeapDaysBefore(year) else 0
  }

  lemma LeapDaysGrow(year: nat)
    ensures LeapDaysBefore(year + 1) == LeapDaysBefore(year) + if LeapYear(year) then 1 else 0
  {
    CeilingGrows(year, 4);
    CeilingGrows(year, 100);
    CeilingGrows(year, 400);
    CenturiesDivide(year);
    HundredsDivide(year);
  }

  lemma CenturiesDivide(year: nat)
    ensures year % 400 == 0 ==> year % 100 == 0
  {
    if year % 400 == 0 {
      RemainderIs(year, 100, 4 * (year / 400), 0);
    }
  }

  lemma HundredsDivide(year: nat)
    ensures year % 100 == 0 ==> year % 4 == 0
  {
    if year % 100 == 0 {
      RemainderIs(year, 4, 25 * (year / 100), 0);
    }
  }

  lemma CeilingGrows(n: nat, d: nat)
    requires d == 4 || d == 100 || d == 400
    ensures (n + 1 + (d - 1)) / d == (n + (d - 1)) / d + if n % d == 0 then 1 else 0
  {
  }

  lemma MonthLength(year: nat, month: nat)
    requires 1 < month <= 12
    ensures DaysIn(year, month - 1)
         == OFFSETS[month - 1] - OFFSETS[month - 2] + LeapDayBy(year, month) - LeapDayBy(year, month - 1)
  {
    LeapDaysGrow(year);
  }

  function FirstDay(year: nat, month: nat): int
    requires 1 <= month <= 12
  {
    365 * year + LeapDaysBefore(year) + OFFSETS[month - 1] + LeapDayBy(year, month)
  }

  lemma NewYear(year: nat)
    ensures FirstDay(year + 1, 1) == FirstDay(year, 12) + 31
  {
  }

  lemma StartsFollow(year: nat, month: nat)
    requires 1 <= month <= 12 && 12 * year + month >= 2
    ensures MonthStart(12 * year + month - 1)
         == MonthStart(12 * year + month - 2) + if month > 1 then DaysIn(year, month - 1) else 31
  {
    if month > 1 {
      IndexSplits(year, month - 1);
    } else {
      IndexSplits(year - 1, 12);
    }
  }

  /** Month lengths and leap years agree with the closed form of the Gregorian calendar. */
  lemma {:induction false} MonthStartIs(year: nat, month: nat)
    requires 1 <= month <= 12
    ensures MonthStart(12 * year + month - 1) == FirstDay(year, month)
    decreases year, month
  {
    if month > 1 {
      MonthStartIs(year, month - 1);
      StartsFollow(year, month);
      MonthLength(year, month);
    } else if year > 0 {
      MonthStartIs(year - 1, 12);
      StartsFollow(year, 1);
      NewYear(year - 1);
    }
  }

  /** The day number of a date, and with it the epoch the timestamps count from. */
  lemma OrdinalIs(d: Date)
    requires d.Valid()
    ensures d.Ordinal() == FirstDay(d.year, d.month) + d.day - 1
    ensures d == Date(1970, 1, 1) ==> d.Ordinal() == 719_528
  {
    MonthStartIs(d.year, d.month);
  }

  lemma DayLiesInItsMonth(d: Date)
    requires d.Valid()
    ensures MonthStart(d.Index() + 1) == MonthStart(d.Index()) + DaysIn(d.year, d.month)
    ensures MonthStart(d.Index()) <= d.Ordinal() < MonthStart(d.Index() + 1)
  {
    IndexSplits(d.year, d.month);
  }

  lemma {:induction false} MonthStartsGrow(a: nat, b: nat)
    requires a <= b
    ensures MonthStart(a) + 28 * (b - a) <= MonthStart(b)
    decreases b
  {
    if a < b {
      MonthStartsGrow(a, b - 1);
    }
  }

  predicate Before(a: Date, b: Date) {
    a.year < b.year || (a.year == b.year && (a.month < b.month || (a.month == b.month && a.day < b.day)))
  }

  lemma BeforeByMonth(a: Date, b: Date)
    requires 1 <= a.month <= 12 && 1 <= b.month <= 12
    ensures Before(a, b) <==> a.Index() < b.Index() || (a.Index() == b.Index() && a.day < b.day)
  {
  }

  lemma EarlierMonth(a: Date, b: Date)
    requires a.Valid() && b.Valid() && a.Index() < b.Index()
    ensures a.Ordinal() < b.Ordinal()
  {
    DayLiesInItsMonth(a);
    MonthStartsGrow(a.Index() + 1, b.Index());
  }

  /** Comparing dates field by field is comparing day numbers. */
  lemma BeforeIsOrdinalOrder(a: Date, b: Date)
    requires a.Valid() && b.Valid()
    ensures Before(a, b) <==> a.Ordinal() < b.Ordinal()
  {
    BeforeByMonth(a, b);
    if a.Index() < b.Index() {
      EarlierMonth(a, b);
    } else if b.Index() < a.Index() {
      EarlierMonth(b, a);
    }
  }

  function NextMonth(d: Date): Date {
    Date(d.year + if d.month == 12 then 1 else 0, d.month % 12 + 1, 1)
  }

  lemma NextMonthFollows(d: Date)
    requires d.Valid()
    ensures NextMonth(d).Valid() && NextMonth(d).Index() == d.Index() + 1
    ensures NextMonth(d).Ordinal() == MonthStart(d.Index() + 1)
  {
    assert d.month % 12 + 1 == if d.month == 12 then 1 else d.month + 1;
  }

  function NextDay(d: Date): Date
    requires d.Valid()
  {
    if d.day < DaysIn(d.year, d.month) then d.(day := d.day + 1) else NextMonth(d)
  }

  lemma NextDayFollows(d: Date)
    requires d.Valid()
    ensures NextDay(d).Valid() && NextDay(d).Ordinal() == d.Ordinal() + 1
  {
    if d.day == DaysIn(d.year, d.month) {
      NextMonthFollows(d);
      DayLiesInItsMonth(d);
    }
  }

  /** A month has ended by a date exactly when the date lies in a later month. */
  lemma MonthEndsBy(month: nat, limit: Date)
    requires limit.Valid()
    ensures MonthStart(month + 1) <= limit.Ordinal() <==> month < limit.Index()
  {
    DayLiesInItsMonth(limit);
    if month < limit.Index() {
      MonthStartsGrow(month + 1, limit.Index());
    } else {
      MonthStartsGrow(limit.Index() + 1, month + 1);
    }
  }

  function FirstOfMonth(d: Date): Date { d.(day := 1) }

  function Earlier(a: Date, b: Date): Date { if Before(b, a) then b else a }

  function Later(a: Date, b: Date): Date { if Before(a, b) then b else a }
}

/** Which archive partitions to download, and what has to be in them. */
module Archive {
  import opened Common
  import opened Calendar

  datatype Period = Monthly(day: Date) | Daily(day: Date)

  predicate Covers(p: Period, x: int)
    requires p.day.Valid()
  {
    if p.Monthly? then MonthStart(p.day.Index()) <= x < MonthStart(p.day.Index() + 1) else x == p.day.Ordinal()
  }

  ghost predicate WellFormed(plan: seq<Period>) {
    forall p :: p in plan ==> p.day.Valid()
  }

  /** In how many partitions of the plan a day lies. */
  function Coverage(plan: seq<Period>, x: int): nat
    requires forall p :: p in plan ==> p.day.Valid()
  {
    if plan == [] then 0 else Coverage(plan[..|plan| - 1], x) + if Covers(plan[|plan| - 1], x) then 1 else 0
  }

  function Once(x: int, lo: int, hi: int): nat { if lo <= x < hi then 1 else 0 }

  /** plan adds exactly the days lo..hi to what base covers. */
  ghost predicate Adds(plan: seq<Period>, base: seq<Period>, lo: int, hi: int) {
    && WellFormed(plan) && WellFormed(base)
    && forall x :: Coverage(plan, x) == Coverage(base, x) + Once(x, lo, hi)
  }

  lemma AddsNothing(plan: seq<Period>, lo: int, hi: int)
    requires WellFormed(plan) && hi <= lo
    ensures Adds(plan, plan, lo, hi)
  {
  }

  lemma AddsPeriod(plan: seq<Period>, base: seq<Period>, p: Period, lo: int, mid: int, hi: int)
    requires Adds(plan, base, lo, mid) && p.day.Valid() && lo <= mid <= hi
    requires forall x :: Covers(p, x) <==> mid <= x < hi
    ensures Adds(plan + [p], base, lo, hi)
  {
    assert (plan + [p])[..|plan|] == plan;
  }

  /** Month partitions are named by their first day and come before all day partitions. */
  ghost predicate MonthsThenDays(plan: seq<Period>) {
    && (forall i :: 0 <= i < |plan| && plan[i].Monthly? ==> plan[i].day.day == 1)
    && forall i, j :: 0 <= i < j < |plan| && plan[j].Monthly? ==> plan[i].Monthly?
  }

  /** Complete monthly partitions first, then days. */
  method IterArchivePeriods(start: Date, end: Date, cutoff: Date) returns (plan: seq<Period>)
    requires start.Valid() && end.Valid() && cutoff.Valid()
    ensures PlanFor(plan, start, end, cutoff) && MonthsThenDays(plan)
  {
    if !Before(start, end) {
      return [];
    }
    var months := MonthlyPeriods(start, end, cutoff);
    plan := AppendDays(months, Later(start, cutoff), end);
    assert MonthsAndDays(months, plan, start, end, cutoff);
  }

  method AppendDays(months: seq<Period>, first: Date, end: Date) returns (plan: seq<Period>)
    requires WellFormed(months) && first.Valid() && end.Valid()
    ensures Adds(plan, months, first.Ordinal(), end.Ordinal())
    ensures months <= plan && forall i :: |months| <= i < |plan| ==> plan[i].Daily?
  {
    plan := months;
    var cursor := first;
    BeforeIsOrdinalOrder(cursor, end);
    AddsNothing(plan, first.Ordinal(), cursor.Ordinal());
    while Before(cursor, end)
      invariant cursor.Valid()
      invariant Before(cursor, end) <==> cursor.Ordinal() < end.Ordinal()
      invariant first.Ordinal() <= cursor.Ordinal() && (cursor.Ordinal() <= end.Ordinal() || cursor == first)
      invariant Adds(plan, months, first.Ordinal(), cursor.Ordinal())
      invariant months <= plan && forall i :: |months| <= i < |plan| ==> plan[i].Daily?
      decreases end.Ordinal() - cursor.Ordinal()
    {
      NextDayFollows(cursor);
      AddsPeriod(plan, months, Daily(cursor), first.Ordinal(), cursor.Ordinal(), NextDay(cursor).Ordinal());
      plan := plan + [Daily(cursor)];
      cursor := NextDay(cursor);
      BeforeIsOrdinalOrder(cursor, end);
    }
    if cursor == first {
      AddsNothing(months, first.Ordinal(), end.Ordinal());
    }
  }

  /** One turn of the month loop: the month is yielded if it lies wholly before both limits. */
  method YieldMonth(plan: seq<Period>, start: Date, cursor: Date, end: Date, cutoff: Date) returns (longer: seq<Period>)
    requires start.Valid() && end.Valid() && cutoff.Valid()
    requires cursor.Valid() && cursor.day == 1 && start.Index() <= cursor.Index()
    requires Before(cursor, end) && Before(cursor, cutoff)
    requires MonthsPlanned(plan, start, cursor.Index(), Earlier(end, cutoff).Index())
    ensures longer == plan || longer == plan + [Monthly(cursor)]
    ensures MonthsPlanned(longer, start, cursor.Index() + 1, Earlier(end, cutoff).Index())
    ensures cursor.Index() <= Earlier(end, cutoff).Index()
  {
    var following := NextMonth(cursor);
    FirstOfMonthCompares(cursor, end, cutoff);
    NextMonthIsWhole(start, cursor, end, cutoff);
    MonthPlanned(plan, start, cursor, Earlier(end, cutoff).Index());
    longer := plan;
    if Before(start, following) && !Before(end, following) && !Before(cutoff, following) {
      longer := plan + [Monthly(cursor)];
    }
  }

  method MonthlyPeriods(start: Date, end: Date, cutoff: Date) returns (plan: seq<Period>)
    requires start.Valid() && end.Valid() && cutoff.Valid()
    ensures Adds(plan, [], MonthStart(start.Index()), MonthStart(Earlier(end, cutoff).Index()))
    ensures forall i :: 0 <= i < |plan| ==> plan[i].Monthly? && plan[i].day.day == 1
  {
    plan := [];
    var cursor := FirstOfMonth(start);
    ghost var limit := Earlier(end, cutoff);
    NoMonthsYet(start, limit);
    while Before(cursor, end) && Before(cursor, cutoff)
      invariant cursor.Valid() && cursor.day == 1 && start.Index() <= cursor.Index()
      invariant forall i :: 0 <= i < |plan| ==> plan[i].Monthly? && plan[i].day.day == 1
      invariant MonthsPlanned(plan, start, cursor.Index(), limit.Index())
      decreases limit.Index() - cursor.Index()
    {
      plan := YieldMonth(plan, start, cursor, end, cutoff);
      NextMonthFollows(cursor);
      cursor := NextMonth(cursor);
    }
    AllMonthsPlanned(plan, start, cursor, end, cutoff);
  }

  /** plan covers the months from the start's up to the reached one, but none from the limit's on. */
  ghost predicate MonthsPlanned(plan: seq<Period>, start: Date, reached: nat, limit: nat)
    requires start.Valid()
  {
    Adds(plan, [], MonthStart(start.Index()), MonthStart(Min(reached, limit)))
  }

  lemma NoMonthsYet(start: Date, limit: Date)
    requires start.Valid() && limit.Valid()
    ensures FirstOfMonth(start).Valid() && FirstOfMonth(start).Index() == start.Index()
    ensures MonthsPlanned([], start, FirstOfMonth(start).Index(), limit.Index())
  {
    MonthStartsGrow(Min(start.Index(), limit.Index()), start.Index());
    AddsNothing([], MonthStart(start.Index()), MonthStart(Min(start.Index(), limit.Index())));
  }

  lemma AllMonthsPlanned(plan: seq<Period>, start: Date, cursor: Date, end: Date, cutoff: Date)
    requires start.Valid() && end.Valid() && cutoff.Valid() && cursor.Valid() && cursor.day == 1
    requires !(Before(cursor, end) && Before(cursor, cutoff))
    requires MonthsPlanned(plan, start, cursor.Index(), Earlier(end, cutoff).Index())
    ensures Adds(plan, [], MonthStart(start.Index()), MonthStart(Earlier(end, cutoff).Index()))
  {
    FirstOfMonthCompares(cursor, end, cutoff);
    LimitReached(cursor, Earlier(end, cutoff));
  }

  lemma MonthPlanned(plan: seq<Period>, start: Date, month: Date, limit: nat)
    requires start.Valid() && month.Valid() && start.Index() <= month.Index()
    requires MonthsPlanned(plan, start, month.Index(), limit)
    ensures month.Index() < limit ==> MonthsPlanned(plan + [Monthly(month)], start, month.Index() + 1, limit)
    ensures month.Index() >= limit ==> MonthsPlanned(plan, start, month.Index() + 1, limit)
  {
    if month.Index() < limit {
      MonthStartsGrow(start.Index(), month.Index());
      AddsPeriod(plan, [], Monthly(month), MonthStart(start.Index()),
                 MonthStart(month.Index()), MonthStart(month.Index() + 1));
    }
  }

  lemma FirstOfMonthCompares(cursor: Date, end: Date, cutoff: Date)
    requires cursor.Valid() && cursor.day == 1 && end.Valid() && cutoff.Valid()
    ensures Before(cursor, end) && Before(cursor, cutoff)
       <==> MonthStart(cursor.Index()) < Earlier(end, cutoff).Ordinal()
  {
    BeforeIsOrdinalOrder(cursor, end);
    BeforeIsOrdinalOrder(cursor, cutoff);
    BeforeIsOrdinalOrder(cutoff, end);
  }

  /** Inside the loop a month is yielded exactly when it lies wholly before both limits. */
  lemma NextMonthIsWhole(start: Date, cursor: Date, end: Date, cutoff: Date)
    requires start.Valid() && end.Valid() && cutoff.Valid() && cursor.Valid() && cursor.day == 1
    requires start.Index() <= cursor.Index() && MonthStart(cursor.Index()) < Earlier(end, cutoff).Ordinal()
    ensures var next := NextMonth(cursor);
            Before(start, next) && !Before(end, next) && !Before(cutoff, next)
            <==> cursor.Index() < Earlier(end, cutoff).Index()
    ensures cursor.Index() <= Earlier(end, cutoff).Index()
  {
    var next := NextMonth(cursor);
    NextMonthFollows(cursor);
    BeforeIsOrdinalOrder(start, next);
    BeforeIsOrdinalOrder(end, next);
    BeforeIsOrdinalOrder(cutoff, next);
    MonthEndsBy(cursor.Index(), start);
    MonthEndsBy(cursor.Index(), end);
    MonthEndsBy(cursor.Index(), cutoff);
    EarlierHasEarlierMonth(end, cutoff);
    LimitReached(Earlier(end, cutoff), cursor);
  }

  lemma EarlierHasEarlierMonth(a: Date, b: Date)
    requires a.Valid() && b.Valid()
    ensures Earlier(a, b).Index() == Min(a.Index(), b.Index())
  {
  }

  lemma LimitReached(cursor: Date, limit: Date)
    requires cursor.Valid() && limit.Valid()
    ensures MonthStart(cursor.Index()) >= limit.Ordinal() ==> cursor.Index() >= limit.Index()
    ensures MonthStart(limit.Index()) < cursor.Ordinal() ==> limit.Index() <= cursor.Index()
  {
    DayLiesInItsMonth(cursor);
    DayLiesInItsMonth(limit);
    if cursor.Index() < limit.Index() {
      MonthStartsGrow(cursor.Index() + 1, limit.Index());
    }
  }

  /** What the plan covers, day by day. */
  ghost predicate PlanFor(plan: seq<Period>, start: Date, end: Date, cutoff: Date)
    requires start.Valid() && end.Valid() && cutoff.Valid()
  {
    if !Before(start, end) then plan == []
    else
      exists months :: MonthsAndDays(months, plan, start, end, cutoff)
  }

  ghost predicate MonthsAndDays(months: seq<Period>, plan: seq<Period>, start: Date, end: Date, cutoff: Date)
    requires start.Valid() && end.Valid() && cutoff.Valid()
  {
    && Adds(months, [], MonthStart(start.Index()), MonthStart(Earlier(end, cutoff).Index()))
    && Adds(plan, months, Later(start, cutoff).Ordinal(), end.Ordinal())
  }

  lemma PlanCovers(plan: seq<Period>, start: Date, end: Date, cutoff: Date, x: int)
    requires start.Valid() && end.Valid() && cutoff.Valid() && PlanFor(plan, start, end, cutoff)
    ensures WellFormed(plan)
    ensures Coverage(plan, x)
         == if !Before(start, end) then 0
            else Once(x, MonthStart(start.Index()), MonthStart(Earlier(end, cutoff).Index()))
                 + Once(x, Later(start, cutoff).Ordinal(), end.Ordinal())
  {
    if Before(start, end) {
      var months :| MonthsAndDays(months, plan, start, end, cutoff);
      assert Coverage([], x) == 0;
    }
  }

  ghost predicate ExactCover(plan: seq<Period>, from: int, to: int) {
    WellFormed(plan) && forall x :: from <= x < to ==> Coverage(plan, x) == 1
  }

  /** No day is ever planned twice. */
  lemma PlanNeverOverlaps(plan: seq<Period>, start: Date, end: Date, cutoff: Date, x: int)
    requires start.Valid() && end.Valid() && cutoff.Valid() && PlanFor(plan, start, end, cutoff)
    ensures WellFormed(plan) && Coverage(plan, x) <= 1
  {
    PlanCovers(plan, start, end, cutoff, x);
    BeforeIsOrdinalOrder(cutoff, end);
    BeforeIsOrdinalOrder(start, cutoff);
  }

  /** Every day of [start, end) is in exactly one partition exactly when the days start no later than the
      period does, or the month partitions end on a month boundary. */
  lemma PlanIsExactIff(plan: seq<Period>, start: Date, end: Date, cutoff: Date)
    requires start.Valid() && end.Valid() && cutoff.Valid() && Before(start, end) && PlanFor(plan, start, end, cutoff)
    ensures ExactCover(plan, start.Ordinal(), end.Ordinal())
       <==> !Before(start, cutoff) || Earlier(end, cutoff).day == 1
  {
    var limit := Earlier(end, cutoff);
    BeforeIsOrdinalOrder(start, end);
    BeforeIsOrdinalOrder(cutoff, end);
    BeforeIsOrdinalOrder(start, cutoff);
    forall x ensures WellFormed(plan) && Coverage(plan, x)
                  == Once(x, MonthStart(start.Index()), MonthStart(limit.Index()))
                     + Once(x, Later(start, cutoff).Ordinal(), end.Ordinal())
    {
      PlanCovers(plan, start, end, cutoff, x);
    }
    if Before(start, cutoff) && limit.day != 1 {
      // the day before the limit is in no partition
      assert Coverage(plan, limit.Ordinal() - 1) == 0;
    }
  }

  /** The planner's own choice of cutoff, the first day of the end month, always covers exactly. */
  lemma MaterializePlanIsExact(plan: seq<Period>, start: Date, end: Date)
    requires start.Valid() && end.Valid() && Before(start, end) && PlanFor(plan, start, end, FirstOfMonth(end))
    ensures ExactCover(plan, start.Ordinal(), end.Ordinal())
  {
    PlanIsExactIff(plan, start, end, FirstOfMonth(end));
  }

  // ---------- days against instants ----------

  const DAY_MS := 86_400_000

  /** The day number of an instant, given the day number of 1970-01-01. */
  function DayOf(epoch: int, ms: int): int { epoch + ms / DAY_MS }

  /** The plan is made for whole days up to the end's date, so it reaches every instant of the requested range
      exactly when the range ends at midnight. */
  lemma PlanReachesEveryInstantIff(
      epoch: int, plan: seq<Period>, startMs: int, endMs: int, start: Date, end: Date)
    requires start.Valid() && end.Valid() && startMs < endMs
    requires start.Ordinal() == DayOf(epoch, startMs) && end.Ordinal() == DayOf(epoch, endMs)
    requires PlanFor(plan, start, end, FirstOfMonth(end))
    ensures WellFormed(plan)
    ensures (forall t :: startMs <= t < endMs ==> Coverage(plan, DayOf(epoch, t)) == 1) <==> endMs % DAY_MS == 0
  {
    EndDayIsUnplanned(start, end, plan);
    if endMs % DAY_MS == 0 {
      forall t | startMs <= t < endMs ensures Coverage(plan, DayOf(epoch, t)) == 1 {
        InstantsBeforeMidnight(epoch, startMs, endMs, t);
        BeforeIsOrdinalOrder(start, end);
        MaterializePlanIsExact(plan, start, end);
      }
    } else {
      assert DayOf(epoch, endMs - 1) == DayOf(epoch, endMs);
      assert Coverage(plan, DayOf(epoch, endMs - 1)) == 0;
    }
  }

  lemma InstantsBeforeMidnight(epoch: int, startMs: int, endMs: int, t: int)
    requires endMs % DAY_MS == 0 && startMs <= t < endMs
    ensures DayOf(epoch, startMs) <= DayOf(epoch, t) < DayOf(epoch, endMs)
  {
    DaysFollow(epoch, startMs, t);
    DaysFollow(epoch, t, endMs - 1);
    assert DayOf(epoch, endMs - 1) < DayOf(epoch, endMs);
  }

  /** The end's own day is in no partition. */
  lemma EndDayIsUnplanned(start: Date, end: Date, plan: seq<Period>)
    requires start.Valid() && end.Valid() && PlanFor(plan, start, end, FirstOfMonth(end))
    ensures WellFormed(plan) && Coverage(plan, end.Ordinal()) == 0
  {
    PlanCovers(plan, start, end, FirstOfMonth(end), end.Ordinal());
    BeforeIsOrdinalOrder(FirstOfMonth(end), end);
  }

  /** From the first of a month up to a time on the second, the plan is that first day. */
  lemma FirstDayPlan(first: Date) returns (plan: seq<Period>)
    requires first.Valid() && first.day == 1
    ensures NextDay(first).Valid() && NextDay(first).Ordinal() == first.Ordinal() + 1
    ensures plan == [Daily(first)] && WellFormed(plan)
    ensures PlanFor(plan, first, NextDay(first), FirstOfMonth(NextDay(first)))
  {
    var none: seq<Period> := [];
    plan := none + [Daily(first)];
    NextDayFollows(first);
    assert FirstOfMonth(NextDay(first)) == first;
    AddsNothing(none, MonthStart(first.Index()), MonthStart(first.Index()));
    AddsNothing(none, first.Ordinal(), first.Ordinal());
    AddsPeriod(none, none, Daily(first), first.Ordinal(), first.Ordinal(), first.Ordinal() + 1);
    assert MonthsAndDays(none, plan, first, NextDay(first), first);
  }

  /** A request from the first of any month to noon of the second: none of its last twelve hours is planned. */
  lemma NoonEndIsNotReached(first: Date) returns (end: Date, plan: seq<Period>)
    requires first.Valid() && first.day == 1
    ensures end.Valid() && PlanFor(plan, first, end, FirstOfMonth(end)) && WellFormed(plan)
    ensures var epoch, noon := first.Ordinal(), DAY_MS + DAY_MS / 2;
            && first.Ordinal() == DayOf(epoch, 0) && end.Ordinal() == DayOf(epoch, noon)
            && forall t :: DAY_MS <= t < noon ==> Coverage(plan, DayOf(epoch, t)) == 0
  {
    end := NextDay(first);
    plan := FirstDayPlan(first);
    EndDayIsUnplanned(first, end, plan);
  }

  lemma DaysFollow(epoch: int, a: int, b: int)
    requires a <= b
    ensures DayOf(epoch, a) <= DayOf(epoch, b)
  {
  }

  // ---------- timestamps ----------

  function TimestampToMilliseconds(value: int): Option<int> {
    if value >= 1_000_000_000_000_000 then Some(value / 1000)
    else if value < 1_000_000_000_000 then None
    else Some(value)
  }

  /** Readings before September 2001 are refused; an accepted one is kept, or floored from microseconds. */
  lemma TimestampUnits(value: int)
    ensures var r := TimestampToMilliseconds(value);
            && (r.None? <==> value < 1_000_000_000_000)
            && (r.Some? ==>
                  && r.value >= 1_000_000_000_000
                  && (value < 1_000_000_000_000_000 ==> r.value == value)
                  && (value >= 1_000_000_000_000_000 ==> 1000 * r.value <= value < 1000 * (r.value + 1)))
  {
  }

  /** The same instant reads the same whether the archive wrote it in milliseconds or in microseconds. */
  lemma BothUnitsAgree(ms: int, micros: int)
    requires 1_000_000_000_000 <= ms < 1_000_000_000_000_000 && ms * 1000 <= micros < (ms + 1) * 1000
    ensures TimestampToMilliseconds(ms) == TimestampToMilliseconds(micros) == Some(ms)
  {
  }
}
