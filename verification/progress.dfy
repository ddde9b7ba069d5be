/** What a work order does next: after failures, crashes, retries and decisions, over whole runs. */
module Progress {
  import opened Common
  import opened WorkOrder
  import opened Lifecycle

  // ---------- at the start ----------

  /** The next claim takes the order, and starts the worker at this stage with these results. */
  predicate ClaimableAt(c: Config, s: System, stage: Stage, results: Results) {
    && Step(c, s, Claim).Some?
    && Step(c, s, Claim).value.order.status == Working && Step(c, s, Claim).value.order.stage == stage
    && Step(c, s, Claim).value.worker == Running(stage, results, Ready)
  }

  /** A created order starts at the strategy with nothing; an adopted artifact starts at its review, with the artifact's
      report and nothing else. */
  lemma FirstClaim(c: Config, handoff: Report)
    ensures ClaimableAt(c, System(Created(), Idle, Epoch(0, 0)), Strategy, Results(None, None, None, None, None, None))
    ensures ClaimableAt(c, System(Adopted(handoff), Idle, Epoch(0, 0)), ReviewImplementation,
                        Results(Some(handoff), None, None, None, None, None))
  {
  }

  // ---------- after a failure ----------

  /** Only a user can move the order on. */
  ghost predicate ParkedForUser(c: Config, s: System) {
    Step(c, s, Claim).None? && forall sameArtifact :: Step(c, s, Retry(sameArtifact)).Some?
  }

  /** The report is not a review or a proposal at all. */
  predicate IsIncomplete(stage: Stage, report: Report) {
    (stage.Optimize? && !report.complete)
    || ((stage.ReviewImplementation? || stage.ReviewBacktest?) && report.verdict.Incomplete?)
  }

  /** The review is complete and does not pass. */
  predicate IsRejection(stage: Stage, report: Report) {
    (stage.ReviewImplementation? || stage.ReviewBacktest?) && (report.verdict.Fail? || report.verdict.Blocked?)
  }

  predicate IsGood(stage: Stage, report: Report) { !IsIncomplete(stage, report) && !IsRejection(stage, report) }

  predicate Storing(s: System) { s.worker.Running? && ResultAt(s.worker.results, s.worker.stage).Some? }

  function StoredReport(s: System): Report
    requires Storing(s)
  {
    ResultAt(s.worker.results, s.worker.stage).value
  }

  /** The market data could not be acquired. */
  predicate AcquisitionFails(s: System, e: Event) {
    e.Materialize? && e.dataset.None? && s.worker.Running? && s.worker.results.dataset.None?
  }

  lemma TimeoutIsRetried(c: Config, s: System, e: Event)
    requires c.Valid() && Inv(c, s) && Step(c, s, e).Some? && (e.TurnTimesOut? || e.QuotaError? || e.GracefulStop?)
    ensures var s' := Step(c, s, e).value;
            !s'.order.status.DeadLetter? ==> ClaimableAt(c, s', s.worker.stage, s.worker.results)
    ensures var o' := Step(c, s, e).value.order;
            !e.TurnTimesOut? ==>
              !o'.status.DeadLetter? && o'.attempts == s.order.attempts && o'.issues == s.order.issues
  {
  }

  lemma AcquisitionIsRetried(c: Config, s: System, e: Event)
    requires c.Valid() && Inv(c, s) && Step(c, s, e).Some? && AcquisitionFails(s, e)
    ensures var s' := Step(c, s, e).value;
            !s'.order.status.DeadLetter? ==> ClaimableAt(c, s', Dataset, s.worker.results)
  {
  }

  lemma IncompleteIsRetried(c: Config, s: System)
    requires c.Valid() && Inv(c, s) && Step(c, s, Persist).Some? && IsIncomplete(s.worker.stage, StoredReport(s))
    ensures var s' := Step(c, s, Persist).value;
            !s'.order.status.DeadLetter? ==> ClaimableAt(c, s', s.worker.stage, s.worker.results)
  {
  }

  /** A rejected implementation goes back to the strategy, a rejected backtest back to the backtest, unless the
      review demands something of the user. */
  lemma RejectionGoesBack(c: Config, s: System)
    requires c.Valid() && Inv(c, s) && Step(c, s, Persist).Some? && IsRejection(s.worker.stage, StoredReport(s))
    ensures var s' := Step(c, s, Persist).value;
            var back := if s.worker.stage.ReviewImplementation? then Strategy else Backtest;
            !s'.order.status.DeadLetter? ==>
              if StoredReport(s).userAction then ParkedForUser(c, s') else ClaimableAt(c, s', back, s.worker.results)
  {
  }

  /** What a failed step leads to, unless it ends the order. */
  ghost predicate FailureContinues(c: Config, s: System, e: Event, s': System) {
    && (s.worker.Running? && (e.TurnTimesOut? || e.QuotaError? || e.GracefulStop?) ==>
          ClaimableAt(c, s', s.worker.stage, s.worker.results))
    && (AcquisitionFails(s, e) ==> ClaimableAt(c, s', Dataset, s.worker.results))
    && (e.Persist? && Storing(s) && IsIncomplete(s.worker.stage, StoredReport(s)) ==>
          ClaimableAt(c, s', s.worker.stage, s.worker.results))
    && (e.Persist? && Storing(s) && IsRejection(s.worker.stage, StoredReport(s)) ==>
          var back := if s.worker.stage.ReviewImplementation? then Strategy else Backtest;
          if StoredReport(s).userAction then ParkedForUser(c, s') else ClaimableAt(c, s', back, s.worker.results))
  }

  /** Over every run: what does not end an order is claimed again at the right stage with what it already had, and
      an order waits for its user exactly when a review demanded it. */
  lemma FailuresContinue(c: Config, states: seq<System>, events: seq<Event>, i: nat)
    requires c.Valid() && IsRun(c, states, events) && i < |events| && !states[i + 1].order.status.DeadLetter?
    ensures FailureContinues(c, states[i], events[i], states[i + 1])
  {
    RunKeepsInv(c, states, events);
    var s, e := states[i], events[i];
    assert Step(c, s, e) == Some(states[i + 1]);
    if e.TurnTimesOut? || e.QuotaError? || e.GracefulStop? {
      TimeoutIsRetried(c, s, e);
    } else if AcquisitionFails(s, e) {
      AcquisitionIsRetried(c, s, e);
    } else if e.Persist? && Storing(s) {
      if IsIncomplete(s.worker.stage, StoredReport(s)) {
        IncompleteIsRetried(c, s);
      } else if IsRejection(s.worker.stage, StoredReport(s)) {
        RejectionGoesBack(c, s);
      }
    }
  }

  // ---------- after a crash ----------

  /** A crash loses only what the worker had not stored: after a restart the next claim resumes at the last
      checkpoint, with the same record. */
  lemma CrashResumesAtCheckpoint(c: Config, s: System)
    requires c.Valid() && Inv(c, s) && s.worker.Running?
    ensures Step(c, s, Crash).Some?
    ensures var crashed := Step(c, s, Crash).value;
            Step(c, crashed, Restart).Some?
    ensures var restarted := Step(c, Step(c, s, Crash).value, Restart).value;
            && restarted.order == s.order.(status := Queued)
            && ClaimableAt(c, restarted, s.order.stage, s.order.results)
            && Step(c, restarted, Claim).value.order == s.order && restarted.epoch == s.epoch
  {
  }

  // ---------- no order gets stuck ----------

  /** Some event other than giving up on the order can happen. */
  ghost predicate CanMove(c: Config, s: System) {
    || Step(c, s, Claim).Some? || Step(c, s, BeginTurn).Some? || Step(c, s, Restart).Some?
    || Step(c, s, Persist).Some? || (forall report :: Step(c, s, TurnReturns(report)).Some?)
    || (forall dataset :: Step(c, s, Materialize(dataset)).Some?)
    || (forall sameArtifact :: Step(c, s, Retry(sameArtifact)).Some?)
    || exists gate :: MayBeDecided(c, s, gate)
  }

  /** The user may answer either way, with any note that is not blank. */
  ghost predicate MayBeDecided(c: Config, s: System, gate: ApprovalGate) {
    forall approved, note :: !Blank(note) ==> Step(c, s, Decide(gate, approved, note)).Some?
  }

  lemma RunningCanMove(c: Config, s: System)
    requires c.Valid() && Inv(c, s) && s.worker.Running?
    ensures CanMove(c, s)
  {
    if s.worker.phase.Ready? {
      if NeedsDataset(c, s.worker.stage, s.worker.results) {
        assert forall dataset :: Step(c, s, Materialize(dataset)).Some?;
      } else {
        assert Step(c, s, BeginTurn).Some?;
      }
    } else if s.worker.phase.InTurn? {
      assert forall report :: Step(c, s, TurnReturns(report)).Some?;
    }
  }

  lemma IdleCanMove(c: Config, s: System)
    requires c.Valid() && Inv(c, s) && s.worker.Idle? && !s.order.status.Approved? && !s.order.status.Cancelled?
    ensures CanMove(c, s)
  {
    if s.order.status.Awaiting? {
      GateIsOpen(c, s, s.order.status.gate);
    }
  }

  /** Exactly the gate the order waits at is open. */
  lemma GateIsOpen(c: Config, s: System, gate: ApprovalGate)
    requires c.Valid() && Inv(c, s)
    ensures s.order.status == Awaiting(gate) <==> MayBeDecided(c, s, gate)
  {
    if s.order.status == Awaiting(gate) {
      forall approved, note | !Blank(note) ensures Step(c, s, Decide(gate, approved, note)).Some? {
        if gate.OptimizationGate? {
          assert !Blank(s.order.results.optimization.value.text);
        }
      }
    } else {
      ANoteIsNotBlank();
      assert Step(c, s, Decide(gate, true, "x")).None?;
    }
  }

  lemma ANoteIsNotBlank()
    ensures !Blank("x")
  {
    assert StripLeft("x") == "x" && StripRight("x") == "x";
  }

  /** Over every run: until it is released or cancelled an order can always move on. */
  lemma NeverStuck(c: Config, states: seq<System>, events: seq<Event>, i: nat)
    requires c.Valid() && IsRun(c, states, events) && i < |states|
    requires !states[i].order.status.Approved? && !states[i].order.status.Cancelled?
    ensures CanMove(c, states[i])
  {
    RunKeepsInv(c, states, events);
    if states[i].worker.Running? {
      RunningCanMove(c, states[i]);
    } else {
      IdleCanMove(c, states[i]);
    }
  }

  /** How an order ends, and that it then rests: a fatal error fails it, a cancellation cancels it. */
  lemma EndingsRest(c: Config, s: System, e: Event)
    requires c.Valid() && Inv(c, s) && Step(c, s, e).Some?
    ensures var s' := Step(c, s, e).value;
            && (e.FatalError? || e.RecordingFails? ==> s'.order.status == Failed && s'.order.results == NO_RESULTS)
            && (e.CancelRunning? || e.CancelIdle? ==> s'.order.status == Cancelled)
            && (e.FatalError? || e.RecordingFails? || e.CancelRunning? || e.CancelIdle? ==> s'.worker == Idle)
            && (s.order.status == Cancelled ==> e == RecordingFails)
  {
  }

  // ---------- after a success ----------

  /** The worker goes on with the next stage, which the order has recorded together with the results. */
  predicate HandedOn(s: System, stage: Stage, results: Results) {
    s.order.status == Working && s.order.stage == stage && s.order.results == results
    && s.worker == Running(stage, results, Ready)
  }

  /** The order waits for its user's decision on these results. */
  predicate WaitsAt(s: System, gate: ApprovalGate, results: Results) {
    s.worker == Idle && s.order.status == Awaiting(gate) && s.order.stage == Gate(gate) && s.order.results == results
  }

  /** An implementation and a backtest go to their reviews, a passed review to the user, except that the backtest of a
      strategy is first examined for an optimization; the data acquired goes to the backtest. */
  lemma SuccessIsHandedOn(c: Config, s: System, e: Event)
    requires c.Valid() && Inv(c, s) && Step(c, s, e).Some?
    requires (e.Persist? && IsGood(s.worker.stage, StoredReport(s)))
             || (e.Materialize? && !AcquisitionFails(s, e))
    ensures var s', results := Step(c, s, e).value, s.worker.results;
            && s'.order.attempts == s.order.attempts && s'.order.issues == s.order.issues
            && s'.order.approvals == s.order.approvals
            && if e.Materialize? then
                 HandedOn(s', Backtest, if results.dataset.None? then results.(dataset := e.dataset) else results)
               else
                 match s.worker.stage
                 case Strategy => HandedOn(s', ReviewImplementation, results)
                 case ReviewImplementation => WaitsAt(s', ImplementationGate, results)
                 case Backtest => HandedOn(s', ReviewBacktest, results)
                 case ReviewBacktest =>
                   if c.kind.TradingStrategy? then HandedOn(s', Optimize, results)
                   else WaitsAt(s', BacktestGate, results)
                 case _ => WaitsAt(s', OptimizationGate, results)
  {
  }

  /** A rejection discards what was decided on and all that rests on it, and sends the order to whoever has to redo it:
      the strategy, the backtest on the same dataset, or, for the release, the implementation's own gate with
      everything kept. An approval keeps every result and goes on, except that an approved optimization starts the
      strategy over from the proposal alone. */
  lemma DecisionLeadsTo(c: Config, s: System, gate: ApprovalGate, approved: bool, note: string)
    requires c.Valid() && Inv(c, s) && Step(c, s, Decide(gate, approved, note)).Some?
    ensures var o, s' := s.order, Step(c, s, Decide(gate, approved, note)).value;
            match gate
            case ImplementationGate =>
              if !approved then ClaimableAt(c, s', Strategy, NO_RESULTS)
              else if c.backtestRequired then ClaimableAt(c, s', Dataset, o.results)
              else WaitsAt(s', LiveGate, o.results)
            case OptimizationGate =>
              if approved then
                ClaimableAt(c, s', Strategy, NO_RESULTS.(optimization := o.results.optimization))
                && s'.order.approvals == NO_APPROVALS
              else WaitsAt(s', BacktestGate, o.results)
            case BacktestGate =>
              if approved then WaitsAt(s', LiveGate, o.results)
              else
                && ClaimableAt(c, s', Backtest,
                               o.results.(backtest := None, reviewBacktest := None, optimization := None))
                && s'.order.approvals.optimization.None?
                && s'.order.approvals.implementation == o.approvals.implementation
            case LiveGate =>
              if approved then s'.worker == Idle && s'.order.status == Approved && s'.order.results == o.results
                               && s'.order.stage == (if c.kind.Signal? then ReadyForSignal else ResearchApproved)
              else WaitsAt(s', ImplementationGate, o.results)
  {
  }

  // ---------- a release is always in reach ----------

  /** The state after these events, if each of them can happen in turn. */
  function After(c: Config, s: System, events: seq<Event>): Option<System>
    decreases |events|
  {
    if events == [] then Some(s)
    else
      var next := Step(c, s, events[0]);
      if next.None? then None else After(c, next.value, events[1..])
  }

  function StageWork(stage: Stage): nat {
    match stage
    case Strategy => 70
    case ReviewImplementation => 60
    case Dataset => 40
    case Backtest => 30
    case ReviewBacktest => 20
    case Optimize => 15
    case _ => 70
  }

  predicate ProducedWell(stage: Stage, results: Results) {
    ResultAt(results, stage).Some? && IsGood(stage, ResultAt(results, stage).value)
  }

  /** How far an order is from its release at most. */
  function Distance(c: Config, s: System): nat {
    match s.worker
    case Running(stage, results, phase) =>
      StageWork(stage)
      + (match phase
         case Ready => if NeedsDataset(c, stage, results) then 3 else 2
         case InTurn => 1
         case Produced => if ProducedWell(stage, results) then 0 else 6)
    case Idle =>
      match s.order.status
      case Approved => 0
      case Awaiting(gate) =>
        (match gate
         case ImplementationGate => 50
         case OptimizationGate => 12
         case BacktestGate => 11
         case LiveGate => 10)
      case Queued => (if s.order.stage.Executable() then StageWork(s.order.stage) else 70) + 4
      case Working => (if s.order.stage.Executable() then StageWork(s.order.stage) else 70) + 5
      case _ => 100
  }

  /** An event that brings the order nearer to its release: good work, and approvals. */
  function Nearer(c: Config, s: System, note: string, good: Report): Event {
    match s.worker
    case Running(stage, results, phase) =>
      (match phase
       case Ready => if NeedsDataset(c, stage, results) then Materialize(Some("data")) else BeginTurn
       case InTurn => TurnReturns(good)
       case Produced => if ProducedWell(stage, results) then Persist else Crash)
    case Idle =>
      match s.order.status
      case Awaiting(gate) => Decide(gate, !gate.OptimizationGate?, note)
      case Queued => Claim
      case Working => Restart
      case _ => Retry(false)
  }

  predicate IsWelcome(good: Report) { good.verdict.Pass? && good.complete }

  lemma NearerWhenRunning(c: Config, s: System, note: string, good: Report)
    requires c.Valid() && Inv(c, s) && s.worker.Running? && IsWelcome(good)
    ensures var next := Step(c, s, Nearer(c, s, note, good));
            next.Some? && !next.value.order.status.Cancelled? && Distance(c, next.value) < Distance(c, s)
  {
  }

  lemma NearerWhenIdle(c: Config, s: System, note: string, good: Report)
    requires c.Valid() && Inv(c, s) && s.worker.Idle? && !Blank(note)
    requires !s.order.status.Cancelled? && !s.order.status.Approved?
    ensures var next := Step(c, s, Nearer(c, s, note, good));
            next.Some? && !next.value.order.status.Cancelled? && Distance(c, next.value) < Distance(c, s)
  {
    if s.order.status.Awaiting? {
      GateIsOpen(c, s, s.order.status.gate);
    }
  }

  lemma {:induction false} CanStillBeReleased(c: Config, s: System, note: string, good: Report)
    returns (more: seq<Event>)
    requires c.Valid() && Inv(c, s) && !Blank(note) && IsWelcome(good) && !s.order.status.Cancelled?
    ensures After(c, s, more).Some? && After(c, s, more).value.order.status == Approved
    decreases Distance(c, s)
  {
    if s.order.status.Approved? {
      more := [];
    } else {
      var e := Nearer(c, s, note, good);
      if s.worker.Running? {
        NearerWhenRunning(c, s, note, good);
      } else {
        NearerWhenIdle(c, s, note, good);
      }
      StepKeepsInv(c, s, e);
      var rest := CanStillBeReleased(c, Step(c, s, e).value, note, good);
      more := [e] + rest;
      assert more[1..] == rest;
    }
  }

  /** Over every run, whatever has gone wrong in it: as long as the order is not cancelled, there are further events
      that release it. */
  lemma ReleaseStaysInReach(c: Config, states: seq<System>, events: seq<Event>, i: nat) returns (more: seq<Event>)
    requires c.Valid() && IsRun(c, states, events) && i < |states| && !states[i].order.status.Cancelled?
    ensures After(c, states[i], more).Some? && After(c, states[i], more).value.order.status == Approved
  {
    RunKeepsInv(c, states, events);
    ANoteIsNotBlank();
    var good: Report := Report("x", Epoch(0, 0), Pass, true, {}, false, true, true, true);
    more := CanStillBeReleased(c, states[i], "x", good);
  }

  // ---------- the budget over whole runs ----------

  /** The steps that cost an attempt. */
  predicate Charges(s: System, e: Event) {
    || e.TurnTimesOut? || AcquisitionFails(s, e)
    || (e.Persist? && Storing(s)
        && (IsIncomplete(s.worker.stage, StoredReport(s)) || IsRejection(s.worker.stage, StoredReport(s))))
  }

  /** The steps that start the order over. */
  predicate StartsOver(e: Event) {
    e.Retry? || (e.Decide? && e.gate.OptimizationGate? && e.approved)
  }

  /** What a charged step is charged to: the review's issues under its own stage, or the failure itself. */
  function ChargedTo(s: System, e: Event): set<IssueKey> {
    if e.TurnTimesOut? && s.worker.Running? then {IssueKey(s.worker.stage, "timeout")}
    else if AcquisitionFails(s, e) then {IssueKey(Dataset, "acquisition")}
    else if e.Persist? && Storing(s) && IsIncomplete(s.worker.stage, StoredReport(s)) then
      {IssueKey(s.worker.stage, "incomplete")}
    else if e.Persist? && Storing(s) && IsRejection(s.worker.stage, StoredReport(s)) then
      if StoredReport(s).issues == {} then
        {IssueKey(if s.worker.stage.ReviewImplementation? then Strategy else Backtest, "review")}
      else set issue | issue in StoredReport(s).issues :: IssueKey(s.worker.stage, issue)
    else {}
  }

  /** Charged steps since the order last started over. */
  function Charged(states: seq<System>, events: seq<Event>): nat
    requires |states| == |events| + 1
    decreases |events|
  {
    if events == [] then 0
    else
      var n := |events| - 1;
      if StartsOver(events[n]) then 0
      else Charged(states[..n + 1], events[..n]) + if Charges(states[n], events[n]) then 1 else 0
  }

  /** Of those, the ones charged to this issue. */
  function ChargedFor(states: seq<System>, events: seq<Event>, key: IssueKey): nat
    requires |states| == |events| + 1
    decreases |events|
  {
    if events == [] then 0
    else
      var n := |events| - 1;
      if StartsOver(events[n]) then 0
      else ChargedFor(states[..n + 1], events[..n], key)
           + if Charges(states[n], events[n]) && key in ChargedTo(states[n], events[n]) then 1 else 0
  }

  lemma RejectionIsChargedTo(s: System)
    requires Storing(s) && IsRejection(s.worker.stage, StoredReport(s))
    ensures var stage := s.worker.stage;
            FindingKeys(stage, if stage.ReviewImplementation? then Strategy else Backtest, StoredReport(s))
              == ChargedTo(s, Persist)
  {
    var stage, issues := s.worker.stage, StoredReport(s).issues;
    var keys := set issue | issue in issues :: IssueKey(stage, issue);
    if issues != {} {
      var issue := Witness(issues);
      assert IssueKey(stage, issue) in keys;
    }
  }

  lemma PersistIsCharged(c: Config, s: System, key: IssueKey)
    requires c.Valid() && Inv(c, s) && Step(c, s, Persist).Some?
    ensures var o, o' := s.order, Step(c, s, Persist).value.order;
            var charged := Charges(s, Persist);
            && o'.attempts == o.attempts + (if charged then 1 else 0)
            && CountOf(o'.issues, key)
               == CountOf(o.issues, key) + if charged && key in ChargedTo(s, Persist) then 1 else 0
  {
    if IsRejection(s.worker.stage, StoredReport(s)) {
      RejectionIsChargedTo(s);
    }
  }

  lemma StepIsCharged(c: Config, s: System, e: Event, key: IssueKey)
    requires c.Valid() && Inv(c, s) && Step(c, s, e).Some?
    ensures var o, o' := s.order, Step(c, s, e).value.order;
            var charged := Charges(s, e);
            if StartsOver(e) then o'.attempts == 0 && CountOf(o'.issues, key) == 0
            else
              && o'.attempts == o.attempts + (if charged then 1 else 0)
              && CountOf(o'.issues, key)
                 == CountOf(o.issues, key) + if charged && key in ChargedTo(s, e) then 1 else 0
  {
    if e.Persist? {
      PersistIsCharged(c, s, key);
    }
  }

  /** Over every run the order's counters are exactly these tallies. */
  lemma {:induction false} CountersAreTallies(c: Config, states: seq<System>, events: seq<Event>, key: IssueKey)
    requires c.Valid() && IsRun(c, states, events)
    ensures var o := states[|states| - 1].order;
            o.attempts == Charged(states, events) && CountOf(o.issues, key) == ChargedFor(states, events, key)
    decreases |events|
  {
    if events == [] {
    } else {
      var n := |events| - 1;
      CountersAreTallies(c, states[..n + 1], events[..n], key);
      RunKeepsInv(c, states, events);
      assert Step(c, states[n], events[n]) == Some(states[n + 1]);
      StepIsCharged(c, states[n], events[n], key);
    }
  }

  /** A charged step ends the order exactly when it uses up the attempts, or names an issue once too often. */
  lemma ChargeEndsOrderIff(c: Config, s: System, e: Event)
    requires c.Valid() && Inv(c, s) && Step(c, s, e).Some? && Charges(s, e)
    ensures var o' := Step(c, s, e).value.order;
            o'.status.DeadLetter? <==>
              o'.attempts >= c.maxAttempts
              || exists key :: key in ChargedTo(s, e) && CountOf(o'.issues, key) > c.sameIssueLimit
  {
    if e.Persist? && IsRejection(s.worker.stage, StoredReport(s)) {
      RejectionIsChargedTo(s);
    }
    RecurringIff(c, Step(c, s, e).value.order.issues, ChargedTo(s, e));
  }

  lemma RecurringIff(c: Config, counts: Counts, keys: set<IssueKey>)
    ensures Recurring(c, counts, keys) != {} <==> exists key :: key in keys && CountOf(counts, key) > c.sameIssueLimit
  {
    var recurring := Recurring(c, counts, keys);
    if recurring != {} {
      var key := Witness(recurring);
    }
    if key :| key in keys && CountOf(counts, key) > c.sameIssueLimit {
      assert key in recurring;
    }
  }

  // ---------- after a retry ----------

  /** What a remediation retry keeps: the implementation approval with its evidence survives only for the same
      artifact, of an order that stopped in its backtest or the review of it; everything else starts from nothing. */
  lemma RetryKeeps(o: Order, sameArtifact: bool)
    requires Retried(o, sameArtifact).Some?
    ensures var o' := Retried(o, sameArtifact).value;
            && o'.status == Queued && o'.attempts == 0 && o'.issues == map[]
            && o'.approvals.optimization.None? && o'.approvals.backtest.None? && o'.approvals.live.None?
            && (o'.approvals.implementation.Some? <==>
                  && sameArtifact && (o.stage == Backtest || o.stage == ReviewBacktest)
                  && o.approvals.implementation.Some? && o.approvals.implementation.value.approved
                  && o.results.strategy.Some? && o.results.reviewImplementation.Some?)
            && if o'.approvals.implementation.Some?
               then o'.stage == Backtest && o'.results == o.results.(backtest := None, reviewBacktest := None)
                    && o'.approvals.implementation == o.approvals.implementation
               else o'.stage == Strategy && o'.results == o.results
    ensures o.status.DeadLetter? || o.status.Failed? || o.status.AwaitingUserInput?
  {
  }
}
