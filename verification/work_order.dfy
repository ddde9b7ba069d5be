/** The persisted life of one strategy-agent work order: what each gateway mutation does to it. */
module WorkOrder {
  import opened Common

  datatype ArtifactKind = Signal | TradingStrategy

  datatype Stage =
    | Strategy | ReviewImplementation | Dataset | Backtest | ReviewBacktest | Optimize
    | Gate(gate: ApprovalGate) | ReadyForSignal | ResearchApproved | StageFailed | StageCancelled
  {
    predicate Executable() {
      Strategy? || ReviewImplementation? || Dataset? || Backtest? || ReviewBacktest? || Optimize?
    }
  }

  datatype ApprovalGate = ImplementationGate | OptimizationGate | BacktestGate | LiveGate

  datatype Status =
    | Queued | Working | AwaitingUserInput | Awaiting(gate: ApprovalGate)
    | Approved | DeadLetter | Failed | Cancelled

  datatype Verdict = Pass | Fail | Blocked | Incomplete

  /** How many Strategy turns and how many Backtest turns have begun so far, whether or not they completed. */
  datatype Epoch = Epoch(turn: nat, round: nat)

  /** One agent's answer. `verdict` is what the review parser reads from it, `complete` what the proposal
      parser reads; `epoch` is a history tag: what had begun when it was written. */
  datatype AgentReport = Report(
    text: string, epoch: Epoch, verdict: Verdict, complete: bool, issues: set<string>, userAction: bool,
    hasTests: bool, hasCharts: bool, performanceValid: bool)

  /** Both parsers read the first non-blank line, so a blank answer is never a verdict or a proposal. */
  type Report = r: AgentReport | Blank(r.text) ==> r.verdict.Incomplete? && !r.complete
    witness Report("", Epoch(0, 0), Incomplete, false, {}, false, false, false, false)

  datatype Results = Results(
    strategy: Option<Report>, reviewImplementation: Option<Report>, dataset: Option<string>,
    backtest: Option<Report>, reviewBacktest: Option<Report>, optimization: Option<Report>)

  const NO_RESULTS := Results(None, None, None, None, None, None)

  datatype Decision = Decision(approved: bool, epoch: Epoch)

  datatype Approvals = Approvals(
    implementation: Option<Decision>, optimization: Option<Decision>,
    backtest: Option<Decision>, live: Option<Decision>)
  {
    function With(gate: ApprovalGate, d: Decision): Approvals {
      match gate
      case ImplementationGate => this.(implementation := Some(d))
      case OptimizationGate => this.(optimization := Some(d))
      case BacktestGate => this.(backtest := Some(d))
      case LiveGate => this.(live := Some(d))
    }
  }

  const NO_APPROVALS := Approvals(None, None, None, None)

  datatype IssueKey = IssueKey(stage: Stage, issue: string)

  type Counts = map<IssueKey, nat>

  datatype Order = Order(
    status: Status, stage: Stage, results: Results, approvals: Approvals, attempts: nat, issues: Counts)

  datatype Config = Config(
    kind: ArtifactKind, backtestRequired: bool, optimizationRequired: bool, maxAttempts: nat, sameIssueLimit: nat)
  {
    predicate Valid() {
      && maxAttempts >= 1 && sameIssueLimit >= 1
      && optimizationRequired == (kind.TradingStrategy? && backtestRequired)
    }
  }

  function Created(): Order {
    Order(Queued, Strategy, NO_RESULTS, NO_APPROVALS, 0, map[])
  }

  /** Adopting an existing artifact enters at its review, with a ready-made handoff. */
  function Adopted(handoff: Report): Order {
    Order(Queued, ReviewImplementation, NO_RESULTS.(strategy := Some(handoff)), NO_APPROVALS, 0, map[])
  }

  // ---------- the mutations, as functions ----------

  function Claimed(o: Order): Order {
    o.(status := Working, stage := if o.stage.Executable() then o.stage else Strategy)
  }

  function Recovered(o: Order): Order {
    o.(status := Queued, stage := if o.stage.Executable() then o.stage else Strategy)
  }

  function Checkpointed(o: Order, stage: Stage, results: Results): Order {
    o.(stage := stage, results := results)
  }

  function Finished(o: Order, status: Status, stage: Stage, results: Results): Order {
    o.(status := status, stage := stage, results := results)
  }

  function CountOf(counts: Counts, key: IssueKey): nat {
    if key in counts then counts[key] else 0
  }

  function Bumped(counts: Counts, keys: set<IssueKey>): Counts {
    map key | key in counts.Keys + keys :: CountOf(counts, key) + if key in keys then 1 else 0
  }

  function Recurring(c: Config, counts: Counts, keys: set<IssueKey>): set<IssueKey> {
    set key | key in keys && CountOf(counts, key) > c.sameIssueLimit
  }

  /** A failure that counts is charged to its issues; too many attempts, or one issue too often, ends the order. */
  function Requeued(
      c: Config, o: Order, stage: Stage, results: Results, counted: bool, keys: set<IssueKey>, userAction: bool): Order
  {
    var attempts := o.attempts + if counted then 1 else 0;
    var counts := if counted then Bumped(o.issues, keys) else o.issues;
    var dead := counted && (attempts >= c.maxAttempts || Recurring(c, counts, keys) != {});
    Order(if dead then DeadLetter else if userAction then AwaitingUserInput else Queued,
          stage, results, o.approvals, attempts, counts)
  }

  /** A user decision at a gate; None when the note is blank, the order is not waiting at that gate, or the
      proposal to decide on is missing. */
  function Decided(c: Config, o: Order, gate: ApprovalGate, approved: bool, note: string, epoch: Epoch): Option<Order> {
    if Blank(note) || o.status != Awaiting(gate) then None
    else
      var signed := o.(approvals := o.approvals.With(gate, Decision(approved, epoch)));
      match gate
      case ImplementationGate =>
        Some(if !approved then signed.(status := Queued, stage := Strategy, results := NO_RESULTS)
             else if c.backtestRequired then signed.(status := Queued, stage := Dataset)
             else signed.(status := Awaiting(LiveGate), stage := Gate(LiveGate)))
      case OptimizationGate =>
        if o.results.optimization.None? || Blank(o.results.optimization.value.text) then None
        else if approved then
          Some(Order(Queued, Strategy, NO_RESULTS.(optimization := o.results.optimization), NO_APPROVALS, 0, map[]))
        else Some(signed.(status := Awaiting(BacktestGate), stage := Gate(BacktestGate)))
      case BacktestGate =>
        Some(if approved then signed.(status := Awaiting(LiveGate), stage := Gate(LiveGate))
             else signed.(status := Queued, stage := Backtest,
                          results := o.results.(backtest := None, reviewBacktest := None, optimization := None),
                          approvals := signed.approvals.(optimization := None)))
      case LiveGate =>
        Some(if approved then
               signed.(status := Approved, stage := if c.kind.Signal? then ReadyForSignal else ResearchApproved)
             else signed.(status := Awaiting(ImplementationGate), stage := Gate(ImplementationGate)))
  }

  /** An approved implementation survives a remediation retry only for the very same artifact, and only when
      the order stopped in the backtest or its review. */
  predicate KeepsImplementation(o: Order, sameArtifact: bool) {
    && (o.stage.Backtest? || o.stage.ReviewBacktest?)
    && o.approvals.implementation.Some? && o.approvals.implementation.value.approved
    && sameArtifact
    && o.results.strategy.Some? && o.results.reviewImplementation.Some?
  }

  function Retried(o: Order, sameArtifact: bool): Option<Order> {
    if !(o.status.DeadLetter? || o.status.Failed? || o.status.AwaitingUserInput?) then None
    else if KeepsImplementation(o, sameArtifact) then
      Some(Order(Queued, Backtest, o.results.(backtest := None, reviewBacktest := None),
                 NO_APPROVALS.(implementation := o.approvals.implementation), 0, map[]))
    else Some(Order(Queued, Strategy, o.results, NO_APPROVALS, 0, map[]))
  }

  // ---------- the mutable record ----------

  class WorkOrderRecord {
    const config: Config
    var status: Status
    var stage: Stage
    var results: Results
    var approvals: Approvals
    var attempts: nat
    var issues: Counts

    function State(): Order
      reads this
    {
      Order(status, stage, results, approvals, attempts, issues)
    }

    constructor (config: Config)
      ensures this.config == config && State() == Created()
    {
      this.config := config;
      status, stage, results, approvals, attempts, issues := Queued, Strategy, NO_RESULTS, NO_APPROVALS, 0, map[];
    }

    method ClaimNext() returns (claimed: bool)
      modifies this
      ensures claimed == old(status).Queued?
      ensures State() == if claimed then Claimed(old(State())) else old(State())
      ensures claimed ==> status.Working? && stage == if old(stage).Executable() then old(stage) else Strategy
    {
      if !status.Queued? {
        return false;
      }
      if !stage.Executable() {
        stage := Strategy;
      }
      status := Working;
      return true;
    }

    method RecoverInterrupted()
      modifies this
      ensures State() == if old(status).Working? then Recovered(old(State())) else old(State())
      ensures old(status).Working? ==>
                status.Queued? && stage == if old(stage).Executable() then old(stage) else Strategy
    {
      if !status.Working? {
        return;
      }
      if !stage.Executable() {
        stage := Strategy;
      }
      status := Queued;
    }

    method Checkpoint(stage: Stage, results: Results)
      modifies this
      ensures State() == Checkpointed(old(State()), stage, results)
    {
      this.stage := stage;
      this.results := results;
    }

    method Finish(status: Status, stage: Stage, results: Results)
      modifies this
      ensures State() == Finished(old(State()), status, stage, results)
    {
      this.status, this.stage, this.results := status, stage, results;
    }

    method Requeue(stage: Stage, results: Results, counted: bool, keys: set<IssueKey>, userAction: bool)
      modifies this
      ensures State() == Requeued(config, old(State()), stage, results, counted, keys, userAction)
    {
      var nextAttempt := attempts + if counted then 1 else 0;
      if counted {
        CountIssues(keys);
      }
      var recurring := Recurring(config, issues, keys);
      this.stage, this.results, attempts := stage, results, nextAttempt;
      if counted && (nextAttempt >= config.maxAttempts || recurring != {}) {
        status := DeadLetter;
        return;
      }
      status := if userAction then AwaitingUserInput else Queued;
    }

    method CountIssues(keys: set<IssueKey>)
      modifies this`issues
      ensures issues == Bumped(old(issues), keys)
    {
      var rest := keys;
      while rest != {}
        invariant rest <= keys
        invariant issues == Bumped(old(issues), keys - rest)
        decreases rest
      {
        var key :| key in rest;
        issues := issues[key := CountOf(issues, key) + 1];
        rest := rest - {key};
        assert keys - rest == keys - (rest + {key}) + {key};
      }
      assert keys - rest == keys;
    }

    method HandleApproval(gate: ApprovalGate, approved: bool, note: string, epoch: Epoch) returns (accepted: bool)
      modifies this
      ensures var after := Decided(config, old(State()), gate, approved, note, epoch);
              accepted == after.Some? && State() == if after.Some? then after.value else old(State())
    {
      if Blank(note) {
        return false;
      }
      if status != Awaiting(gate) {
        return false;
      }
      if gate.OptimizationGate? && (results.optimization.None? || Blank(results.optimization.value.text)) {
        return false;
      }
      approvals := approvals.With(gate, Decision(approved, epoch));
      match gate {
        case ImplementationGate =>
          if !approved {
            status, stage, results := Queued, Strategy, NO_RESULTS;
          } else if config.backtestRequired {
            status, stage := Queued, Dataset;
          } else {
            status, stage := Awaiting(LiveGate), Gate(LiveGate);
          }
        case OptimizationGate =>
          if approved {
            status, stage := Queued, Strategy;
            results := NO_RESULTS.(optimization := results.optimization);
            attempts, issues := 0, map[];
            approvals := NO_APPROVALS;
          } else {
            status, stage := Awaiting(BacktestGate), Gate(BacktestGate);
          }
        case BacktestGate =>
          if !approved {
            results := results.(backtest := None, reviewBacktest := None, optimization := None);
            approvals := approvals.(optimization := None);
            status, stage := Queued, Backtest;
          } else {
            status, stage := Awaiting(LiveGate), Gate(LiveGate);
          }
        case LiveGate =>
          if !approved {
            status, stage := Awaiting(ImplementationGate), Gate(ImplementationGate);
          } else {
            status := Approved;
            stage := if config.kind.Signal? then ReadyForSignal else ResearchApproved;
          }
      }
      return true;
    }

    method RetryAfterRemediation(sameArtifact: bool) returns (accepted: bool)
      modifies this
      ensures var after := Retried(old(State()), sameArtifact);
              accepted == after.Some? && State() == if after.Some? then after.value else old(State())
    {
      if !(status.DeadLetter? || status.Failed? || status.AwaitingUserInput?) {
        return false;
      }
      if KeepsImplementation(State(), sameArtifact) {
        results := results.(backtest := None, reviewBacktest := None);
        approvals := approvals.(optimization := None, backtest := None, live := None);
        stage := Backtest;
      } else {
        approvals := NO_APPROVALS;
        stage := Strategy;
      }
      status, attempts, issues := Queued, 0, map[];
      return true;
    }
  }
}

/** The worker that executes one order, its crashes and restarts, and the users deciding at the gates. */
module Lifecycle {
  import opened Common
  import opened WorkOrder

  /** What the worker holds in memory: lost in a crash, unlike the order. */
  datatype Worker = Idle | Running(stage: Stage, results: Results, phase: Phase)

  datatype Phase = Ready | InTurn | Produced

  datatype System = System(order: Order, worker: Worker, epoch: Epoch)

  datatype Event =
    | Claim
    | Materialize(dataset: Option<string>)
    | BeginTurn
    | TurnReturns(report: Report)
    | Persist
    | TurnTimesOut
    | QuotaError
    | GracefulStop
    | Crash
    | Restart
    | FatalError
    | RecordingFails
    | CancelRunning
    | CancelIdle
    | Decide(gate: ApprovalGate, approved: bool, note: string)
    | Retry(sameArtifact: bool)

  function ResultAt(r: Results, stage: Stage): Option<Report> {
    match stage
    case Strategy => r.strategy
    case ReviewImplementation => r.reviewImplementation
    case Backtest => r.backtest
    case ReviewBacktest => r.reviewBacktest
    case Optimize => r.optimization
    case _ => None
  }

  function WithResult(r: Results, stage: Stage, report: Report): Results {
    match stage
    case Strategy => r.(strategy := Some(report))
    case ReviewImplementation => r.(reviewImplementation := Some(report))
    case Backtest => r.(backtest := Some(report))
    case ReviewBacktest => r.(reviewBacktest := Some(report))
    case Optimize => r.(optimization := Some(report))
    case _ => r
  }

  /** The dataset handoff comes first, at either of the two stages that need it. */
  predicate NeedsDataset(c: Config, stage: Stage, r: Results) {
    (stage.Dataset? || (stage.Backtest? && r.dataset.None?)) && c.backtestRequired
  }

  /** The handoffs a turn insists on; without them the worker raises. */
  predicate MayBegin(c: Config, stage: Stage, r: Results) {
    match stage
    case Strategy => true
    case ReviewImplementation => r.strategy.Some?
    case Backtest => c.backtestRequired && r.dataset.Some? && r.strategy.Some?
    case ReviewBacktest => c.backtestRequired && r.backtest.Some?
    case Optimize => c.backtestRequired && r.backtest.Some? && r.reviewBacktest.Some?
    case _ => false
  }

  function DefaultKey(stage: Stage, reason: string): set<IssueKey> { {IssueKey(stage, reason)} }

  function FindingKeys(stage: Stage, returnStage: Stage, r: Report): set<IssueKey> {
    var keys := set issue | issue in r.issues :: IssueKey(stage, issue);
    if keys == {} then DefaultKey(returnStage, "review") else keys
  }

  function Idled(s: System, o: Order): System { System(o, Idle, s.epoch) }

  /** Storing the outcome of a finished turn: hand off to the reviewer, or act on the review. */
  function Persisted(c: Config, s: System): System
    requires s.worker.Running? && ResultAt(s.worker.results, s.worker.stage).Some?
  {
    var o, stage, r := s.order, s.worker.stage, s.worker.results;
    var report := ResultAt(r, stage).value;
    match stage
    case Strategy => System(Checkpointed(o, ReviewImplementation, r), Running(ReviewImplementation, r, Ready), s.epoch)
    case Backtest => System(Checkpointed(o, ReviewBacktest, r), Running(ReviewBacktest, r, Ready), s.epoch)
    case Optimize =>
      Idled(s, if report.complete then Finished(o, Awaiting(OptimizationGate), Gate(OptimizationGate), r)
               else Requeued(c, o, Optimize, r, true, DefaultKey(Optimize, "incomplete"), false))
    case _ =>
      if report.verdict.Pass? then
        if stage.ReviewBacktest? && c.optimizationRequired then
          System(Checkpointed(o, Optimize, r), Running(Optimize, r, Ready), s.epoch)
        else
          var gate := if stage.ReviewImplementation? then ImplementationGate else BacktestGate;
          Idled(s, Finished(o, Awaiting(gate), Gate(gate), r))
      else if report.verdict.Incomplete? then
        Idled(s, Requeued(c, o, stage, r, true, DefaultKey(stage, "incomplete"), false))
      else
        var back := if stage.ReviewImplementation? then Strategy else Backtest;
        Idled(s, Requeued(c, o, back, r, true, FindingKeys(stage, back, report), report.userAction))
  }

  function AfterBegin(epoch: Epoch, stage: Stage): Epoch {
    if stage.Strategy? then epoch.(turn := epoch.turn + 1)
    else if stage.Backtest? then epoch.(round := epoch.round + 1)
    else epoch
  }

  /** One step; None when the event cannot happen now. */
  function Step(c: Config, s: System, e: Event): Option<System> {
    var o, w := s.order, s.worker;
    match e
    case Claim =>
      if w.Idle? && o.status.Queued? then
        Some(s.(order := Claimed(o), worker := Running(Claimed(o).stage, o.results, Ready)))
      else None
    case Materialize(dataset) =>
      if w.Running? && w.phase.Ready? && NeedsDataset(c, w.stage, w.results) then
        if w.results.dataset.Some? then
          Some(s.(order := Checkpointed(o, Backtest, w.results), worker := Running(Backtest, w.results, Ready)))
        else if dataset.Some? then
          var r := w.results.(dataset := dataset);
          Some(s.(order := Checkpointed(o, Backtest, r), worker := Running(Backtest, r, Ready)))
        else Some(Idled(s, Requeued(c, o, Dataset, w.results, true, DefaultKey(Dataset, "acquisition"), false)))
      else None
    case BeginTurn =>
      if w.Running? && w.phase.Ready? && MayBegin(c, w.stage, w.results) then
        Some(s.(worker := w.(phase := InTurn), epoch := AfterBegin(s.epoch, w.stage)))
      else None
    case TurnReturns(report) =>
      if w.Running? && w.phase.InTurn? then
        Some(s.(worker := Running(w.stage, WithResult(w.results, w.stage, report.(epoch := s.epoch)), Produced)))
      else None
    case Persist =>
      if w.Running? && w.phase.Produced? && ResultAt(w.results, w.stage).Some? then Some(Persisted(c, s)) else None
    case TurnTimesOut =>
      if w.Running? && w.phase.InTurn? then
        Some(Idled(s, Requeued(c, o, w.stage, w.results, true, DefaultKey(w.stage, "timeout"), false)))
      else None
    case QuotaError =>
      if w.Running? && w.phase.InTurn? then Some(Idled(s, Requeued(c, o, w.stage, w.results, false, {}, false)))
      else None
    case GracefulStop =>
      if w.Running? then Some(Idled(s, Requeued(c, o, w.stage, w.results, false, {}, false))) else None
    case Crash => if w.Running? then Some(Idled(s, o)) else None
    case Restart => if w.Idle? && o.status.Working? then Some(Idled(s, Recovered(o))) else None
    case FatalError => if w.Running? then Some(Idled(s, Finished(o, Failed, StageFailed, NO_RESULTS))) else None
    case RecordingFails =>
      if w.Idle? && !o.status.DeadLetter? then
        Some(Idled(s, Finished(o, Failed, StageFailed, NO_RESULTS)))
      else None
    case CancelRunning => if w.Running? then Some(Idled(s, Finished(o, Cancelled, StageCancelled, w.results))) else None
    case CancelIdle =>
      if w.Idle? && (o.status.Queued? || o.status.Working?) then
        Some(Idled(s, o.(status := Cancelled, stage := StageCancelled)))
      else None
    case Decide(gate, approved, note) =>
      var after := Decided(c, o, gate, approved, note, s.epoch);
      if w.Idle? && after.Some? then Some(Idled(s, after.value)) else None
    case Retry(sameArtifact) =>
      var after := Retried(o, sameArtifact);
      if w.Idle? && after.Some? then Some(Idled(s, after.value)) else None
  }

  /** A run from a freshly created or freshly adopted order. */
  ghost predicate IsRun(c: Config, states: seq<System>, events: seq<Event>) {
    && |states| == |events| + 1
    && IsInitial(states[0])
    && forall i :: 0 <= i < |events| ==> Step(c, states[i], events[i]) == Some(states[i + 1])
  }

  predicate IsInitial(s: System) {
    && s.worker == Idle && s.epoch == Epoch(0, 0)
    && (s.order == Created() || (s.order.results.strategy.Some? && s.order.results.strategy.value.epoch == s.epoch
                                 && s.order == Adopted(s.order.results.strategy.value)))
  }

  // ---------- release safety ----------

  /** Written since the latest Strategy turn began. */
  predicate Current(r: Option<Report>, epoch: Epoch) { r.Some? && r.value.epoch.turn == epoch.turn }

  predicate PassedNow(r: Option<Report>, epoch: Epoch) { Current(r, epoch) && r.value.verdict.Pass? }

  /** Written since the latest Strategy turn and the latest Backtest turn began. */
  predicate OfRound(r: Option<Report>, epoch: Epoch) { r.Some? && r.value.epoch == epoch }

  predicate Says(d: Option<Decision>, approved: bool, epoch: Epoch) {
    d.Some? && d.value.approved == approved && d.value.epoch.turn == epoch.turn
  }

  predicate SaysOfRound(d: Option<Decision>, approved: bool, epoch: Epoch) { d == Some(Decision(approved, epoch)) }

  predicate Reviewed(r: Results, epoch: Epoch) {
    Current(r.strategy, epoch) && PassedNow(r.reviewImplementation, epoch)
  }

  predicate Signed(o: Order, r: Results, epoch: Epoch) {
    Reviewed(r, epoch) && Says(o.approvals.implementation, true, epoch)
  }

  predicate Tested(r: Results, epoch: Epoch) {
    OfRound(r.backtest, epoch) && OfRound(r.reviewBacktest, epoch) && r.reviewBacktest.value.verdict.Pass?
  }

  /** What an order in an executable stage can rely on. */
  predicate StageReady(c: Config, o: Order, stage: Stage, r: Results, epoch: Epoch) {
    match stage
    case Strategy => true
    case ReviewImplementation => Current(r.strategy, epoch)
    case Dataset => c.backtestRequired && Signed(o, r, epoch)
    case Backtest => c.backtestRequired && Signed(o, r, epoch)
    case ReviewBacktest => c.backtestRequired && Signed(o, r, epoch) && OfRound(r.backtest, epoch)
    case Optimize => c.optimizationRequired && Signed(o, r, epoch) && Tested(r, epoch)
    case _ => false
  }

  predicate BacktestSettled(c: Config, o: Order, epoch: Epoch) {
    && Tested(o.results, epoch)
    && (c.optimizationRequired ==> SaysOfRound(o.approvals.optimization, false, epoch))
  }

  predicate ReadyForLive(c: Config, o: Order, epoch: Epoch) {
    && Signed(o, o.results, epoch)
    && (c.backtestRequired ==> BacktestSettled(c, o, epoch) && SaysOfRound(o.approvals.backtest, true, epoch))
  }

  predicate OrderOk(c: Config, o: Order, epoch: Epoch) {
    match o.status
    case Queued => StageReady(c, o, o.stage, o.results, epoch)
    case Working => StageReady(c, o, o.stage, o.results, epoch)
    case AwaitingUserInput => StageReady(c, o, o.stage, o.results, epoch)
    case DeadLetter => StageReady(c, o, o.stage, o.results, epoch)
    case Awaiting(gate) =>
      && o.stage == Gate(gate)
      && (match gate
          case ImplementationGate => Reviewed(o.results, epoch)
          case OptimizationGate =>
            && c.optimizationRequired && Signed(o, o.results, epoch) && Tested(o.results, epoch)
            && OfRound(o.results.optimization, epoch) && o.results.optimization.value.complete
          case BacktestGate => c.backtestRequired && Signed(o, o.results, epoch) && BacktestSettled(c, o, epoch)
          case LiveGate => ReadyForLive(c, o, epoch))
    case Approved => ReadyForLive(c, o, epoch) && SaysOfRound(o.approvals.live, true, epoch)
    case Failed => o.stage.StageFailed?
    case Cancelled => true
  }

  predicate WorkerOk(c: Config, s: System) {
    s.worker.Running? ==>
      && s.order.status.Working? && s.worker.stage == s.order.stage
      && StageReady(c, s.order, s.worker.stage, s.worker.results, s.epoch)
      && (!s.worker.phase.Ready? ==> !s.worker.stage.Dataset?)
      && (s.worker.phase.Produced? ==> OfRound(ResultAt(s.worker.results, s.worker.stage), s.epoch))
      && s.worker.results == if s.worker.phase.Produced?
                             then WithResult(s.order.results, s.worker.stage,
                                             ResultAt(s.worker.results, s.worker.stage).value)
                             else s.order.results
  }

  predicate Inv(c: Config, s: System) {
    OrderOk(c, s.order, s.epoch) && WorkerOk(c, s)
  }

  lemma StepKeepsInv(c: Config, s: System, e: Event)
    requires c.Valid() && Inv(c, s) && Step(c, s, e).Some?
    ensures Inv(c, Step(c, s, e).value)
  {
    var o, w := s.order, s.worker;
    if e.Persist? {
      PersistKeepsInv(c, s);
    } else if e.Decide? {
      DecisionKeepsInv(c, s, e.gate, e.approved, e.note);
    } else if e.Retry? {
      RetryKeepsInv(c, s, e.sameArtifact);
    } else if e.Materialize? {
      MaterializeKeepsInv(c, s, e.dataset);
    } else if e.TurnTimesOut? {
      RequeueKeepsOrderOk(c, s, w.stage, w.results, true, DefaultKey(w.stage, "timeout"), false);
    } else if e.QuotaError? || e.GracefulStop? {
      RequeueKeepsOrderOk(c, s, w.stage, w.results, false, {}, false);
    }
  }

  lemma RequeueKeepsOrderOk(
      c: Config, s: System, stage: Stage, results: Results, counted: bool, keys: set<IssueKey>, userAction: bool)
    requires StageReady(c, s.order, stage, results, s.epoch)
    ensures OrderOk(c, Requeued(c, s.order, stage, results, counted, keys, userAction), s.epoch)
  {
  }

  lemma MaterializeKeepsInv(c: Config, s: System, dataset: Option<string>)
    requires c.Valid() && Inv(c, s) && Step(c, s, Materialize(dataset)).Some?
    ensures Inv(c, Step(c, s, Materialize(dataset)).value)
  {
    RequeueKeepsOrderOk(c, s, Dataset, s.worker.results, true, DefaultKey(Dataset, "acquisition"), false);
  }

  lemma PersistKeepsInv(c: Config, s: System)
    requires c.Valid() && Inv(c, s) && Step(c, s, Persist).Some?
    ensures Inv(c, Persisted(c, s))
  {
    var r := s.worker.results;
    match s.worker.stage
    case Strategy =>
    case Backtest =>
    case Optimize => RequeueKeepsOrderOk(c, s, Optimize, r, true, DefaultKey(Optimize, "incomplete"), false);
    case _ => ReviewKeepsInv(c, s);
  }

  lemma ReviewKeepsInv(c: Config, s: System)
    requires c.Valid() && Inv(c, s) && Step(c, s, Persist).Some?
    requires s.worker.stage.ReviewImplementation? || s.worker.stage.ReviewBacktest?
    ensures Inv(c, Persisted(c, s))
  {
    var stage, r := s.worker.stage, s.worker.results;
    var report := ResultAt(r, stage).value;
    var back := if stage.ReviewImplementation? then Strategy else Backtest;
    if report.verdict.Pass? {
    } else if report.verdict.Incomplete? {
      RequeueKeepsOrderOk(c, s, stage, r, true, DefaultKey(stage, "incomplete"), false);
    } else {
      RequeueKeepsOrderOk(c, s, back, r, true, FindingKeys(stage, back, report), report.userAction);
    }
  }

  /** Whatever the user answers at whatever gate, the record stays truthful. */
  lemma DecisionKeepsInv(c: Config, s: System, gate: ApprovalGate, approved: bool, note: string)
    requires c.Valid() && OrderOk(c, s.order, s.epoch) && Decided(c, s.order, gate, approved, note, s.epoch).Some?
    ensures OrderOk(c, Decided(c, s.order, gate, approved, note, s.epoch).value, s.epoch)
  {
  }

  lemma RetryKeepsInv(c: Config, s: System, sameArtifact: bool)
    requires c.Valid() && OrderOk(c, s.order, s.epoch) && Retried(s.order, sameArtifact).Some?
    ensures OrderOk(c, Retried(s.order, sameArtifact).value, s.epoch)
  {
  }

  /** What a released order can prove about itself: its implementation evidence is of the latest Strategy turn, and
      review, optimization decision, backtest approval and live approval are of the very backtest it carries. */
  predicate ReleaseIsSafe(c: Config, o: Order, epoch: Epoch) {
    && Current(o.results.strategy, epoch) && PassedNow(o.results.reviewImplementation, epoch)
    && Says(o.approvals.implementation, true, epoch) && SaysOfRound(o.approvals.live, true, epoch)
    && (c.backtestRequired ==>
          && OfRound(o.results.backtest, epoch)
          && OfRound(o.results.reviewBacktest, epoch) && o.results.reviewBacktest.value.verdict.Pass?
          && SaysOfRound(o.approvals.backtest, true, epoch))
    && (c.optimizationRequired ==> SaysOfRound(o.approvals.optimization, false, epoch))
  }

  lemma {:induction false} RunKeepsInv(c: Config, states: seq<System>, events: seq<Event>)
    requires c.Valid() && IsRun(c, states, events)
    ensures forall i :: 0 <= i < |states| ==> Inv(c, states[i])
    decreases |events|
  {
    if events == [] {
    } else {
      var n := |events| - 1;
      RunKeepsInv(c, states[..n + 1], events[..n]);
      assert states[n] == states[..n + 1][n];
      assert Step(c, states[n], events[n]) == Some(states[n + 1]);
      StepKeepsInv(c, states[n], events[n]);
      forall i | 0 <= i < |states| ensures Inv(c, states[i]) {
        if i <= n { assert states[i] == states[..n + 1][i]; }
      }
    }
  }

  /** Over every run, with crashes, restarts, retries and repeated decisions in any order: a released order's
      evidence and approvals belong to the last Strategy turn that was ever begun and, where a backtest is required,
      to the last Backtest turn that was ever begun. */
  lemma ReleaseSafety(c: Config, states: seq<System>, events: seq<Event>, i: nat)
    requires c.Valid() && IsRun(c, states, events) && i < |states| && states[i].order.status.Approved?
    ensures ReleaseIsSafe(c, states[i].order, states[i].epoch)
  {
    RunKeepsInv(c, states, events);
  }

  /** Once released, an order is only ever touched by a failed artifact recording. */
  lemma ReleaseIsFinal(c: Config, s: System, e: Event)
    requires c.Valid() && Inv(c, s) && s.order.status.Approved? && Step(c, s, e).Some?
    ensures e.RecordingFails?
  {
  }
}
