/** The in-memory stage machine of one studio project. */
module Studio {
  import opened Common
  import opened WorkOrder

  datatype WorkflowStage =
    | SignalImplementation | StrategyImplementation
    | ReviewingImplementation | AwaitingImplementationApproval
    | Backtesting | ReviewingBacktest | Optimizing | AwaitingOptimizationApproval | AwaitingBacktestApproval
    | AwaitingLiveApproval | ReadyForSignal | ReadyForTrading | SignalRunning | Maintenance | SignalStopped

  datatype Project = Project(
    kind: ArtifactKind, backtestRequired: bool, stage: WorkflowStage,
    implementation: Option<Report>, implementationReview: Option<string>,
    backtest: Option<Report>, backtestReview: Option<string>, optimizationProposal: Option<string>,
    optimizationApproved: Option<bool>, implementationApproved: bool, backtestApproved: bool, liveApproved: bool,
    userApproved: bool, runtimeError: Option<string>, signalCount: nat)

  datatype Action =
    | StrategyImplemented(implementation: Report)
    | ReviewedImplementation(approved: bool, evidence: string)
    | ApproveImplementation(approved: bool, note: string)
    | BacktestCompleted(backtest: Report)
    | ReviewedBacktestEvidence(approved: bool, evidence: string)
    | OptimizationCompleted(proposal: string)
    | ApproveOptimization(approved: bool, note: string)
    | ReviewedBacktest(approved: bool, note: string)
    | ApproveLive(approved: bool, note: string)
    | StartSignalRuntime
    | StopSignalRuntime
    | PublishSignal(fingerprint: string)
    | ReportRuntimeError(error: string)
    | ResolveRuntimeError(evidence: string, resume: bool)

  function ImplementationStage(kind: ArtifactKind): WorkflowStage {
    if kind.Signal? then SignalImplementation else StrategyImplementation
  }

  function Submitted(kind: ArtifactKind, backtestRequired: bool): Project {
    Project(kind, backtestRequired, ImplementationStage(kind), None, None, None, None, None, None,
            false, false, false, false, None, 0)
  }

  /** Charts always, and for a directional strategy the full performance standard. */
  predicate BacktestIsEvidence(kind: ArtifactKind, r: Report) {
    r.hasCharts && (kind.TradingStrategy? ==> r.performanceValid)
  }

  /** A signal with every applicable approval and the evidence behind it. */
  predicate Cleared(p: Project) {
    && p.kind.Signal?
    && p.implementationApproved && p.liveApproved && p.implementation.Some?
    && (p.backtestRequired ==> p.backtestApproved && p.backtest.Some?)
  }

  /** One call on the project; None when it raises and changes nothing. */
  function Act(p: Project, a: Action): Option<Project> {
    match a
    case StrategyImplemented(r) =>
      if !(p.stage.SignalImplementation? || p.stage.StrategyImplementation?) || !r.hasTests then None
      else Some(p.(implementation := Some(r), stage := ReviewingImplementation))
    case ReviewedImplementation(approved, evidence) =>
      if !p.stage.ReviewingImplementation? || Blank(evidence) then None
      else Some(p.(implementationReview := Some(Strip(evidence)),
                   stage := if approved then AwaitingImplementationApproval else ImplementationStage(p.kind)))
    case ApproveImplementation(approved, note) =>
      if !p.stage.AwaitingImplementationApproval? || Blank(note) then None
      else if approved then
        Some(p.(implementationApproved := true,
                stage := if p.backtestRequired then Backtesting else AwaitingLiveApproval))
      else Some(p.(implementationApproved := false, stage := ImplementationStage(p.kind),
                   implementation := None, implementationReview := None))
    case BacktestCompleted(r) =>
      if !p.stage.Backtesting? || !BacktestIsEvidence(p.kind, r) then None
      else Some(p.(backtest := Some(r), stage := ReviewingBacktest))
    case ReviewedBacktestEvidence(approved, evidence) =>
      if !p.stage.ReviewingBacktest? || Blank(evidence) then None
      else Some(p.(backtestReview := Some(Strip(evidence)),
                   stage := if !approved then Backtesting
                            else if p.kind.TradingStrategy? then Optimizing else AwaitingBacktestApproval))
    case OptimizationCompleted(proposal) =>
      if !p.stage.Optimizing? || Blank(proposal) then None
      else Some(p.(optimizationProposal := Some(Strip(proposal)), stage := AwaitingOptimizationApproval))
    case ApproveOptimization(approved, note) =>
      if !p.stage.AwaitingOptimizationApproval? || Blank(note) then None
      else if approved then
        Some(p.(optimizationApproved := Some(true), stage := StrategyImplementation, implementationReview := None,
                implementationApproved := false, backtest := None, backtestReview := None, backtestApproved := false,
                liveApproved := false))
      else Some(p.(optimizationApproved := Some(false), stage := AwaitingBacktestApproval))
    case ReviewedBacktest(approved, note) =>
      if !p.stage.AwaitingBacktestApproval? || Blank(note) then None
      else if approved then Some(p.(backtestApproved := true, userApproved := true, stage := AwaitingLiveApproval))
      else Some(p.(backtestApproved := false, userApproved := false, stage := Backtesting,
                   backtest := None, backtestReview := None))
    case ApproveLive(approved, note) =>
      if !p.stage.AwaitingLiveApproval? || Blank(note) then None
      else if approved then
        Some(p.(liveApproved := true,
                stage := if p.kind.Signal? then WorkflowStage.ReadyForSignal else ReadyForTrading))
      else Some(p.(liveApproved := false, stage := AwaitingImplementationApproval))
    case StartSignalRuntime =>
      if Cleared(p) && (p.stage.ReadyForSignal? || p.stage.SignalStopped?) then
        Some(p.(stage := SignalRunning, runtimeError := None))
      else None
    case StopSignalRuntime =>
      if p.stage.SignalRunning? || p.stage.Maintenance? then Some(p.(stage := SignalStopped)) else None
    case PublishSignal(fingerprint) =>
      if !p.stage.SignalRunning? || Blank(fingerprint) then None else Some(p.(signalCount := p.signalCount + 1))
    case ReportRuntimeError(error) =>
      if !p.stage.SignalRunning? || Blank(error) then None
      else Some(p.(runtimeError := Some(Strip(error)), stage := Maintenance))
    case ResolveRuntimeError(evidence, resume) =>
      if !p.stage.Maintenance? || Blank(evidence) then None
      else Some(p.(runtimeError := None, stage := if resume then SignalRunning else SignalStopped))
  }

  // ---------- the runtime ----------

  predicate InRuntime(p: Project) { p.stage.SignalRunning? || p.stage.Maintenance? || p.stage.SignalStopped? }

  /** A project whose runtime was ever started stays cleared, only such a project has published a signal, and a
      runtime error is open exactly during maintenance or after stopping out of it. */
  predicate RuntimeOk(p: Project) {
    && (InRuntime(p) ==> Cleared(p))
    && (p.signalCount > 0 ==> InRuntime(p))
    && (p.runtimeError.Some? ==> p.stage.Maintenance? || p.stage.SignalStopped?)
    && (p.stage.Maintenance? ==> p.runtimeError.Some?)
  }

  /** The project after a series of calls, those that raise leaving it as it was. */
  function AfterCalls(p: Project, actions: seq<Action>): Project {
    if actions == [] then p
    else
      var before := AfterCalls(p, actions[..|actions| - 1]);
      var after := Act(before, actions[|actions| - 1]);
      if after.Some? then after.value else before
  }

  lemma ActKeepsRuntimeOk(p: Project, a: Action)
    requires RuntimeOk(p) && Act(p, a).Some?
    ensures RuntimeOk(Act(p, a).value)
  {
  }

  /** Whatever is called on a project in whatever order: a signal is only ever published, and a runtime only ever
      entered, with every applicable approval in place. */
  lemma {:induction false} PublishedSignalsAreApproved(kind: ArtifactKind, backtestRequired: bool, actions: seq<Action>)
    ensures var p := AfterCalls(Submitted(kind, backtestRequired), actions);
            RuntimeOk(p) && (p.signalCount > 0 || p.stage.SignalRunning? ==> Cleared(p))
  {
    if actions == [] {
    } else {
      var front := actions[..|actions| - 1];
      PublishedSignalsAreApproved(kind, backtestRequired, front);
      var before := AfterCalls(Submitted(kind, backtestRequired), front);
      if Act(before, actions[|actions| - 1]).Some? {
        ActKeepsRuntimeOk(before, actions[|actions| - 1]);
      }
    }
  }

  class StudioProject {
    const kind: ArtifactKind
    const backtestRequired: bool
    var stage: WorkflowStage
    var implementation: Option<Report>
    var implementationReview: Option<string>
    var backtest: Option<Report>
    var backtestReview: Option<string>
    var optimizationProposal: Option<string>
    var optimizationApproved: Option<bool>
    var implementationApproved: bool
    var backtestApproved: bool
    var liveApproved: bool
    var userApproved: bool
    var runtimeError: Option<string>
    var signalCount: nat

    function State(): Project
      reads this
    {
      Project(kind, backtestRequired, stage, implementation, implementationReview, backtest, backtestReview,
              optimizationProposal, optimizationApproved, implementationApproved, backtestApproved, liveApproved,
              userApproved, runtimeError, signalCount)
    }

    /** The method of action a either did what Act says or raised without a trace. */
    twostate predicate Did(a: Action, ok: bool)
      reads this
    {
      var after := Act(old(State()), a);
      ok == after.Some? && State() == if after.Some? then after.value else old(State())
    }

    constructor (kind: ArtifactKind, backtestRequired: bool)
      ensures State() == Submitted(kind, backtestRequired)
    {
      this.kind, this.backtestRequired := kind, backtestRequired;
      stage := if kind.Signal? then SignalImplementation else StrategyImplementation;
      implementation, implementationReview, backtest, backtestReview := None, None, None, None;
      optimizationProposal, optimizationApproved := None, None;
      implementationApproved, backtestApproved, liveApproved, userApproved := false, false, false, false;
      runtimeError, signalCount := None, 0;
    }

    method ImplementStrategy(r: Report) returns (ok: bool)
      modifies this
      ensures Did(StrategyImplemented(r), ok)
      ensures ok ==> implementation == Some(r)
    {
      if !(stage.SignalImplementation? || stage.StrategyImplementation?) || !r.hasTests {
        return false;
      }
      implementation := Some(r);
      stage := ReviewingImplementation;
      return true;
    }

    method ReviewImplementation(approved: bool, evidence: string) returns (ok: bool)
      modifies this
      ensures Did(ReviewedImplementation(approved, evidence), ok)
      ensures ok ==> implementationReview == Some(Strip(evidence))
    {
      if !stage.ReviewingImplementation? || Blank(evidence) {
        return false;
      }
      implementationReview := Some(Strip(evidence));
      stage := if approved then AwaitingImplementationApproval else ImplementationStage(kind);
      return true;
    }

    method DecideImplementation(approved: bool, note: string) returns (ok: bool)
      modifies this
      ensures Did(ApproveImplementation(approved, note), ok)
      ensures ok ==> implementationApproved == approved
      ensures ok && !approved ==> implementation == None && implementationReview == None
    {
      if !stage.AwaitingImplementationApproval? || Blank(note) {
        return false;
      }
      implementationApproved := approved;
      if approved && backtestRequired {
        stage := Backtesting;
      } else if approved {
        stage := AwaitingLiveApproval;
      } else {
        stage := ImplementationStage(kind);
        implementation := None;
        implementationReview := None;
      }
      return true;
    }

    method CompleteBacktest(r: Report) returns (ok: bool)
      modifies this
      ensures Did(BacktestCompleted(r), ok)
      ensures ok ==> backtest == Some(r)
    {
      if !stage.Backtesting? || !r.hasCharts {
        return false;
      }
      if kind.TradingStrategy? && !r.performanceValid {
        return false;
      }
      backtest := Some(r);
      stage := ReviewingBacktest;
      return true;
    }

    method ReviewBacktestEvidence(approved: bool, evidence: string) returns (ok: bool)
      modifies this
      ensures Did(ReviewedBacktestEvidence(approved, evidence), ok)
      ensures ok ==> backtestReview == Some(Strip(evidence))
    {
      if !stage.ReviewingBacktest? || Blank(evidence) {
        return false;
      }
      backtestReview := Some(Strip(evidence));
      stage := if approved && kind.TradingStrategy? then Optimizing
               else if approved then AwaitingBacktestApproval else Backtesting;
      return true;
    }

    method CompleteOptimization(proposal: string) returns (ok: bool)
      modifies this
      ensures Did(OptimizationCompleted(proposal), ok)
      ensures ok ==> optimizationProposal == Some(Strip(proposal))
    {
      if !stage.Optimizing? || Blank(proposal) {
        return false;
      }
      optimizationProposal := Some(Strip(proposal));
      stage := AwaitingOptimizationApproval;
      return true;
    }

    method DecideOptimization(approved: bool, note: string) returns (ok: bool)
      modifies this
      ensures Did(ApproveOptimization(approved, note), ok)
      ensures ok ==> optimizationApproved == Some(approved)
      ensures ok && approved ==> implementationReview == None && backtest == None && backtestReview == None
      ensures ok && approved ==> !implementationApproved && !backtestApproved && !liveApproved
      ensures userApproved == old(userApproved)
    {
      if !stage.AwaitingOptimizationApproval? || Blank(note) {
        return false;
      }
      optimizationApproved := Some(approved);
      if approved {
        stage := StrategyImplementation;
        implementationReview, implementationApproved := None, false;
        backtest, backtestReview, backtestApproved := None, None, false;
        liveApproved := false;
      } else {
        stage := AwaitingBacktestApproval;
      }
      return true;
    }

    method DecideBacktest(approved: bool, note: string) returns (ok: bool)
      modifies this
      ensures Did(ReviewedBacktest(approved, note), ok)
      ensures ok ==> backtestApproved == userApproved == approved
      ensures ok && !approved ==> backtest == None && backtestReview == None
    {
      if !stage.AwaitingBacktestApproval? || Blank(note) {
        return false;
      }
      backtestApproved, userApproved := approved, approved;
      if approved {
        stage := AwaitingLiveApproval;
      } else {
        stage := Backtesting;
        backtest, backtestReview := None, None;
      }
      return true;
    }

    method DecideLive(approved: bool, note: string) returns (ok: bool)
      modifies this
      ensures Did(ApproveLive(approved, note), ok)
      ensures ok ==> liveApproved == approved
    {
      if !stage.AwaitingLiveApproval? || Blank(note) {
        return false;
      }
      liveApproved := approved;
      if approved {
        stage := if kind.Signal? then WorkflowStage.ReadyForSignal else ReadyForTrading;
      } else {
        stage := AwaitingImplementationApproval;
      }
      return true;
    }

    method StartRuntime() returns (ok: bool)
      modifies this
      ensures Did(StartSignalRuntime, ok)
      ensures ok ==> stage.SignalRunning? && runtimeError == None
    {
      if !kind.Signal? {
        return false;
      }
      if !implementationApproved || !liveApproved || implementation.None?
         || (backtestRequired && (!backtestApproved || backtest.None?)) {
        return false;
      }
      if !stage.ReadyForSignal? && !stage.SignalStopped? {
        return false;
      }
      stage := SignalRunning;
      runtimeError := None;
      return true;
    }

    method StopRuntime() returns (ok: bool)
      modifies this
      ensures Did(StopSignalRuntime, ok)
      ensures ok ==> stage.SignalStopped? && runtimeError == old(runtimeError)
    {
      if !stage.SignalRunning? && !stage.Maintenance? {
        return false;
      }
      stage := SignalStopped;
      return true;
    }

    method Publish(fingerprint: string) returns (ok: bool)
      modifies this
      ensures Did(PublishSignal(fingerprint), ok)
      ensures signalCount == old(signalCount) + if ok then 1 else 0
    {
      if !stage.SignalRunning? || Blank(fingerprint) {
        return false;
      }
      signalCount := signalCount + 1;
      return true;
    }

    method ReportError(error: string) returns (ok: bool)
      modifies this
      ensures Did(ReportRuntimeError(error), ok)
      ensures ok ==> stage.Maintenance? && runtimeError == Some(Strip(error))
    {
      if !stage.SignalRunning? || Blank(error) {
        return false;
      }
      runtimeError := Some(Strip(error));
      stage := Maintenance;
      return true;
    }

    method ResolveError(evidence: string, resume: bool) returns (ok: bool)
      modifies this
      ensures Did(ResolveRuntimeError(evidence, resume), ok)
      ensures ok ==> runtimeError == None && stage == if resume then SignalRunning else SignalStopped
    {
      if !stage.Maintenance? || Blank(evidence) {
        return false;
      }
      runtimeError := None;
      stage := if resume then SignalRunning else SignalStopped;
      return true;
    }
  }
}

/** The persisted order and the in-memory project are the same pipeline: the project simulates the order. */
module StudioRefinement {
  import opened Common
  import opened WorkOrder
  import opened Lifecycle
  import opened Studio

  function StageOf(c: Config, o: Order): WorkflowStage {
    match o.status
    case Awaiting(gate) =>
      (match gate
       case ImplementationGate => AwaitingImplementationApproval
       case OptimizationGate => AwaitingOptimizationApproval
       case BacktestGate => AwaitingBacktestApproval
       case LiveGate => AwaitingLiveApproval)
    case Approved => if c.kind.Signal? then WorkflowStage.ReadyForSignal else ReadyForTrading
    case _ =>
      (match o.stage
       case ReviewImplementation => ReviewingImplementation
       case Dataset => Backtesting
       case Backtest => Backtesting
       case ReviewBacktest => ReviewingBacktest
       case Optimize => Optimizing
       case _ => ImplementationStage(c.kind))
  }

  predicate IsApproved(d: Option<Decision>) { d.Some? && d.value.approved }

  predicate SameReview(text: Option<string>, r: Option<Report>) {
    r.Some? && text == Some(Strip(r.value.text))
  }

  predicate Implemented(st: WorkflowStage) { !st.SignalImplementation? && !st.StrategyImplementation? }

  predicate BacktestDone(st: WorkflowStage) {
    st.ReviewingBacktest? || st.Optimizing? || st.AwaitingOptimizationApproval? || st.AwaitingBacktestApproval?
  }

  predicate Released(st: WorkflowStage) {
    st.AwaitingLiveApproval? || st.ReadyForSignal? || st.ReadyForTrading?
  }

  /** Same stage, same approvals, and the same evidence wherever the pipeline has produced it. */
  predicate Related(c: Config, o: Order, p: Project) {
    var st := StageOf(c, o);
    && p.kind == c.kind && p.backtestRequired == c.backtestRequired && p.stage == st
    && p.implementationApproved == IsApproved(o.approvals.implementation)
    && p.backtestApproved == IsApproved(o.approvals.backtest) && (p.backtestApproved ==> p.userApproved)
    && p.liveApproved == IsApproved(o.approvals.live)
    && (Implemented(st) ==> p.implementation.Some? && p.implementation == o.results.strategy)
    && (Implemented(st) && !st.ReviewingImplementation? ==>
          SameReview(p.implementationReview, o.results.reviewImplementation))
    && (BacktestDone(st) || (Released(st) && c.backtestRequired) ==>
          p.backtest.Some? && p.backtest == o.results.backtest)
    && ((BacktestDone(st) && !st.ReviewingBacktest?) || (Released(st) && c.backtestRequired) ==>
          SameReview(p.backtestReview, o.results.reviewBacktest))
    && (st.AwaitingOptimizationApproval? ==> SameReview(p.optimizationProposal, o.results.optimization))
    && (c.optimizationRequired && (st.AwaitingBacktestApproval? || Released(st)) ==>
          p.optimizationApproved == Some(false))
  }

  /** The project call that a gateway step amounts to; None for a stutter. */
  function ActionOf(c: Config, s: System, e: Event): Option<Action> {
    match e
    case Persist =>
      if !s.worker.Running? || ResultAt(s.worker.results, s.worker.stage).None? then None
      else
        var report := ResultAt(s.worker.results, s.worker.stage).value;
        (match s.worker.stage
         case Strategy => Some(StrategyImplemented(report))
         case Backtest => Some(BacktestCompleted(report))
         case Optimize => if report.complete then Some(OptimizationCompleted(report.text)) else None
         case ReviewImplementation =>
           if report.verdict.Incomplete? then None else Some(ReviewedImplementation(report.verdict.Pass?, report.text))
         case ReviewBacktest =>
           if report.verdict.Incomplete? then None
           else Some(ReviewedBacktestEvidence(report.verdict.Pass?, report.text))
         case _ => None)
    case Decide(gate, approved, note) =>
      Some(match gate
           case ImplementationGate => ApproveImplementation(approved, note)
           case OptimizationGate => ApproveOptimization(approved, note)
           case BacktestGate => ReviewedBacktest(approved, note)
           case LiveGate => ApproveLive(approved, note))
    case _ => None
  }

  /** Steps that leave the common pipeline: abandoning the order, or re-entering it after remediation. */
  predicate LeavesPipeline(s': System, e: Event) {
    e.Retry? || s'.order.status.DeadLetter? || s'.order.status.Failed? || s'.order.status.Cancelled?
  }

  /** The gateway trusts its agents for tests and charts; the project insists on them. */
  predicate Evidenced(c: Config, s: System, e: Event) {
    e.Persist? && s.worker.Running? && ResultAt(s.worker.results, s.worker.stage).Some? ==>
      var report := ResultAt(s.worker.results, s.worker.stage).value;
      && (s.worker.stage.Strategy? ==> report.hasTests)
      && (s.worker.stage.Backtest? ==> BacktestIsEvidence(c.kind, report))
  }

  /** The worker is about to store its report for the stage the order is in. */
  predicate Storing(s: System, stage: Stage, report: Report) {
    && s.order.status.Working? && s.order.stage == stage
    && s.worker == Running(stage, WithResult(s.order.results, stage, report), Produced)
  }

  lemma ImplementationReviewIsAnAction(c: Config, s: System, p: Project, report: Report)
    requires Storing(s, ReviewImplementation, report) && Related(c, s.order, p) && !report.verdict.Incomplete?
    requires !Persisted(c, s).order.status.DeadLetter?
    ensures var p' := Act(p, ReviewedImplementation(report.verdict.Pass?, report.text));
            p'.Some? && Related(c, Persisted(c, s).order, p'.value)
  {
  }

  lemma BacktestReviewIsAnAction(c: Config, s: System, p: Project, report: Report)
    requires c.Valid() && c.backtestRequired
    requires Storing(s, ReviewBacktest, report) && Related(c, s.order, p) && !report.verdict.Incomplete?
    requires !Persisted(c, s).order.status.DeadLetter?
    ensures var p' := Act(p, ReviewedBacktestEvidence(report.verdict.Pass?, report.text));
            p'.Some? && Related(c, Persisted(c, s).order, p'.value)
  {
  }

  lemma HandoffIsAnAction(c: Config, s: System, p: Project, stage: Stage, report: Report)
    requires stage.Strategy? || stage.Backtest?
    requires Storing(s, stage, report) && Related(c, s.order, p)
    ensures var p' := Act(p, if stage.Strategy? then StrategyImplemented(report) else BacktestCompleted(report));
            && (p'.Some? <==> Evidenced(c, s, Persist))
            && (p'.Some? ==> Related(c, Persisted(c, s).order, p'.value))
  {
  }

  lemma ProposalIsAnAction(c: Config, s: System, p: Project, report: Report)
    requires Storing(s, Optimize, report) && Related(c, s.order, p) && report.complete
    ensures var p' := Act(p, OptimizationCompleted(report.text));
            p'.Some? && Related(c, Persisted(c, s).order, p'.value)
  {
  }

  /** Going back to the queue at the same stage loses nothing the project has seen. */
  lemma RequeueInPlaceStutters(
      c: Config, s: System, p: Project, results: Results, counted: bool, keys: set<IssueKey>, userAction: bool)
    requires Related(c, s.order, p) && s.order.status.Working? && s.order.stage.Executable()
    requires results == s.order.results
          || exists report :: results == WithResult(s.order.results, s.order.stage, report)
    requires !Requeued(c, s.order, s.order.stage, results, counted, keys, userAction).status.DeadLetter?
    ensures Related(c, Requeued(c, s.order, s.order.stage, results, counted, keys, userAction), p)
  {
  }

  lemma PersistStores(c: Config, s: System)
    requires c.Valid() && Inv(c, s) && Step(c, s, Persist).Some?
    ensures s.worker.Running? && ResultAt(s.worker.results, s.worker.stage).Some? && s.worker.stage.Executable()
    ensures Storing(s, s.worker.stage, ResultAt(s.worker.results, s.worker.stage).value)
    ensures s.worker.stage.ReviewBacktest? ==> c.backtestRequired
  {
  }

  /** What storing a turn's outcome means to the project. */
  predicate PersistMatches(c: Config, s: System, p: Project)
    requires s.worker.Running? && ResultAt(s.worker.results, s.worker.stage).Some?
  {
    match ActionOf(c, s, Persist)
    case None => Related(c, Persisted(c, s).order, p)
    case Some(a) =>
      && (Act(p, a).Some? <==> Evidenced(c, s, Persist))
      && (Act(p, a).Some? ==> Related(c, Persisted(c, s).order, Act(p, a).value))
  }

  lemma HandoffMatches(c: Config, s: System, p: Project, stage: Stage, report: Report)
    requires (stage.Strategy? || stage.Backtest?) && Storing(s, stage, report) && Related(c, s.order, p)
    ensures PersistMatches(c, s, p)
  {
    HandoffIsAnAction(c, s, p, stage, report);
  }

  lemma OptimizationMatches(c: Config, s: System, p: Project, report: Report)
    requires Storing(s, Optimize, report) && Related(c, s.order, p)
    requires !Persisted(c, s).order.status.DeadLetter?
    ensures PersistMatches(c, s, p)
  {
    if report.complete {
      ProposalIsAnAction(c, s, p, report);
    } else {
      RequeueInPlaceStutters(c, s, p, s.worker.results, true, DefaultKey(Optimize, "incomplete"), false);
    }
  }

  lemma ImplementationReviewMatches(c: Config, s: System, p: Project, report: Report)
    requires Storing(s, ReviewImplementation, report) && Related(c, s.order, p)
    requires !Persisted(c, s).order.status.DeadLetter?
    ensures PersistMatches(c, s, p)
  {
    if report.verdict.Incomplete? {
      RequeueInPlaceStutters(c, s, p, s.worker.results, true, DefaultKey(ReviewImplementation, "incomplete"), false);
    } else {
      ImplementationReviewIsAnAction(c, s, p, report);
    }
  }

  lemma BacktestReviewMatches(c: Config, s: System, p: Project, report: Report)
    requires c.Valid() && c.backtestRequired && Storing(s, ReviewBacktest, report) && Related(c, s.order, p)
    requires !Persisted(c, s).order.status.DeadLetter?
    ensures PersistMatches(c, s, p)
  {
    if report.verdict.Incomplete? {
      RequeueInPlaceStutters(c, s, p, s.worker.results, true, DefaultKey(ReviewBacktest, "incomplete"), false);
    } else {
      BacktestReviewIsAnAction(c, s, p, report);
    }
  }

  lemma PersistIsAnAction(c: Config, s: System, p: Project)
    requires c.Valid() && Inv(c, s) && Related(c, s.order, p) && Step(c, s, Persist).Some?
    requires !Persisted(c, s).order.status.DeadLetter?
    ensures PersistMatches(c, s, p)
  {
    PersistStores(c, s);
    var stage := s.worker.stage;
    var report := ResultAt(s.worker.results, stage).value;
    if stage.Strategy? || stage.Backtest? {
      HandoffMatches(c, s, p, stage, report);
    } else if stage.Optimize? {
      OptimizationMatches(c, s, p, report);
    } else if stage.ReviewImplementation? {
      ImplementationReviewMatches(c, s, p, report);
    } else {
      BacktestReviewMatches(c, s, p, report);
    }
  }

  lemma ImplementationDecisionIsAnAction(c: Config, o: Order, p: Project, approved: bool, note: string, epoch: Epoch)
    requires c.Valid() && OrderOk(c, o, epoch) && Related(c, o, p)
    requires Decided(c, o, ImplementationGate, approved, note, epoch).Some?
    ensures var p' := Act(p, ApproveImplementation(approved, note));
            p'.Some? && Related(c, Decided(c, o, ImplementationGate, approved, note, epoch).value, p'.value)
  {
  }

  lemma OptimizationDecisionIsAnAction(c: Config, o: Order, p: Project, approved: bool, note: string, epoch: Epoch)
    requires c.Valid() && OrderOk(c, o, epoch) && Related(c, o, p)
    requires Decided(c, o, OptimizationGate, approved, note, epoch).Some?
    ensures var p' := Act(p, ApproveOptimization(approved, note));
            p'.Some? && Related(c, Decided(c, o, OptimizationGate, approved, note, epoch).value, p'.value)
  {
  }

  lemma BacktestDecisionIsAnAction(c: Config, o: Order, p: Project, approved: bool, note: string, epoch: Epoch)
    requires c.Valid() && OrderOk(c, o, epoch) && Related(c, o, p)
    requires Decided(c, o, BacktestGate, approved, note, epoch).Some?
    ensures var p' := Act(p, ReviewedBacktest(approved, note));
            p'.Some? && Related(c, Decided(c, o, BacktestGate, approved, note, epoch).value, p'.value)
  {
  }

  lemma LiveDecisionIsAnAction(c: Config, o: Order, p: Project, approved: bool, note: string, epoch: Epoch)
    requires c.Valid() && OrderOk(c, o, epoch) && Related(c, o, p)
    requires Decided(c, o, LiveGate, approved, note, epoch).Some?
    ensures var p' := Act(p, ApproveLive(approved, note));
            p'.Some? && Related(c, Decided(c, o, LiveGate, approved, note, epoch).value, p'.value)
  {
  }

  /** Every user decision the gateway accepts is one the project accepts, with the same effect. */
  lemma DecisionIsAnAction(c: Config, s: System, p: Project, gate: ApprovalGate, approved: bool, note: string)
    requires c.Valid() && Inv(c, s) && Related(c, s.order, p) && Step(c, s, Decide(gate, approved, note)).Some?
    ensures var p' := Act(p, ActionOf(c, s, Decide(gate, approved, note)).value);
            p'.Some? && Related(c, Step(c, s, Decide(gate, approved, note)).value.order, p'.value)
  {
    match gate
    case ImplementationGate => ImplementationDecisionIsAnAction(c, s.order, p, approved, note, s.epoch);
    case OptimizationGate => OptimizationDecisionIsAnAction(c, s.order, p, approved, note, s.epoch);
    case BacktestGate => BacktestDecisionIsAnAction(c, s.order, p, approved, note, s.epoch);
    case LiveGate => LiveDecisionIsAnAction(c, s.order, p, approved, note, s.epoch);
  }

  /** Claiming, buying data, turns beginning, returning or timing out, stopping, crashing and restarting are
      invisible to the project. */
  lemma OtherStepsStutter(c: Config, s: System, e: Event, p: Project)
    requires c.Valid() && Inv(c, s) && Related(c, s.order, p) && !e.Persist? && !e.Decide?
    requires Step(c, s, e).Some? && !LeavesPipeline(Step(c, s, e).value, e)
    ensures Related(c, Step(c, s, e).value.order, p)
  {
    if e.TurnTimesOut? {
      RequeueInPlaceStutters(c, s, p, s.worker.results, true, DefaultKey(s.worker.stage, "timeout"), false);
    } else if e.QuotaError? || e.GracefulStop? {
      RequeueInPlaceStutters(c, s, p, s.worker.results, false, {}, false);
    }
  }

  /** Every step inside the pipeline is a stutter or a project call; the project accepts that call exactly
      when the step's evidence meets the project's standard. */
  lemma StepRefines(c: Config, s: System, e: Event, p: Project)
    requires c.Valid() && Inv(c, s) && Related(c, s.order, p)
    requires Step(c, s, e).Some? && !LeavesPipeline(Step(c, s, e).value, e)
    ensures match ActionOf(c, s, e)
            case None => Related(c, Step(c, s, e).value.order, p)
            case Some(a) =>
              && (Act(p, a).Some? <==> Evidenced(c, s, e))
              && (Act(p, a).Some? ==> Related(c, Step(c, s, e).value.order, Act(p, a).value))
  {
    if e.Persist? {
      PersistIsAnAction(c, s, p);
    } else if e.Decide? {
      DecisionIsAnAction(c, s, p, e.gate, e.approved, e.note);
    } else {
      OtherStepsStutter(c, s, e, p);
    }
  }

  ghost predicate Reaches(p: Project, p': Project) {
    exists a :: Act(p, a).Some? && Act(p, a).value == p'
  }

  ghost predicate Simulates(c: Config, states: seq<System>, projects: seq<Project>) {
    && |projects| == |states|
    && (forall i :: 0 <= i < |states| ==> Related(c, states[i].order, projects[i]))
    && (forall i :: 0 <= i < |states| - 1 ==>
          projects[i + 1] == projects[i] || Reaches(projects[i], projects[i + 1]))
  }

  /** Forward simulation: every run inside the pipeline is matched by a run of the project. */
  lemma {:induction false} RunRefines(c: Config, states: seq<System>, events: seq<Event>)
    returns (projects: seq<Project>)
    requires c.Valid() && IsRun(c, states, events)
    requires states[0].order.results.strategy.Some? ==> states[0].order.results.strategy.value.hasTests
    requires forall i :: 0 <= i < |events| ==>
               !LeavesPipeline(states[i + 1], events[i]) && Evidenced(c, states[i], events[i])
    ensures Simulates(c, states, projects)
    ensures projects[0] == Submitted(c.kind, c.backtestRequired)
         || Reaches(Submitted(c.kind, c.backtestRequired), projects[0])
    decreases |events|
  {
    if events == [] {
      var p := Submitted(c.kind, c.backtestRequired);
      if states[0].order != Created() {
        var r := states[0].order.results.strategy.value;
        p := Act(p, StrategyImplemented(r)).value;
        assert Act(Submitted(c.kind, c.backtestRequired), StrategyImplemented(r)).value == p;
      }
      projects := [p];
    } else {
      var n := |events| - 1;
      var front := states[..n + 1];
      var before := RunRefines(c, front, events[..n]);
      RunKeepsInv(c, front, events[..n]);
      assert front[n] == states[n] && Step(c, states[n], events[n]) == Some(states[n + 1]);
      StepRefines(c, states[n], events[n], before[n]);
      var last := if ActionOf(c, states[n], events[n]).None? then before[n]
                  else Act(before[n], ActionOf(c, states[n], events[n]).value).value;
      projects := before + [last];
      SimulationExtends(c, front, before, states[n + 1], last);
      assert states == front + [states[n + 1]];
    }
  }

  lemma SimulationExtends(c: Config, states: seq<System>, projects: seq<Project>, s: System, p: Project)
    requires Simulates(c, states, projects) && states != [] && Related(c, s.order, p)
    requires p == projects[|projects| - 1] || Reaches(projects[|projects| - 1], p)
    ensures Simulates(c, states + [s], projects + [p])
  {
  }

  /** The end of the pipeline agrees too: a released Signal order is one whose project may start its runtime. */
  lemma ReleasedSignalMayStart(c: Config, s: System, p: Project)
    requires c.Valid() && Inv(c, s) && Related(c, s.order, p)
    requires s.order.status.Approved? && c.kind.Signal?
    ensures Act(p, StartSignalRuntime).Some?
  {
  }

  /** A run the gateway allows and the project refuses: claim, one Strategy turn whose report has no tests, store. */
  lemma UntestedReportIsRefused() returns (c: Config, states: seq<System>, events: seq<Event>)
    ensures c.Valid() && IsRun(c, states, events) && |events| == 4 && events[3] == Persist
    ensures !LeavesPipeline(states[4], events[3]) && states[4].order.stage.ReviewImplementation?
    ensures var p := Submitted(c.kind, c.backtestRequired);
            && Related(c, states[3].order, p)
            && ActionOf(c, states[3], Persist).Some? && Act(p, ActionOf(c, states[3], Persist).value) == None
  {
    c := Config(ArtifactKind.Signal, false, false, 3, 2);
    var answer: Report := Report("done", Epoch(0, 0), Incomplete, false, {}, false, false, false, false);
    events := [Claim, BeginTurn, TurnReturns(answer), Persist];
    var s0 := System(Created(), Idle, Epoch(0, 0));
    var s1 := Step(c, s0, Claim).value;
    var s2 := Step(c, s1, BeginTurn).value;
    var s3 := Step(c, s2, TurnReturns(answer)).value;
    states := [s0, s1, s2, s3, Step(c, s3, Persist).value];
  }
}
