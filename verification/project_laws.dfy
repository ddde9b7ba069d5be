/** What every project holds, whatever calls have been made on it, and how it moves through its pipeline. */
module ProjectLaws {
  import opened Common
  import opened WorkOrder
  import opened Studio

  // ---------- the pipeline ----------

  /** The stages an approved project of this kind passes, in order. */
  function Pipeline(kind: ArtifactKind, backtestRequired: bool): seq<WorkflowStage> {
    [if kind.Signal? then SignalImplementation else StrategyImplementation,
     ReviewingImplementation, AwaitingImplementationApproval]
    + (if backtestRequired then
         [Backtesting, ReviewingBacktest]
         + (if kind.Signal? then [] else [Optimizing, AwaitingOptimizationApproval])
         + [AwaitingBacktestApproval]
       else [])
    + [AwaitingLiveApproval, if kind.Signal? then WorkflowStage.ReadyForSignal else ReadyForTrading]
  }

  /** The call a stage waits for. */
  predicate Awaited(st: WorkflowStage, a: Action) {
    match a
    case StrategyImplemented(_) => st.SignalImplementation? || st.StrategyImplementation?
    case ReviewedImplementation(_, _) => st.ReviewingImplementation?
    case ApproveImplementation(_, _) => st.AwaitingImplementationApproval?
    case BacktestCompleted(_) => st.Backtesting?
    case ReviewedBacktestEvidence(_, _) => st.ReviewingBacktest?
    case OptimizationCompleted(_) => st.Optimizing?
    case ApproveOptimization(_, _) => st.AwaitingOptimizationApproval?
    case ReviewedBacktest(_, _) => st.AwaitingBacktestApproval?
    case ApproveLive(_, _) => st.AwaitingLiveApproval?
    case StartSignalRuntime => st.ReadyForSignal? || st.SignalStopped?
    case StopSignalRuntime => st.SignalRunning? || st.Maintenance?
    case PublishSignal(_) => st.SignalRunning?
    case ReportRuntimeError(_) => st.SignalRunning?
    case ResolveRuntimeError(_, _) => st.Maintenance?
  }

  /** The call brings what it has to: tests, charts and performance, or a text that is not all spaces. */
  ghost predicate Substantiated(kind: ArtifactKind, a: Action) {
    match a
    case StrategyImplemented(r) => r.hasTests
    case BacktestCompleted(r) => r.hasCharts && (kind.Signal? || r.performanceValid)
    case ReviewedImplementation(_, text) => SaysSomething(text)
    case ApproveImplementation(_, text) => SaysSomething(text)
    case ReviewedBacktestEvidence(_, text) => SaysSomething(text)
    case OptimizationCompleted(text) => SaysSomething(text)
    case ApproveOptimization(_, text) => SaysSomething(text)
    case ReviewedBacktest(_, text) => SaysSomething(text)
    case ApproveLive(_, text) => SaysSomething(text)
    case PublishSignal(text) => SaysSomething(text)
    case ReportRuntimeError(text) => SaysSomething(text)
    case ResolveRuntimeError(text, _) => SaysSomething(text)
    case _ => true
  }

  ghost predicate SaysSomething(text: string) {
    exists i :: 0 <= i < |text| && !IsSpace(text[i])
  }

  /** Everything passes the project on but a rejection; an approved optimization sends it back as well. */
  predicate GoesOn(a: Action) {
    match a
    case ReviewedImplementation(approved, _) => approved
    case ApproveImplementation(approved, _) => approved
    case ReviewedBacktestEvidence(approved, _) => approved
    case ApproveOptimization(approved, _) => !approved
    case ReviewedBacktest(approved, _) => approved
    case ApproveLive(approved, _) => approved
    case _ => true
  }

  /** Where a call that does not pass the project on sends it. */
  function SentBackTo(kind: ArtifactKind, st: WorkflowStage): WorkflowStage {
    if st.ReviewingBacktest? || st.AwaitingBacktestApproval? then Backtesting
    else if st.AwaitingLiveApproval? then AwaitingImplementationApproval
    else if kind.Signal? then SignalImplementation
    else StrategyImplementation
  }

  function Rank(st: WorkflowStage): nat {
    match st
    case SignalImplementation => 0
    case StrategyImplementation => 0
    case ReviewingImplementation => 1
    case AwaitingImplementationApproval => 2
    case Backtesting => 3
    case ReviewingBacktest => 4
    case Optimizing => 5
    case AwaitingOptimizationApproval => 6
    case AwaitingBacktestApproval => 7
    case AwaitingLiveApproval => 8
    case ReadyForSignal => 9
    case ReadyForTrading => 9
    case _ => 10
  }

  // ---------- the invariant ----------

  predicate Trimmed(text: Option<string>) {
    text.Some? && text.value != [] && !IsSpace(text.value[0]) && !IsSpace(text.value[|text.value| - 1])
  }

  predicate OfSignals(st: WorkflowStage) {
    st.SignalImplementation? || st.ReadyForSignal? || st.SignalRunning? || st.Maintenance? || st.SignalStopped?
  }

  predicate OfStrategies(st: WorkflowStage) {
    st.StrategyImplementation? || st.Optimizing? || st.AwaitingOptimizationApproval? || st.ReadyForTrading?
  }

  /** A stage that a project of this kind can be in. */
  predicate HasStage(kind: ArtifactKind, backtestRequired: bool, st: WorkflowStage) {
    && (OfSignals(st) ==> kind.Signal?) && (OfStrategies(st) ==> kind.TradingStrategy?)
    && (3 <= Rank(st) <= 7 ==> backtestRequired)
  }

  predicate StageFits(p: Project) { HasStage(p.kind, p.backtestRequired, p.stage) }

  /** From review on there is a tested implementation, and from the user's decision on its review. */
  predicate ImplementationOk(p: Project) {
    && (Rank(p.stage) >= 1 ==> p.implementation.Some? && p.implementation.value.hasTests)
    && (Rank(p.stage) >= 2 ==> Trimmed(p.implementationReview))
  }

  /** Past that decision the implementation is approved, before it never; live approval is exactly what a released
      project has. */
  predicate ApprovalsOk(p: Project) {
    && (Rank(p.stage) >= 3 ==> p.implementationApproved)
    && (Rank(p.stage) <= 1 ==> !p.implementationApproved)
    && (p.liveApproved <==> Rank(p.stage) >= 9)
  }

  /** Where a backtest is required, each later stage has its evidence, its review, for a strategy a declined
      optimization, and past the user's decision its approval; where none is, there is no trace of one. */
  predicate BacktestOk(p: Project) {
    && (p.backtestRequired ==>
          && (Rank(p.stage) >= 4 ==>
                p.backtest.Some? && p.backtest.value.hasCharts && (p.kind.Signal? || p.backtest.value.performanceValid))
          && (Rank(p.stage) >= 5 ==> Trimmed(p.backtestReview))
          && (Rank(p.stage) >= 6 && p.kind.TradingStrategy? ==> Trimmed(p.optimizationProposal))
          && (Rank(p.stage) >= 7 && p.kind.TradingStrategy? ==> p.optimizationApproved == Some(false))
          && (Rank(p.stage) >= 8 ==> p.backtestApproved && p.userApproved))
    && (!p.backtestRequired ==> p.backtest.None? && p.backtestReview.None? && !p.backtestApproved && !p.userApproved)
  }

  predicate ProjectOk(p: Project) {
    StageFits(p) && ImplementationOk(p) && ApprovalsOk(p) && BacktestOk(p)
  }

  lemma SaidSomething(text: string)
    ensures Blank(text) <==> !SaysSomething(text)
    ensures !Blank(text) ==> Trimmed(Some(Strip(text)))
  {
    StripMeans(text);
  }

  lemma CallKeepsSignals(p: Project, a: Action)
    requires StageFits(p) && Act(p, a).Some?
    ensures OfSignals(Act(p, a).value.stage) ==> p.kind.Signal?
  {
  }

  lemma CallKeepsStrategies(p: Project, a: Action)
    requires StageFits(p) && Act(p, a).Some?
    ensures OfStrategies(Act(p, a).value.stage) ==> p.kind.TradingStrategy?
  {
  }

  lemma CallKeepsRequired(p: Project, a: Action)
    requires StageFits(p) && Act(p, a).Some?
    ensures 3 <= Rank(Act(p, a).value.stage) <= 7 ==> p.backtestRequired
  {
  }

  lemma CallKeepsKind(p: Project, a: Action)
    requires Act(p, a).Some?
    ensures Act(p, a).value.kind == p.kind && Act(p, a).value.backtestRequired == p.backtestRequired
  {
  }

  lemma CallKeepsStage(p: Project, a: Action)
    requires StageFits(p) && Act(p, a).Some?
    ensures var p' := Act(p, a).value;
            StageFits(p') && p'.kind == p.kind && p'.backtestRequired == p.backtestRequired
  {
    CallKeepsSignals(p, a);
    CallKeepsStrategies(p, a);
    CallKeepsRequired(p, a);
    CallKeepsKind(p, a);
  }

  lemma CallKeepsApprovals(p: Project, a: Action)
    requires ApprovalsOk(p) && Act(p, a).Some?
    ensures ApprovalsOk(Act(p, a).value)
  {
  }

  lemma CallKeepsImplementation(p: Project, a: Action)
    requires ImplementationOk(p) && Act(p, a).Some?
    ensures ImplementationOk(Act(p, a).value)
  {
    if a.ReviewedImplementation? {
      SaidSomething(a.evidence);
    }
  }

  lemma CallKeepsBacktest(p: Project, a: Action)
    requires StageFits(p) && BacktestOk(p) && Act(p, a).Some?
    ensures BacktestOk(Act(p, a).value)
  {
    if a.ReviewedBacktestEvidence? {
      SaidSomething(a.evidence);
    }
    if a.OptimizationCompleted? {
      SaidSomething(a.proposal);
    }
  }

  /** Whatever has been called on a project in whatever order. */
  lemma {:induction false} EveryProjectIsOk(kind: ArtifactKind, backtestRequired: bool, actions: seq<Action>)
    ensures var p := AfterCalls(Submitted(kind, backtestRequired), actions);
            p.kind == kind && p.backtestRequired == backtestRequired && ProjectOk(p)
  {
    if actions != [] {
      EveryProjectIsOk(kind, backtestRequired, actions[..|actions| - 1]);
      CallKeeps(AfterCalls(Submitted(kind, backtestRequired), actions[..|actions| - 1]), actions[|actions| - 1]);
    }
  }

  lemma CallKeeps(p: Project, a: Action)
    requires ProjectOk(p)
    ensures Act(p, a).Some? ==>
              var p' := Act(p, a).value;
              p'.kind == p.kind && p'.backtestRequired == p.backtestRequired && ProjectOk(p')
  {
    if Act(p, a).Some? {
      CallKeepsStage(p, a);
      CallKeepsImplementation(p, a);
      CallKeepsApprovals(p, a);
      CallKeepsBacktest(p, a);
    }
  }

  // ---------- moving through the pipeline ----------

  /** A call is accepted exactly when the stage waits for it and it brings what it has to. */
  lemma AcceptedIff(p: Project, a: Action)
    requires ProjectOk(p)
    ensures Act(p, a).Some? <==> Awaited(p.stage, a) && Substantiated(p.kind, a)
  {
    match a
    case ReviewedImplementation(_, text) => SaidSomething(text);
    case ApproveImplementation(_, text) => SaidSomething(text);
    case ReviewedBacktestEvidence(_, text) => SaidSomething(text);
    case OptimizationCompleted(text) => SaidSomething(text);
    case ApproveOptimization(_, text) => SaidSomething(text);
    case ReviewedBacktest(_, text) => SaidSomething(text);
    case ApproveLive(_, text) => SaidSomething(text);
    case PublishSignal(text) => SaidSomething(text);
    case ReportRuntimeError(text) => SaidSomething(text);
    case ResolveRuntimeError(text, _) => SaidSomething(text);
    case _ =>
  }

  predicate Adjacent(stages: seq<WorkflowStage>, i: nat, st: WorkflowStage, next: WorkflowStage) {
    i + 1 < |stages| && stages[i] == st && stages[i + 1] == next
  }

  function NextStage(kind: ArtifactKind, backtestRequired: bool, st: WorkflowStage): WorkflowStage {
    match st
    case ReviewingImplementation => AwaitingImplementationApproval
    case AwaitingImplementationApproval => if backtestRequired then Backtesting else AwaitingLiveApproval
    case Backtesting => ReviewingBacktest
    case ReviewingBacktest => if kind.Signal? then AwaitingBacktestApproval else Optimizing
    case Optimizing => AwaitingOptimizationApproval
    case AwaitingOptimizationApproval => AwaitingBacktestApproval
    case AwaitingBacktestApproval => AwaitingLiveApproval
    case AwaitingLiveApproval => if kind.Signal? then WorkflowStage.ReadyForSignal else ReadyForTrading
    case _ => ReviewingImplementation
  }

  /** The place of a stage in its pipeline. */
  function Place(kind: ArtifactKind, backtestRequired: bool, st: WorkflowStage): (i: nat)
    requires HasStage(kind, backtestRequired, st) && Rank(st) <= 9
    ensures i < |Pipeline(kind, backtestRequired)| && Pipeline(kind, backtestRequired)[i] == st
  {
    if Rank(st) <= 4 && (backtestRequired || Rank(st) <= 2) then Rank(st)
    else if !backtestRequired then Rank(st) - 5
    else if kind.Signal? then Rank(st) - 2
    else Rank(st)
  }

  lemma NextIsAdjacent(kind: ArtifactKind, backtestRequired: bool, st: WorkflowStage)
    requires HasStage(kind, backtestRequired, st) && Rank(st) <= 8
    ensures exists i :: Adjacent(Pipeline(kind, backtestRequired), i, st, NextStage(kind, backtestRequired, st))
  {
    var next := NextStage(kind, backtestRequired, st);
    assert HasStage(kind, backtestRequired, next);
    var i := Place(kind, backtestRequired, st);
    assert Place(kind, backtestRequired, next) == i + 1;
    assert Adjacent(Pipeline(kind, backtestRequired), i, st, next);
  }

  lemma GoesToNext(p: Project, a: Action)
    requires Act(p, a).Some? && Rank(p.stage) <= 8 && GoesOn(a)
    ensures Act(p, a).value.stage == NextStage(p.kind, p.backtestRequired, p.stage)
  {
    match p.stage
    case ReviewingImplementation => assert a.ReviewedImplementation?;
    case AwaitingImplementationApproval => assert a.ApproveImplementation?;
    case Backtesting => assert a.BacktestCompleted?;
    case ReviewingBacktest => assert a.ReviewedBacktestEvidence?;
    case Optimizing => assert a.OptimizationCompleted?;
    case AwaitingOptimizationApproval => assert a.ApproveOptimization?;
    case AwaitingBacktestApproval => assert a.ReviewedBacktest?;
    case AwaitingLiveApproval => assert a.ApproveLive?;
    case SignalImplementation => assert a.StrategyImplemented?;
    case StrategyImplementation => assert a.StrategyImplemented?;
    case _ =>
  }

  lemma GoesBack(p: Project, a: Action)
    requires StageFits(p) && Act(p, a).Some? && Rank(p.stage) <= 8 && !GoesOn(a)
    ensures Act(p, a).value.stage == SentBackTo(p.kind, p.stage)
  {
  }

  /** Before the release every accepted call moves the project one place on or sends it back. */
  lemma CallMoves(p: Project, a: Action)
    requires ProjectOk(p) && Act(p, a).Some? && Rank(p.stage) <= 8
    ensures var stages, p' := Pipeline(p.kind, p.backtestRequired), Act(p, a).value;
            if GoesOn(a) then exists i :: Adjacent(stages, i, p.stage, p'.stage)
            else p'.stage == SentBackTo(p.kind, p.stage)
  {
    if GoesOn(a) {
      NextIsAdjacent(p.kind, p.backtestRequired, p.stage);
      GoesToNext(p, a);
    } else {
      GoesBack(p, a);
    }
  }

  lemma {:induction false} FirstCallFirst(p: Project, a: Action, rest: seq<Action>)
    requires Act(p, a).Some?
    ensures AfterCalls(p, [a] + rest) == AfterCalls(Act(p, a).value, rest)
  {
    if rest == [] {
      assert [a] + rest == [a];
      assert AfterCalls(p, [a][..0]) == p;
    } else {
      var n := |rest| - 1;
      assert ([a] + rest)[..n + 1] == [a] + rest[..n];
      FirstCallFirst(p, a, rest[..n]);
    }
  }

  /** A call with which the project goes on. */
  function NextCall(st: WorkflowStage, r: Report, text: string): Action
    requires Rank(st) <= 8
  {
    match st
    case ReviewingImplementation => ReviewedImplementation(true, text)
    case AwaitingImplementationApproval => ApproveImplementation(true, text)
    case Backtesting => BacktestCompleted(r)
    case ReviewingBacktest => ReviewedBacktestEvidence(true, text)
    case Optimizing => OptimizationCompleted(text)
    case AwaitingOptimizationApproval => ApproveOptimization(false, text)
    case AwaitingBacktestApproval => ReviewedBacktest(true, text)
    case AwaitingLiveApproval => ApproveLive(true, text)
    case _ => StrategyImplemented(r)
  }

  lemma NextCallGoesOn(p: Project, r: Report, text: string)
    requires ProjectOk(p) && Rank(p.stage) <= 8 && SaysSomething(text)
    requires r.hasTests && r.hasCharts && r.performanceValid
    ensures var a := NextCall(p.stage, r, text);
            Act(p, a).Some? && ProjectOk(Act(p, a).value) && Rank(p.stage) < Rank(Act(p, a).value.stage) <= 9
  {
    AcceptedIff(p, NextCall(p.stage, r, text));
    CallKeeps(p, NextCall(p.stage, r, text));
  }

  /** No series of calls leaves a project stuck: with evidence and approvals it can still be released. */
  lemma {:induction false} CanBeReleased(p: Project, r: Report, text: string) returns (more: seq<Action>)
    requires ProjectOk(p) && Rank(p.stage) <= 9 && SaysSomething(text)
    requires r.hasTests && r.hasCharts && r.performanceValid
    ensures var stage := AfterCalls(p, more).stage;
            if p.kind.Signal? then stage.ReadyForSignal? else stage.ReadyForTrading?
    decreases 9 - Rank(p.stage)
  {
    if Rank(p.stage) == 9 {
      more := [];
    } else {
      NextCallGoesOn(p, r, text);
      var a := NextCall(p.stage, r, text);
      CallKeeps(p, a);
      var rest := CanBeReleased(Act(p, a).value, r, text);
      more := [a] + rest;
      FirstCallFirst(p, a, rest);
    }
  }
}
