# Verified model of the quant signal agent

This project models the parts of the quant signal agent whose correctness rests on an argument rather than on a single
function body, and proves that argument for every input, every run and every interleaving the model allows:

- **Order-book replication.** A local book is rebuilt from a REST snapshot and a delta stream that may lose, repeat or
  reorder messages. The venue is modelled as a book that evolves by numbered updates with absolute quantities. Whenever
  the local book holds a sequence id it shows the venue's book at exactly that id (`replica_soundness.dfy`), the
  buffer-then-snapshot start-up reports no gap on a chained stream exactly when the first delta that reaches the
  snapshot does not start after it, and after a gap on a kept stream the book is re-seeded and follows the venue again
  (`bootstrap.dfy`); every depth observation recorded from the top-N view is the sum over the complete book, recorded
  exactly when the view can see the whole range (`depth_history.dfy`).
- **Work-order lifecycle.** The persisted order is a state machine with a worker, crashes, restarts, requeues, user
  decisions and retries (`work_order.dfy`). Every record carries a history tag, the numbers of Strategy and Backtest
  turns begun when it was made. A released order's implementation evidence is of the latest Strategy turn, and its
  review, optimization decision and approvals are of the very backtest it carries. The retry budget is exact
  (`retries.dfy`), failed steps are taken up again where they have to be, no order gets stuck and a release always stays
  in reach (`progress.dfy`), the in-memory studio project simulates the persisted order (`studio.dfy`), and every
  project holds the evidence its stage calls for (`project_laws.dfy`).
- **Feature language and backtest.** Graph evaluation looks at no later row and never fails on an accepted graph
  (`feature_dsl.dfy`), which graphs are accepted and which equations their values solve is stated without the evaluator
  (`feature_graphs.dfy`), each operator is tied to the rows it looks at (`feature_laws.dfy`), the robust z-score is invariant under a change of unit and origin (`robust_score.dfy`), the
  greedy cooldown is an optimal schedule when spacing is counted in whole candles, and in seconds exactly when the
  candle length divides the cooldown, labels, counters and the Wilson bound mean what they should
  (`backtest_engine.dfy`, `wilson.dfy`), and the one-pass drawdown finds the worst pair (`drawdown.dfy`).
- **Archive planning and normalization.** The planned partitions cover each day once (`archive.dfy`), normalization
  returns the one complete series or fails (`strategy_data.dfy`), and both together (`archive_pipeline.dfy`).
- **Bounded indexes that decide like an unbounded history.** Signal deduplication (`signal_dedup.dfy`), the rate
  limiter (`rate_limiter.dfy`), candle windows with the contiguous closed window read from them (`candles.dfy`) and the
  recent-trade tape (`trade_tape.dfy`).

Code that changes state in place is a class or a loop whose postcondition equates the new state with a function of the
old one; the laws are then lemmas about those functions and about whole runs of them.
`dafny verify dfyconfig.toml` checks everything.

## Where the code and the expectation differ

Each of these is stated as an exact condition or a concrete counterexample:

- The cooldown is counted in whole candles, which rounds it up. Measured in the configured seconds, a rejected trigger
  always lies within the cooldown of an accepted one if and only if the candle length divides the cooldown
  (`RejectionIsExactIffCandleDivides`), and no spaced set of triggers is larger than the accepted one under exactly the
  same condition (`OptimalInSecondsIffCandleDivides`); otherwise triggers at the first and the last candle of the
  rounded-up cooldown are a counterexample (`RoundedUpCooldownLosesATrigger`).
- A label horizon shorter than one candle makes the label pass raise at the first positive close, and only then
  (`FutureAbsoluteMoveLabels`).
- The archive planner works with the end's date, so it reaches every requested instant if and only if the range ends at
  midnight UTC (`PlanReachesEveryInstantIff`), and a fully published range normalizes if and only if its last candle
  opens on a day before the end's date (`PublishedRangeNormalizesIff`). A request that ends at noon is never fully
  planned and, in twelve-hour candles, is refused (`NoonEndIsNotReached`, `NoonEndDoesNotNormalize`). For an arbitrary month cutoff the cover is exact
  if and only if the cutoff is not after the start or the earlier of end and cutoff is the first of a month
  (`PlanIsExactIff`).
- Bybit and Hyperliquid deltas are only checked for old ids, so a lost delta goes unnoticed
  (`OtherVenueMissesALostDelta`). The book is right after applying a batch, whatever the updates were, if and only if
  the batch does not start after the position of the book (`OtherVenueIsExactIff`), and over every run in which no
  applied batch starts late the replica is never wrong (`OtherVenueIsSoundWhenLossless`).
- A snapshot of the same exchange time but another id replaces a synchronized book even when its id is lower. So no
  snapshot ever takes a synchronized book back if and only if the venue's times are strictly increasing
  (`NeverMovedBackIff`).
- Binance perpetual deltas name their predecessor and may leave holes between their id ranges. A snapshot id that falls
  into such a hole cannot be bridged and is reported as a gap, although no delta was lost (`NoGapIffBridged`,
  `HoleIsReportedAsGap`); on
  contiguous ranges the snapshot only has to reach the first buffered delta (`NoGapIffSnapshotReaches`).
- The gateway accepts a Strategy report without tests and a Backtest report without charts or a valid performance
  record; the studio project does not. A worker step is a project call that the project accepts if and only if the
  report meets that standard (`PersistIsAnAction`, `StepRefines`); a four-step run ends in such a refusal
  (`UntestedReportIsRefused`).
- The deduplicator reads a wall clock. Whatever the signals are, forgetting changes no decision, and no signal goes out
  twice within its cooldown, if and only if there are no readings i <= j < k with ts[j] - ts[i] >= cooldown and
  ts[k] - ts[i] < cooldown (`DecidesAlikeIff`, `CooldownIsKeptIff`). A clock that never runs back meets this
  (`DeduplicatorDecidesLikeFullHistory`); the readings 0, 10, 5 under a cooldown of 10 do not
  (`BackwardClockEmitsTwice`).
- Dividing by the running peak gives the deepest loss at an index if and only if the equity there is not negative or
  there is no smaller positive level (`RunningPeakIsDeepestIff`); validated curves are never negative.
- The branch that clears the best-level history when generations differ is never taken: invalidation already drops the
  history (`MarketDepth.RecordBestLevels`, whose postcondition always appends).

## Model

| member | source | states |
|---|---|---|
| Exchange.ApplyLevelsLookup | src/quant_signal_agent/state/order_book.py:258-264 | after merging levels, each price shows the last quantity mentioned for it, nothing if that was zero, and its old quantity if it was not mentioned |
| Exchange.BookAdvances | src/quant_signal_agent/state/order_book.py:258-264 | the book after more updates differs from the earlier one by the net effect of those updates, price by price |
| Exchange.OverlapIsHarmless | src/quant_signal_agent/state/order_book.py:172-178 | replaying a batch that starts before and ends after the local position gives the book at the batch's end |
| OrderBook.SnapshotIsABookFromNothing | src/quant_signal_agent/state/order_book.py:140-141 | a snapshot that names each price once is the same as applying its levels to an empty book |
| OrderBook.ListedMeans | src/quant_signal_agent/state/order_book.py:140-141 | a snapshot side shows a price if and only if it lists it with a positive quantity, and then with the last positive quantity listed for it |
| OrderBook.LocalOrderBook.constructor | src/quant_signal_agent/state/order_book.py:111-123 | an empty, unsynchronized book of generation 0 awaiting its first delta |
| OrderBook.LocalOrderBook.ApplySnapshot | src/quant_signal_agent/state/order_book.py:125-147 | in fields: refused if and only if the book is synchronized and the snapshot is earlier in exchange time, or of the same time with the same id; otherwise id and times are the snapshot's, the first-delta rule is re-armed, and the book is synchronized only with an id and without a required bridge |
| OrderBook.LocalOrderBook.ApplyDelta | src/quant_signal_agent/state/order_book.py:149-179 | the full new state and verdict for every venue: an applied delta sets id, times and synchronization, an ignored one changes nothing, one out of sync names its reason and, if there was a snapshot, invalidates the book |
| OrderBook.LocalOrderBook.ValidateBinance | src/quant_signal_agent/state/order_book.py:181-216 | Binance's sequence rules, for the first delta after a snapshot and for later ones; a gap invalidates, everything else leaves the book alone |
| OrderBook.MissingFirstIdIsFinal | src/quant_signal_agent/state/order_book.py:181-216 | a delta whose first id is missing or zero gets the verdict it would get with its final id as first id |
| OrderBook.LocalOrderBook.Invalidate | src/quant_signal_agent/state/order_book.py:229-232 | unsynchronized afterwards; the generation grows only if it was synchronized |
| OrderBook.LocalOrderBook.MergeLevels | src/quant_signal_agent/state/order_book.py:258-264 | the loop computes the level-by-level update of one side |
| OrderBook.LocalOrderBook.ListLevels | src/quant_signal_agent/state/order_book.py:140-141 | the positive levels of a snapshot side, the last one at each price |
| OrderBook.LocalOrderBook.Ranked | src/quant_signal_agent/state/order_book.py:235-242 | the best `depth` prices of one side, best first, with their quantities, and no hidden price is better than a shown one |
| OrderBook.LocalOrderBook.GetView | src/quant_signal_agent/state/order_book.py:234-252 | exactly the best `depth` levels of each side, best first, with the book's id, times, flag and generation |
| ReplicaSoundness.AcceptedDeltaSpansReplica | src/quant_signal_agent/state/order_book.py:162-170 | an accepted delta never starts after the update the replica stands at; on Binance it never ends before it, on OKX it starts exactly there |
| ReplicaSoundness.AppliedDeltaIsExact | src/quant_signal_agent/state/order_book.py:149-179 | applying an accepted delta moves the replica to the venue's book at the delta's final update |
| ReplicaSoundness.StepKeepsSound | src/quant_signal_agent/state/order_book.py:125-232 | every snapshot, delta and invalidation, in any order, keeps the replica truthful |
| ReplicaSoundness.ReplicaIsSound | src/quant_signal_agent/state/order_book.py:125-232 | over any run of exact snapshots, invalidations and lost, repeated or reordered deltas, a replica with an id shows the venue's book at that id on every price covered by its snapshot or touched since |
| ReplicaSoundness.FullDepthReplicaIsTheBook | src/quant_signal_agent/state/order_book.py:125-232 | with full-depth snapshots both local maps equal the venue's maps at exactly the local id |
| ReplicaSoundness.RunKeepsTime | src/quant_signal_agent/state/order_book.py:125-232 | over any run a replica with an id carries the exchange time of exactly that update |
| ReplicaSoundness.SnapshotsMoveForward | src/quant_signal_agent/state/order_book.py:132-147 | over any run a snapshot leaves a synchronized replica alone unless it is later, or another one of the same time; then, and always for an unsynchronized one, the replica has the snapshot's id, time and positive levels; the exchange time of a synchronized replica never decreases |
| ReplicaSoundness.NeverMovedBackIff | src/quant_signal_agent/state/order_book.py:132-139 | with growing ids and nondecreasing venue times, no snapshot ever takes a synchronized replica back to an earlier update if and only if the venue times are strictly increasing |
| ReplicaSoundness.BinancePreviousIdDecides | src/quant_signal_agent/state/order_book.py:204-208 | with previous ids a synchronized Binance book applies exactly the batch that starts where it stands, ignores what lies behind and reports a gap for the rest |
| ReplicaSoundness.BinanceFirstIdDecides | src/quant_signal_agent/state/order_book.py:209-216 | without previous ids and with consecutive update ids it applies exactly the batches that overlap or touch its position and move it forward |
| ReplicaSoundness.OkxPreviousIdDecides | src/quant_signal_agent/state/order_book.py:165-168 | OKX applies exactly the batch that starts where the book stands, even when its id is lower |
| ReplicaSoundness.OtherVenueIsExactWhenLossless | src/quant_signal_agent/state/order_book.py:169-178 | on the remaining venues an accepted delta that does not start after the position leaves the exact book |
| ReplicaSoundness.OtherVenueIsSoundWhenLossless | src/quant_signal_agent/state/order_book.py:125-232 | over any run of snapshots, invalidations and deltas in which no applied batch starts late, with growing ids, such a replica shows the venue's book at its id |
| ReplicaSoundness.OtherVenueIsExactIff | src/quant_signal_agent/state/order_book.py:169-178 | for given ids, position and batch: the book is right after applying the batch for every venue history and every right replica if and only if the batch does not start after the position |
| ReplicaSoundness.LateBatchLeavesWrongBook | src/quant_signal_agent/state/order_book.py:169-170 | for any late batch, a venue history and a right replica that the batch makes wrong |
| ReplicaSoundness.OtherVenueMissesALostDelta | src/quant_signal_agent/state/order_book.py:169-170 | a concrete lost delta that such a venue's book does not notice and that leaves it wrong |
| Bootstrap.Bridge | src/quant_signal_agent/state/supervisor.py:1021-1045 | buffers until the first depth delta, ends on termination or a full buffer without touching the book, and otherwise leaves the book in the state of snapshot plus replay, re-seeded from REST after every gap of a kept stream, with the number of resynchronizations |
| Bootstrap.ChainedReplay | src/quant_signal_agent/state/supervisor.py:1101-1136 | replaying a chained stream over a snapshot: if the first delta to reach the bridge id spans it, there is no gap and the book is synchronized at the last delta once the bridge is reached; otherwise a gap is reported |
| Bootstrap.InStepAdvances | src/quant_signal_agent/state/order_book.py:181-216 | one more delta of a chain is out of sync if and only if it is the first to reach the bridge id and starts after it |
| Bootstrap.NoGapIffBridged | src/quant_signal_agent/state/order_book.py:181-216 | on a stream chained by previous ids or by touching ranges there is no gap if and only if the first delta to reach the bridge id, if any, does not start after it |
| Bootstrap.HoleIsReportedAsGap | src/quant_signal_agent/state/order_book.py:193-203 | two chained perpetual deltas with a hole between their id ranges, and a snapshot id inside it, that stop the stream |
| Bootstrap.NoGapIffSnapshotReaches | src/quant_signal_agent/state/order_book.py:183-203 | on contiguous ranges there is no gap if and only if the snapshot id reaches the first buffered delta |
| Bootstrap.BootstrapRebuildsTheBook | src/quant_signal_agent/state/supervisor.py:1101-1136 | from any unsynchronized book, snapshot then replay of a bridged chain ends without a gap; once a delta has reached the bridge id the book is synchronized at the last delta's id and shows the venue's book after it at every price the snapshot covered, before that it is the snapshot untouched |
| Bootstrap.SeededFeedFollows | src/quant_signal_agent/state/supervisor.py:1101-1136 | a freshly seeded feed, however many resynchronizations it has behind it, follows a bridged chain to the venue's book after its last delta |
| Bootstrap.GapReseeds | src/quant_signal_agent/state/supervisor.py:1204-1222 | right after a gap on a kept stream the book has the id of the REST answer, is unsynchronized and shows the venue at the covered prices |
| Bootstrap.RecoversAfterGap | src/quant_signal_agent/state/supervisor.py:1204-1222 | completeness past any gap: if the REST answer captures the venue and the rest of the chain bridges it, there is no further gap and the book ends synchronized at the last delta as the venue's book at every covered price |
| Bootstrap.GapStopsRecycledStream | src/quant_signal_agent/state/supervisor.py:1219-1222 | on a recycled stream the first gap leaves the book unsynchronized, no REST answer is used and nothing that follows is applied |
| Bootstrap.FollowsAfterOneGap | src/quant_signal_agent/state/supervisor.py:1204-1222 | a concrete perpetual stream with a gap at 116, answered at 125 and bridged by the delta that ends at 130 |
| DepthHistory.CoveredViewIsComplete | src/quant_signal_agent/state/order_book.py:60-80 | a top-N side whose last level reaches the bound sums to the whole book's liquidity inside it |
| DepthHistory.OnePriceAdds | src/quant_signal_agent/state/order_book.py:60-80 | the notional of a side is the sum, over its prices on the near side of the bound, of price times quantity |
| DepthHistory.RangeBounds | src/quant_signal_agent/state/order_book.py:42-80 | the range reaches `percent` hundredths of the mid price to either side, the mid price is halfway between the best prices, and a range is refused if and only if it is not strictly between 0 and 100 percent |
| DepthHistory.CoverageFlagIsRight | src/quant_signal_agent/state/order_book.py:55-59 | the covered flag holds if and only if the book is synchronized and on each side some price reaches the bound and fewer than `depth` prices lie before it |
| DepthHistory.CoveredRangeIsExact | src/quant_signal_agent/state/market.py:387-413 | an observation made from a covered view has the true mid price, spread and complete notional of the whole book |
| DepthHistory.MarketDepth.ApplyDelta | src/quant_signal_agent/state/market.py:145-155 | out of sync drops all observations, ignored keeps them, applied records range and best levels; every stored observation carries the current generation |
| DepthHistory.MarketDepth.ApplySnapshot | src/quant_signal_agent/state/market.py:182-202 | a refused snapshot changes nothing; an applied one records range and best levels; generations stay current |
| DepthHistory.MarketDepth.InvalidateBook | src/quant_signal_agent/state/market.py:307-315 | invalidates the book and drops both histories |
| DepthHistory.MarketDepth.RecordOrderBook | src/quant_signal_agent/state/market.py:364-413 | nothing inside the sampling interval or while unsynchronized, history dropped when the range is not covered, otherwise one exact observation added to the bounded history; best levels added whenever synchronized with both sides present |
| DepthHistory.MarketDepth.RecordRange | src/quant_signal_agent/state/market.py:379-413 | the sampling rule, the coverage rule and the exact new observation; stored observations stay at least the sampling interval apart |
| DepthHistory.MarketDepth.RecordBestLevels | src/quant_signal_agent/state/market.py:364-378 | one exact best-level notional appended to the bounded history whenever the book is synchronized with both sides present, nothing otherwise; history is never cleared |
| DepthHistory.MarketDepth.GetHistory | src/quant_signal_agent/state/market.py:341-346 | the generation filter returns the stored history unchanged |
| WorkOrder.WorkOrderRecord.ClaimNext | src/quant_signal_agent/studio/gateway.py:1399-1439 | only a queued order is claimed; an unexecutable stage restarts at Strategy |
| WorkOrder.WorkOrderRecord.RecoverInterrupted | src/quant_signal_agent/studio/gateway.py:933-954 | a working order found at start-up is queued again at its stage, any other is untouched |
| WorkOrder.WorkOrderRecord.Checkpoint | src/quant_signal_agent/studio/gateway.py:1885-1913 | stage and results are stored, nothing else changes |
| WorkOrder.WorkOrderRecord.Requeue | src/quant_signal_agent/studio/gateway.py:1974-2067 | counts the attempt and its issues when told to, dead-letters on the attempt limit or a recurring issue, otherwise waits for the user if an action is demanded of them and is queued if not |
| WorkOrder.WorkOrderRecord.CountIssues | src/quant_signal_agent/studio/gateway.py:1987-2026 | each named issue is counted once, no other count changes |
| WorkOrder.WorkOrderRecord.Finish | src/quant_signal_agent/studio/gateway.py:2223-2278 | status, stage and results are stored, approvals and counters stay |
| WorkOrder.WorkOrderRecord.HandleApproval | src/quant_signal_agent/studio/gateway.py:2988-3129 | refused without a note, away from the gate, or without a proposal; otherwise the complete new record for each gate and answer |
| WorkOrder.WorkOrderRecord.RetryAfterRemediation | src/quant_signal_agent/studio/gateway.py:776-861 | accepted from dead-letter, failed and user-blocked orders; keeps the implementation approval only for the same artifact stopped in its backtest |
| Lifecycle.StepKeepsInv | src/quant_signal_agent/studio/gateway.py:1462-1631 | every step of worker, crash, restart, user and retry keeps the record and the worker's memory consistent with the latest Strategy and Backtest turns |
| Lifecycle.DecisionKeepsInv | src/quant_signal_agent/studio/gateway.py:2988-3129 | whatever is answered at whatever gate, what the order waits for next is backed by current evidence |
| Lifecycle.RetryKeepsInv | src/quant_signal_agent/studio/gateway.py:776-861 | a remediation retry re-enters the pipeline with nothing outdated it relies on |
| Lifecycle.RunKeepsInv | src/quant_signal_agent/studio/gateway.py:1462-1631 | the invariant holds in every state of every run |
| Lifecycle.ReleaseSafety | src/quant_signal_agent/studio/gateway.py:3008-3123 | in every run a released order has implementation, passing review and implementation approval from the latest Strategy turn, a live approval after the latest turns, and where required a passing backtest review, a declined optimization and a backtest approval that belong to the very backtest it carries |
| Lifecycle.ReleaseIsFinal | src/quant_signal_agent/studio/gateway.py:2988-3129 | nothing but a failed artifact recording touches a released order |
| Progress.FirstClaim | src/quant_signal_agent/studio/gateway.py:3134-3226 | a created order is first claimed at Strategy with nothing, an adopted artifact at its implementation review with its report and nothing else |
| Progress.RejectionGoesBack | src/quant_signal_agent/studio/gateway.py:2112-2125 | a rejected implementation goes back to Strategy and a rejected backtest to Backtest, claimable at once with all results, unless the order is dead-lettered or the review demands a user action: then no claim takes it and a retry does |
| Progress.FailuresContinue | src/quant_signal_agent/studio/gateway.py:1974-2067 | over every run: after a time-out, quota error, graceful stop, failed acquisition or incomplete report that does not dead-letter, the next claim takes the order at the same stage with the same results; after a review that demands a user action only a retry moves it |
| Progress.CrashResumesAtCheckpoint | src/quant_signal_agent/studio/gateway.py:933-954 | after a crash, restart and claim the worker resumes at the last checkpoint with its results; approvals and counters are as before |
| Progress.SuccessIsHandedOn | src/quant_signal_agent/studio/gateway.py:1462-1584 | a finished turn is handed to the stage that follows it, a passed review to the user, or for a trading strategy's backtest to the optimization; counters and approvals stay |
| Progress.DecisionLeadsTo | src/quant_signal_agent/studio/gateway.py:3008-3123 | what each answer at each gate makes the order do next and with which results: a rejection discards what was decided on and all that rests on it, an approval keeps every result |
| Progress.GateIsOpen | src/quant_signal_agent/studio/gateway.py:2988-3008 | a gate accepts every answer with a note if and only if the order waits at that gate |
| Progress.NeverStuck | src/quant_signal_agent/studio/gateway.py:1462-1631 | over every run an order that is neither released nor cancelled can always move on |
| Progress.ReleaseStaysInReach | src/quant_signal_agent/studio/gateway.py:1462-1631 | over every run, whatever has failed in it: as long as the order is not cancelled there are further events that release it |
| Progress.EndingsRest | src/quant_signal_agent/studio/gateway.py:2223-2278 | a fatal error fails the order and drops its results, a cancellation cancels it, both leave no worker, and nothing but a failed recording touches a cancelled order |
| Progress.CountersAreTallies | src/quant_signal_agent/studio/gateway.py:1987-2026 | over every run attempts and issue counts are exactly the charged steps since the order last started over |
| Progress.ChargeEndsOrderIff | src/quant_signal_agent/studio/gateway.py:1987-2026 | a charged step dead-letters the order if and only if it uses up the attempts or names an issue more often than the limit |
| Progress.RetryKeeps | src/quant_signal_agent/studio/gateway.py:776-861 | a retry clears counters and all later approvals; the implementation approval survives if and only if it was given, the artifact is the same, its evidence is there and the order stopped in its backtest or the review of it |
| Retries.RequeueKeepsBudget | src/quant_signal_agent/studio/gateway.py:1987-2026 | a live order stays below the attempt limit and every issue limit, attempts never exceed the issue total, and a counted requeue shrinks the remaining attempts |
| Retries.StepKeepsBudget | src/quant_signal_agent/studio/gateway.py:1987-2026 | every lifecycle step keeps that budget |
| Retries.RunKeepsBudget | src/quant_signal_agent/studio/gateway.py:1987-2026 | in every run a live order has at most (distinct issues) times (issue limit) attempts behind it |
| Retries.DeadLetterIffExhausted | src/quant_signal_agent/studio/gateway.py:1987-2026 | after counted failures a fresh order is dead-lettered if and only if there were `max_attempts` of them or one issue occurred more often than its limit; until then the counters are the exact tallies |
| Retries.FewIssuesMeanFewRetries | src/quant_signal_agent/studio/gateway.py:1987-2026 | with k distinct issues, more than k times the limit counted failures end the retries |
| Studio.StudioProject.ImplementStrategy | src/quant_signal_agent/studio/workflow.py:128-153 | accepted only in an implementation stage and with tests, then the complete new project |
| Studio.StudioProject.ReviewImplementation | src/quant_signal_agent/studio/workflow.py:155-175 | stores the stripped evidence and moves to approval or back, or raises unchanged |
| Studio.StudioProject.DecideImplementation | src/quant_signal_agent/studio/workflow.py:177-199 | approval moves on to backtest or live approval, rejection discards implementation and review |
| Studio.StudioProject.CompleteBacktest | src/quant_signal_agent/studio/workflow.py:201-225 | accepted only with charts and, for a trading strategy, a valid performance record |
| Studio.StudioProject.ReviewBacktestEvidence | src/quant_signal_agent/studio/workflow.py:227-251 | a passing review leads to optimization for a trading strategy and to approval otherwise |
| Studio.StudioProject.CompleteOptimization | src/quant_signal_agent/studio/workflow.py:253-265 | stores a non-blank proposal and waits for its decision |
| Studio.StudioProject.DecideOptimization | src/quant_signal_agent/studio/workflow.py:267-292 | approval restarts the strategy and withdraws reviews, backtest and approvals; rejection goes on to backtest approval |
| Studio.StudioProject.DecideBacktest | src/quant_signal_agent/studio/workflow.py:294-311 | approval signs the backtest, rejection discards it and repeats it |
| Studio.StudioProject.DecideLive | src/quant_signal_agent/studio/workflow.py:313-339 | approval makes the project ready, rejection returns to implementation approval |
| Studio.StudioProject.StartRuntime | src/quant_signal_agent/studio/workflow.py:341-364 | starts exactly a fully approved signal project with its implementation and required backtest, from ready or stopped, and clears its runtime error |
| Studio.StudioProject.StopRuntime | src/quant_signal_agent/studio/workflow.py:366-376 | stops a running runtime or one in maintenance, otherwise raises unchanged |
| Studio.StudioProject.Publish | src/quant_signal_agent/studio/workflow.py:378-395 | counts one signal, only while running and with a fingerprint |
| Studio.StudioProject.ReportError | src/quant_signal_agent/studio/workflow.py:397-410 | a running runtime with a stated error goes into maintenance |
| Studio.StudioProject.ResolveError | src/quant_signal_agent/studio/workflow.py:412-426 | maintenance with evidence clears the error and resumes or stops |
| Studio.ActKeepsRuntimeOk | src/quant_signal_agent/studio/workflow.py:128-426 | no call takes a project whose runtime was started out of the approved state, or publishes outside of it |
| Studio.PublishedSignalsAreApproved | src/quant_signal_agent/studio/workflow.py:128-426 | after any series of calls, a project that is running or has ever published a signal is a Signal with implementation and live approvals and, where required, an approved backtest |
| ProjectLaws.EveryProjectIsOk | src/quant_signal_agent/studio/workflow.py:83-426 | after any series of calls each stage has what the earlier ones must have produced: tested implementation, reviews that are not blank, charts and performance, a declined optimization, and the approvals; live approval exactly when released |
| ProjectLaws.AcceptedIff | src/quant_signal_agent/studio/workflow.py:128-426 | a call is accepted if and only if the stage waits for it and it brings its evidence or a text that is not all spaces |
| ProjectLaws.CallMoves | src/quant_signal_agent/studio/workflow.py:128-339 | before the release every accepted call moves the project one place along the pipeline of its kind or sends it back to the stage that has to be redone |
| ProjectLaws.CanBeReleased | src/quant_signal_agent/studio/workflow.py:128-339 | no series of calls leaves a project stuck: from every state before the runtime further calls release it |
| StudioRefinement.PersistIsAnAction | src/quant_signal_agent/studio/gateway.py:2085-2156 | storing a turn's outcome is a project call or a stutter; the project accepts the call if and only if the report has the evidence it insists on |
| StudioRefinement.DecisionIsAnAction | src/quant_signal_agent/studio/gateway.py:3008-3123 | every user decision the gateway accepts is accepted by the project with the same effect |
| StudioRefinement.OtherStepsStutter | src/quant_signal_agent/studio/gateway.py:1399-1439 | claims, data purchase, turns, time-outs, stops, crashes and restarts are invisible to the project |
| StudioRefinement.StepRefines | src/quant_signal_agent/studio/gateway.py:1462-1584 | every step inside the pipeline is a project call or a stutter |
| StudioRefinement.RunRefines | src/quant_signal_agent/studio/workflow.py:83-364 | every run of the order inside the pipeline is matched, state by state, by a run of the project |
| StudioRefinement.UntestedReportIsRefused | src/quant_signal_agent/studio/workflow.py:128-153 | a concrete run whose last step the gateway takes and the project refuses, because the Strategy report has no tests |
| StudioRefinement.ReleasedSignalMayStart | src/quant_signal_agent/studio/workflow.py:341-364 | a released Signal order is one whose project may start its runtime |
| FeatureDsl.CompileFeatureGraph | src/quant_signal_agent/backtesting/dsl.py:76-162 | the accepted graph, or the first violated rule, in the order the rules are checked |
| FeatureGraphs.CompilesIff | src/quant_signal_agent/backtesting/dsl.py:76-162 | a graph is accepted if and only if sources are safe and distinct, every node has a fresh safe id, a fitting shape and earlier inputs of the kind it wants, and the signal is a Boolean node |
| FeatureGraphs.RefusalNamesTheFault | src/quant_signal_agent/backtesting/dsl.py:76-162 | a refused graph names its sources' fault, else that of its first node that does not fit, else its signal's |
| FeatureDsl.Evaluate | src/quant_signal_agent/backtesting/dsl.py:47-73 | all columns of the graph, or the first error |
| FeatureDsl.EvaluateNodes | src/quant_signal_agent/backtesting/dsl.py:47-73 | the values after all nodes in order, or the first error |
| FeatureDsl.EvaluateNode | src/quant_signal_agent/backtesting/dsl.py:183-249 | one node's column, row by row, or its parameter error |
| FeatureGraphs.EvaluationFault | src/quant_signal_agent/backtesting/dsl.py:183-202 | a node fails if and only if an input is missing, or its parameter is, or its window is no whole number of candles, and says which |
| FeatureGraphs.EvaluationSolves | src/quant_signal_agent/backtesting/dsl.py:47-73 | the values returned satisfy the equation of every node at once: each row of its column is its operator applied to that row of its inputs |
| FeatureGraphs.AcceptedGraphSolves | src/quant_signal_agent/backtesting/dsl.py:47-119 | what an accepted graph evaluates to: the given source columns and one column for each node, solving all equations |
| FeatureDsl.RollWindow | src/quant_signal_agent/backtesting/dsl.py:252-288 | each row of a rolling operator depends on the `bars` rows before it and its own row; incomplete or non-numeric windows give nothing |
| FeatureDsl.Roll | src/quant_signal_agent/backtesting/dsl.py:252-288 | the value of each rolling operator on one complete window, or nothing where a divisor or the current value is missing |
| FeatureLaws.PercentChangeMeans | src/quant_signal_agent/backtesting/dsl.py:261-268 | a percent change p at row i satisfies source[i] == source[i - bars] * (1 + p), and there is one if and only if window and row hold numbers and that base is not zero |
| FeatureLaws.RollingMeanMeans | src/quant_signal_agent/backtesting/dsl.py:269-271 | a rolling mean times `bars` is the total of the `bars` rows before the row |
| FeatureLaws.RollingRatioMeans | src/quant_signal_agent/backtesting/dsl.py:272-273 | a rolling ratio times the rolling mean is the row's value, and there is one if and only if the mean is not zero and the row holds a number |
| FeatureLaws.MedianIsCentre | src/quant_signal_agent/backtesting/dsl.py:275-280 | at most half of the numbers lie below the median and at most half above it |
| FeatureLaws.RobustScoreMeans | src/quant_signal_agent/backtesting/dsl.py:274-287 | a robust score z satisfies source[i] == m + z * 1.4826 * mad, where m is a centre of the window and mad a centre of the distances from m, and there is one if and only if mad is not zero |
| FeatureLaws.NoScoreWithoutWindow | src/quant_signal_agent/backtesting/dsl.py:255-260 | a row with an incomplete window, a value in it that is no number, or no number of its own has no score |
| FeatureLaws.ComparisonMeans | src/quant_signal_agent/backtesting/dsl.py:199-217 | a comparison holds of the numbers on the right side of the threshold and of nothing else |
| FeatureLaws.TransformMeans | src/quant_signal_agent/backtesting/dsl.py:218-231 | the absolute value is the number or its opposite, whichever is not negative; log1p is given for no negative number |
| FeatureLaws.ExtremeMeans | src/quant_signal_agent/backtesting/dsl.py:232-243 | minimum and maximum are among the row's inputs and bound them all; one input without a number leaves none |
| FeatureLaws.LogicMeans | src/quant_signal_agent/backtesting/dsl.py:244-249 | ALL holds if and only if every input of the row is on, ANY if and only if some is |
| FeatureLaws.WindowBarsMeans | src/quant_signal_agent/backtesting/dsl.py:165-174 | an accepted window is positive, at least one candle and within one billionth of the exact quotient |
| FeatureLaws.SettingMeans | src/quant_signal_agent/backtesting/dsl.py:165-204 | a node reads its own window, its own threshold or its constant, or fails on the one it lacks |
| FeatureDsl.NodesSeeNoFuture | src/quant_signal_agent/backtesting/dsl.py:183-288 | evaluating nodes on a prefix of the columns gives the prefix of every column and the same error |
| FeatureDsl.NoLookAhead | src/quant_signal_agent/backtesting/dsl.py:47-73 | evaluating any prefix of the input equals the prefix of evaluating the whole, in every column |
| FeatureDsl.ReplayPrefixes | src/quant_signal_agent/backtesting/dsl.py:301-316 | replaying receive-order prefixes and keeping each last signal gives the full signal column, or its error |
| FeatureDsl.WholeWindowsAlign | src/quant_signal_agent/backtesting/dsl.py:165-174 | a window of a whole number of candles is read as that number |
| FeatureDsl.DeclaredNodesEvaluate | src/quant_signal_agent/backtesting/dsl.py:122-162 | declared nodes with fitting parameters evaluate without error and keep length and kind |
| FeatureDsl.CompiledGraphsEvaluate | src/quant_signal_agent/backtesting/dsl.py:76-249 | type soundness: an accepted graph over numeric columns evaluates, numeric nodes hold numbers or nothing, Boolean nodes and the signal hold only Booleans |
| FeatureDsl.Onset | src/quant_signal_agent/backtesting/dsl.py:291-298 | true exactly where the value is truthy and the one before it was not |
| RobustScore.SortedIsUnique | src/quant_signal_agent/backtesting/dsl.py:252-288 | two ascending arrangements of the same numbers are equal |
| RobustScore.MedianIgnoresOrder | src/quant_signal_agent/backtesting/dsl.py:252-288 | the median depends only on which numbers are in the window |
| RobustScore.MadMaps | src/quant_signal_agent/backtesting/dsl.py:252-288 | the median absolute deviation is carried along by any map that keeps order and midpoints and stretches distances evenly |
| RobustScore.ScoreIsAffineInvariant | src/quant_signal_agent/backtesting/dsl.py:252-288 | replacing a column by a*x+b leaves every score unchanged for a > 0 and negates it for a < 0; rows without a score stay without one |
| BacktestEngine.ApplyCooldown | src/quant_signal_agent/backtesting/generic_engine.py:247-260 | a row is accepted exactly when it triggers and the last accepted row is more than the cooldown's candles back |
| BacktestEngine.AcceptedAreSpaced | src/quant_signal_agent/backtesting/generic_engine.py:247-260 | accepted triggers are more than the cooldown apart, in candles and in seconds |
| BacktestEngine.EveryTriggerIsCovered | src/quant_signal_agent/backtesting/generic_engine.py:247-260 | every trigger has an accepted one at most the cooldown's candles before it |
| BacktestEngine.CooldownIsOptimal | src/quant_signal_agent/backtesting/generic_engine.py:247-260 | with spacing counted in whole candles the accepted triggers are spaced, and no other spaced set of triggers is larger |
| BacktestEngine.OptimalInSecondsIffCandleDivides | src/quant_signal_agent/backtesting/generic_engine.py:247-260 | with spacing measured in the configured seconds no set of triggers is ever larger than the accepted one if and only if the candle length divides the cooldown |
| BacktestEngine.RoundedUpCooldownLosesATrigger | src/quant_signal_agent/backtesting/generic_engine.py:252-259 | whenever it does not divide, a signal of which two triggers could be taken but only one is |
| BacktestEngine.RejectionIsExactIffCandleDivides | src/quant_signal_agent/backtesting/generic_engine.py:247-260 | rejected triggers always lie within the cooldown seconds of an accepted one if and only if the candle length divides the cooldown |
| BacktestEngine.CooldownSeesNoFuture | src/quant_signal_agent/backtesting/generic_engine.py:247-260 | acceptance of a row depends on no later row |
| BacktestEngine.RunSignal | src/quant_signal_agent/backtesting/generic_engine.py:81-103 | the events are rising edges of the signal column, any two more than `cooldown` seconds apart at 60 seconds a minute of candle, and every rising edge has an event at or less than `cooldown` plus one candle before it; fails exactly when the evaluation does |
| BacktestEngine.EventsFollowSignal | src/quant_signal_agent/backtesting/generic_engine.py:81-103 | the same of the event column as a value |
| BacktestEngine.EventsSeeNoFuture | src/quant_signal_agent/backtesting/generic_engine.py:93-103 | the events of the first n rows are the first n events, whatever arrives later |
| BacktestEngine.FutureAbsoluteMoveLabels | src/quant_signal_agent/backtesting/generic_engine.py:222-244 | fails if and only if the horizon is shorter than a candle and some close is positive; otherwise every label |
| BacktestEngine.NoLabelIff | src/quant_signal_agent/backtesting/generic_engine.py:222-244 | a row has no label if and only if its horizon reaches past the last row or its close is not positive |
| BacktestEngine.LabelMeansSomeMove | src/quant_signal_agent/backtesting/generic_engine.py:222-244 | a label is true if and only if some row within the horizon moved up or down by the threshold |
| BacktestEngine.LabelsSettleAfterHorizon | src/quant_signal_agent/backtesting/generic_engine.py:222-244 | a prefix has the final label of every row whose horizon it contains and none for the others |
| BacktestEngine.CountMetrics | src/quant_signal_agent/backtesting/generic_engine.py:263-292 | each counter is the number of labelled rows of its kind; hits <= signals, hits <= positives, and signals + positives - hits <= observations |
| BacktestEngine.CountRowsIsCardinality | src/quant_signal_agent/backtesting/generic_engine.py:263-292 | each counter is the size of the set of labelled rows of its kind |
| Wilson.WilsonIsALowerBound | src/quant_signal_agent/backtesting/generic_engine.py:295-304 | the bound lies between 0 and the observed rate and solves the interval's defining equation |
| Wilson.NoTrialsNoBound | src/quant_signal_agent/backtesting/generic_engine.py:295-304 | without signals the bound is 0 |
| Wilson.WilsonRewardsHits | src/quant_signal_agent/backtesting/generic_engine.py:295-304 | for a fixed number of signals the bound grows strictly with the hits |
| Drawdown.DrawdownDetails | src/quant_signal_agent/backtesting/performance.py:236-265 | each drawdown is the loss from the highest equity so far, the trough is its first minimum, the peak the last attainment of the running maximum up to it, recovery the first later index back at that level |
| Drawdown.DrawdownMeans | src/quant_signal_agent/backtesting/performance.py:236-250 | a drawdown d at a row: equity is (1 + d) times the highest equity so far, or d is 0 when that is not positive |
| Drawdown.FirstAtLeast | src/quant_signal_agent/backtesting/performance.py:255-264 | the first later index at or above the level, or none when every later value is below it |
| Drawdown.PeakIndexAttains | src/quant_signal_agent/backtesting/performance.py:236-265 | nothing up to the reported peak is higher and everything between it and the trough is lower; it is absent exactly when equity stayed below its start |
| Drawdown.RunningPeakIsDeepestIff | src/quant_signal_agent/backtesting/performance.py:236-265 | the drawdown at an index is the deepest loss from any earlier level if and only if equity there is not negative or there is no smaller positive level |
| Drawdown.WorstDrawdownIsWorstPair | src/quant_signal_agent/backtesting/performance.py:164-265 | for a validated curve the lowest drawdown is the worst loss over all pairs of an earlier level and a later equity, and some pair attains it |
| Calendar.BeforeIsOrdinalOrder | src/quant_signal_agent/exchanges/binance/archive.py:94-108 | comparing dates field by field is comparing day numbers |
| Calendar.NextMonthFollows | src/quant_signal_agent/exchanges/binance/archive.py:111-112 | the next month's first day is a valid date whose day number starts the following month |
| Calendar.NextDayFollows | src/quant_signal_agent/exchanges/binance/archive.py:105-108 | adding a day gives the valid date with the next day number, across month and year ends |
| Calendar.MonthEndsBy | src/quant_signal_agent/exchanges/binance/archive.py:100-104 | a month has ended by a date if and only if the date lies in a later month |
| Calendar.OrdinalIs | src/quant_signal_agent/exchanges/binance/archive.py:94-112 | month lengths and leap years agree with the closed form of the Gregorian day number, which is 719528 on 1 January 1970 |
| Archive.IterArchivePeriods | src/quant_signal_agent/exchanges/binance/archive.py:94-108 | month partitions, named by their first day, then days; together they cover the stated whole months and the stated days |
| Archive.MonthlyPeriods | src/quant_signal_agent/exchanges/binance/archive.py:99-104 | the month loop covers exactly the days from the start's month to the month of the earlier limit |
| Archive.YieldMonth | src/quant_signal_agent/exchanges/binance/archive.py:101-104 | one turn of the month loop yields the month exactly when it lies wholly before both limits |
| Archive.AppendDays | src/quant_signal_agent/exchanges/binance/archive.py:105-108 | the day loop adds exactly the days from its first day to the end, behind the months |
| Archive.PlanCovers | src/quant_signal_agent/exchanges/binance/archive.py:94-108 | in how many partitions any given day lies, for any start, end and cutoff |
| Archive.PlanNeverOverlaps | src/quant_signal_agent/exchanges/binance/archive.py:94-108 | no day is planned twice, for any cutoff |
| Archive.PlanIsExactIff | src/quant_signal_agent/exchanges/binance/archive.py:94-108 | every day of [start, end) is planned exactly once if and only if the cutoff is not after the start or the earlier of end and cutoff is the first of a month |
| Archive.MaterializePlanIsExact | src/quant_signal_agent/studio/strategy_data.py:204-210 | with the first day of the end month as cutoff every day of [start, end) is in exactly one partition |
| Archive.PlanReachesEveryInstantIff | src/quant_signal_agent/studio/strategy_data.py:204-210 | every requested instant lies on a planned day if and only if the range ends at midnight |
| Archive.NoonEndIsNotReached | src/quant_signal_agent/studio/strategy_data.py:204-210 | a request from the first of any month to noon of the second, of which no instant after midnight is planned |
| Archive.BothUnitsAgree | src/quant_signal_agent/exchanges/binance/archive.py:159-166 | an instant reads the same whether the archive wrote milliseconds or microseconds |
| Archive.TimestampUnits | src/quant_signal_agent/exchanges/binance/archive.py:159-166 | a reading is refused if and only if it is below 10^12, kept below 10^15 and floored from microseconds above |
| StrategyData.NormalizeArchives | src/quant_signal_agent/studio/strategy_data.py:259-327 | succeeds if and only if the relevant rows are canonical, consistent and complete, and then returns one row per boundary in order |
| StrategyData.MergeRows | src/quant_signal_agent/studio/strategy_data.py:281-311 | one partition's rows are merged into the index, or the rows cannot be complete |
| StrategyData.CheckContinuity | src/quant_signal_agent/studio/strategy_data.py:312-327 | the series is returned if and only if the indexed rows are complete |
| StrategyData.SeriesIsUnique | src/quant_signal_agent/studio/strategy_data.py:259-327 | the result depends only on the set of relevant rows, not on their order, repetition or partition |
| StrategyData.SeriesTiles | src/quant_signal_agent/studio/strategy_data.py:259-327 | the returned rows tile the requested range: the first opens at its start, each opens one millisecond after the previous closes, the last closes right before its end |
| StrategyData.CountCheckSuffices | src/quant_signal_agent/studio/strategy_data.py:312-326 | pigeonhole: the count check alone implies the first, last and gap checks |
| StrategyData.CompletePassesChecks | src/quant_signal_agent/studio/strategy_data.py:312-326 | a complete set of rows passes every continuity check |
| StrategyData.FullMeansComplete | src/quant_signal_agent/studio/strategy_data.py:312-326 | only a complete set of rows does |
| ArchivePipeline.PublishedRangeNormalizesIff | src/quant_signal_agent/studio/strategy_data.py:201-236 | planned partitions, all fully published, normalize if and only if the last candle opens on a day before the end's date |
| ArchivePipeline.NoonEndDoesNotNormalize | src/quant_signal_agent/studio/strategy_data.py:201-236 | the same request in twelve-hour candles: everything planned is published, and the series is refused |
| SignalDedup.SignalDeduplicator.Accept | src/quant_signal_agent/signals/policy.py:38-67 | the decision and the complete new memory: occurrences remembered and evicted in order, expired cooldowns purged, suppressed occurrences still remembered |
| SignalDedup.SignalDeduplicator.EvictOldest | src/quant_signal_agent/signals/policy.py:50-51 | the oldest occurrences are dropped until the capacity is met |
| SignalDedup.StepRefines | src/quant_signal_agent/signals/policy.py:38-67 | with readings that forget nothing too early, one call decides like a scan of the full history and keeps representing it |
| SignalDedup.DecidesAlikeIff | src/quant_signal_agent/signals/policy.py:38-67 | for given clock readings: every series of signals is decided like by the full history if and only if there are no readings i <= j < k with ts[j] - ts[i] >= cooldown and ts[k] - ts[i] < cooldown |
| SignalDedup.CooldownIsKeptIff | src/quant_signal_agent/signals/policy.py:52-66 | under exactly the same condition no signal is ever accepted twice within its cooldown |
| SignalDedup.RiskyClockEmitsTwice | src/quant_signal_agent/signals/policy.py:52-66 | for any readings that break the condition, a series of signals in which one is accepted twice within its cooldown where the full history refuses it |
| SignalDedup.DeduplicatorDecidesLikeFullHistory | src/quant_signal_agent/signals/policy.py:38-67 | over any run with a clock that does not run back, forgetting changes no decision and the cooldown is kept |
| SignalDedup.AcceptedIff | src/quant_signal_agent/signals/policy.py:38-67 | without histories: a call is refused if and only if its occurrence is among the last `capacity` distinct ones or an accepted call of the same strategy and fingerprint is less than the cooldown ago; suppressed occurrences are remembered |
| SignalDedup.BackwardClockEmitsTwice | src/quant_signal_agent/signals/policy.py:52-66 | readings 0, 10, 5 under a cooldown of 10: one signal is accepted at 0 and again at 5 |
| RateLimiter.AsyncRateLimiter.TryOnce | src/quant_signal_agent/exchanges/common/rate_limiter.py:29-36 | one clock reading: purge, then grant or not, with the complete new deque |
| RateLimiter.AsyncRateLimiter.PurgeUpTo | src/quant_signal_agent/exchanges/common/rate_limiter.py:31-32 | the loop removes exactly the leading grants up to the cutoff |
| RateLimiter.AsyncRateLimiter.Acquire | src/quant_signal_agent/exchanges/common/rate_limiter.py:26-36 | reads the clock until the first reading that grants, which becomes the one new grant |
| RateLimiter.QueueIsWindow | src/quant_signal_agent/exchanges/common/rate_limiter.py:26-36 | over any run the deque is what purging the complete grant history would leave |
| RateLimiter.PurgedIsSuffix | src/quant_signal_agent/exchanges/common/rate_limiter.py:31-32 | purging leaves a suffix, drops only old grants and stops at the first live one |
| RateLimiter.GrantsAreSpread | src/quant_signal_agent/exchanges/common/rate_limiter.py:26-36 | over any run any `max_calls` + 1 consecutive grants span at least the period |
| RateLimiter.SleepsOnlyWhenFull | src/quant_signal_agent/exchanges/common/rate_limiter.py:33-36 | a caller is admitted if and only if fewer than `max_calls` grants lie within the last period, and otherwise sleeps exactly until the oldest of those leaves it |
| Candles.CandleWindowStore.Upsert | src/quant_signal_agent/state/candles.py:18-39 | the answer and the complete new store; only the candle's own window changes |
| Candles.CandleWindowStore.Extend | src/quant_signal_agent/state/candles.py:72-74 | a batch is upserted in stable open-time order |
| Candles.CandleWindowStore.Invalidate | src/quant_signal_agent/state/candles.py:86-91 | drops exactly the windows of one instrument |
| Candles.UpsertKeepsHolding | src/quant_signal_agent/state/candles.py:18-39 | one upsert keeps the window equal to the latest `max_size` record times, each with everything that arrived for it |
| Candles.UpsertIsIdempotent | src/quant_signal_agent/state/candles.py:18-70 | an accepted candle is in the window, a refused one changes nothing, repeating either changes nothing, and a closed one is refused the second time |
| Candles.UpsertDecides | src/quant_signal_agent/state/candles.py:18-70 | an arrival for a held open time is refused if and only if the entry is closed and the arrival is open or has the same interval, times and bar, whenever it was received; one for an open time not held and not newer is refused |
| Candles.StoreHoldsEveryKey | src/quant_signal_agent/state/candles.py:18-39 | after any run of arrivals and invalidations each window holds the `max_size` largest running-maximum open times of its own key since the last invalidation |
| Candles.HoldsAscends | src/quant_signal_agent/state/candles.py:18-39 | such a window is strictly increasing in open time and ends at the latest record |
| Candles.WindowNeverReopens | src/quant_signal_agent/state/candles.py:24-28 | once a closed candle arrived, the window never shows an open one for that time |
| Candles.WindowShowsLatest | src/quant_signal_agent/state/candles.py:18-70 | after any run each entry shows the bar of the last closed candle that arrived for its key and time since the last invalidation, or the last candle when none was closed |
| Candles.BatchKeepsLatest | src/quant_signal_agent/state/candles.py:72-74 | extending an empty store keeps the latest `max_size` open times of the batch for each key |
| Candles.BatchShowsItsOrder | src/quant_signal_agent/state/candles.py:72-74 | extending an empty store shows for every open time what the batch in its own order resolves to: the sort reorders nothing within one open time |
| Candles.ContiguousWindowIff | src/quant_signal_agent/data/timeframes.py:37-70 | a window is returned if and only if the eligible closed candles end in exactly `size` open times one interval apart, and it is then those candles, oldest first |
| Candles.IntervalsNest | src/quant_signal_agent/data/timeframes.py:11-27 | the seven interval lengths in milliseconds and as multiples of one another, and no others |
| TradeTape.RecentTrades.Apply | src/quant_signal_agent/state/market.py:232-245 | the decision and the complete new tape and id set; the expired id is always present |
| TradeTape.StepRefines | src/quant_signal_agent/state/market.py:232-245 | one trade is judged as by the full history, the tape stays its last `limit` trades in time order and the id set stays exact |
| TradeTape.TapeDecidesLikeFullHistory | src/quant_signal_agent/state/market.py:232-245 | over any stream of trades the bounded tape decides like the full history |
| TradeTape.TapeIsOrderly | src/quant_signal_agent/state/market.py:209-245 | after any stream the tape is in order of time and, at equal times, of sequence id, no id occurs twice, and a further trade is admitted if and only if its id is not on the tape and it may follow the latest one |

## Left out

- Floating point and Decimal: prices, quantities, equity and scores are reals; `log1p` is a parameter and the square root in the Wilson bound is given by its defining equation.
- Snapshot and delta metadata other than ids and times, and the error raised for another instrument's event.
- The combined start-up of several instruments on one queue: `Bootstrap.Bridge` follows one instrument; its buffer limit and the recycling of a stream after a gap are modelled, stale-event rejection by age and freshness marks are not.
- Lifecycle.Step: time-outs, quota errors, graceful stops, crashes and failed artifact recording are events that may happen at any moment their code could run, a superset of what timers and back-off allow; `retry_not_before`, the circuit breaker and quota resume are not modelled.
- WorkOrder.WorkOrderRecord.ClaimNext: one order at a time; which of several queued orders is taken first, and `retry_not_before`, only delay a claim and are not modelled.
- WorkOrder.WorkOrderRecord.Checkpoint: does not bind the artifact id and version found in the registry to the order.
- WorkOrder.WorkOrderRecord.Requeue: does not keep the retry time or the lists of dead letters and user blockers.
- WorkOrder.WorkOrderRecord.RetryAfterRemediation: that the remediated manifest exists is assumed; whether the artifact is the one the order is bound to is an input, the comparison of ids and versions is not modelled.
- StudioRefinement.RunRefines: covers runs that stay in the pipeline; dead-lettered, failed, cancelled and retried orders leave it.
- Maintenance-agent orders, which have no finishing step, and the start-up passes that repair old records on disk.
- Stripping a text removes blanks, tabs, line feeds and carriage returns; the other spaces of Unicode are not modelled.
- Agent answers: only the verdict, the completeness of a proposal, the issues and the evidence flags that the parsers read from them; parsing the text is not modelled.
- Dataset freshness across retries: a stored dataset is reused, so nothing is claimed about which Strategy turn it belongs to.
- BacktestEngine.CountMetrics: requires signal and labels of equal length, the case in which the strict pairing does not raise; precision, baseline and lift are plain quotients of its counters.
- Parameter grids, candidate ranking and the selection and holdout split; labels of the last selection rows read into the holdout, so no independence is claimed.
- StrategyData.NormalizeArchives: the row columns other than the two times are one opaque value, and the source list is not returned; checksums, ZIP and CSV parsing are left out.
- TradeTape.RecentTrades.Apply: one instrument's tape; prices and quantities of a trade play no part in its decision.
- RateLimiter.AsyncRateLimiter.Acquire: the lock makes acquisitions sequential, so they are modelled one after another; sleeping is an arbitrary later clock reading.
- Tickers, funding rates, open interest, freshness lookups, candidate pools, registries, monthly trade counts, plotting, HTTP, WebSocket and file persistence: plumbing or true by inspection.
