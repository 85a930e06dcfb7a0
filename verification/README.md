# Verification of the trading platform's runtime core

This Dafny project models the stateful core of the trading platform and proves what it promises:

- **Recovery** (`RecoveryModel`, `Evidence`, `Snapshot`, `SnapshotMeaning`, `Cascade`, `CascadeReasons`,
  `RecoveryStore`, `RecoveryRequests`, `RecoveryRuntime`, `RecoveryOutcomes`, `RecoveryInvariants`,
  `RecoveryProgress`, `RecoveryRestarts`, `RecoveryWaiting`): the periodic tick that closes evaluations, opens timeout
  traces and pushes every active trace through a cascade of guards. The cascade is shown to be one predicate, each
  reason for a handoff has its exact condition, the snapshot's verdict is stated in terms of orders and answers, and
  so are the closing of evaluations and the opening of traces. Every tick and operator request keeps a global
  invariant over traces and evaluations, automatic reconciliation has a termination measure, with the exact condition
  under which recorded results leave it in force, and it is shown which overdue traces a tick reaches.
- **Pair lock** (`PairLock`, `PairLockIdentity`): acquire and release as interleaved Redis commands, whom a lock
  answers to, and mutual exclusion.
- **Wire formats and the connection pool** (`Bytes`, `Resp`, `RespReader`, `ConnectionPool`, `WebSocketFrames`,
  `WebSocketClient`): round trips, self-delimitation, defragmentation, and that every caller gets the reply to its
  own command.
- **Limits** (`RateLimit`, `RateLimitRaces`, `MarketDataConnector`, `RequestGuard`): bounds over whole call histories
  for the token bucket, by one caller or by racing threads, the retry loop and the sliding window.
- **Smaller cores** (`RequestStats`, `ConfigPolicy`, `MarketDataRuntime`): merged statistics and percentiles, the
  meaning of a configuration change's classification, and one fetch per target.

`Text` holds options and the ASCII part of Python's text helpers, `Powers` the powers and `Sets` the
counting lemma used by the others. `dafny verify dfyconfig.toml` checks everything.

## How to read it

What the source updates in place is a class with the same fields here, and each of its methods is proved against a
function on values; the properties are lemmas about those functions. Where several clients, callers or ticks
interleave, a `Step` datatype lists the atomic steps, `Next` or `Apply` makes one of them, `Run` makes many, and
the theorems hold for every sequence of steps.

What the model cannot see is a parameter: clock readings, what exchanges and servers answer, fresh identifiers,
mask keys, what other clients do between two commands. The theorems hold for all of them, up to these assumptions,
each of which is a precondition of the lemma that needs it:

- `PairLock.NeverTwoHolders`, and in terms of payloads and credentials `PairLockIdentity.HonestClientsExclude`: two
  clients' identities do not match each other, a release names its caller and nobody
  else, and a lock does not expire between its owner's GET and the SET or DEL that follows.
  `PairLockIdentity.HonestClientsExclude` says the same of payloads and credentials. `SafeExactlyWhenPolite` needs
  none of this and says exactly which runs are safe; `UncheckedReleaseDeletesAnyLock` shows what a release that names
  nobody does. A client whose lock expires stops counting on it.
- `RecoveryInvariants.RunKeepsInv`: the steps are those of ticks and of the seven recovery write endpoints, each of
  them atomic; new trace ids are fresh, and a request does not make a second trace of a run block or show an active
  one as closed (`TransitionKeepsOneBlockingIff` shows the first condition is needed; `EndpointRequestsAreLegal` and
  `RecordRequestsAreLegal` that the endpoints meet both on traces of known status).
- `RecoveryRestarts.BoundSurvivesExactly`: results may be recorded one after the other with no tick in between, as
  concurrent requests can; the tick that the endpoint runs after recording is a step of its own.
- `RecoveryProgress`: stored counts are ints or read as zero from both sides (`PlainCounts`), as they are on every
  trace that only ticks and the endpoints have written; `RecordTally` shows that this is needed.
- `ConnectionPool.CallersGetTheirOwnReplies`: the server sends one whole reply to a command and no more.
- `RateLimit`: time is real, clock readings never go back, a sleep is at least as long as asked, and calls on one
  limiter come one at a time. The limiter has no lock, and the poller and the request handlers share one per
  exchange; `RateLimitRaces.BoundKeptExactly` shows that the assumption is needed, and `BoundHoldsExactly` says which
  interleavings keep the bound.
- `RequestGuard`: a client's own readings reach the limiter in order, whatever other clients do. The clock is read
  outside the lock, so the code does not see to that; `LateReadingsHarmlessExactly` says when it does not matter.
- `Snapshot.VerdictIgnoresOrder`: the orders are not ambiguous about the market that stands in for a missing one.
  `ShufflingHarmlessExactly` shows that this is the exact condition.
- `ConfigPolicy.PolicySaysWhatIsNeeded`: keys are not empty and have no dots, and no top-level key is named
  `no_effective_change`. `HotReloadSoundExactly`, `RestartIsNeeded` and `NoopExactly` do without the assumption;
  `DottedKeyIsMisread` and `MarkerKeyHidesAChange` give configurations for which the answer is wrong.

Decimals and floats are reals, timestamps are whole microseconds, delays are milliseconds.

## Model

| member | source | states |
|---|---|---|
| `Evidence.ReadStringIds` | src/trading_platform/recovery_runtime.py:103-116 | the seen-set loop accepts exactly the lists of non-blank texts whose stripped values are pairwise different, and yields those values in order |
| `Evidence.IdsAccepted` | src/trading_platform/recovery_runtime.py:103-116 | what passes, in terms of the characters of the texts |
| `Evidence.ReadOrderStatuses` | src/trading_platform/recovery_runtime.py:78-100 | accepts exactly the lists of rows with a non-blank order id, a known status and pairwise different ids |
| `Evidence.StatusesAccepted` | src/trading_platform/recovery_runtime.py:78-100 | what passes, in terms of the characters of the texts and the eight known statuses |
| `Evidence.ReadBalances` | src/trading_platform/recovery_runtime.py:119-154 | accepts exactly the lists of rows naming an exchange and an asset, with two non-negative amounts and pairwise different keys |
| `Evidence.BalancesAccepted` | src/trading_platform/recovery_runtime.py:119-154 | what passes, in terms of the characters of the texts and the two amounts |
| `RecoveryModel.AgeSeconds` | src/trading_platform/recovery_runtime.py:1208-1215 | the age is the whole number of seconds that passed, rounded down, and zero for a time that lies ahead |
| `RecoveryModel.TerminalIsSpelled` | src/trading_platform/recovery_runtime.py:26 | a status ends an order if and only if, stripped and in lower case, it is one of the five terminal texts |
| `RecoveryModel.FailureIsSpelled` | src/trading_platform/recovery_runtime.py:27 | the four of them that are failures |
| `RecoveryModel.StatusIsSpelled` | src/trading_platform/recovery_runtime.py:16-25 | the other three statuses that are known, and no more |
| `RecoveryModel.CountsAreRead` | src/trading_platform/recovery_runtime.py:65-75 | which stored counts read as which number, and what the endpoint that records a result reads instead |
| `RecoveryModel.MarketNamesTwoAssets` | src/trading_platform/recovery_runtime.py:1133-1147 | a market of two names with a dash or a slash between has these two assets, in any letter case and with blanks around |
| `RecoveryModel.OtherMarketsNameNothing` | src/trading_platform/recovery_runtime.py:1143-1147 | one name alone or three have none |
| `CascadeReasons.ExchangesOfTrace` | src/trading_platform/recovery_runtime.py:1117-1131 | the exchanges a match has to cover are the ones the intent names, stripped, blank names aside |
| `CascadeReasons.OrdersOfTrace` | src/trading_platform/recovery_runtime.py:633-654 | the orders of a trace are those of its bot, of its run, and of its unwind action or else its intent, as far as it names them |
| `Cascade.StatusGuardMeansFilled` | src/trading_platform/recovery_runtime.py:1065-1115 | on a settled match with sound statuses the status guard passes exactly when every observed status is `filled` |
| `Cascade.BalanceGuardMeansFunded` | src/trading_platform/recovery_runtime.py:780-874 | on a settled match the balance guard passes exactly when the intent names two exchanges and a market, and both exchanges list every asset of the market with nothing locked |
| `Cascade.MatchUnblocked` | src/trading_platform/recovery_runtime.py:449-506 | the six guards before a resolution let a settled match pass exactly when it is settled, recent, sound, filled and funded |
| `Cascade.CascadeIsOnePredicate` | src/trading_platform/recovery_runtime.py:432-510 | a trace is resolved as `reconciliation_matched_zero_residual` if and only if one predicate over the evidence holds, stated without the guards or their order |
| `Cascade.SettledMatchEnds` | src/trading_platform/recovery_runtime.py:449-510 | a settled match is never left alone: it is resolved or handed off with the first guard's reason |
| `Cascade.ResultGuardMeansSound` | src/trading_platform/recovery_runtime.py:726-778 | the first guard passes exactly when there is no reconciliation at all or a verdict with readable fields that make sense |
| `Cascade.MismatchGuardMeansHopeless` | src/trading_platform/recovery_runtime.py:909-982 | a sound mismatch is left alone exactly when orders are open, it was not seen too often, and the statuses, if there is one for each open order, do not all say done |
| `Cascade.OnlyTwoWaysToResolve` | src/trading_platform/recovery_runtime.py:507-542 | a trace is resolved if and only if it is matched and settled, or quiet and flat (no active order, zero residual, sound unwind order, and no reconciliation, an unsettled match or a mismatch that may clear up), and never both; stated without the guards of the reconciliation |
| `Cascade.LeftAloneExactlyWhen` | src/trading_platform/recovery_runtime.py:432-551 | the exact condition under which a tick leaves a trace as it is, in terms of the recorded fields; no overdue trace meets it |
| `CascadeReasons.ResultReasons` | src/trading_platform/recovery_runtime.py:726-907 | exactly when a trace is handed off as having an invalid result, no observation time or a stale one |
| `CascadeReasons.EvidenceReasons` | src/trading_platform/recovery_runtime.py:984-1063 | exactly when for evidence that is invalid or missing |
| `CascadeReasons.StatusReasons` | src/trading_platform/recovery_runtime.py:1065-1115 | exactly when for observed statuses that failed or are still open |
| `CascadeReasons.BalanceReasons` | src/trading_platform/recovery_runtime.py:780-874 | exactly when for each of the four balance reasons, which exclude each other |
| `CascadeReasons.MismatchReasons` | src/trading_platform/recovery_runtime.py:909-982 | exactly when a sound mismatch is handed off for each of the six mismatch reasons, in terms of streak, open count, statuses and residual |
| `CascadeReasons.LastReasons` | src/trading_platform/recovery_runtime.py:513-551 | exactly when for the unwind order or for being overdue |
| `CascadeReasons.UnwindFailedMeans` | src/trading_platform/recovery_runtime.py:674-684 | the first order under the linked id ended unfilled |
| `CascadeReasons.UnwindStaleMeans` | src/trading_platform/recovery_runtime.py:686-706 | it is not done and was last heard of at least the submit window ago |
| `CascadeReasons.OverdueMeans` | src/trading_platform/recovery_runtime.py:543-550 | more than the handoff window has passed since the trace was opened, else created, and it is not marked for handoff |
| `Snapshot.PollOrders` | src/trading_platform/recovery_reconciliation_polling.py:58-95 | the order loop computes the open count, the bought-minus-sold quantity and the last positive price of all answered orders |
| `Snapshot.CollectBalances` | src/trading_platform/recovery_reconciliation_polling.py:100-132 | the balance loop with its seen-set keeps exactly the usable balances that are the first listed of their exchange and asset |
| `Snapshot.FirstBalancesKept` | src/trading_platform/recovery_reconciliation_polling.py:119-124 | every usable exchange and asset has one row, and it is the first one listed |
| `Snapshot.ResidualMeans` | src/trading_platform/recovery_reconciliation_polling.py:134-142 | the residual is never negative, zero exactly for a balanced book or an unpriced one whose recorded residual is zero, and unknown exactly when nothing tells what a net quantity is worth |
| `Snapshot.BuildAutoReconciliationSnapshot` | src/trading_platform/recovery_reconciliation_polling.py:20-165 | the whole snapshot is the verdict over the answered orders with the evidence collected on the way, or nothing |
| `Snapshot.VerdictIsConservation` | src/trading_platform/recovery_reconciliation_polling.py:134-151 | matched if and only if every answered order is terminal and as much was bought as sold, or no answer had a price and the recorded residual is zero |
| `SnapshotMeaning.ReadingMeans` | src/trading_platform/recovery_reconciliation_polling.py:58-95 | what is read of an order says what the order and its answer say: id, status, whether ended, the side (the order's own first) and the quantity (the exchange's first) |
| `SnapshotMeaning.PriceMeans` | src/trading_platform/recovery_reconciliation_polling.py:83-90 | the price is the positive one among the average, the exchange's limit and the order's own, the first that is there and not zero |
| `SnapshotMeaning.FoldsMean` | src/trading_platform/recovery_reconciliation_polling.py:58-95 | the loop's net quantity is the sum over the orders, bought plus and sold minus, and its open count the number of answered orders not ended |
| `SnapshotMeaning.VerdictIsGiven` | src/trading_platform/recovery_reconciliation_polling.py:38-142 | there is a verdict if and only if an order was answered and something tells what the net quantity is worth |
| `SnapshotMeaning.VerdictMeans` | src/trading_platform/recovery_reconciliation_polling.py:20-151 | in terms of orders and answers: matched if and only if every answered order has ended and buys and sells cancel out, or nothing had a price and the recorded residual is zero |
| `SnapshotMeaning.ResidualIsPriced` | src/trading_platform/recovery_reconciliation_polling.py:134-142 | the residual is the size of the net quantity times the last price seen, or the recorded one |
| `SnapshotMeaning.OpenOrdersCounted` | src/trading_platform/recovery_reconciliation_polling.py:79-80 | the open count of the snapshot is the number of answered orders not ended |
| `SnapshotMeaning.HedgeIsMatched` | src/trading_platform/recovery_reconciliation_polling.py:91-95 | an ended buy and an ended sell of the same quantity are matched |
| `SnapshotMeaning.OneSidedIsNotMatched` | src/trading_platform/recovery_reconciliation_polling.py:91-95 | two of the same side, filled and priced, are not |
| `SnapshotMeaning.EvidenceMeans` | src/trading_platform/recovery_reconciliation_polling.py:46-132 | the evidence lists the answered orders with their statuses in order, the fills with an id, and the first usable balance of each exchange and asset |
| `SnapshotMeaning.UsableMeans` | src/trading_platform/recovery_reconciliation_polling.py:113-118 | which listed balances count |
| `SnapshotMeaning.StatusesReadBack` | src/trading_platform/recovery_runtime.py:78-100 | the recorded statuses pass their validator as what was observed |
| `SnapshotMeaning.BalancesReadBack` | src/trading_platform/recovery_runtime.py:119-154 | so do the recorded balances |
| `Snapshot.VerdictIgnoresOrder` | src/trading_platform/recovery_reconciliation_polling.py:58-151 | permuting orders that are not ambiguous changes neither whether there is a verdict nor which one |
| `Snapshot.ShufflingHarmlessExactly` | src/trading_platform/recovery_reconciliation_polling.py:30-37 | the verdict is independent of the order of the orders, for all answers, if and only if no order without a market is asked about while the others name different ones |
| `Snapshot.SnapshotEvidenceIsWellFormed` | src/trading_platform/recovery_reconciliation_polling.py:144-165 | exactly when the evidence a snapshot records passes the validators that later read it |
| `Snapshot.FilledPermuted` | src/trading_platform/recovery_reconciliation_polling.py:91-95 | the quantity filled on a side does not depend on the order of the answers |
| `RecoveryStore.RedisRuntime.SyncRecoveryTrace` | src/trading_platform/redis_runtime.py:281-306 | the trace is stored under its id with a fresh update time, nothing else changes |
| `RecoveryStore.RedisRuntime.SyncArbitrageEvaluation` | src/trading_platform/redis_runtime.py:209-236 | the evaluation is stored under its run, nothing else changes |
| `RecoveryStore.RedisRuntime.SyncArbitrageEvaluationRecoveryState` | src/trading_platform/redis_runtime.py:238-269 | an existing evaluation takes over the trace's id, status and lifecycle; terminal shows as closed, handoff as manual handoff |
| `RecoveryStore.RedisRuntime.StoreAndMirror` | src/trading_platform/recovery_runtime.py:1235-1250 | storing a trace and mirroring it in the evaluation of its run |
| `RecoveryStore.RedisRuntime.TransitionRecoveryTrace` | src/trading_platform/redis_runtime.py:311-361 | missing trace, terminal conflict (nothing written), or the patched trace written and mirrored |
| `RecoveryStore.RedisRuntime.ListRecoveryTraces` | src/trading_platform/redis_runtime.py:363-399 | the listing holds matching traces only, newest first, each once, and omits one only when it is full of newer ones |
| `RecoveryStore.RedisRuntime.GetBlockingRecoveryTrace` | src/trading_platform/redis_runtime.py:401-426 | answers a newest blocking trace of the run, and answers none exactly when there is none, in spite of the limit of ten |
| `RecoveryStore.RedisRuntime.ListArbitrageEvaluations` | src/trading_platform/redis_runtime.py:685-724 | at most the limit, each run once, all of them when there are fewer |
| `RecoveryStore.InsertKeepsOrder` | src/trading_platform/redis_runtime.py:393-399 | inserting keeps the newest-first order and the set of traces |
| `RecoveryOutcomes.WriteMeans` | src/trading_platform/redis_runtime.py:238-306 | writing a trace stamps and stores that trace and shows its state in the evaluation of its run, and changes nothing else |
| `RecoveryOutcomes.PatchedMeans` | src/trading_platform/redis_runtime.py:327-332 | a request sets status and lifecycle, replaces what its patch names and leaves every other field |
| `RecoveryOutcomes.RequestTakesEffect` | src/trading_platform/redis_runtime.py:311-345 | a request takes effect exactly on a trace that is there and not terminal |
| `RecoveryRequests.RecordReconciliation` | src/trading_platform/route_handlers_recovery_write.py:1323-1421 | an operator's result is stored with the counts moved on and mirrored, unless the trace is missing or terminal |
| `RecoveryOutcomes.NotedMeans` | src/trading_platform/route_handlers_recovery_write.py:1377-1401 | the operator's result takes the place of every recorded field; what the request leaves out is null |
| `RecoveryRuntime.OldestOpen` | src/trading_platform/recovery_runtime.py:656-672 | the result is the time of some open order and no open order is older |
| `RecoveryOutcomes.ClosedExactlyWhen` | src/trading_platform/recovery_runtime.py:347-399 | an evaluation is closed if and only if its lifecycle is one of four, its intent has ended, it has orders, all done, and no trace of its run is active or handed off; nothing else changes |
| `RecoveryOutcomes.TimedOutExactlyWhen` | src/trading_platform/recovery_runtime.py:401-430 | a trace is opened if and only if an order of a submitting evaluation has been out for the whole window and no trace of the run is active or handed off; what the trace holds and what its evaluation shows |
| `RecoveryOutcomes.MayRecordMeans` | src/trading_platform/recovery_runtime.py:559-562 | automatic reconciliation leaves alone what another source recorded, and only that |
| `RecoveryOutcomes.SnapshotTakenExactlyWhen` | src/trading_platform/recovery_runtime.py:553-586 | when a snapshot is taken of a trace |
| `RecoveryOutcomes.PolledMeans` | src/trading_platform/recovery_runtime.py:568-584 | its related orders are polled in order, each with its own answers |
| `RecoveryOutcomes.RecordedMeans` | src/trading_platform/recovery_runtime.py:587-603 | the recorded trace has a result that the first guard lets pass, and every field says what the snapshot said |
| `RecoveryOutcomes.ResolvedMeans` | src/trading_platform/recovery_runtime.py:1217-1234 | what a resolved trace holds, field by field |
| `RecoveryOutcomes.ResolvedHasNoResidual` | src/trading_platform/recovery_runtime.py:1217-1234 | a trace that the cascade resolves ends with a zero residual on it |
| `RecoveryOutcomes.HandedOffMeans` | src/trading_platform/recovery_runtime.py:1265-1300 | what a handed-off trace holds, field by field |
| `RecoveryRuntime.Runtime.constructor` | src/trading_platform/recovery_runtime.py:202-243 | the four clamped values of the configuration; the counters start at zero |
| `RecoveryRuntime.Runtime.AutoRecordReconciliation` | src/trading_platform/recovery_runtime.py:553-631 | the trace with the snapshot and the moved counts is stored and mirrored, unless nothing may or can be recorded |
| `RecoveryRuntime.Runtime.ResolveTrace` | src/trading_platform/recovery_runtime.py:1217-1263 | the resolved trace is written and mirrored, the resolved count goes up by one |
| `RecoveryRuntime.Runtime.MarkHandoffRequired` | src/trading_platform/recovery_runtime.py:1265-1330 | the handed-off trace is written and mirrored, the handoff count goes up by one |
| `RecoveryRuntime.Runtime.RunGuards` | src/trading_platform/recovery_runtime.py:449-551 | the imperative cascade writes exactly what the decision over the recorded trace says, and counts one outcome; `CascadeReasons` says what is decided when |
| `RecoveryRuntime.Runtime.ProcessTrace` | src/trading_platform/recovery_runtime.py:432-551 | the writes of one trace, recording and decision; every processed trace is counted as resolved, handed off or skipped |
| `RecoveryRuntime.Runtime.CloseListed` | src/trading_platform/recovery_runtime.py:351-388 | one evaluation of the terminal sync |
| `RecoveryRuntime.Runtime.OpenTimeoutListed` | src/trading_platform/recovery_runtime.py:405-430 | one evaluation of the timeout phase: a trace is opened exactly when the submit window is over and nothing blocks the run |
| `RecoveryRuntime.Runtime.SyncTerminalLatestEvaluations` | src/trading_platform/recovery_runtime.py:347-399 | the loop is a run of close steps over the evaluations listed at its start |
| `RecoveryRuntime.Runtime.OpenSubmitTimeoutTraces` | src/trading_platform/recovery_runtime.py:401-430 | the loop is a run of timeout steps over the evaluations listed at its start |
| `RecoveryRuntime.Runtime.ProcessActiveTraces` | src/trading_platform/recovery_runtime.py:322-328 | the loop is a run of process steps over the active traces listed at its start, up to the stop request if there is one |
| `RecoveryRuntime.Runtime.Tick` | src/trading_platform/recovery_runtime.py:315-331 | a tick is the three phases one after the other, each over its own listing |
| `RecoveryInvariants.WriteKeepsInv` | src/trading_platform/redis_runtime.py:238-306 | which writes of a trace are safe for the global invariant |
| `RecoveryInvariants.CloseKeepsInv` | src/trading_platform/recovery_runtime.py:347-399 | closing an evaluation keeps: one blocking trace a run, closed evaluations are quiet, evaluations mirror their traces |
| `RecoveryInvariants.TimeoutKeepsInv` | src/trading_platform/recovery_runtime.py:401-430 | opening a timeout trace keeps the global invariant |
| `RecoveryInvariants.OutcomeKeepsInv` | src/trading_platform/recovery_runtime.py:432-551 | auto-recording, resolving and handing off keep the global invariant, whatever was observed and decided |
| `RecoveryInvariants.TransitionKeepsInv` | src/trading_platform/redis_runtime.py:311-361 | a legal operator request keeps the global invariant |
| `RecoveryInvariants.TransitionKeepsOneBlockingIff` | src/trading_platform/redis_runtime.py:311-361 | an operator request leaves one blocking trace a run if and only if it does not make a second one block |
| `RecoveryInvariants.EndpointRequestsAreLegal` | src/trading_platform/route_handlers_recovery_write.py:181-1188 | what the six endpoints that change a trace's status ask for (resolve, hand off, start unwind, submit unwind order, cancel open orders, record unwind fill) is legal on a store of known statuses |
| `RecoveryInvariants.RecordKeepsInv` | src/trading_platform/route_handlers_recovery_write.py:1397-1421 | recording an operator's result keeps the global invariant |
| `RecoveryInvariants.RecordRequestsAreLegal` | src/trading_platform/route_handlers_recovery_write.py:1337-1345 | what the seventh endpoint, record reconciliation, asks for is legal on a store of known statuses |
| `RecoveryInvariants.RunKeepsInv` | src/trading_platform/recovery_runtime.py:315-430 | any run of tick steps and legal endpoint requests, recorded results included, cut anywhere, keeps the global invariant |
| `RecoveryInvariants.TickKeepsInv` | src/trading_platform/recovery_runtime.py:315-331 | every tick keeps the global invariant |
| `RecoveryInvariants.TerminalIsAbsorbing` | src/trading_platform/redis_runtime.py:324-326 | no run of ticks and requests, recorded results included, changes anything about a resolved or cancelled trace |
| `RecoveryProgress.ProcessStepStores` | src/trading_platform/recovery_runtime.py:432-551 | what a process step leaves in the store is the processed trace |
| `RecoveryProgress.OverdueNeverStaysActive` | src/trading_platform/recovery_runtime.py:543-550 | a trace past its handoff window is not active after being processed |
| `RecoveryProgress.MatchedSnapshotEnds` | src/trading_platform/recovery_runtime.py:449-510 | a matched snapshot ends in resolve or handoff on that tick; in resolve exactly if the recorded trace is matched and settled |
| `RecoveryProgress.ActiveSnapshotRaisesStreak` | src/trading_platform/recovery_runtime.py:587-598 | a snapshot that leaves the trace active was a mismatch, raised the streak by one and kept it below the limit |
| `RecoveryProgress.StreakCountsSnapshots` | src/trading_platform/recovery_runtime.py:587-598 | over any run of ticks and requests the streak of a trace that stays active counts the snapshots and recorded mismatches since the last recorded match |
| `RecoveryProgress.ActiveForFewSnapshots` | src/trading_platform/recovery_runtime.py:909-931 | over any such run whose recorded results do not restart the count, a trace that has stayed active had at most one snapshot fewer than the mismatch handoff count |
| `RecoveryProgress.RecordDecidesWhoMayRecord` | src/trading_platform/recovery_runtime.py:559-562 | after a result of a source of its own no snapshot is taken; after one under the automatic name they go on |
| `RecoveryRestarts.BoundSurvivesExactly` | src/trading_platform/recovery_runtime.py:909-931 | the bound holds in every run with given recorded results if and only if these never wipe out the streak with a match and then leave the trace to automatic reconciliation below the limit |
| `RecoveryRestarts.FalseMatchesCycle` | src/trading_platform/route_handlers_recovery_write.py:1347-1401 | a match with an open order, recorded under the automatic name again and again, keeps a trace active for any number of snapshots |
| `RecoveryProgress.AttemptsAddUp` | src/trading_platform/recovery_runtime.py:587-598 | over any run attempts stay matched plus mismatched, and count the snapshots taken and the results recorded |
| `RecoveryProgress.RecordTally` | src/trading_platform/route_handlers_recovery_write.py:1347-1376 | a recorded result adds one attempt exactly if the endpoint and the runtime read the stored count alike |
| `RecoveryWaiting.OverdueStaysExactlyWhenPassedOver` | src/trading_platform/recovery_runtime.py:322-328 | an overdue trace is still active after a tick's last phase if and only if the phase did not get to it |
| `RecoveryWaiting.TickLeavesNoOverdue` | src/trading_platform/recovery_runtime.py:315-331 | without a stop request and with at most a hundred active traces, no trace active and overdue before a tick is active after it |
| `RecoveryWaiting.CrowdedOut` | src/trading_platform/redis_runtime.py:393-399 | a hundred active traces updated later keep a trace out of the listing |
| `RecoveryWaiting.ListedWithFewOthers` | src/trading_platform/redis_runtime.py:393-399 | with fewer than a hundred others updated as late or later a trace is listed |
| `RecoveryWaiting.OldestOfManyWaits` | src/trading_platform/recovery_runtime.py:322-328 | in a store of a hundred and one active traces a tick passes over the oldest, however overdue |
| `PairLock.SafeExactlyWhenPolite` | src/trading_platform/redis_runtime.py:493-680 | with expiry at any time and any credentials: at every point of a run each holder finds its own entry, and so holds alone, if and only if no client whose pair became another's goes on to its SET or DEL |
| `PairLock.NeverTwoHolders` | src/trading_platform/redis_runtime.py:493-680 | mutual exclusion over every fair interleaving of GET, SET NX, SET, DEL and expiry, which never lets such a client act |
| `PairLock.LocksAreTheirOwners` | src/trading_platform/redis_runtime.py:527-528 | no step overwrites or deletes another client's lock: only the owner's own DEL, or expiry, removes it |
| `PairLock.LapseOvertakes` | src/trading_platform/redis_runtime.py:522-529 | from any state, a lock that lapses after its owner's GET and is taken by another leaves the owner in that position |
| `PairLock.OvertakenSetBreaksExclusion` | src/trading_platform/redis_runtime.py:529 | its SET makes two holders |
| `PairLock.OvertakenDelBreaksExclusion` | src/trading_platform/redis_runtime.py:643 | its DEL frees the pair, and the next client to come is a second holder |
| `PairLock.UncheckedReleaseDeletesAnyLock` | src/trading_platform/redis_runtime.py:612-643 | an undisturbed release deletes a lock exactly when it names nobody, or the owner id of the lock, or its run and bot |
| `PairLockIdentity.RefreshesOnlyItsOwn` | src/trading_platform/redis_runtime.py:507-529 | a payload refreshes a lock exactly if both name the same owner, or the same run of the same bot |
| `PairLockIdentity.OwnLockIsRefreshed` | src/trading_platform/redis_runtime.py:515-529 | a holder can refresh its own lock exactly if its payload names an owner, or a run and a bot |
| `PairLockIdentity.OwnerReleases` | src/trading_platform/redis_runtime.py:612-618 | an owner id releases the locks of that owner and no other |
| `PairLockIdentity.RunReleases` | src/trading_platform/redis_runtime.py:613-618 | a run and its bot release the locks of both together and no other |
| `PairLockIdentity.AllThreeRelease` | src/trading_platform/redis_runtime.py:612-618 | what any mixture of credentials releases |
| `PairLockIdentity.LocksAnswerTheirOwn` | src/trading_platform/redis_runtime.py:507-618 | if payloads name distinct owners and no two the same run of the same bot, each lock answers to its own client's payload and credentials and to nobody else's |
| `PairLockIdentity.HonestClientsExclude` | src/trading_platform/redis_runtime.py:493-680 | mutual exclusion over every interleaving of such clients that release with their own credentials |
| `PairLockIdentity.FreePairIsAcquired` | src/trading_platform/redis_runtime.py:545-592 | an undisturbed acquire of a free pair takes it under the client's payload |
| `PairLockIdentity.HeldPairIsRefreshed` | src/trading_platform/redis_runtime.py:514-544 | of a held pair it writes exactly if the payloads match, else it changes nothing |
| `PairLockIdentity.LockIsReleased` | src/trading_platform/redis_runtime.py:612-643 | an undisturbed release deletes the lock exactly if it may, else it changes nothing |
| `PairLock.RedisLocks.AcquirePairLock` | src/trading_platform/redis_runtime.py:493-593 | acquired, refreshed or conflict, and the state each leaves, with any commands of others after the GET |
| `PairLock.RedisLocks.ReleasePairLock` | src/trading_platform/redis_runtime.py:595-680 | missing, conflict, released or delete missed, and the state each leaves |
| `Resp.DigitsOfDecimal` | src/trading_platform/redis_client.py:195 | printed lengths read back as the same number |
| `Resp.ParseOfSignedDecimal` | src/trading_platform/redis_client.py:218-227 | every printed integer, negative ones included, reads back as itself |
| `Resp.ParseOfPadded` | src/trading_platform/redis_client.py:218-227 | with any blanks around |
| `Resp.NumeralsAreRead` | src/trading_platform/redis_client.py:218-227 | digits with single underscores between them are read as numbers, and nothing else without a sign |
| `Resp.ReplyRoundTrip` | src/trading_platform/redis_client.py:208-238 | every reply a server can print (strings, integers of either sign, nothing, truth values, lists of replies to any depth) reads back as itself and leaves exactly what follows |
| `Resp.WireForms` | src/trading_platform/redis_client.py:193-205 | a command and the replies as bytes on the wire |
| `Resp.NilIsRead` | src/trading_platform/redis_client.py:219-232 | a string or a list of negative length, and the type of its own, all mean nothing |
| `Resp.SimpleStringIsRead` | src/trading_platform/redis_client.py:212-213 | a simple string reads as its text |
| `Resp.ErrorReplyIsRaised` | src/trading_platform/redis_client.py:214-216 | an error reply is raised with its message |
| `Resp.OtherPrefixesAreRefused` | src/trading_platform/redis_client.py:238 | any other prefix is refused |
| `Resp.CutReplyIsNone` | src/trading_platform/redis_client.py:241-252 | a reply cut short anywhere is an error, never a shorter reply |
| `Resp.BulkRoundTrip` | src/trading_platform/redis_client.py:198-205 | a bulk string reads back as its bytes and leaves what follows |
| `Resp.CommandRoundTrip` | src/trading_platform/redis_client.py:193-205 | a command followed by any bytes reads back as its parts and leaves exactly those bytes |
| `Resp.CommandsSplitUniquely` | src/trading_platform/redis_client.py:193-205 | equal streams of commands are equal command by command, part by part |
| `Resp.DecodeFollowed` | src/trading_platform/redis_client.py:208-252 | what a reply is, nested arrays included, does not depend on what follows it |
| `RespReader.Reader.ReadLine` | src/trading_platform/redis_client.py:241-245 | a line is what comes before the first line feed, which a carriage return must precede |
| `RespReader.Reader.ReadExact` | src/trading_platform/redis_client.py:248-252 | exactly the bytes asked for, or an error at the end of the stream |
| `RespReader.Reader.ReadResponse` | src/trading_platform/redis_client.py:208-238 | the recursive reader computes the decoding of the stream and consumes exactly the reply; `Resp.ReplyRoundTrip` and the lemmas beside it say what is decoded |
| `ConnectionPool.RedisClient.TryAcquireConnection` | src/trading_platform/redis_client.py:142-150 | the connection given back last, else a new one below the limit, else wait |
| `ConnectionPool.RedisClient.ReleaseConnection` | src/trading_platform/redis_client.py:152-155 | the connection becomes the last idle one |
| `ConnectionPool.RedisClient.DiscardConnection` | src/trading_platform/redis_client.py:157-161 | one open connection fewer, never below zero |
| `ConnectionPool.RedisClient.Close` | src/trading_platform/redis_client.py:134-140 | no idle and no open connections |
| `ConnectionPool.RedisConnection.Connect` | src/trading_platform/redis_client.py:55-89 | a fresh connection logs in and selects the database; it succeeds exactly when all of these are answered without an error, and is then at a reply boundary |
| `ConnectionPool.LastGivenIsTakenFirst` | src/trading_platform/redis_client.py:142-155 | taking and giving back are inverse: the connection given back last is taken first, and an idle one before a new one |
| `ConnectionPool.NewIsOpenedBelowLimit` | src/trading_platform/redis_client.py:142-161 | with none idle a new connection is opened below the limit, and discarding it undoes that |
| `ConnectionPool.HandshakeSays` | src/trading_platform/redis_client.py:74-86 | which login and which database selection the server reads for each URL |
| `ConnectionPool.RedisConnection.Execute` | src/trading_platform/redis_client.py:35-38 | connects when there is no connection, sends the command, and from a reply boundary yields the reply to it and leaves a boundary |
| `ConnectionPool.RedisConnection.ExecuteConnected` | src/trading_platform/redis_client.py:91-101 | the command is written and one reply read; from a reply boundary the reply is that of this command and leaves a boundary |
| `ConnectionPool.CallersGetTheirOwnReplies` | src/trading_platform/redis_client.py:121-161 | over every interleaving and fault, each returned reply is the whole answer to the caller's own command, and idle connections have nothing unread |
| `ConnectionPool.UndisturbedCallReturns` | src/trading_platform/redis_client.py:121-161 | on an idle connection an undisturbed call returns its reply and leaves the pool as it was |
| `ConnectionPool.BrokenCallIsDiscarded` | src/trading_platform/redis_client.py:128-161 | a call that breaks down returns nothing and its connection is thrown away |
| `ConnectionPool.LoginComesFirst` | src/trading_platform/redis_client.py:55-101 | over every interleaving and fault, before a caller's own command goes out on a connection the whole login and database selection went out on it |
| `ConnectionPool.NeverAboveLimit` | src/trading_platform/redis_client.py:142-161 | open connections are the idle ones and the ones in hand, never more than the limit, if the pool is closed only while unused |
| `WebSocketFrames.MaskTwice` | src/trading_platform/public_ws_market_data.py:402 | masking with the same key twice gives the payload back |
| `WebSocketFrames.MaskedAt` | src/trading_platform/public_ws_market_data.py:402 | each byte is combined, digit by digit, with the byte of the key whose turn it is |
| `Bytes.XorAt` | src/trading_platform/public_ws_market_data.py:402 | each binary digit of the exclusive or is the parity of the two digits |
| `Bytes.ToBytesIsBigEndian` | src/trading_platform/public_ws_market_data.py:399-401 | numbers are printed most significant byte first |
| `WebSocketFrames.FirstBytes` | src/trading_platform/public_ws_market_data.py:393-401 | the first byte of each kind of frame (RFC 6455, section 5.2) |
| `WebSocketFrames.LengthBytes` | src/trading_platform/public_ws_market_data.py:396-401 | the second byte, the extended length and the total length of a frame |
| `WebSocketFrames.PayloadBytes` | src/trading_platform/public_ws_market_data.py:402-403 | the key and the masked payload end the frame |
| `WebSocketFrames.LengthRoundTrip` | src/trading_platform/public_ws_market_data.py:396-416 | each of the three length forms reads back as the length |
| `WebSocketFrames.FrameRoundTrip` | src/trading_platform/public_ws_market_data.py:391-421 | a frame, masked or not, reads back as it was sent and leaves what follows (RFC 6455, sections 5.2 and 5.3) |
| `WebSocketFrames.EncodingIsMinimal` | src/trading_platform/public_ws_market_data.py:396-401 | no frame that reads as the same payload is shorter than the one sent |
| `WebSocketFrames.DefragmentationIsExact` | src/trading_platform/public_ws_market_data.py:367-389 | a message is received if and only if the stream carries its fragments, with pings and pongs anywhere between (RFC 6455, section 5.4) |
| `WebSocketFrames.SplitMessageIsReceived` | src/trading_platform/public_ws_market_data.py:367-389 | however a peer splits a message and masks its frames, the client gets the concatenated payload and sees every ping in order |
| `WebSocketClient.Client.ReadExact` | src/trading_platform/public_ws_market_data.py:443-450 | exactly the bytes asked for however the socket chunks them, or an error at the end |
| `WebSocketClient.Client.RecvFrame` | src/trading_platform/public_ws_market_data.py:405-421 | one frame of the byte stream, consuming exactly its bytes |
| `WebSocketClient.Client.SendFrame` | src/trading_platform/public_ws_market_data.py:391-403 | one write: the masked final frame |
| `WebSocketClient.SentFrameIsRead` | src/trading_platform/public_ws_market_data.py:391-403 | the peer reads a masked final frame with that opcode and payload |
| `WebSocketClient.Client.RecvMessage` | src/trading_platform/public_ws_market_data.py:367-389 | the message of the stream, independent of chunking, and one pong for each ping, with its payload and in order, even if the message breaks off |
| `RateLimit.GrantsArePaidFor` | src/trading_platform/rate_limit.py:60-82 | tokens stay between zero and the burst, and grants never exceed what was there plus what time brought |
| `RateLimit.OneSleepIsEnough` | src/trading_platform/rate_limit.py:69-73 | after one sleep for the missing part a whole token is there |
| `RateLimit.WaitsForWhatIsMissing` | src/trading_platform/rate_limit.py:64-73 | a call that finds a whole token does not wait, one that does not waits for exactly what is missing |
| `RateLimit.TokenBucketRateLimiter.Refill` | src/trading_platform/rate_limit.py:75-82 | the new state of the bucket at a clock reading |
| `RateLimit.TokenBucketRateLimiter.Acquire` | src/trading_platform/rate_limit.py:60-73 | the wait loop sleeps at most once; what it waited and the bucket it leaves |
| `RateLimit.GrantsInAnyInterval` | src/trading_platform/rate_limit.py:60-82 | between any two grants of any history at most burst plus rate times the time between them are granted, both counted |
| `RateLimit.CallsInAnyInterval` | src/trading_platform/rate_limit.py:60-82 | the same for the return times of any run of acquire calls, one at a time, on a fresh limiter |
| `RateLimitRaces.BoundHoldsExactly` | src/trading_platform/rate_limit.py:60-82 | for every interleaving of single accesses to the clock and the fields, by any number of threads: the bound holds of every window of the run if and only if each token returned is one that a bucket filled at every reading and charged for every grant still holds |
| `RateLimitRaces.AloneItFills` | src/trading_platform/rate_limit.py:75-82 | the single accesses of one thread, undisturbed, fill the bucket as one clock reading does |
| `RateLimitRaces.AloneItTakes` | src/trading_platform/rate_limit.py:66-71 | and then take a whole token, or begin anew when there is none |
| `RateLimitRaces.PoliteRunsKeepTheBound` | src/trading_platform/rate_limit.py:64-82 | the bound holds of every window of a run in which no time and no token count is stored over a newer one, and each token is taken whole and with no filling under way that would overflow |
| `RateLimitRaces.RacingLeavesNoBound` | src/trading_platform/rate_limit.py:66-82 | two threads can be granted any number of tokens while the clock stands still, one putting back what the other takes |
| `RateLimitRaces.BoundKeptExactly` | src/trading_platform/rate_limit.py:60-82 | the bound holds of every interleaving if and only if there is one thread |
| `RateLimit.TotalSleepBound` | src/trading_platform/rate_limit.py:31-37 | n delays total at most initial*(2^n - 1) and n*max milliseconds, and never shrink |
| `RateLimit.DelaysDouble` | src/trading_platform/rate_limit.py:31-37 | the first delay is the initial one and each later one twice the one before, none above the maximum |
| `MarketDataConnector.FetchJson` | src/trading_platform/market_data_connector.py:502-520 | at most retry_count + 1 attempts; the result is that of the first attempt not worth repeating or of the last one; delays, their bounds, and the attempts counted as rate limited |
| `MarketDataConnector.WorthRetryingMeans` | src/trading_platform/market_data_connector.py:567-574 | which errors are worth another attempt |
| `MarketDataConnector.RateLimitedAreCounted` | src/trading_platform/market_data_connector.py:502-520 | the count of rate-limited attempts is their number |
| `RequestGuard.WriteRequestRateLimiter.CheckAndConsume` | src/trading_platform/request_guard.py:46-59 | one check changes the one client's queue and answers as the pruned queue says |
| `RequestGuard.ClientsAreIndependent` | src/trading_platform/request_guard.py:51-52 | in any run, in any order of readings, a client's queue is that of its own calls alone |
| `RequestGuard.QueueIsFilteredHistory` | src/trading_platform/request_guard.py:46-59 | if the client's own readings are in order, its queue is its whole admission history cut to the window of its last call |
| `RequestGuard.RefusedExactlyWhenFull` | src/trading_platform/request_guard.py:55-57 | a call is refused if and only if the window behind it is full of the client's admissions |
| `RequestGuard.NoWindowIsOverfull` | src/trading_platform/request_guard.py:46-59 | no window, wherever it ends, holds more than the maximum of a client's admissions |
| `RequestGuard.RetryAdmittedExactlyFrom` | src/trading_platform/request_guard.py:55-57 | for a call refused in any run, with other clients' calls in between, a retry is admitted if and only if the time given has passed |
| `RequestGuard.QueueNeverAboveMaximum` | src/trading_platform/request_guard.py:55-58 | no queue is ever longer than the maximum, ordered readings or not |
| `RequestGuard.LateReadingsHarmlessExactly` | src/trading_platform/request_guard.py:49-58 | with readings in any order, possible because the clock is read before the lock, no window is ever overfull if and only if the maximum is one |
| `RequestGuard.LateByOneOverfills` | src/trading_platform/request_guard.py:49-58 | with any higher maximum one reading, a millisecond late, is enough |
| `RequestGuard.LateReadingsLeaveNoBound` | src/trading_platform/request_guard.py:49-58 | and with readings late at will there is no bound at all |
| `RequestStats.ExchangeRequestStats.RecordSuccess` | src/trading_platform/observer_request_stats.py:69-73 | the counts and lists after a success |
| `RequestStats.ExchangeRequestStats.RecordError` | src/trading_platform/observer_request_stats.py:75-80 | the counts, lists and code counter after an error |
| `RequestStats.RequestStatsTracker.Record` | src/trading_platform/observer_request_stats.py:113-125 | an event goes to the recorder of its exchange, made when missing, and to no other |
| `RequestStats.RequestStatsTracker.Snapshot` | src/trading_platform/observer_request_stats.py:127-143 | the merged total agrees with one recorder that saw every event, latencies up to order, attempts being successes plus errors; each exchange's share with one that saw its events |
| `RequestStats.SumApart` | src/trading_platform/observer_request_stats.py:127-136 | disjoint groups of exchanges may be added up apart |
| `RequestStats.AttemptsAddUp` | src/trading_platform/observer_request_stats.py:69-80 | attempts are successes plus errors, with one latency each |
| `RequestStats.SortedIsUnique` | src/trading_platform/observer_request_stats.py:19 | there is only one way to sort |
| `RequestStats.PercentilesGrow` | src/trading_platform/observer_request_stats.py:14-26 | a higher percentile is never a smaller value |
| `RequestStats.MiddleNeverAboveTail` | src/trading_platform/observer_request_stats.py:50-52 | p50 <= p95 <= p99 |
| `RequestStats.PercentileFallsBetween` | src/trading_platform/observer_request_stats.py:14-26 | a percentile at a whole rank is that sample, and between two ranks lies on the straight line between the two samples |
| `RequestStats.MedianOfOdd` | src/trading_platform/observer_request_stats.py:14-26 | the median of an odd number of samples is the one in the middle |
| `RequestStats.PercentileIgnoresOrder` | src/trading_platform/observer_request_stats.py:14-26 | percentiles do not depend on the order of the samples |
| `RequestStats.PercentileWithinSamples` | src/trading_platform/observer_request_stats.py:14-26 | percentiles lie between the smallest and the largest sample and reach them at 0 and 1 |
| `RequestStats.MergedPercentiles` | src/trading_platform/observer_request_stats.py:127-136 | the merged percentiles are those of all the samples recorded |
| `ConfigPolicy.AgreeMeansNoDifference` | src/trading_platform/config_apply_policy.py:48-69 | no path differs if and only if the configurations agree up to null-versus-absent keys |
| `ConfigPolicy.DiffPaths` | src/trading_platform/config_apply_policy.py:48-69 | the recursive loop returns the texts of exactly the paths at which the two differ |
| `ConfigPolicy.DiffIsSymmetric` | src/trading_platform/config_apply_policy.py:48-69 | the diff is the same from either side |
| `ConfigPolicy.CollapseSectionPaths` | src/trading_platform/config_apply_policy.py:80-92 | every path becomes its hot section, if it lies under one |
| `ConfigPolicy.RiskConfigText` | src/trading_platform/config_apply_policy.py:6-10 | the first hot section as a path |
| `ConfigPolicy.OpenOrderCapText` | src/trading_platform/config_apply_policy.py:6-10 | the second |
| `ConfigPolicy.RemainingBotNotionalText` | src/trading_platform/config_apply_policy.py:6-10 | the third |
| `ConfigPolicy.HotTextsAreThree` | src/trading_platform/config_apply_policy.py:6-10 | and there is no other |
| `ConfigPolicy.UnderInTextIsUnderInKeys` | src/trading_platform/config_apply_policy.py:83-90 | for plain keys the test on path texts is the prefix test on keys |
| `ConfigPolicy.SummarizeConfigAssignmentPolicy` | src/trading_platform/config_apply_policy.py:13-45 | the summary is the classification of the diff; an initial assignment needs a restart |
| `ConfigPolicy.GraftedDiffers` | src/trading_platform/config_apply_policy.py:6-10 | replacing one section removes the differences under it and no others |
| `ConfigPolicy.PolicySaysWhatIsNeeded` | src/trading_platform/config_apply_policy.py:23-45 | for plain keys: noop means agreement, hot_reload means the new hot sections turn the old configuration into the new one, restart_required means they do not |
| `ConfigPolicy.RestartSectionsStillDiffer` | src/trading_platform/config_apply_policy.py:30-45 | the restart sections are exactly the paths that still differ after a hot reload; hot and restart sections partition the changed ones |
| `ConfigPolicy.HotReloadSoundExactly` | src/trading_platform/config_apply_policy.py:36-45 | for any keys: hot_reload is enough if and only if no differing path reads as hot while its keys lead elsewhere |
| `ConfigPolicy.RestartIsNeeded` | src/trading_platform/config_apply_policy.py:30-45 | for any keys: when restart_required is answered, the new hot sections do not turn the old configuration into the new one |
| `ConfigPolicy.NoopExactly` | src/trading_platform/config_apply_policy.py:20-29 | noop is answered if and only if the configurations agree or the one path that differs reads as the marker |
| `ConfigPolicy.DottedKeyIsMisread` | src/trading_platform/config_apply_policy.py:83-90 | a dotted top-level key is answered with hot_reload although that does not bring the change about |
| `ConfigPolicy.MarkerKeyHidesAChange` | src/trading_platform/config_apply_policy.py:21-29 | a change in a top-level key named as the marker is answered with noop |
| `MarketDataRuntime.OneFetchPerTarget` | src/trading_platform/market_data_runtime.py:499-511 | over every interleaving a target is fetched by one caller at a time, a caller is turned away exactly when another fetches it, and nothing stays marked when all are done |
| `MarketDataRuntime.SkipsAreCounted` | src/trading_platform/market_data_runtime.py:502-504 | the skip count is the number of callers turned away |
| `MarketDataRuntime.WantedOne` | src/trading_platform/market_data_runtime.py:227-228 | a market is wanted unless it is blank, under its stripped upper-case name and the stripped lower-case one of the exchange |
| `MarketDataRuntime.WantedInOrder` | src/trading_platform/market_data_runtime.py:228 | in the order they are listed, repetitions included |
| `MarketDataRuntime.Runtime.AcquireInflightTarget` | src/trading_platform/market_data_runtime.py:499-506 | marks the target, or counts a skip |
| `MarketDataRuntime.Runtime.ReleaseInflightTarget` | src/trading_platform/market_data_runtime.py:508-511 | takes the mark off |
| `MarketDataRuntime.Runtime.Refresh` | src/trading_platform/market_data_runtime.py:220-264 | each wanted market until the stop is reported once, as a snapshot or as an error with its market and code, with other callers' steps anywhere between; the caller holds no mark at the end |
| `MarketDataRuntime.ReportedUnderItsName` | src/trading_platform/market_data_runtime.py:229-263 | each market is reported as answered or, under its own name, with its error or as being fetched already |

## Left out

- HTTP route handlers, response shaping, query parsing, exchange connectors, request signing and credentials.
- Sockets, TLS, the WebSocket handshake, threads, logging, metrics, events, alerts and jitter.
- RecoveryRuntime.Runtime.Tick: a store that cannot be reached, and writes or reads that fail, are not modelled.
- UTF-8 decoding, JSON text, and the parsing of decimals, integers and ISO times: a field is missing, null,
  malformed or parsed.
- Rounding: decimal contexts, binary floating point and the rounding of reported percentiles are not modelled.
- Text beyond ASCII in `strip`, `lower` and `upper`.
- RecoveryStore.RedisRuntime.ListArbitrageEvaluations: which evaluations are listed when there are more than the
  limit is left open, because the time they are sorted by is not a field of the model.
- RecoveryStore.RedisRuntime.TransitionRecoveryTrace: a patch can change the handoff flag, the residual and the
  unwind links, not status, lifecycle, ids or the reconciliation fields.
- Snapshot.TakeSnapshot: the balances the exchanges listed are given as sheets in the order they were asked.
- PairLock.RedisLocks.AcquirePairLock: a SET or SET NX that fails because the server cannot be reached, and a client
  that is switched off, are not modelled.
- PairLock.RedisLocks.ReleasePairLock: a DEL that fails because the server cannot be reached, and a client that is
  switched off, are not modelled.
- RecoveryInvariants.RunKeepsInv: the evaluations and traces that the strategy runtime and the strategy endpoints
  write when they evaluate, submit and fail to submit are not steps of the model.
- RecoveryRequests.RecordReconciliation: takes requests that passed the endpoint's checks of their fields.
- RecoveryInvariants.EndpointRequestsAreLegal: an endpoint's check of the status and its request are one step, also
  where the endpoint calls exchanges in between.
- ConnectionPool.RedisConnection.ExecuteConnected: a socket error is not an outcome of the method; it is the `Break`
  step of the interleaved model.
- ConnectionPool.NeverAboveLimit: says nothing once the pool was closed with connections checked out, because
  closing zeroes the open count.
- ConnectionPool.RedisClient.TryAcquireConnection: one turn of the wait loop; being woken is another call.
- MarketDataConnector.FetchJson: the limiter wait before the first attempt is `RateLimit`'s `Acquire`, and the
  request itself is the parameter `upstream`.
- RequestStats.RequestStatsTracker.Record: the tracker keeps the value each exchange's recorder holds, not the
  recorder object, so aliasing of recorders is not modelled.
- RequestStats.Percentile: takes percentiles between 0 and 1, the only ones the code asks for.
- ConfigPolicy.SummarizeConfigAssignmentPolicy: the lists of the summary are sets, so their sorted order is left
  out; numbers and truth values that Python holds equal are one value.
- MarketDataRuntime.Runtime.Refresh: an error the connector does not raise as a market data error ends the refresh
  in the source and is not modelled; nor are the health fields and the cache.
- The arbitrage pricing, reservation and strategy modules are not part of this model.
