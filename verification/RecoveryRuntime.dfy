/** The recovery runtime: one periodic tick over evaluations and active traces. */
module RecoveryRuntime {
  import opened Text
  import opened RecoveryModel
  import opened Snapshot
  import opened Cascade
  import opened RecoveryStore
  import opened RecoveryRequests

  /** Everything outside the shared store that handling one trace looks at. */
  datatype Inputs = Inputs(
    world: World,
    connectors: set<string>,
    answers: seq<map<string, StatusAnswer>>, // what the exchange says of each related order, by the market asked
    sheets: seq<BalanceSheet>,
    clock: Clock,
    now: Instant)

  // Automatic reconciliation

  // A verdict that somebody else recorded is not overwritten.
  predicate MayRecord(r: Reconciliation) {
    || r.verdict.VerdictAbsent? || r.verdict.VerdictBlank?
    || r.source.None? || !r.source.value.OtherSource?
  }

  function PollingOf(t: Trace, x: Inputs): Polling {
    var orders := TraceOrders(t, x.world);
    Polling(
      x.connectors,
      seq(|orders|, i requires 0 <= i < |orders| => Poll(orders[i], if i < |x.answers| then x.answers[i] else map[])),
      Filter(x.world.fills, (f: Fill) =>
        (t.botId == "" || f.botId == t.botId) && (t.runId == "" || f.runId == t.runId) &&
        f.intentId == TraceIntentId(t)),
      x.sheets,
      x.now)
  }

  ghost function SnapshotFor(t: Trace, x: Inputs): Option<Snapshot> {
    if !MayRecord(t.reconciliation) || TraceOrders(t, x.world) == [] || TraceIntentId(t) == "" then None
    else TakeSnapshot(ParseDecimal(t.residualExposureQuote), PollingOf(t, x))
  }

  /** The trace with a snapshot recorded on it and the running counts moved on. */
  function Recorded(t: Trace, s: Snapshot): Trace {
    var r := t.reconciliation;
    t.(reconciliation := Reconciliation(
      if s.matched then Matched else Mismatch,
      Some(AutoPrivateConnectors),
      Value(Int(s.openOrderCount)),
      Value(s.residual),
      Value(s.observedAt),
      Value(Int(ParseIntOrZero(r.attemptCount) + 1)),
      Value(Int(ParseIntOrZero(r.matchedCount) + (if s.matched then 1 else 0))),
      Value(Int(ParseIntOrZero(r.mismatchCount) + (if s.matched then 0 else 1))),
      Value(Int(if s.matched then 0 else ParseIntOrZero(r.mismatchStreak) + 1)),
      Value(IdItems(s.orderIds)),
      Value(IdItems(s.fillIds)),
      Value(s.statuses),
      Value(BalanceItems(s.balances)),
      true))
  }

  function RecordedIf(t: Trace, s: Option<Snapshot>): Trace {
    if s.Some? then Recorded(t, s.value) else t
  }

  ghost function AutoRecorded(t: Trace, x: Inputs): Trace {
    RecordedIf(t, SnapshotFor(t, x))
  }

  // Outcomes

  function ResolvedTrace(t: Trace, reason: ResolutionReason): Trace {
    t.(status := Resolved, lifecycle := Closed, manualHandoffRequired := false,
       residualExposureQuote :=
         (if reason == MatchedZeroResidual
          then (if t.reconciliation.residual.Absent? || t.reconciliation.residual.Null? then Value(0.0)
                else t.reconciliation.residual)
          else t.residualExposureQuote),
       resolutionReason := Some(reason))
  }

  function HandedOff(t: Trace, reason: HandoffReason): Trace {
    t.(status := HandoffRequired, lifecycle := ManualHandoff, manualHandoffRequired := true,
       handoffReason := Some(reason))
  }

  function Decided(t: Trace, d: Decision): Trace {
    match d
    case Resolve(reason) => ResolvedTrace(t, reason)
    case Handoff(reason) => HandedOff(t, reason)
    case NoChange => t
  }

  ghost function DecisionFor(t: Trace, x: Inputs, p: Policy): Decision {
    Decide(AutoRecorded(t, x), x.world, x.clock, p)
  }

  /** The trace as `_process_trace` leaves it. */
  ghost function Processed(t: Trace, x: Inputs, p: Policy): Trace {
    Decided(AutoRecorded(t, x), DecisionFor(t, x, p))
  }

  function WriteRecorded(s: Store, t: Trace, snapshot: Option<Snapshot>, now: Instant): Store {
    if snapshot.Some? then WriteTrace(s, Recorded(t, snapshot.value), now) else s
  }

  /** The writes of one processed trace, whatever was observed and decided. */
  function WriteOutcome(s: Store, t: Trace, snapshot: Option<Snapshot>, d: Decision, now: Instant): Store {
    var stored := WriteRecorded(s, t, snapshot, now);
    if d.NoChange? then stored else WriteTrace(stored, Decided(RecordedIf(t, snapshot), d), now)
  }

  ghost function ProcessTraceIn(s: Store, t: Trace, x: Inputs, p: Policy): Store {
    WriteOutcome(s, t, SnapshotFor(t, x), DecisionFor(t, x, p), x.now)
  }

  // The two phases before the traces

  predicate IntentIsTerminal(w: World, intentId: string) {
    intentId in w.intents && Normalised(w.intents[intentId].status) in TERMINAL_INTENT_STATUSES
  }

  /** Nothing blocks the run any more than its own orders did, and those are all done. */
  predicate CycleFinished(e: Evaluation, w: World) {
    var orders := RelatedOrders(w, e.botId, e.runId, e.intentId);
    && (e.lifecycle.EntrySubmitting? || e.lifecycle.EntryOpen? || e.lifecycle.HedgeBalanced?
        || e.lifecycle.UnwindInProgress?)
    && e.runId != "" && e.botId != "" && e.intentId != ""
    && IntentIsTerminal(w, e.intentId)
    && orders != [] && !HasActiveOrders(orders)
  }

  ghost function CloseTerminal(s: Store, runId: string, w: World): Store {
    if runId !in s.evaluations then s
    else
      var e := s.evaluations[runId];
      if !CycleFinished(e, w) || Blocked(s, e.botId, e.runId) then s
      else Store(s.traces, s.evaluations[e.runId := e.(lifecycle := Closed)])
  }

  function SubmittedAt(o: Order): Option<Instant> {
    FirstOf(o.submittedAt, FirstOf(o.createdAt, o.updatedAt))
  }

  predicate OpenSince(o: Order, at: Instant) {
    !IsTerminalOrder(o) && SubmittedAt(o) == Some(at)
  }

  /** The oldest time among the orders still open at their exchange. */
  function OldestOpen(orders: seq<Order>): (oldest: Option<Instant>)
    ensures oldest.Some? ==> exists o :: o in orders && OpenSince(o, oldest.value)
    ensures forall o, at :: o in orders && OpenSince(o, at) ==> oldest.Some? && oldest.value <= at
  {
    if orders == [] then None
    else
      var rest := OldestOpen(orders[1..]);
      var seen := SubmittedAt(orders[0]);
      assert orders[0] in orders;
      if IsTerminalOrder(orders[0]) || seen.None? || (rest.Some? && rest.value < seen.value) then rest else seen
  }

  predicate SubmitTimedOut(e: Evaluation, w: World, now: Instant, p: Policy) {
    var oldest := OldestOpen(RelatedOrders(w, e.botId, e.runId, ""));
    && e.lifecycle.EntrySubmitting? && e.runId != "" && e.botId != ""
    && oldest.Some? && AgeSeconds(now, oldest.value) >= p.submitTimeoutSeconds
  }

  function TimeoutTrace(id: string, e: Evaluation, now: Instant): Trace {
    Trace(id, e.botId, e.runId, "", "", "", Active, RecoveryRequired, false, Absent, Some(now), Some(now), now,
          NO_RECONCILIATION, None, None)
  }

  ghost function OpenTimeout(s: Store, runId: string, freshId: string, w: World, now: Instant, p: Policy): Store {
    if runId !in s.evaluations then s
    else
      var e := s.evaluations[runId];
      if !SubmitTimedOut(e, w, now, p) || Blocked(s, e.botId, e.runId) then s
      else WriteTrace(s, TimeoutTrace(freshId, e, now), now)
  }

  // Steps and runs

  datatype Step =
    | CloseStep(runId: string, world: World)
    | TimeoutStep(runId: string, freshId: string, world: World, now: Instant)
    | ProcessStep(traceId: string, inputs: Inputs)
    | OperatorStep(traceId: string, status: TraceStatus, lifecycle: Lifecycle, patch: Patch, now: Instant)
    | RecordStep(traceId: string, rec: Record, now: Instant)

  ghost function Apply(s: Store, step: Step, p: Policy): Store {
    match step
    case CloseStep(runId, w) => CloseTerminal(s, runId, w)
    case TimeoutStep(runId, freshId, w, now) => OpenTimeout(s, runId, freshId, w, now, p)
    case ProcessStep(id, x) =>
      if id != "" && id in s.traces && s.traces[id].status.Active? then ProcessTraceIn(s, s.traces[id], x, p) else s
    case OperatorStep(id, status, lifecycle, patch, now) => Transition(s, id, status, lifecycle, patch, now)
    case RecordStep(id, rec, now) => RecordIn(s, id, rec, now)
  }

  ghost function Run(s: Store, steps: seq<Step>, p: Policy): Store {
    if steps == [] then s else Apply(Run(s, steps[..|steps| - 1], p), steps[|steps| - 1], p)
  }

  lemma RunMore(s: Store, steps: seq<Step>, step: Step, p: Policy)
    ensures Run(s, steps + [step], p) == Apply(Run(s, steps, p), step, p)
  {
    assert (steps + [step])[..|steps|] == steps;
  }

  lemma {:induction false} RunAppend(s: Store, first: seq<Step>, second: seq<Step>, p: Policy)
    ensures Run(s, first + second, p) == Run(Run(s, first, p), second, p)
  {
    if second == [] {
      assert first + second == first;
    } else {
      var n := |second| - 1;
      RunAppend(s, first, second[..n], p);
      RunMore(s, first + second[..n], second[n], p);
      assert first + second == first + second[..n] + [second[n]];
    }
  }

  // The steps a tick takes over its three listings

  ghost function CloseSteps(listed: seq<Evaluation>, w: World): seq<Step> {
    seq(|listed|, i requires 0 <= i < |listed| => CloseStep(listed[i].runId, w))
  }

  ghost function TimeoutSteps(listed: seq<Evaluation>, freshIds: seq<string>, w: World, now: Instant): seq<Step>
    requires |listed| <= |freshIds|
  {
    seq(|listed|, i requires 0 <= i < |listed| => TimeoutStep(listed[i].runId, freshIds[i], w, now))
  }

  ghost function ProcessSteps(listed: seq<Trace>, inputs: string -> Inputs): seq<Step> {
    seq(|listed|, i requires 0 <= i < |listed| => ProcessStep(listed[i].id, inputs(listed[i].id)))
  }

  lemma OneMoreClosed(s: Store, listed: seq<Evaluation>, k: nat, w: World, p: Policy)
    requires k < |listed|
    ensures Run(s, CloseSteps(listed[..k + 1], w), p) ==
            Apply(Run(s, CloseSteps(listed[..k], w), p), CloseStep(listed[k].runId, w), p)
  {
    var step := CloseStep(listed[k].runId, w);
    assert CloseSteps(listed[..k + 1], w) == CloseSteps(listed[..k], w) + [step];
    RunMore(s, CloseSteps(listed[..k], w), step, p);
  }

  lemma OneMoreTimed(
    s: Store, listed: seq<Evaluation>, k: nat, freshIds: seq<string>, w: World, now: Instant, p: Policy)
    requires k < |listed| <= |freshIds|
    ensures Run(s, TimeoutSteps(listed[..k + 1], freshIds, w, now), p) ==
            Apply(Run(s, TimeoutSteps(listed[..k], freshIds, w, now), p),
                  TimeoutStep(listed[k].runId, freshIds[k], w, now), p)
  {
    var step := TimeoutStep(listed[k].runId, freshIds[k], w, now);
    assert TimeoutSteps(listed[..k + 1], freshIds, w, now) == TimeoutSteps(listed[..k], freshIds, w, now) + [step];
    RunMore(s, TimeoutSteps(listed[..k], freshIds, w, now), step, p);
  }

  lemma OneMoreProcessed(s: Store, listed: seq<Trace>, k: nat, inputs: string -> Inputs, p: Policy)
    requires k < |listed|
    ensures Run(s, ProcessSteps(listed[..k + 1], inputs), p) ==
            Apply(Run(s, ProcessSteps(listed[..k], inputs), p), ProcessStep(listed[k].id, inputs(listed[k].id)), p)
  {
    var step := ProcessStep(listed[k].id, inputs(listed[k].id));
    assert ProcessSteps(listed[..k + 1], inputs) == ProcessSteps(listed[..k], inputs) + [step];
    RunMore(s, ProcessSteps(listed[..k], inputs), step, p);
  }

  ghost predicate OthersKept<K, V>(before: map<K, V>, after: map<K, V>, key: K) {
    forall other :: other in before && other != key ==> other in after && after[other] == before[other]
  }

  ghost predicate TouchesOnly(s: Store, s': Store, id: string) {
    && (Keyed(s) ==> Keyed(s'))
    && OthersKept(s.traces, s'.traces, id)
  }

  lemma WriteTouchesOne(s: Store, t: Trace, now: Instant)
    ensures TouchesOnly(s, WriteTrace(s, t, now), t.id)
  {}

  lemma OutcomeTouchesOne(s: Store, t: Trace, snapshot: Option<Snapshot>, d: Decision, now: Instant)
    ensures TouchesOnly(s, WriteOutcome(s, t, snapshot, d, now), t.id)
  {
    var stored := WriteRecorded(s, t, snapshot, now);
    WriteTouchesOne(s, RecordedIf(t, snapshot), now);
    WriteTouchesOne(stored, Decided(RecordedIf(t, snapshot), d), now);
  }

  lemma ApplyKeepsKeys(s: Store, step: Step, p: Policy)
    requires Keyed(s)
    ensures Keyed(Apply(s, step, p))
  {
    if step.ProcessStep? && step.traceId in s.traces {
      var t, x := s.traces[step.traceId], step.inputs;
      OutcomeTouchesOne(s, t, SnapshotFor(t, x), DecisionFor(t, x, p), x.now);
    }
  }

  function Max(a: int, b: int): int {
    if a >= b then a else b
  }

  /** The runtime object: its counters, and the store it works on. */
  class Runtime {
    const redis: RedisRuntime
    const policy: Policy
    var processedCount: nat
    var resolvedCount: nat
    var handoffCount: nat
    var skippedCount: nat

    constructor (redis: RedisRuntime, handoffAfter: int, submitTimeout: int, mismatchCount: int, staleAfter: int)
      ensures this.redis == redis && ValidPolicy(policy)
      ensures policy.handoffAfterSeconds == Max(handoffAfter, 0) && policy.submitTimeoutSeconds == Max(submitTimeout, 1)
      ensures policy.mismatchHandoffCount == Max(mismatchCount, 1) && policy.staleAfterSeconds == Max(staleAfter, 1)
      ensures processedCount == resolvedCount == handoffCount == skippedCount == 0
    {
      this.redis := redis;
      policy := Policy(
        if handoffAfter < 0 then 0 else handoffAfter,
        if submitTimeout < 1 then 1 else submitTimeout,
        if mismatchCount < 1 then 1 else mismatchCount,
        if staleAfter < 1 then 1 else staleAfter);
      processedCount, resolvedCount, handoffCount, skippedCount := 0, 0, 0, 0;
    }

    // Every processed trace was resolved, handed off or skipped.
    ghost predicate Accounted()
      reads this
    {
      processedCount == resolvedCount + handoffCount + skippedCount
    }

    method AutoRecordReconciliation(t: Trace, x: Inputs) returns (updated: Trace)
      modifies redis
      ensures updated == AutoRecorded(t, x)
      ensures redis.State() == WriteRecorded(old(redis.State()), t, SnapshotFor(t, x), x.now)
    {
      var orders := TraceOrders(t, x.world);
      if !MayRecord(t.reconciliation) || orders == [] || TraceIntentId(t) == "" {
        return t;
      }
      var snapshot := BuildAutoReconciliationSnapshot(ParseDecimal(t.residualExposureQuote), PollingOf(t, x));
      if snapshot.None? {
        return t;
      }
      updated := Recorded(t, snapshot.value);
      redis.StoreAndMirror(updated, x.now);
    }

    method ResolveTrace(t: Trace, reason: ResolutionReason, now: Instant)
      modifies this`resolvedCount, redis
      ensures redis.State() == WriteTrace(old(redis.State()), ResolvedTrace(t, reason), now)
      ensures resolvedCount == old(resolvedCount) + 1
    {
      redis.StoreAndMirror(ResolvedTrace(t, reason), now);
      resolvedCount := resolvedCount + 1;
    }

    method MarkHandoffRequired(t: Trace, reason: HandoffReason, now: Instant)
      modifies this`handoffCount, redis
      ensures redis.State() == WriteTrace(old(redis.State()), HandedOff(t, reason), now)
      ensures handoffCount == old(handoffCount) + 1
    {
      redis.StoreAndMirror(HandedOff(t, reason), now);
      handoffCount := handoffCount + 1;
    }

    /** The guards one after the other, on the trace as it was recorded. */
    method RunGuards(trace: Trace, x: Inputs)
      modifies this`resolvedCount, this`handoffCount, this`skippedCount, redis
      ensures resolvedCount + handoffCount + skippedCount == old(resolvedCount + handoffCount + skippedCount) + 1
      ensures var d := Decide(trace, x.world, x.clock, policy);
              redis.State() == if d.NoChange? then old(redis.State())
                               else WriteTrace(old(redis.State()), Decided(trace, d), x.now)
    {
      var r := trace.reconciliation;
      var invalid := InvalidResult(r, x.clock.resultCheck);
      if invalid.Some? { MarkHandoffRequired(trace, invalid.value, x.now); return; }
      var stale := StaleObservation(r, x.clock.staleCheck, policy);
      if stale.Some? { MarkHandoffRequired(trace, stale.value, x.now); return; }
      var malformed := InvalidEvidence(r);
      if malformed.Some? { MarkHandoffRequired(trace, malformed.value, x.now); return; }
      var missing := MissingEvidence(r);
      if missing.Some? { MarkHandoffRequired(trace, missing.value, x.now); return; }
      var conflict := StatusConflict(r);
      if conflict.Some? { MarkHandoffRequired(trace, conflict.value, x.now); return; }
      var balance := BalanceConflict(trace, x.world);
      if balance.Some? { MarkHandoffRequired(trace, balance.value, x.now); return; }
      var resolution := Resolution(r);
      if resolution.Some? { ResolveTrace(trace, resolution.value, x.now); return; }
      var mismatch := MismatchHandoff(r, policy);
      if mismatch.Some? { MarkHandoffRequired(trace, mismatch.value, x.now); return; }
      if UnwindFailed(trace, x.world) { MarkHandoffRequired(trace, UnwindOrderTerminal, x.now); return; }
      if UnwindStale(trace, x.world, x.clock.unwindCheck, policy) {
        MarkHandoffRequired(trace, UnwindOrderTimeout, x.now);
        return;
      }
      if !HasActiveOrders(TraceOrders(trace, x.world)) && ParseDecimal(trace.residualExposureQuote) == Some(0.0) {
        ResolveTrace(trace, NoActiveOrdersAndZeroResidual, x.now);
        return;
      }
      if Overdue(trace, x.clock.ageCheck, policy) {
        MarkHandoffRequired(trace, RecoveryTimeoutExceeded, x.now);
        return;
      }
      skippedCount := skippedCount + 1;
    }

    method ProcessTrace(t: Trace, x: Inputs)
      requires Accounted()
      modifies this, redis
      ensures Accounted() && processedCount == old(processedCount) + 1
      ensures t.id == "" ==> redis.State() == old(redis.State())
      ensures t.id != "" ==> redis.State() == ProcessTraceIn(old(redis.State()), t, x, policy)
    {
      processedCount := processedCount + 1;
      if t.id == "" {
        skippedCount := skippedCount + 1;
        return;
      }
      var trace := AutoRecordReconciliation(t, x);
      RunGuards(trace, x);
    }

    // The loop bodies of the three phases

    method CloseListed(e: Evaluation, w: World)
      requires Keyed(redis.State()) && e.runId in redis.evaluations && redis.evaluations[e.runId] == e
      modifies redis
      ensures redis.State() == Apply(old(redis.State()), CloseStep(e.runId, w), policy) && Keyed(redis.State())
      ensures OthersKept(old(redis.evaluations), redis.evaluations, e.runId)
    {
      if !CycleFinished(e, w) { return; }
      var blocking := redis.GetBlockingRecoveryTrace(e.botId, e.runId);
      if blocking.Some? { return; }
      redis.SyncArbitrageEvaluation(e.(lifecycle := Closed));
    }

    method OpenTimeoutListed(e: Evaluation, freshId: string, w: World, now: Instant)
      requires Keyed(redis.State()) && e.runId in redis.evaluations && redis.evaluations[e.runId] == e
      modifies redis
      ensures redis.State() == Apply(old(redis.State()), TimeoutStep(e.runId, freshId, w, now), policy)
      ensures Keyed(redis.State())
      ensures OthersKept(old(redis.evaluations), redis.evaluations, e.runId)
    {
      if !SubmitTimedOut(e, w, now, policy) { return; }
      var blocking := redis.GetBlockingRecoveryTrace(e.botId, e.runId);
      if blocking.Some? { return; }
      redis.StoreAndMirror(TimeoutTrace(freshId, e, now), now);
    }

    method ProcessListed(t: Trace, x: Inputs)
      requires Keyed(redis.State()) && Accounted()
      requires t.id in redis.traces && redis.traces[t.id] == t && t.status.Active?
      modifies this, redis
      ensures redis.State() == Apply(old(redis.State()), ProcessStep(t.id, x), policy) && Keyed(redis.State())
      ensures Accounted() && processedCount == old(processedCount) + 1
      ensures OthersKept(old(redis.traces), redis.traces, t.id)
    {
      OutcomeTouchesOne(redis.State(), t, SnapshotFor(t, x), DecisionFor(t, x, policy), x.now);
      ProcessTrace(t, x);
    }

    method SyncTerminalLatestEvaluations(w: World) returns (ghost listed: seq<Evaluation>)
      requires Keyed(redis.State())
      modifies redis
      ensures IsEvaluationListing(listed, old(redis.evaluations), 100)
      ensures redis.State() == Run(old(redis.State()), CloseSteps(listed, w), policy) && Keyed(redis.State())
    {
      var evaluations := redis.ListArbitrageEvaluations(100);
      listed := evaluations;
      for k := 0 to |evaluations|
        invariant redis.State() == Run(old(redis.State()), CloseSteps(listed[..k], w), policy) && Keyed(redis.State())
        invariant forall j | k <= j < |evaluations| ::
            evaluations[j].runId in redis.evaluations && redis.evaluations[evaluations[j].runId] == evaluations[j]
      {
        CloseListed(evaluations[k], w);
        OneMoreClosed(old(redis.State()), listed, k, w, policy);
      }
      assert listed[..|listed|] == listed;
    }

    method OpenSubmitTimeoutTraces(w: World, now: Instant, freshIds: seq<string>)
      returns (ghost listed: seq<Evaluation>)
      requires Keyed(redis.State()) && |freshIds| >= 100
      modifies redis
      ensures IsEvaluationListing(listed, old(redis.evaluations), 100)
      ensures redis.State() == Run(old(redis.State()), TimeoutSteps(listed, freshIds, w, now), policy)
      ensures Keyed(redis.State())
    {
      var evaluations := redis.ListArbitrageEvaluations(100);
      listed := evaluations;
      for k := 0 to |evaluations|
        invariant redis.State() == Run(old(redis.State()), TimeoutSteps(listed[..k], freshIds, w, now), policy)
        invariant Keyed(redis.State())
        invariant forall j | k <= j < |evaluations| ::
            evaluations[j].runId in redis.evaluations && redis.evaluations[evaluations[j].runId] == evaluations[j]
      {
        OneMoreTimed(old(redis.State()), listed, k, freshIds, w, now, policy);
        OpenTimeoutListed(evaluations[k], freshIds[k], w, now);
      }
      assert listed[..|listed|] == listed;
    }

    /** `stopAt`: how many traces are processed before the runtime is told to stop, if it is. */
    method ProcessActiveTraces(inputs: string -> Inputs, stopAt: nat)
      returns (ghost listed: seq<Trace>, ghost done: nat)
      requires Keyed(redis.State()) && Accounted()
      modifies this, redis
      ensures IsListing(listed, old(redis.traces), "", "", Active, 100)
      ensures done == if stopAt < |listed| then stopAt else |listed|
      ensures redis.State() == Run(old(redis.State()), ProcessSteps(listed[..done], inputs), policy)
      ensures Keyed(redis.State()) && Accounted() && processedCount == old(processedCount) + done
    {
      var traces := redis.ListRecoveryTraces(100, "", "", Active);
      listed := traces;
      var k := 0;
      while k < |traces| && k < stopAt
        invariant k <= |traces| && k <= stopAt
        invariant redis.State() == Run(old(redis.State()), ProcessSteps(listed[..k], inputs), policy)
        invariant Keyed(redis.State()) && Accounted() && processedCount == old(processedCount) + k
        invariant forall j | k <= j < |traces| ::
            traces[j].id in redis.traces && redis.traces[traces[j].id] == traces[j]
      {
        OneMoreProcessed(old(redis.State()), listed, k, inputs, policy);
        ProcessListed(traces[k], inputs(traces[k].id));
        k := k + 1;
      }
      done := k;
    }

    /**
     One tick with a reachable store. It is a run of close, timeout and process steps, one for each
     evaluation listed at the start, each listed after closing, and each active trace listed then,
     up to the stop request if there is one.
     */
    method Tick(w: World, now: Instant, freshIds: seq<string>, inputs: string -> Inputs, stopAt: nat)
      returns (ghost closing: seq<Evaluation>, ghost timing: seq<Evaluation>, ghost active: seq<Trace>, ghost done: nat)
      requires Keyed(redis.State()) && Accounted() && |freshIds| >= 100
      modifies this, redis
      ensures |timing| <= |freshIds| && done <= |active| && Keyed(redis.State()) && Accounted()
      ensures redis.State() == Run(old(redis.State()),
                CloseSteps(closing, w) + TimeoutSteps(timing, freshIds, w, now) + ProcessSteps(active[..done], inputs),
                policy)
      ensures done == if stopAt < |active| then stopAt else |active|
      ensures IsEvaluationListing(closing, old(redis.evaluations), 100)
      ensures var closed := Run(old(redis.State()), CloseSteps(closing, w), policy);
              var timed := Run(closed, TimeoutSteps(timing, freshIds, w, now), policy);
              && IsEvaluationListing(timing, closed.evaluations, 100)
              && IsListing(active, timed.traces, "", "", Active, 100)
    {
      closing := SyncTerminalLatestEvaluations(w);
      timing := OpenSubmitTimeoutTraces(w, now, freshIds);
      active, done := ProcessActiveTraces(inputs, stopAt);
      ghost var first, second := CloseSteps(closing, w), TimeoutSteps(timing, freshIds, w, now);
      RunAppend(old(redis.State()), first, second, policy);
      RunAppend(old(redis.State()), first + second, ProcessSteps(active[..done], inputs), policy);
    }
  }
}
