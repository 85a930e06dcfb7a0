/** What the steps of the recovery runtime write, field by field, and exactly when they write it. */
module RecoveryOutcomes {
  import opened Text
  import opened RecoveryModel
  import opened Evidence
  import opened Snapshot
  import opened SnapshotMeaning
  import opened Cascade
  import opened CascadeReasons
  import opened RecoveryStore
  import opened RecoveryRequests
  import opened RecoveryRuntime
  import opened RecoveryProgress

  // When an evaluation is closed

  /** An order of the evaluation's bot and run and, where one is given, of an intent. */
  ghost predicate OrderOf(o: Order, w: World, botId: string, runId: string, intentId: string) {
    o in w.orders && botId in {"", o.botId} && runId in {"", o.runId} && intentId in {"", o.intentId}
  }

  ghost predicate Done(o: Order) {
    Normalised(o.status) in {"filled", "cancelled", "rejected", "expired", "failed"}
  }

  /** Its trading cycle is over: the intent has ended, and it had orders, all of them done. */
  ghost predicate CycleOver(e: Evaluation, w: World) {
    && e.lifecycle in {EntrySubmitting, EntryOpen, HedgeBalanced, UnwindInProgress}
    && e.runId != "" && e.botId != "" && e.intentId != ""
    && e.intentId in w.intents
    && Normalised(w.intents[e.intentId].status) in {"filled", "closed", "simulated", "cancelled", "expired", "rejected"}
    && (exists o :: OrderOf(o, w, e.botId, e.runId, e.intentId))
    && (forall o :: OrderOf(o, w, e.botId, e.runId, e.intentId) ==> Done(o))
  }

  lemma DoneIsTerminal(o: Order)
    ensures Done(o) <==> IsTerminalOrder(o)
  {
    TerminalIsSpelled(o.status);
  }

  lemma OrdersRelated(w: World, botId: string, runId: string, intentId: string, o: Order)
    ensures o in RelatedOrders(w, botId, runId, intentId) <==> OrderOf(o, w, botId, runId, intentId)
  {}

  lemma CycleFinishedMeans(e: Evaluation, w: World)
    ensures CycleFinished(e, w) <==> CycleOver(e, w)
  {
    var orders := RelatedOrders(w, e.botId, e.runId, e.intentId);
    forall o ensures o in orders <==> OrderOf(o, w, e.botId, e.runId, e.intentId) {
      OrdersRelated(w, e.botId, e.runId, e.intentId, o);
    }
    forall o ensures Done(o) <==> IsTerminalOrder(o) {
      DoneIsTerminal(o);
    }
    if orders != [] {
      assert orders[0] in orders;
    }
  }

  /** Some trace of the run that is active or waits for an operator. */
  ghost predicate Waits(s: Store, botId: string, runId: string) {
    exists id :: id in s.traces && s.traces[id].status in {Active, HandoffRequired}
                 && s.traces[id].botId == botId && s.traces[id].runId == runId
  }

  lemma BlockedMeans(s: Store, botId: string, runId: string)
    requires botId != "" && runId != ""
    ensures Blocked(s, botId, runId) <==> Waits(s, botId, runId)
  {
    if Blocked(s, botId, runId) {
      var id :| id in s.traces && s.traces[id].status.Blocking() && Matches(s.traces[id], botId, runId);
      assert s.traces[id].status in {Active, HandoffRequired};
    }
    if Waits(s, botId, runId) {
      var id :| id in s.traces && s.traces[id].status in {Active, HandoffRequired}
                && s.traces[id].botId == botId && s.traces[id].runId == runId;
      assert s.traces[id].status.Blocking() && Matches(s.traces[id], botId, runId);
    }
  }

  /** An evaluation is closed exactly when its cycle is over and no trace of its run waits; nothing else is changed. */
  lemma ClosedExactlyWhen(s: Store, runId: string, w: World)
    requires Keyed(s) && runId in s.evaluations
    ensures var e := s.evaluations[runId];
      CloseTerminal(s, runId, w) ==
      if CycleOver(e, w) && !Waits(s, e.botId, runId)
      then Store(s.traces, s.evaluations[runId := e.(lifecycle := Closed)]) else s
  {
    var e := s.evaluations[runId];
    CycleFinishedMeans(e, w);
    if CycleFinished(e, w) {
      BlockedMeans(s, e.botId, e.runId);
    }
  }

  // When a timeout trace is opened

  /** When an order went out: when submitted, else when created, else when updated. */
  ghost predicate WentOut(o: Order, at: Instant) {
    || o.submittedAt == Some(at)
    || (o.submittedAt.None? && o.createdAt == Some(at))
    || (o.submittedAt.None? && o.createdAt.None? && o.updatedAt == Some(at))
  }

  lemma OpenSinceMeans(o: Order, at: Instant)
    ensures OpenSince(o, at) <==> !Done(o) && WentOut(o, at)
  {
    DoneIsTerminal(o);
  }

  /** Some order of the run has been out for the whole submit window and is not done. */
  ghost predicate Unanswered(e: Evaluation, w: World, now: Instant, p: Policy) {
    && e.lifecycle == EntrySubmitting && e.runId != "" && e.botId != ""
    && exists o, at :: OrderOf(o, w, e.botId, e.runId, "") && !Done(o) && WentOut(o, at)
                       && now - at >= p.submitTimeoutSeconds * MICROS_PER_SECOND
  }

  lemma SubmitTimedOutMeans(e: Evaluation, w: World, now: Instant, p: Policy)
    requires ValidPolicy(p)
    ensures SubmitTimedOut(e, w, now, p) <==> Unanswered(e, w, now, p)
  {
    var orders := RelatedOrders(w, e.botId, e.runId, "");
    var oldest := OldestOpen(orders);
    if SubmitTimedOut(e, w, now, p) {
      var o :| o in orders && OpenSince(o, oldest.value);
      OpenSinceMeans(o, oldest.value);
      OldEnough(now, oldest.value, p.submitTimeoutSeconds);
      OrdersRelated(w, e.botId, e.runId, "", o);
    }
    if Unanswered(e, w, now, p) {
      var o, at :| OrderOf(o, w, e.botId, e.runId, "") && !Done(o) && WentOut(o, at)
                   && now - at >= p.submitTimeoutSeconds * MICROS_PER_SECOND;
      OpenSinceMeans(o, at);
      OrdersRelated(w, e.botId, e.runId, "", o);
      OldEnough(now, oldest.value, p.submitTimeoutSeconds);
    }
  }

  /** A fresh trace that asks for recovery, opened now, with no reconciliation and no intent. */
  ghost predicate Opened(t: Trace, id: string, e: Evaluation, now: Instant) {
    && t.id == id && t.botId == e.botId && t.runId == e.runId
    && t.status == Active && t.lifecycle == RecoveryRequired && !t.manualHandoffRequired
    && t.openedAt == t.createdAt == Some(now) && t.updatedAt == now
    && t.reconciliation == NO_RECONCILIATION && t.residualExposureQuote == Absent
    && t.intentId == t.linkedUnwindActionId == t.linkedUnwindOrderId == ""
    && t.resolutionReason.None? && t.handoffReason.None?
  }

  /** A trace is opened exactly when an order went unanswered and no trace of the run waits; its evaluation shows it. */
  lemma TimedOutExactlyWhen(s: Store, runId: string, freshId: string, w: World, now: Instant, p: Policy)
    requires ValidPolicy(p) && Keyed(s) && runId in s.evaluations && freshId !in s.traces
    ensures var e, s' := s.evaluations[runId], OpenTimeout(s, runId, freshId, w, now, p);
      if Unanswered(e, w, now, p) && !Waits(s, e.botId, runId)
      then
        && freshId in s'.traces && Opened(s'.traces[freshId], freshId, e, now)
        && s'.traces == s.traces[freshId := s'.traces[freshId]]
        && s'.evaluations ==
           s.evaluations[runId := Evaluation(runId, e.botId, e.intentId, RecoveryRequired,
                                             Some(freshId), Some(Active), Some(RecoveryRequired))]
      else s' == s
  {
    var e := s.evaluations[runId];
    SubmitTimedOutMeans(e, w, now, p);
    if SubmitTimedOut(e, w, now, p) {
      BlockedMeans(s, e.botId, e.runId);
    }
  }

  // What an outcome changes

  /** Nothing but the status, what goes with it, and the reason differs. */
  ghost predicate SameButOutcome(t: Trace, u: Trace) {
    && u.id == t.id && u.botId == t.botId && u.runId == t.runId && u.intentId == t.intentId
    && u.linkedUnwindActionId == t.linkedUnwindActionId && u.linkedUnwindOrderId == t.linkedUnwindOrderId
    && u.openedAt == t.openedAt && u.createdAt == t.createdAt && u.updatedAt == t.updatedAt
    && u.reconciliation == t.reconciliation
  }

  /** A resolved trace is closed; a matched one takes over the reconciled residual, as zero if there is none. */
  lemma ResolvedMeans(t: Trace, reason: ResolutionReason)
    ensures var u, residual := ResolvedTrace(t, reason), t.reconciliation.residual;
      && SameButOutcome(t, u) && u.status == Resolved && u.lifecycle == Closed && !u.manualHandoffRequired
      && u.resolutionReason == Some(reason) && u.handoffReason == t.handoffReason
      && (reason == NoActiveOrdersAndZeroResidual ==> u.residualExposureQuote == t.residualExposureQuote)
      && (reason == MatchedZeroResidual && residual in {Absent, Null} ==> u.residualExposureQuote == Value(0.0))
      && (reason == MatchedZeroResidual && residual !in {Absent, Null} ==> u.residualExposureQuote == residual)
  {}

  /** A trace that the cascade resolves ends with no residual on it. */
  lemma ResolvedHasNoResidual(t: Trace, w: World, c: Clock, p: Policy)
    requires Decide(t, w, c, p).Resolve?
    ensures Decided(t, Decide(t, w, c, p)).residualExposureQuote == Value(0.0)
  {
    OnlyTwoWaysToResolve(t, w, c, p);
    CascadeIsOnePredicate(t, w, c, p);
  }

  lemma HandedOffMeans(t: Trace, reason: HandoffReason)
    ensures var u := HandedOff(t, reason);
      && SameButOutcome(t, u) && u.status == HandoffRequired && u.lifecycle == ManualHandoff && u.manualHandoffRequired
      && u.handoffReason == Some(reason) && u.resolutionReason == t.resolutionReason
      && u.residualExposureQuote == t.residualExposureQuote
  {}

  ghost predicate Replaced<T>(patch: Option<T>, before: T, after: T) {
    (patch.None? ==> after == before) && (patch.Some? ==> after == patch.value)
  }

  /** A request sets status and lifecycle, replaces what its patch names and leaves everything else. */
  lemma PatchedMeans(t: Trace, status: TraceStatus, lifecycle: Lifecycle, patch: Patch)
    ensures var u := Patched(t, status, lifecycle, patch);
      && u.status == status && u.lifecycle == lifecycle
      && Replaced(patch.manualHandoffRequired, t.manualHandoffRequired, u.manualHandoffRequired)
      && Replaced(patch.residualExposureQuote, t.residualExposureQuote, u.residualExposureQuote)
      && Replaced(patch.linkedUnwindActionId, t.linkedUnwindActionId, u.linkedUnwindActionId)
      && Replaced(patch.linkedUnwindOrderId, t.linkedUnwindOrderId, u.linkedUnwindOrderId)
      && u.id == t.id && u.botId == t.botId && u.runId == t.runId && u.intentId == t.intentId
      && u.openedAt == t.openedAt && u.createdAt == t.createdAt && u.updatedAt == t.updatedAt
      && u.reconciliation == t.reconciliation
      && u.resolutionReason == t.resolutionReason && u.handoffReason == t.handoffReason
  {}

  /** A request takes effect on a trace that is there and not terminal, and on no other. */
  lemma RequestTakesEffect(s: Store, id: string, status: TraceStatus, lifecycle: Lifecycle, patch: Patch, now: Instant)
    requires Keyed(s)
    ensures var s' := Transition(s, id, status, lifecycle, patch, now);
      if id in s.traces && s.traces[id].status !in {Resolved, Cancelled}
      then s'.traces == s.traces[id := Patched(s.traces[id], status, lifecycle, patch).(updatedAt := now)]
      else s' == s
  {}

  /** The lifecycle an evaluation shows of its trace. */
  ghost predicate Shown(e: Evaluation, t: Trace, lifecycle: Lifecycle) {
    && (t.status in {Resolved, Cancelled} ==> lifecycle == Closed)
    && (t.status == HandoffRequired ==> lifecycle == ManualHandoff)
    && (t.status !in {Resolved, Cancelled, HandoffRequired} ==>
          lifecycle == if t.lifecycle == Blank then e.lifecycle else t.lifecycle)
  }

  /** One trace is written, stamped with the time, and the evaluation of its run takes it over; nothing else changes. */
  lemma WriteMeans(s: Store, t: Trace, now: Instant)
    ensures var s' := WriteTrace(s, t, now);
      && s'.traces == s.traces[t.id := t.(updatedAt := now)]
      && (t.runId == "" || t.runId !in s.evaluations ==> s'.evaluations == s.evaluations)
      && (t.runId != "" && t.runId in s.evaluations ==>
            var e := s.evaluations[t.runId];
            exists lifecycle :: Shown(e, t, lifecycle) &&
              s'.evaluations == s.evaluations[t.runId := Evaluation(
                e.runId, e.botId, e.intentId, lifecycle, Some(t.id), Some(t.status), Some(t.lifecycle))])
  {
    if t.runId != "" && t.runId in s.evaluations {
      var e := s.evaluations[t.runId];
      assert Shown(e, t, Mirrored(e, Stamped(t, now)).lifecycle);
    }
  }

  // What is recorded, and read again

  /** Automatic reconciliation leaves alone what somebody else has recorded, and nothing else. */
  lemma MayRecordMeans(r: Reconciliation)
    ensures MayRecord(r) <==>
            || r.verdict in {VerdictAbsent, VerdictBlank}
            || r.source in {None, Some(SourceBlank), Some(AutoPrivateConnectors)}
  {}

  /** The orders of a trace are polled in order, each with what its exchange answers. */
  lemma PolledMeans(t: Trace, x: Inputs)
    ensures var q, orders := PollingOf(t, x), TraceOrders(t, x.world);
      && q.connectors == x.connectors && q.sheets == x.sheets && q.now == x.now && |q.polls| == |orders|
      && (forall i | 0 <= i < |orders| ::
            && q.polls[i].order == orders[i]
            && (i < |x.answers| ==> q.polls[i].answers == x.answers[i])
            && (i >= |x.answers| ==> q.polls[i].answers == map[]))
  {}

  lemma FillsPolled(t: Trace, x: Inputs, f: Fill)
    ensures f in PollingOf(t, x).fills <==>
            && f in x.world.fills && t.botId in {"", f.botId} && t.runId in {"", f.runId}
            && f.intentId == TraceIntentId(t)
  {}

  /** When a snapshot is taken: it may be recorded, and the orders asked about give a verdict. */
  lemma SnapshotTakenExactlyWhen(t: Trace, x: Inputs)
    ensures SnapshotFor(t, x).Some? <==>
            && MayRecord(t.reconciliation) && TraceIntentId(t) != ""
            && TakeSnapshot(ParseDecimal(t.residualExposureQuote), PollingOf(t, x)).Some?
    ensures SnapshotFor(t, x).Some? ==>
              SnapshotFor(t, x) == TakeSnapshot(ParseDecimal(t.residualExposureQuote), PollingOf(t, x))
  {
    if TakeSnapshot(ParseDecimal(t.residualExposureQuote), PollingOf(t, x)).Some? {
      VerdictIsGiven(ParseDecimal(t.residualExposureQuote), PollingOf(t, x));
    }
  }

  function MatchedCount(t: Trace): int {
    ParseIntOrZero(t.reconciliation.matchedCount)
  }

  /** The guards read back from the trace what the snapshot said. */
  lemma RecordedMeans(t: Trace, s: Snapshot, now: Instant)
    requires s.residual >= 0.0 && s.observedAt <= now && Streak(t) >= 0
    ensures var u := Recorded(t, s); var r := u.reconciliation;
      && SoundResult(r, now)
      && r.verdict == (if s.matched then Matched else Mismatch) && r.source == Some(AutoPrivateConnectors)
      && r.openOrderCount == Value(Int(s.openOrderCount)) && r.residual == Value(s.residual)
      && r.observedAt == Value(s.observedAt)
      && Streak(u) == (if s.matched then 0 else Streak(t) + 1) && Attempts(u) == Attempts(t) + 1
      && MatchedCount(u) == MatchedCount(t) + (if s.matched then 1 else 0)
      && r.orderIds == Value(IdItems(s.orderIds)) && r.fillIds == Value(IdItems(s.fillIds))
      && r.orderStatuses == Value(s.statuses) && r.balances == Value(BalanceItems(s.balances))
      && r.otherKeys && u == t.(reconciliation := r)
  {}

  /** The operator's result takes the place of what was there; what the request leaves out is null. */
  lemma NotedMeans(t: Trace, rec: Record)
    ensures var u := OperatorRecorded(t, rec); var r := u.reconciliation;
      && r.verdict == (if rec.matched then Matched else Mismatch) && r.source == Some(rec.source)
      && r.openOrderCount == Value(Int(rec.openOrderCount)) && r.residual == Value(rec.residual)
      && r.attemptCount == Value(Int(StoredInt(t.reconciliation.attemptCount) + 1))
      && r.matchedCount == Value(Int(StoredInt(t.reconciliation.matchedCount) + if rec.matched then 1 else 0))
      && (rec.observedAt.None? ==> r.observedAt == Null)
      && (rec.observedAt.Some? ==> r.observedAt == Value(rec.observedAt.value))
      && (rec.orderIds.None? ==> r.orderIds == Null) && (rec.fillIds.None? ==> r.fillIds == Null)
      && (rec.orderStatuses.None? ==> r.orderStatuses == Null) && (rec.balances.None? ==> r.balances == Null)
      && (rec.orderIds.Some? ==> r.orderIds == Value(rec.orderIds.value))
      && (rec.fillIds.Some? ==> r.fillIds == Value(rec.fillIds.value))
      && (rec.orderStatuses.Some? ==> r.orderStatuses == Value(rec.orderStatuses.value))
      && (rec.balances.Some? ==> r.balances == Value(rec.balances.value))
      && r.otherKeys && u == t.(reconciliation := r)
  {}
}
