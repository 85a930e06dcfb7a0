/** The reason each trace is handed off for: of every reason, exactly when it is the one given. */
module CascadeReasons {
  import opened Text
  import opened RecoveryModel
  import opened Evidence
  import opened Cascade

  // How a settled match fails

  lemma OldEnough(now: Instant, then_: Instant, seconds: nat)
    requires seconds >= 1
    ensures AgeSeconds(now, then_) >= seconds <==> now - then_ >= seconds * MICROS_PER_SECOND
  {}

  ghost predicate Observed(r: Reconciliation, c: Clock, p: Policy) {
    r.observedAt.Value? && c.staleCheck - r.observedAt.value < p.staleAfterSeconds * MICROS_PER_SECOND
  }

  lemma StaleObservationIs(r: Reconciliation, c: Clock, p: Policy)
    requires ValidPolicy(p) && InvalidResult(r, c.resultCheck).None?
    ensures SoundResult(r, c.resultCheck) && (ClaimsSettled(r) <==> Settled(r))
    ensures StaleObservation(r, c.staleCheck, p) ==
            if !Settled(r) then None
            else if !r.observedAt.Value? then Some(ObservationMissing)
            else if !Observed(r, c, p) then Some(ObservationStale)
            else None
  {
    ResultGuardMeansSound(r, c.resultCheck);
    if r.observedAt.Value? {
      OldEnough(c.staleCheck, r.observedAt.value, p.staleAfterSeconds);
    }
  }

  lemma FirstOfSix(
    a: Option<HandoffReason>, b: Option<HandoffReason>, c: Option<HandoffReason>,
    d: Option<HandoffReason>, e: Option<HandoffReason>, f: Option<HandoffReason>)
    ensures var first := FirstReason(a, FirstReason(b, FirstReason(c, FirstReason(d, FirstReason(e, f)))));
            first in {a, b, c, d, e, f} && (a.None? && b.None? ==> first in {c, d, e, f})
  {}

  lemma EvidenceGuardsAnswer(r: Reconciliation)
    ensures InvalidEvidence(r) in {None, Some(EvidenceInvalid)}
    ensures MissingEvidence(r) in {None, Some(HandoffReason.EvidenceMissing)}
    ensures StatusConflict(r) in {None, Some(TerminalFailureStatusConflict), Some(OpenOrderStatusConflict)}
  {}

  lemma BalanceGuardAnswers(t: Trace, w: World)
    ensures BalanceConflict(t, w) in {None, Some(ContextMissing), Some(MarketContextMissing),
                                      Some(BalanceEvidenceIncomplete), Some(HandoffReason.BalanceLocked)}
  {}

  lemma LaterBlockersAnswerOtherwise(t: Trace, w: World, c: Clock, p: Policy)
    requires InvalidResult(t.reconciliation, c.resultCheck).None?
    requires StaleObservation(t.reconciliation, c.staleCheck, p).None?
    ensures MatchBlocker(t, w, c, p) !in {Some(ResultInvalid), Some(ObservationMissing), Some(ObservationStale)}
  {
    var r := t.reconciliation;
    EvidenceGuardsAnswer(r);
    BalanceGuardAnswers(t, w);
    FirstOfSix(InvalidResult(r, c.resultCheck), StaleObservation(r, c.staleCheck, p), InvalidEvidence(r),
               MissingEvidence(r), StatusConflict(r), BalanceConflict(t, w));
  }

  lemma LaterGuardsAnswerOtherwise(t: Trace, w: World, c: Clock, p: Policy, reason: HandoffReason)
    requires MatchBlocker(t, w, c, p).None? && Decide(t, w, c, p) == Handoff(reason)
    ensures reason !in {ResultInvalid, ObservationMissing, ObservationStale}
  {}

  lemma ResultReasons(t: Trace, w: World, c: Clock, p: Policy)
    requires ValidPolicy(p)
    ensures var r, d := t.reconciliation, Decide(t, w, c, p);
      && (d == Handoff(ResultInvalid) <==> !SoundResult(r, c.resultCheck))
      && (d == Handoff(ObservationMissing) <==>
          SoundResult(r, c.resultCheck) && Settled(r) && !r.observedAt.Value?)
      && (d == Handoff(ObservationStale) <==>
          SoundResult(r, c.resultCheck) && Settled(r) && r.observedAt.Value? && !Observed(r, c, p))
  {
    ResultGuardMeansSound(t.reconciliation, c.resultCheck);
    if InvalidResult(t.reconciliation, c.resultCheck).None? {
      StaleObservationIs(t.reconciliation, c, p);
      if StaleObservation(t.reconciliation, c.staleCheck, p).None? {
        LaterBlockersAnswerOtherwise(t, w, c, p);
        if MatchBlocker(t, w, c, p).None? && Decide(t, w, c, p).Handoff? {
          LaterGuardsAnswerOtherwise(t, w, c, p, Decide(t, w, c, p).reason);
        }
      }
    }
  }

  /** The result is sound and, if it claims a settled match, recently observed. */
  ghost predicate UpToDate(r: Reconciliation, c: Clock, p: Policy) {
    SoundResult(r, c.resultCheck) && (Settled(r) ==> Observed(r, c, p))
  }

  /** Some fill, some status or some balance is listed. */
  ghost predicate Witnessed(r: Reconciliation) {
    || (r.fillIds.Value? && r.fillIds.value != [])
    || (r.orderStatuses.Value? && r.orderStatuses.value != [])
    || (r.balances.Value? && r.balances.value != [])
  }

  lemma UpToDatePasses(r: Reconciliation, c: Clock, p: Policy)
    requires ValidPolicy(p) && UpToDate(r, c, p)
    ensures InvalidResult(r, c.resultCheck).None? && StaleObservation(r, c.staleCheck, p).None?
    ensures ClaimsSettled(r) <==> Settled(r)
  {
    ResultGuardMeansSound(r, c.resultCheck);
    StaleObservationIs(r, c, p);
  }

  lemma EvidenceReasons(t: Trace, w: World, c: Clock, p: Policy)
    requires ValidPolicy(p) && UpToDate(t.reconciliation, c, p)
    ensures var r, d := t.reconciliation, Decide(t, w, c, p);
      && (d == Handoff(EvidenceInvalid) <==> !AllEvidenceSound(r))
      && (d == Handoff(HandoffReason.EvidenceMissing) <==> AllEvidenceSound(r) && Settled(r) && !Witnessed(r))
  {
    UpToDatePasses(t.reconciliation, c, p);
  }

  ghost predicate SomeFailed(raw: Raw<seq<StatusItem>>) {
    && raw.Value?
    && exists i :: 0 <= i < |raw.value| && WellFormedStatus(raw.value[i])
                   && StatusOf(raw.value[i]).status in {OrderCancelled, OrderRejected, OrderExpired, OrderFailed}
  }

  lemma ObservedFailed(raw: Raw<seq<StatusItem>>)
    requires ObservedOrderStatuses(raw).Some?
    ensures AnyFailed(ObservedOrderStatuses(raw).value) <==> SomeFailed(raw)
    ensures AllFailed(ObservedOrderStatuses(raw).value) <==> !SomeOpen(raw) && !SomeFilled(raw)
  {
    var rows := ObservedOrderStatuses(raw).value;
    forall i | 0 <= i < |rows|
      ensures WellFormedStatus(raw.value[i]) && rows[i] == StatusOf(raw.value[i]) && rows[i] in rows
    {}
  }

  ghost predicate SomeFilled(raw: Raw<seq<StatusItem>>) {
    && raw.Value?
    && exists i :: 0 <= i < |raw.value| && WellFormedStatus(raw.value[i])
                   && StatusOf(raw.value[i]).status == OrderFilled
  }

  /** A settled match that is up to date, with sound evidence and some of it. */
  ghost predicate SettledOnEvidence(r: Reconciliation, c: Clock, p: Policy) {
    UpToDate(r, c, p) && Settled(r) && AllEvidenceSound(r) && Witnessed(r)
  }

  lemma WitnessedPasses(r: Reconciliation)
    requires ClaimsSettled(r) && AllEvidenceSound(r) && Witnessed(r)
    ensures InvalidEvidence(r).None? && MissingEvidence(r).None?
  {}

  /** What is left to decide a settled match on evidence: its statuses and its balances. */
  lemma StatusesAndBalancesDecide(t: Trace, w: World, c: Clock, p: Policy)
    requires ValidPolicy(p) && SettledOnEvidence(t.reconciliation, c, p)
    ensures ClaimsSettled(t.reconciliation)
    ensures var blocker := FirstReason(StatusConflict(t.reconciliation), BalanceConflict(t, w));
            Decide(t, w, c, p) == if blocker.Some? then Handoff(blocker.value) else Resolve(MatchedZeroResidual)
  {
    UpToDatePasses(t.reconciliation, c, p);
    WitnessedPasses(t.reconciliation);
    SettledMatchEnds(t, w, c, p);
  }

  lemma StatusConflictIs(r: Reconciliation)
    requires ClaimsSettled(r) && AllEvidenceSound(r)
    ensures StatusConflict(r) ==
            if SomeFailed(r.orderStatuses) then Some(TerminalFailureStatusConflict)
            else if SomeOpen(r.orderStatuses) then Some(OpenOrderStatusConflict)
            else None
  {
    var raw := r.orderStatuses;
    if ObservedOrderStatuses(raw).Some? {
      ObservedOpen(raw);
      ObservedFailed(raw);
    }
  }

  lemma StatusReasons(t: Trace, w: World, c: Clock, p: Policy)
    requires ValidPolicy(p) && SettledOnEvidence(t.reconciliation, c, p)
    ensures var raw, d := t.reconciliation.orderStatuses, Decide(t, w, c, p);
      && (d == Handoff(TerminalFailureStatusConflict) <==> SomeFailed(raw))
      && (d == Handoff(OpenOrderStatusConflict) <==> SomeOpen(raw) && !SomeFailed(raw))
  {
    StatusesAndBalancesDecide(t, w, c, p);
    StatusConflictIs(t.reconciliation);
    BalanceGuardAnswers(t, w);
  }

  /** Both exchanges list every asset of the market. */
  ghost predicate AllListed(t: Trace, w: World) {
    && t.reconciliation.balances.Value?
    && forall e, a | e in RelevantExchanges(t, w) && a in RelevantAssets(t, w) ::
         exists i :: 0 <= i < |t.reconciliation.balances.value| && Funds(t.reconciliation.balances.value[i], e, a)
  }

  lemma AllListedMeansCovered(
    items: seq<BalanceItem>, observed: seq<ObservedBalance>, exchanges: set<string>, assets: set<string>)
    requires ObservedBalances(Value(items)) == Some(observed)
    ensures AllCovered(observed, exchanges, assets) <==>
            forall e, a | e in exchanges && a in assets :: exists i :: 0 <= i < |items| && Funds(items[i], e, a)
  {
    RowsMatch(items, observed);
    forall e, a ensures Covered(observed, e, a) <==> exists i :: 0 <= i < |items| && Funds(items[i], e, a) {
      if Covered(observed, e, a) {
        var i :| 0 <= i < |observed| && observed[i].exchange == e && observed[i].asset == a;
        assert Funds(items[i], e, a);
      }
      if i :| 0 <= i < |items| && Funds(items[i], e, a) {
        assert observed[i] in observed;
      }
    }
  }

  lemma AllListedIsAllCovered(t: Trace, w: World)
    requires AllEvidenceSound(t.reconciliation) && |RelevantExchanges(t, w)| == 2 && RelevantAssets(t, w) != {}
    ensures var observed := ObservedBalances(t.reconciliation.balances);
      AllListed(t, w) <==>
      NonEmpty(observed) && AllCovered(observed.value, RelevantExchanges(t, w), RelevantAssets(t, w))
  {
    var exchanges, assets, raw := RelevantExchanges(t, w), RelevantAssets(t, w), t.reconciliation.balances;
    if raw.Value? {
      AllListedMeansCovered(raw.value, ObservedBalances(raw).value, exchanges, assets);
      CoverageNeedsRows(exchanges, assets);
    }
  }

  lemma BalanceConflictIs(t: Trace, w: World)
    requires ClaimsSettled(t.reconciliation) && AllEvidenceSound(t.reconciliation)
    ensures BalanceConflict(t, w) ==
            if |RelevantExchanges(t, w)| != 2 then Some(ContextMissing)
            else if RelevantAssets(t, w) == {} then Some(MarketContextMissing)
            else if !AllListed(t, w) then Some(BalanceEvidenceIncomplete)
            else if !Funded(t, w) then Some(HandoffReason.BalanceLocked)
            else None
  {
    ExchangesAtMostTwo(t, w);
    if |RelevantExchanges(t, w)| == 2 && RelevantAssets(t, w) != {} {
      AllListedIsAllCovered(t, w);
      BalanceGuardMeansFunded(t, w);
    }
  }

  lemma BalanceReasons(t: Trace, w: World, c: Clock, p: Policy)
    requires ValidPolicy(p) && SettledOnEvidence(t.reconciliation, c, p) && OnlyFilled(t.reconciliation.orderStatuses)
    ensures var named, priced := |RelevantExchanges(t, w)| == 2, RelevantAssets(t, w) != {};
            var d := Decide(t, w, c, p);
      && (d == Handoff(ContextMissing) <==> !named)
      && (d == Handoff(MarketContextMissing) <==> named && !priced)
      && (d == Handoff(BalanceEvidenceIncomplete) <==> named && priced && !AllListed(t, w))
      && (d == Handoff(HandoffReason.BalanceLocked) <==> named && priced && AllListed(t, w) && !Funded(t, w))
  {
    StatusesAndBalancesDecide(t, w, c, p);
    StatusGuardMeansFilled(t.reconciliation);
    BalanceConflictIs(t, w);
  }

  // How a mismatch ends

  lemma MismatchHandoffIs(r: Reconciliation, now: Instant, p: Policy)
    requires r.verdict == Mismatch && SoundResult(r, now) && AllEvidenceSound(r)
    ensures var count, raw := r.openOrderCount.value.n, r.orderStatuses;
      var done := raw.Value? && |raw.value| >= count && !SomeOpen(raw);
      MismatchHandoff(r, p) ==
        if SoundCount(r.mismatchStreak) && r.mismatchStreak.value.n >= p.mismatchHandoffCount
        then Some(MismatchRepeated)
        else if count > 0
        then (if !done then None
              else if SomeFilled(raw) then Some(OpenOrdersTerminalStatusConflict)
              else Some(OpenOrdersTerminalFailure))
        else if SomeOpen(raw) then Some(ZeroOpenOrdersStatusConflict)
        else if r.residual.value == 0.0 then Some(MismatchZeroResidualConflict)
        else Some(MismatchResidualWithoutOrders)
  {
    if ObservedOrderStatuses(r.orderStatuses).Some? {
      ObservedOpen(r.orderStatuses);
      ObservedFailed(r.orderStatuses);
    }
  }

  lemma MismatchDecides(t: Trace, w: World, c: Clock, p: Policy)
    requires t.reconciliation.verdict == Mismatch
    requires SoundResult(t.reconciliation, c.resultCheck) && AllEvidenceSound(t.reconciliation)
    ensures var reason, d := MismatchHandoff(t.reconciliation, p), Decide(t, w, c, p);
      && (reason.Some? ==> d == Handoff(reason.value))
      && (d.Handoff? && reason.None? ==> d.reason in {UnwindOrderTerminal, UnwindOrderTimeout, RecoveryTimeoutExceeded})
  {
    ResultGuardMeansSound(t.reconciliation, c.resultCheck);
  }

  /** Each way a sound mismatch is handed off for its own sake; they exclude each other. */
  lemma MismatchReasons(t: Trace, w: World, c: Clock, p: Policy)
    requires t.reconciliation.verdict == Mismatch
    requires SoundResult(t.reconciliation, c.resultCheck) && AllEvidenceSound(t.reconciliation)
    ensures var r, d := t.reconciliation, Decide(t, w, c, p);
      var repeated := SoundCount(r.mismatchStreak) && r.mismatchStreak.value.n >= p.mismatchHandoffCount;
      var count, raw := r.openOrderCount.value.n, r.orderStatuses;
      var done := raw.Value? && |raw.value| >= count && !SomeOpen(raw);
      && (d == Handoff(MismatchRepeated) <==> repeated)
      && (d == Handoff(OpenOrdersTerminalFailure) <==> !repeated && count > 0 && done && !SomeFilled(raw))
      && (d == Handoff(OpenOrdersTerminalStatusConflict) <==> !repeated && count > 0 && done && SomeFilled(raw))
      && (d == Handoff(ZeroOpenOrdersStatusConflict) <==> !repeated && count == 0 && SomeOpen(raw))
      && (d == Handoff(MismatchZeroResidualConflict) <==>
          !repeated && count == 0 && !SomeOpen(raw) && r.residual.value == 0.0)
      && (d == Handoff(MismatchResidualWithoutOrders) <==>
          !repeated && count == 0 && !SomeOpen(raw) && r.residual.value > 0.0)
  {
    MismatchHandoffIs(t.reconciliation, c.resultCheck, p);
    MismatchDecides(t, w, c, p);
  }

  // What is decided when the reconciliation says nothing

  /** The order the trace is linked to for its unwinding: the first in the store's list under that id. */
  ghost predicate IsUnwindOrder(t: Trace, w: World, i: nat) {
    && t.linkedUnwindOrderId != "" && i < |w.orders| && w.orders[i].orderId == t.linkedUnwindOrderId
    && forall j | 0 <= j < i :: w.orders[j].orderId != t.linkedUnwindOrderId
  }

  lemma {:induction false} FindsFirst(orders: seq<Order>, id: string) returns (i: nat)
    requires FindOrder(orders, id).Some?
    ensures i < |orders| && FindOrder(orders, id) == Some(orders[i]) && orders[i].orderId == id
    ensures forall j | 0 <= j < i :: orders[j].orderId != id
  {
    if orders[0].orderId == id {
      i := 0;
    } else {
      var k := FindsFirst(orders[1..], id);
      i := k + 1;
      forall j | 0 <= j < i ensures orders[j].orderId != id {
        assert j > 0 ==> orders[j] == orders[1..][j - 1];
      }
    }
  }

  lemma {:induction false} FindsIfThere(orders: seq<Order>, id: string, i: nat)
    requires i < |orders| && orders[i].orderId == id && forall j | 0 <= j < i :: orders[j].orderId != id
    ensures FindOrder(orders, id) == Some(orders[i])
  {
    if i > 0 {
      assert forall j | 0 <= j < i - 1 :: orders[1..][j] == orders[j + 1];
      FindsIfThere(orders[1..], id, i - 1);
    }
  }

  lemma UnwindOrderIs(t: Trace, w: World)
    ensures LinkedUnwindOrder(t, w).Some? <==> exists i: nat :: IsUnwindOrder(t, w, i)
    ensures forall i: nat | IsUnwindOrder(t, w, i) :: LinkedUnwindOrder(t, w) == Some(w.orders[i])
  {
    if LinkedUnwindOrder(t, w).Some? {
      var i := FindsFirst(w.orders, t.linkedUnwindOrderId);
      assert IsUnwindOrder(t, w, i);
    }
    forall i: nat | IsUnwindOrder(t, w, i) ensures LinkedUnwindOrder(t, w) == Some(w.orders[i]) {
      FindsIfThere(w.orders, t.linkedUnwindOrderId, i);
    }
  }

  /** The unwind order ended without being filled. */
  lemma UnwindFailedMeans(t: Trace, w: World)
    ensures UnwindFailed(t, w) <==>
            exists i: nat :: IsUnwindOrder(t, w, i) &&
              Normalised(w.orders[i].status) in {"cancelled", "rejected", "expired", "failed"}
  {
    UnwindOrderIs(t, w);
    if LinkedUnwindOrder(t, w).Some? {
      FailureIsSpelled(LinkedUnwindOrder(t, w).value.status);
    }
  }

  /** When an order was last heard of: when updated, else when submitted, else when created. */
  ghost predicate HeardOf(o: Order, at: Instant) {
    || o.updatedAt == Some(at)
    || (o.updatedAt.None? && o.submittedAt == Some(at))
    || (o.updatedAt.None? && o.submittedAt.None? && o.createdAt == Some(at))
  }

  /** The unwind order is not done and was not heard of for the whole submit window. */
  lemma UnwindStaleMeans(t: Trace, w: World, now: Instant, p: Policy)
    requires ValidPolicy(p)
    ensures UnwindStale(t, w, now, p) <==>
            exists i: nat, at :: IsUnwindOrder(t, w, i) && HeardOf(w.orders[i], at) &&
              Normalised(w.orders[i].status) !in {"filled", "cancelled", "rejected", "expired", "failed"} &&
              now - at >= p.submitTimeoutSeconds * MICROS_PER_SECOND
  {
    UnwindOrderIs(t, w);
    if LinkedUnwindOrder(t, w).Some? {
      var o := LinkedUnwindOrder(t, w).value;
      TerminalIsSpelled(o.status);
      var i: nat :| IsUnwindOrder(t, w, i);
      var seen := FirstOf(o.updatedAt, FirstOf(o.submittedAt, o.createdAt));
      if seen.Some? {
        OldEnough(now, seen.value, p.submitTimeoutSeconds);
        assert HeardOf(w.orders[i], seen.value);
      }
    }
  }

  /** More than the handoff window has passed since the trace was opened, and it was not marked for handoff. */
  lemma OverdueMeans(t: Trace, now: Instant, p: Policy)
    ensures Overdue(t, now, p) <==>
            && !t.manualHandoffRequired
            && exists since :: (t.openedAt == Some(since) || (t.openedAt.None? && t.createdAt == Some(since)))
                               && now - since >= (p.handoffAfterSeconds + 1) * MICROS_PER_SECOND
  {
    var since := FirstOf(t.openedAt, t.createdAt);
    if since.Some? {
      OldEnough(now, since.value, p.handoffAfterSeconds + 1);
    }
  }

  lemma LastReasons(t: Trace, w: World, c: Clock, p: Policy)
    ensures var d := Decide(t, w, c, p);
      var quiet := Inconclusive(t.reconciliation, c, p);
      var failed, stale := UnwindFailed(t, w), UnwindStale(t, w, c.unwindCheck, p);
      && (d == Handoff(UnwindOrderTerminal) <==> quiet && failed)
      && (d == Handoff(UnwindOrderTimeout) <==> quiet && !failed && stale)
      && (d == Handoff(RecoveryTimeoutExceeded) <==>
          quiet && !failed && !stale && !QuietAndFlat(t, w, c, p) && Overdue(t, c.ageCheck, p))
  {
    if ClaimsSettled(t.reconciliation) {
      ClaimedIsNotInconclusive(t, w, c, p);
    } else {
      InconclusiveMeansNoReason(t, w, c, p);
      if !Inconclusive(t.reconciliation, c, p) {
        NoLastReason(t, w, c, p);
      }
    }
  }

  ghost predicate LastReason(reason: Option<HandoffReason>) {
    reason in {Some(UnwindOrderTerminal), Some(UnwindOrderTimeout), Some(RecoveryTimeoutExceeded)}
  }

  lemma ResultGuardsAnswer(r: Reconciliation, c: Clock, p: Policy)
    ensures InvalidResult(r, c.resultCheck) in {None, Some(ResultInvalid)}
    ensures StaleObservation(r, c.staleCheck, p) in {None, Some(ObservationMissing), Some(ObservationStale)}
  {}

  lemma BlockerIsNoLastReason(t: Trace, w: World, c: Clock, p: Policy)
    ensures !LastReason(MatchBlocker(t, w, c, p))
  {
    var r := t.reconciliation;
    ResultGuardsAnswer(r, c, p);
    EvidenceGuardsAnswer(r);
    BalanceGuardAnswers(t, w);
    FirstOfSix(InvalidResult(r, c.resultCheck), StaleObservation(r, c.staleCheck, p), InvalidEvidence(r),
               MissingEvidence(r), StatusConflict(r), BalanceConflict(t, w));
  }

  lemma ClaimedIsNotInconclusive(t: Trace, w: World, c: Clock, p: Policy)
    requires ClaimsSettled(t.reconciliation)
    ensures !Inconclusive(t.reconciliation, c, p)
    ensures Decide(t, w, c, p).Handoff? ==> !LastReason(Some(Decide(t, w, c, p).reason))
  {
    SettledMatchEnds(t, w, c, p);
    BlockerIsNoLastReason(t, w, c, p);
  }

  lemma NoLastReason(t: Trace, w: World, c: Clock, p: Policy)
    requires MatchBlocker(t, w, c, p).Some? || MismatchHandoff(t.reconciliation, p).Some?
    requires !ClaimsSettled(t.reconciliation)
    ensures Decide(t, w, c, p).Handoff? ==> !LastReason(Some(Decide(t, w, c, p).reason))
  {
    BlockerIsNoLastReason(t, w, c, p);
  }

  // What the guards look at

  /** The orders of the trace: those of its bot, its run, and its unwind action or else its intent, if it names them. */
  lemma OrdersOfTrace(t: Trace, w: World, o: Order)
    ensures o in TraceOrders(t, w) <==>
            && o in w.orders
            && t.botId in {"", o.botId} && t.runId in {"", o.runId}
            && (if t.linkedUnwindActionId != "" then t.linkedUnwindActionId else t.intentId) in {"", o.intentId}
  {}

  /** The exchanges a match has to cover: the two that the intent names, as far as it does. */
  lemma ExchangesOfTrace(t: Trace, w: World, exchange: string)
    ensures exchange in RelevantExchanges(t, w) <==>
            && exchange != "" && TraceIntentId(t) != "" && TraceIntentId(t) in w.intents
            && var intent := w.intents[TraceIntentId(t)];
               exists name :: Some(name) in {intent.buyExchange, intent.sellExchange} && Strip(name) == exchange
  {
    if TraceIntent(t, w).Some? {
      var intent := TraceIntent(t, w).value;
      if intent.buyExchange.Some? {
        assert Some(intent.buyExchange.value) in {intent.buyExchange, intent.sellExchange};
      }
      if intent.sellExchange.Some? {
        assert Some(intent.sellExchange.value) in {intent.buyExchange, intent.sellExchange};
      }
    }
  }
}
