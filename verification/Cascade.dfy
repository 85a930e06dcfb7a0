/**
 The guards `_process_trace` asks in order, the decision they add up to, and what that decision
 means: exactly which traces resolve, which are handed off, and which are left alone.
 */
module Cascade {
  import opened Text
  import opened RecoveryModel
  import opened Evidence

  // The clock is read anew by each guard that needs it.
  datatype Clock = Clock(resultCheck: Instant, staleCheck: Instant, unwindCheck: Instant, ageCheck: Instant)

  datatype Decision = Resolve(resolution: ResolutionReason) | Handoff(reason: HandoffReason) | NoChange

  // Guards over the reconciliation fields

  predicate HasPartialFields(r: Reconciliation) {
    || r.source.Some? || !r.openOrderCount.Absent? || !r.residual.Absent? || !r.observedAt.Absent?
    || !r.attemptCount.Absent? || !r.matchedCount.Absent? || !r.mismatchCount.Absent?
    || !r.mismatchStreak.Absent? || !r.orderIds.Absent? || !r.fillIds.Absent?
    || !r.orderStatuses.Absent? || !r.balances.Absent? || r.otherKeys
  }

  // A count the invalid-result guard lets pass: a parsed number, not a bool, not negative.
  predicate BadCount(raw: Raw<Number>) {
    || (raw.Value? && raw.value.Bool?)
    || ParseInt(raw).None?
    || ParseInt(raw).value < 0
  }

  predicate BadCoreField(r: Reconciliation, now: Instant) {
    || BadCount(r.openOrderCount)
    || ParseDecimal(r.residual).None? || ParseDecimal(r.residual).value < 0.0
    || r.observedAt.Malformed? || (r.observedAt.Value? && r.observedAt.value > now)
    || (r.verdict.Mismatch? && !r.mismatchStreak.Absent? && BadCount(r.mismatchStreak))
  }

  function InvalidResult(r: Reconciliation, now: Instant): Option<HandoffReason> {
    if r.verdict.VerdictAbsent? && !HasPartialFields(r) then None
    else if !r.verdict.Matched? && !r.verdict.Mismatch? then Some(ResultInvalid)
    else if BadCoreField(r, now) then Some(ResultInvalid)
    else None
  }

  // The shared entry test of the five guards that look at a settled match.
  predicate ClaimsSettled(r: Reconciliation) {
    r.verdict.Matched? && ParseInt(r.openOrderCount) == Some(0) && ParseDecimal(r.residual) == Some(0.0)
  }

  function StaleObservation(r: Reconciliation, now: Instant, p: Policy): Option<HandoffReason> {
    if !ClaimsSettled(r) then None
    else if !r.observedAt.Value? then Some(ObservationMissing)
    else if AgeSeconds(now, r.observedAt.value) < p.staleAfterSeconds then None
    else Some(ObservationStale)
  }

  // Present, not null, and refused by its validator.
  predicate BadEvidence<T, U>(raw: Raw<T>, observed: Option<U>) {
    !raw.Absent? && !raw.Null? && observed.None?
  }

  predicate AnyBadEvidence(r: Reconciliation) {
    || BadEvidence(r.orderIds, ObservedStringIds(r.orderIds))
    || BadEvidence(r.fillIds, ObservedStringIds(r.fillIds))
    || BadEvidence(r.orderStatuses, ObservedOrderStatuses(r.orderStatuses))
    || BadEvidence(r.balances, ObservedBalances(r.balances))
  }

  function InvalidEvidence(r: Reconciliation): Option<HandoffReason> {
    if !r.verdict.Matched? && !r.verdict.Mismatch? then None
    else if ParseInt(r.openOrderCount).None? || ParseDecimal(r.residual).None? then None
    else if AnyBadEvidence(r) then Some(EvidenceInvalid)
    else None
  }

  predicate NonEmpty<T>(observed: Option<seq<T>>) {
    observed.Some? && |observed.value| > 0
  }

  function MissingEvidence(r: Reconciliation): Option<HandoffReason> {
    if !ClaimsSettled(r) then None
    else if NonEmpty(ObservedStringIds(r.fillIds)) || NonEmpty(ObservedOrderStatuses(r.orderStatuses)) ||
            NonEmpty(ObservedBalances(r.balances)) then None
    else Some(HandoffReason.EvidenceMissing)
  }

  predicate AnyFailed(statuses: seq<ObservedStatus>) {
    exists s :: s in statuses && s.status.Failure()
  }

  predicate AnyNonTerminal(statuses: seq<ObservedStatus>) {
    exists s :: s in statuses && !s.status.Terminal()
  }

  predicate AllFailed(statuses: seq<ObservedStatus>) {
    forall s :: s in statuses ==> s.status.Failure()
  }

  function StatusConflict(r: Reconciliation): Option<HandoffReason> {
    var observed := ObservedOrderStatuses(r.orderStatuses);
    if !ClaimsSettled(r) || !NonEmpty(observed) then None
    else if AnyFailed(observed.value) then Some(TerminalFailureStatusConflict)
    else if AnyNonTerminal(observed.value) then Some(OpenOrderStatusConflict)
    else None
  }

  function NonBlank(text: Option<string>): set<string> {
    if text.Some? && Strip(text.value) != "" then {Strip(text.value)} else {}
  }

  function TraceIntent(t: Trace, w: World): Option<Intent> {
    var id := TraceIntentId(t);
    if id != "" && id in w.intents then Some(w.intents[id]) else None
  }

  function RelevantExchanges(t: Trace, w: World): set<string> {
    match TraceIntent(t, w)
    case Some(intent) => NonBlank(intent.buyExchange) + NonBlank(intent.sellExchange)
    case None => {}
  }

  function RelevantAssets(t: Trace, w: World): set<string> {
    match TraceIntent(t, w)
    case Some(intent) => MarketAssets(intent.market)
    case None => {}
  }

  predicate Covered(balances: seq<ObservedBalance>, exchange: string, asset: string) {
    exists b :: b in balances && b.exchange == exchange && b.asset == asset
  }

  predicate AllCovered(balances: seq<ObservedBalance>, exchanges: set<string>, assets: set<string>) {
    forall e, a | e in exchanges && a in assets :: Covered(balances, e, a)
  }

  predicate AnyLocked(balances: seq<ObservedBalance>, exchanges: set<string>, assets: set<string>) {
    exists b :: b in balances && b.exchange in exchanges && b.asset in assets && b.locked > 0.0
  }

  function BalanceConflict(t: Trace, w: World): Option<HandoffReason> {
    var exchanges, assets := RelevantExchanges(t, w), RelevantAssets(t, w);
    var observed := ObservedBalances(t.reconciliation.balances);
    if !ClaimsSettled(t.reconciliation) then None
    else if |exchanges| < 2 then Some(ContextMissing)
    else if assets == {} then Some(MarketContextMissing)
    else if !NonEmpty(observed) || !AllCovered(observed.value, exchanges, assets) then Some(BalanceEvidenceIncomplete)
    else if AnyLocked(observed.value, exchanges, assets) then Some(HandoffReason.BalanceLocked)
    else None
  }

  function Resolution(r: Reconciliation): Option<ResolutionReason> {
    if ClaimsSettled(r) then Some(MatchedZeroResidual) else None
  }

  function MismatchHandoff(r: Reconciliation, p: Policy): Option<HandoffReason> {
    var streak, count, residual := ParseInt(r.mismatchStreak), ParseInt(r.openOrderCount), ParseDecimal(r.residual);
    var observed := ObservedOrderStatuses(r.orderStatuses);
    if !r.verdict.Mismatch? then None
    else if streak.Some? && streak.value >= p.mismatchHandoffCount then Some(MismatchRepeated)
    else if count.Some? && count.value > 0 && NonEmpty(observed) && |observed.value| >= count.value
            && AllFailed(observed.value) then Some(OpenOrdersTerminalFailure)
    else if count.Some? && count.value > 0 && NonEmpty(observed) && |observed.value| >= count.value
            && !AnyNonTerminal(observed.value) then Some(OpenOrdersTerminalStatusConflict)
    else if count.None? || count.value < 0 then None
    else if count.value == 0 && NonEmpty(observed) && AnyNonTerminal(observed.value)
    then Some(ZeroOpenOrdersStatusConflict)
    else if residual.None? then None
    else if count.value == 0 && residual.value == 0.0 then Some(MismatchZeroResidualConflict)
    else if count.value == 0 && residual.value > 0.0 then Some(MismatchResidualWithoutOrders)
    else None
  }

  // Guards over the store's orders

  function FindOrder(orders: seq<Order>, id: string): Option<Order> {
    if orders == [] then None
    else if orders[0].orderId == id then Some(orders[0])
    else FindOrder(orders[1..], id)
  }

  function LinkedUnwindOrder(t: Trace, w: World): Option<Order> {
    if t.linkedUnwindOrderId == "" then None else FindOrder(w.orders, t.linkedUnwindOrderId)
  }

  predicate UnwindFailed(t: Trace, w: World) {
    var order := LinkedUnwindOrder(t, w);
    order.Some? && SpellsFailure(order.value.status)
  }

  function FirstOf(a: Option<Instant>, b: Option<Instant>): Option<Instant> {
    if a.Some? then a else b
  }

  predicate UnwindStale(t: Trace, w: World, now: Instant, p: Policy) {
    var order := LinkedUnwindOrder(t, w);
    && order.Some?
    && !IsTerminalOrder(order.value)
    && var seen := FirstOf(order.value.updatedAt, FirstOf(order.value.submittedAt, order.value.createdAt));
       seen.Some? && AgeSeconds(now, seen.value) >= p.submitTimeoutSeconds
  }

  predicate HasActiveOrders(orders: seq<Order>) {
    exists o :: o in orders && !IsTerminalOrder(o)
  }

  predicate Overdue(t: Trace, now: Instant, p: Policy) {
    var since := FirstOf(t.openedAt, t.createdAt);
    since.Some? && AgeSeconds(now, since.value) > p.handoffAfterSeconds && !t.manualHandoffRequired
  }

  // The cascade

  function FirstReason(a: Option<HandoffReason>, b: Option<HandoffReason>): Option<HandoffReason> {
    if a.Some? then a else b
  }

  /** The six guards that come before a matched reconciliation may resolve the trace. */
  function MatchBlocker(t: Trace, w: World, c: Clock, p: Policy): Option<HandoffReason> {
    var r := t.reconciliation;
    FirstReason(InvalidResult(r, c.resultCheck),
    FirstReason(StaleObservation(r, c.staleCheck, p),
    FirstReason(InvalidEvidence(r),
    FirstReason(MissingEvidence(r),
    FirstReason(StatusConflict(r),
                BalanceConflict(t, w))))))
  }

  function Decide(t: Trace, w: World, c: Clock, p: Policy): Decision {
    var blocker := MatchBlocker(t, w, c, p);
    if blocker.Some? then Handoff(blocker.value)
    else if Resolution(t.reconciliation).Some? then Resolve(Resolution(t.reconciliation).value)
    else if MismatchHandoff(t.reconciliation, p).Some? then Handoff(MismatchHandoff(t.reconciliation, p).value)
    else if UnwindFailed(t, w) then Handoff(UnwindOrderTerminal)
    else if UnwindStale(t, w, c.unwindCheck, p) then Handoff(UnwindOrderTimeout)
    else if !HasActiveOrders(TraceOrders(t, w)) && ParseDecimal(t.residualExposureQuote) == Some(0.0)
    then Resolve(NoActiveOrdersAndZeroResidual)
    else if Overdue(t, c.ageCheck, p) then Handoff(RecoveryTimeoutExceeded)
    else NoChange
  }

  // What a matched resolution means, with no reference to the guards or their order

  ghost predicate EvidenceSound<T, U>(raw: Raw<T>, observed: Option<U>) {
    raw.Absent? || raw.Null? || observed.Some?
  }

  ghost predicate AllEvidenceSound(r: Reconciliation) {
    && EvidenceSound(r.orderIds, ObservedStringIds(r.orderIds))
    && EvidenceSound(r.fillIds, ObservedStringIds(r.fillIds))
    && EvidenceSound(r.orderStatuses, ObservedOrderStatuses(r.orderStatuses))
    && EvidenceSound(r.balances, ObservedBalances(r.balances))
  }

  ghost predicate Settled(r: Reconciliation) {
    r.verdict == Matched && r.openOrderCount in {Value(Int(0)), Value(Spelled(0))} && r.residual == Value(0.0)
  }

  ghost predicate ObservedRecently(r: Reconciliation, c: Clock, p: Policy) {
    && r.observedAt.Value? && r.observedAt.value <= c.resultCheck
    && AgeSeconds(c.staleCheck, r.observedAt.value) < p.staleAfterSeconds
  }

  ghost predicate OnlyFilled(raw: Raw<seq<StatusItem>>) {
    raw.Value? ==> forall i | 0 <= i < |raw.value| ::
      WellFormedStatus(raw.value[i]) && StatusOf(raw.value[i]).status == OrderFilled
  }

  ghost predicate Funds(item: BalanceItem, exchange: string, asset: string) {
    WellFormedBalance(item) && BalanceOf(item).exchange == exchange && BalanceOf(item).asset == asset
  }

  /** Some row of the list is for this exchange and asset, and it has nothing locked. */
  ghost predicate FundsFree(items: seq<BalanceItem>, exchange: string, asset: string) {
    && (exists i :: 0 <= i < |items| && Funds(items[i], exchange, asset))
    && (forall i | 0 <= i < |items| && Funds(items[i], exchange, asset) :: items[i].locked.value == 0.0)
  }

  /** The intent names two exchanges and two assets, and all four balances are there and free. */
  ghost predicate Funded(t: Trace, w: World) {
    var exchanges, assets := RelevantExchanges(t, w), RelevantAssets(t, w);
    && |exchanges| == 2 && assets != {}
    && t.reconciliation.balances.Value?
    && forall e, a | e in exchanges && a in assets :: FundsFree(t.reconciliation.balances.value, e, a)
  }

  ghost predicate MatchedAndSettled(t: Trace, w: World, c: Clock, p: Policy) {
    && Settled(t.reconciliation)
    && ObservedRecently(t.reconciliation, c, p)
    && AllEvidenceSound(t.reconciliation)
    && OnlyFilled(t.reconciliation.orderStatuses)
    && Funded(t, w)
  }

  lemma StatusGuardMeansFilled(r: Reconciliation)
    requires ClaimsSettled(r) && EvidenceSound(r.orderStatuses, ObservedOrderStatuses(r.orderStatuses))
    ensures StatusConflict(r).None? <==> OnlyFilled(r.orderStatuses)
  {
    var observed := ObservedOrderStatuses(r.orderStatuses);
    if observed.Some? {
      var items := r.orderStatuses.value;
      forall i | 0 <= i < |items|
        ensures observed.value[i] == StatusOf(items[i]) && observed.value[i] in observed.value
      {}
    }
  }

  lemma ExchangesAtMostTwo(t: Trace, w: World)
    ensures |RelevantExchanges(t, w)| <= 2
  {
    if TraceIntent(t, w).Some? {
      var intent := TraceIntent(t, w).value;
      assert |NonBlank(intent.buyExchange) + NonBlank(intent.sellExchange)| <= 2;
    }
  }

  lemma RowsMatch(items: seq<BalanceItem>, observed: seq<ObservedBalance>)
    requires ObservedBalances(Value(items)) == Some(observed)
    ensures |items| == |observed|
    ensures forall i | 0 <= i < |items| ::
              WellFormedBalance(items[i]) && observed[i] == BalanceOf(items[i]) && observed[i].locked >= 0.0
  {}

  lemma PairFree(items: seq<BalanceItem>, observed: seq<ObservedBalance>, e: string, a: string)
    requires ObservedBalances(Value(items)) == Some(observed)
    ensures FundsFree(items, e, a) <==>
            Covered(observed, e, a) && !exists b :: b in observed && b.exchange == e && b.asset == a && b.locked > 0.0
  {
    RowsMatch(items, observed);
    forall i | 0 <= i < |items|
      ensures observed[i] in observed
      ensures Funds(items[i], e, a) <==> observed[i].exchange == e && observed[i].asset == a
      ensures items[i].locked.value == observed[i].locked
    {}
  }

  lemma AllPairsFree(
    items: seq<BalanceItem>, observed: seq<ObservedBalance>, exchanges: set<string>, assets: set<string>)
    requires ObservedBalances(Value(items)) == Some(observed)
    ensures (forall e, a | e in exchanges && a in assets :: FundsFree(items, e, a)) <==>
            AllCovered(observed, exchanges, assets) && !AnyLocked(observed, exchanges, assets)
  {
    forall e, a | e in exchanges && a in assets
      ensures FundsFree(items, e, a) <==>
              Covered(observed, e, a) && !exists b :: b in observed && b.exchange == e && b.asset == a && b.locked > 0.0
    {
      PairFree(items, observed, e, a);
    }
    if AnyLocked(observed, exchanges, assets) {
      var b :| b in observed && b.exchange in exchanges && b.asset in assets && b.locked > 0.0;
      assert !FundsFree(items, b.exchange, b.asset);
    }
  }

  lemma CoverageNeedsRows(exchanges: set<string>, assets: set<string>)
    requires |exchanges| == 2 && assets != {}
    ensures !AllCovered([], exchanges, assets)
  {
    var e :| e in exchanges;
    var a :| a in assets;
    assert !Covered([], e, a);
  }

  lemma BalanceGuardMeansFunded(t: Trace, w: World)
    requires ClaimsSettled(t.reconciliation)
    requires EvidenceSound(t.reconciliation.balances, ObservedBalances(t.reconciliation.balances))
    ensures BalanceConflict(t, w).None? <==> Funded(t, w)
    ensures Funded(t, w) ==> NonEmpty(ObservedBalances(t.reconciliation.balances))
  {
    var exchanges, assets := RelevantExchanges(t, w), RelevantAssets(t, w);
    var raw := t.reconciliation.balances;
    ExchangesAtMostTwo(t, w);
    if |exchanges| == 2 && assets != {} && raw.Value? {
      AllPairsFree(raw.value, ObservedBalances(raw).value, exchanges, assets);
      CoverageNeedsRows(exchanges, assets);
    }
  }

  lemma ResultAndClock(r: Reconciliation, c: Clock, p: Policy)
    requires ClaimsSettled(r)
    ensures InvalidResult(r, c.resultCheck).None? && StaleObservation(r, c.staleCheck, p).None? <==>
            Settled(r) && ObservedRecently(r, c, p)
  {}

  lemma EvidenceGuard(r: Reconciliation)
    requires ClaimsSettled(r)
    ensures InvalidEvidence(r).None? <==> AllEvidenceSound(r)
  {}

  lemma NoReasonAtAll(t: Trace, w: World, c: Clock, p: Policy)
    ensures MatchBlocker(t, w, c, p).None? <==>
            var r := t.reconciliation;
            && InvalidResult(r, c.resultCheck).None? && StaleObservation(r, c.staleCheck, p).None?
            && InvalidEvidence(r).None? && MissingEvidence(r).None?
            && StatusConflict(r).None? && BalanceConflict(t, w).None?
  {}

  /** The six guards together let a settled match pass exactly when it is one in earnest. */
  lemma MatchUnblocked(t: Trace, w: World, c: Clock, p: Policy)
    requires ClaimsSettled(t.reconciliation)
    ensures MatchBlocker(t, w, c, p).None? <==> MatchedAndSettled(t, w, c, p)
  {
    var r := t.reconciliation;
    NoReasonAtAll(t, w, c, p);
    ResultAndClock(r, c, p);
    EvidenceGuard(r);
    if AllEvidenceSound(r) {
      StatusGuardMeansFilled(r);
      BalanceGuardMeansFunded(t, w);
    }
  }

  /** A settled match is never left alone: the cascade resolves it or hands it off. */
  lemma SettledMatchEnds(t: Trace, w: World, c: Clock, p: Policy)
    requires ClaimsSettled(t.reconciliation)
    ensures Decide(t, w, c, p) ==
            if MatchBlocker(t, w, c, p).None? then Resolve(MatchedZeroResidual)
            else Handoff(MatchBlocker(t, w, c, p).value)
  {}

  /** The whole cascade, read as one predicate. */
  lemma CascadeIsOnePredicate(t: Trace, w: World, c: Clock, p: Policy)
    ensures Decide(t, w, c, p) == Resolve(MatchedZeroResidual) <==> MatchedAndSettled(t, w, c, p)
  {
    if ClaimsSettled(t.reconciliation) {
      MatchUnblocked(t, w, c, p);
    }
  }

  // The other ways out

  /** A count is a non-negative int, or a text that spells one. */
  ghost predicate SoundCount(raw: Raw<Number>) {
    raw.Value? && !raw.value.Bool? && raw.value.n >= 0
  }

  /** A verdict with fields that can be read and make sense, or no reconciliation at all. */
  ghost predicate SoundResult(r: Reconciliation, now: Instant) {
    || r == NO_RECONCILIATION
    || (&& (r.verdict == Matched || r.verdict == Mismatch)
        && SoundCount(r.openOrderCount)
        && r.residual.Value? && r.residual.value >= 0.0
        && (r.observedAt.Absent? || r.observedAt.Null? || (r.observedAt.Value? && r.observedAt.value <= now))
        && (r.verdict == Mismatch ==> r.mismatchStreak.Absent? || SoundCount(r.mismatchStreak)))
  }

  ghost predicate StillOpen(status: OrderStatus) {
    status in {OrderNew, OrderSubmitted, OrderPartiallyFilled}
  }

  ghost predicate SomeOpen(raw: Raw<seq<StatusItem>>) {
    && raw.Value?
    && exists i :: 0 <= i < |raw.value| && WellFormedStatus(raw.value[i]) && StillOpen(StatusOf(raw.value[i]).status)
  }

  /**
   A mismatch that may yet clear up: orders are open, it was not seen too often, and the statuses, if there is one
   for each open order, do not all say that the orders are done.
   */
  ghost predicate MayClearUp(r: Reconciliation, p: Policy) {
    && SoundCount(r.openOrderCount) && r.openOrderCount.value.n > 0
    && (SoundCount(r.mismatchStreak) ==> r.mismatchStreak.value.n < p.mismatchHandoffCount)
    && (r.orderStatuses.Value? ==> |r.orderStatuses.value| < r.openOrderCount.value.n || SomeOpen(r.orderStatuses))
  }

  /** No reconciliation at all, a sound match that is not settled, or a sound mismatch that may yet clear up. */
  ghost predicate Inconclusive(r: Reconciliation, c: Clock, p: Policy) {
    && SoundResult(r, c.resultCheck) && AllEvidenceSound(r)
    && (r.verdict == Matched ==> !Settled(r))
    && (r.verdict == Mismatch ==> MayClearUp(r, p))
  }

  lemma ResultGuardMeansSound(r: Reconciliation, now: Instant)
    ensures InvalidResult(r, now).None? <==> SoundResult(r, now)
    ensures InvalidResult(r, now).Some? ==> InvalidResult(r, now).value == ResultInvalid
  {}

  lemma ObservedOpen(raw: Raw<seq<StatusItem>>)
    requires ObservedOrderStatuses(raw).Some?
    ensures raw.Value? && |ObservedOrderStatuses(raw).value| == |raw.value|
    ensures AnyNonTerminal(ObservedOrderStatuses(raw).value) <==> SomeOpen(raw)
  {
    var rows := ObservedOrderStatuses(raw).value;
    forall i | 0 <= i < |rows|
      ensures WellFormedStatus(raw.value[i]) && rows[i] == StatusOf(raw.value[i]) && rows[i] in rows
    {}
  }

  /** A sound mismatch is handed off for its own sake exactly when it will not clear up. */
  lemma MismatchGuardMeansHopeless(r: Reconciliation, now: Instant, p: Policy)
    requires r.verdict == Mismatch && SoundResult(r, now) && AllEvidenceSound(r)
    ensures MismatchHandoff(r, p).None? <==> MayClearUp(r, p)
  {
    if ObservedOrderStatuses(r.orderStatuses).Some? {
      ObservedOpen(r.orderStatuses);
    }
  }

  lemma InconclusiveMeansNoReason(t: Trace, w: World, c: Clock, p: Policy)
    requires !ClaimsSettled(t.reconciliation)
    ensures Inconclusive(t.reconciliation, c, p) <==>
            MatchBlocker(t, w, c, p).None? && MismatchHandoff(t.reconciliation, p).None?
  {
    var r := t.reconciliation;
    NoReasonAtAll(t, w, c, p);
    ResultGuardMeansSound(r, c.resultCheck);
    if SoundResult(r, c.resultCheck) && r.verdict == Mismatch && AllEvidenceSound(r) {
      MismatchGuardMeansHopeless(r, c.resultCheck, p);
    }
  }

  ghost predicate QuietAndFlat(t: Trace, w: World, c: Clock, p: Policy) {
    && Inconclusive(t.reconciliation, c, p)
    && !UnwindFailed(t, w) && !UnwindStale(t, w, c.unwindCheck, p)
    && (forall o :: o in TraceOrders(t, w) ==> IsTerminalOrder(o))
    && t.residualExposureQuote == Value(0.0)
  }

  /** There are two ways to resolve a trace and no third. */
  lemma OnlyTwoWaysToResolve(t: Trace, w: World, c: Clock, p: Policy)
    ensures Decide(t, w, c, p).Resolve? <==> MatchedAndSettled(t, w, c, p) || QuietAndFlat(t, w, c, p)
    ensures !(MatchedAndSettled(t, w, c, p) && QuietAndFlat(t, w, c, p))
  {
    CascadeIsOnePredicate(t, w, c, p);
    if !ClaimsSettled(t.reconciliation) {
      InconclusiveMeansNoReason(t, w, c, p);
    }
  }

  /**
   A trace is left alone exactly when its reconciliation says nothing, its unwind order is in no
   trouble, it is not flat, and it is not overdue: in particular no overdue trace is left alone.
   */
  lemma LeftAloneExactlyWhen(t: Trace, w: World, c: Clock, p: Policy)
    ensures Decide(t, w, c, p) == NoChange <==>
            && Inconclusive(t.reconciliation, c, p)
            && !UnwindFailed(t, w) && !UnwindStale(t, w, c.unwindCheck, p)
            && !QuietAndFlat(t, w, c, p)
            && !Overdue(t, c.ageCheck, p)
  {
    if !ClaimsSettled(t.reconciliation) {
      InconclusiveMeansNoReason(t, w, c, p);
    }
  }
}
