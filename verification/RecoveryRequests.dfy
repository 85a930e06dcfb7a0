/** The operator's own reconciliation result, as the endpoint that records one writes it. */
module RecoveryRequests {
  import opened Text
  import opened RecoveryModel
  import opened RecoveryStore

  type Amount = x: real | x >= 0.0

  /** A request that passed the endpoint's checks; `source` is "operator_recorded" when the request names none. */
  datatype Record = Record(
    matched: bool,
    openOrderCount: nat,
    residual: Amount,
    source: Source,
    observedAt: Option<Instant>,
    orderIds: Option<seq<IdItem>>,
    fillIds: Option<seq<IdItem>>,
    orderStatuses: Option<seq<StatusItem>>,
    balances: Option<seq<BalanceItem>>)

  // What a request leaves out is stored as null.
  function OrNull<T>(o: Option<T>): Raw<T> {
    match o case Some(value) => Value(value) case None => Null
  }

  function Noted(r: Reconciliation, rec: Record): Reconciliation {
    Reconciliation(
      if rec.matched then Matched else Mismatch,
      Some(rec.source),
      Value(Int(rec.openOrderCount)),
      Value(rec.residual),
      OrNull(rec.observedAt),
      Value(Int(StoredInt(r.attemptCount) + 1)),
      Value(Int(StoredInt(r.matchedCount) + (if rec.matched then 1 else 0))),
      Value(Int(StoredInt(r.mismatchCount) + (if rec.matched then 0 else 1))),
      Value(Int(if rec.matched then 0 else StoredInt(r.mismatchStreak) + 1)),
      OrNull(rec.orderIds),
      OrNull(rec.fillIds),
      OrNull(rec.orderStatuses),
      OrNull(rec.balances),
      true)
  }

  /** The trace with the operator's result in place of whatever was recorded before. */
  function OperatorRecorded(t: Trace, rec: Record): Trace {
    t.(reconciliation := Noted(t.reconciliation, rec))
  }

  function RecordIn(s: Store, id: string, rec: Record, now: Instant): Store {
    if id !in s.traces || s.traces[id].status.Terminal() then s
    else WriteTrace(s, OperatorRecorded(s.traces[id], rec), now)
  }

  datatype RecordOutcome = Accepted | TraceNotFound | TraceTerminal

  method RecordReconciliation(redis: RedisRuntime, id: string, rec: Record, now: Instant)
    returns (outcome: RecordOutcome)
    requires Keyed(redis.State())
    modifies redis
    ensures redis.State() == RecordIn(old(redis.State()), id, rec, now)
    ensures outcome.TraceNotFound? <==> id !in old(redis.traces)
    ensures outcome.TraceTerminal? <==> id in old(redis.traces) && old(redis.traces)[id].status.Terminal()
  {
    if id !in redis.traces {
      return TraceNotFound;
    }
    var current := redis.traces[id];
    if current.status == Resolved || current.status == Cancelled {
      return TraceTerminal;
    }
    var r := current.reconciliation;
    var attempts := StoredInt(r.attemptCount) + 1;
    var matches, mismatches, streak :=
      StoredInt(r.matchedCount), StoredInt(r.mismatchCount), StoredInt(r.mismatchStreak);
    if rec.matched {
      matches, streak := matches + 1, 0;
    } else {
      mismatches, streak := mismatches + 1, streak + 1;
    }
    var patched := Reconciliation(
      if rec.matched then Matched else Mismatch, Some(rec.source), Value(Int(rec.openOrderCount)), Value(rec.residual),
      OrNull(rec.observedAt), Value(Int(attempts)), Value(Int(matches)), Value(Int(mismatches)), Value(Int(streak)),
      OrNull(rec.orderIds), OrNull(rec.fillIds), OrNull(rec.orderStatuses), OrNull(rec.balances), true);
    redis.StoreAndMirror(current.(reconciliation := patched), now);
    outcome := Accepted;
  }
}
