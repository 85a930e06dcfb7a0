/** How long a trace can stay active: bounded waiting, and a measure on automatic reconciliation. */
module RecoveryProgress {
  import opened Text
  import opened RecoveryModel
  import opened Snapshot
  import opened Cascade
  import opened RecoveryStore
  import opened RecoveryRequests
  import opened RecoveryRuntime

  /** A process step leaves in the store what `Processed` says, up to the update time. */
  lemma ProcessStepStores(s: Store, id: string, x: Inputs, p: Policy)
    requires Keyed(s) && id != "" && id in s.traces && s.traces[id].status.Active?
    ensures var s' := Apply(s, ProcessStep(id, x), p);
      id in s'.traces && Stamped(s'.traces[id], 0) == Stamped(Processed(s.traces[id], x, p), 0)
  {
    OutcomeStores(s, s.traces[id], SnapshotFor(s.traces[id], x), DecisionFor(s.traces[id], x, p), x.now);
  }

  lemma OutcomeStores(s: Store, t: Trace, snapshot: Option<Snapshot>, d: Decision, now: Instant)
    requires t.id in s.traces && s.traces[t.id] == t
    ensures var s' := WriteOutcome(s, t, snapshot, d, now);
      t.id in s'.traces && Stamped(s'.traces[t.id], 0) == Stamped(Decided(RecordedIf(t, snapshot), d), 0)
  {
    var recorded, stored := RecordedIf(t, snapshot), WriteRecorded(s, t, snapshot, now);
    WriteStores(s, recorded, now);
    WriteStores(stored, Decided(recorded, d), now);
  }

  lemma WriteStores(s: Store, t: Trace, now: Instant)
    ensures t.id in WriteTrace(s, t, now).traces && WriteTrace(s, t, now).traces[t.id] == Stamped(t, now)
  {}

  lemma ActiveMeansLeftAlone(t: Trace, x: Inputs, p: Policy)
    requires t.status.Active?
    ensures Processed(t, x, p).status.Active? <==> DecisionFor(t, x, p).NoChange?
    ensures Processed(t, x, p).status in {Active, Resolved, HandoffRequired}
  {}

  /** No trace past its handoff window survives being processed, whatever the exchanges answer. */
  lemma OverdueNeverStaysActive(t: Trace, x: Inputs, p: Policy)
    requires t.status.Active? && Overdue(t, x.clock.ageCheck, p)
    ensures !Processed(t, x, p).status.Active?
  {
    var recorded := AutoRecorded(t, x);
    assert Overdue(recorded, x.clock.ageCheck, p);
    LeftAloneExactlyWhen(recorded, x.world, x.clock, p);
  }

  lemma MatchedSnapshotClaimsSettled(fallback: Option<real>, q: Polling, t: Trace)
    requires TakeSnapshot(fallback, q).Some? && TakeSnapshot(fallback, q).value.matched
    ensures ClaimsSettled(Recorded(t, TakeSnapshot(fallback, q).value).reconciliation)
  {}

  /** A matched snapshot ends the trace's active life on the tick that took it. */
  lemma MatchedSnapshotEnds(t: Trace, x: Inputs, p: Policy)
    requires t.status.Active? && SnapshotFor(t, x).Some? && SnapshotFor(t, x).value.matched
    ensures Processed(t, x, p).status in {Resolved, HandoffRequired}
    ensures Processed(t, x, p).status.Resolved? <==> MatchedAndSettled(AutoRecorded(t, x), x.world, x.clock, p)
  {
    var recorded := AutoRecorded(t, x);
    MatchedSnapshotClaimsSettled(ParseDecimal(t.residualExposureQuote), PollingOf(t, x), t);
    SettledMatchEnds(recorded, x.world, x.clock, p);
    CascadeIsOnePredicate(recorded, x.world, x.clock, p);
  }

  function Streak(t: Trace): int {
    ParseIntOrZero(t.reconciliation.mismatchStreak)
  }

  lemma SurvivingMismatch(t: Trace, snapshot: Snapshot, x: Inputs, p: Policy)
    requires !snapshot.matched && Decide(Recorded(t, snapshot), x.world, x.clock, p).NoChange?
    ensures Streak(Recorded(t, snapshot)) == Streak(t) + 1 < p.mismatchHandoffCount
  {
    LeftAloneExactlyWhen(Recorded(t, snapshot), x.world, x.clock, p);
  }

  /** A snapshot that leaves the trace active was a mismatch, and its streak is still below the limit. */
  lemma ActiveSnapshotRaisesStreak(t: Trace, x: Inputs, p: Policy)
    requires t.status.Active? && SnapshotFor(t, x).Some? && Processed(t, x, p).status.Active?
    ensures !SnapshotFor(t, x).value.matched
    ensures Streak(Processed(t, x, p)) == Streak(t) + 1 < p.mismatchHandoffCount
  {
    if SnapshotFor(t, x).value.matched {
      MatchedSnapshotEnds(t, x, p);
    }
    ActiveMeansLeftAlone(t, x, p);
    SurvivingMismatch(t, SnapshotFor(t, x).value, x, p);
  }

  // One trace over whole runs of the store: ticks over other traces and evaluations, and requests, in between

  /** The step takes a snapshot of the trace. */
  ghost predicate TakesSnapshot(s: Store, step: Step, id: string) {
    && step.ProcessStep? && step.traceId == id && id in s.traces && s.traces[id].status.Active?
    && SnapshotFor(s.traces[id], step.inputs).Some?
  }

  /** The step records an operator's result on the trace. */
  ghost predicate NotesRecord(s: Store, step: Step, id: string) {
    step.RecordStep? && step.traceId == id && id in s.traces && !s.traces[id].status.Terminal()
  }

  ghost function SnapshotsTaken(s: Store, steps: seq<Step>, p: Policy, id: string): nat {
    if steps == [] then 0
    else
      var init := steps[..|steps| - 1];
      SnapshotsTaken(s, init, p, id) + (if TakesSnapshot(Run(s, init, p), steps[|steps| - 1], id) then 1 else 0)
  }

  ghost function RecordsNoted(s: Store, steps: seq<Step>, p: Policy, id: string): nat {
    if steps == [] then 0
    else
      var init := steps[..|steps| - 1];
      RecordsNoted(s, init, p, id) + (if NotesRecord(Run(s, init, p), steps[|steps| - 1], id) then 1 else 0)
  }

  /** The trace is there, and no timeout trace is opened under its id. */
  ghost predicate Tracked(s: Store, steps: seq<Step>, id: string) {
    && Keyed(s) && id != "" && id in s.traces
    && forall i | 0 <= i < |steps| :: steps[i].TimeoutStep? ==> steps[i].freshId != id
  }

  ghost predicate StaysActive(s: Store, steps: seq<Step>, p: Policy, id: string) {
    && id in Run(s, steps, p).traces && Run(s, steps, p).traces[id].status.Active?
    && (steps != [] ==> StaysActive(s, steps[..|steps| - 1], p, id))
  }

  /** Only processing the trace itself and recording a result on it move what is recorded of its reconciliation. */
  lemma StepKeepsReconciliation(s: Store, step: Step, p: Policy, id: string)
    requires Keyed(s) && id in s.traces && (step.TimeoutStep? ==> step.freshId != id)
    requires step.ProcessStep? ==> step.traceId != id || !s.traces[id].status.Active?
    requires !NotesRecord(s, step, id)
    ensures id in Apply(s, step, p).traces && Apply(s, step, p).traces[id].reconciliation == s.traces[id].reconciliation
  {
    match step
    case ProcessStep(other, x) =>
      if other in s.traces && s.traces[other].status.Active? {
        var t := s.traces[other];
        OutcomeTouchesOne(s, t, SnapshotFor(t, x), DecisionFor(t, x, p), x.now);
      }
    case OperatorStep(other, status, lifecycle, patch, now) =>
      if other in s.traces {
        WriteTouchesOne(s, Patched(s.traces[other], status, lifecycle, patch), now);
      }
    case RecordStep(other, rec, now) =>
      if other in s.traces {
        WriteTouchesOne(s, OperatorRecorded(s.traces[other], rec), now);
      }
    case _ =>
  }

  lemma RecordStores(s: Store, step: Step, p: Policy, id: string)
    requires Keyed(s) && NotesRecord(s, step, id)
    ensures var s' := Apply(s, step, p);
      && id in s'.traces && s'.traces[id].status == s.traces[id].status
      && s'.traces[id].reconciliation == Noted(s.traces[id].reconciliation, step.rec)
  {}

  lemma {:induction false} RunKeepsTrack(s: Store, steps: seq<Step>, p: Policy, id: string)
    requires Tracked(s, steps, id)
    ensures Keyed(Run(s, steps, p)) && id in Run(s, steps, p).traces
  {
    if steps != [] {
      var init, last := steps[..|steps| - 1], steps[|steps| - 1];
      RunKeepsTrack(s, init, p, id);
      var before := Run(s, init, p);
      ApplyKeepsKeys(before, last, p);
      StaysStored(before, last, p, id);
    }
  }

  lemma StaysStored(s: Store, step: Step, p: Policy, id: string)
    requires Keyed(s) && id != "" && id in s.traces && (step.TimeoutStep? ==> step.freshId != id)
    ensures id in Apply(s, step, p).traces
  {
    if step.ProcessStep? && step.traceId == id && s.traces[id].status.Active? {
      ProcessStepStores(s, id, step.inputs, p);
    } else if NotesRecord(s, step, id) {
      RecordStores(s, step, p, id);
    } else {
      StepKeepsReconciliation(s, step, p, id);
    }
  }

  // Counts

  /** The runtime and the endpoint read the stored count alike: it is an int, or spells none. */
  predicate ReadAlike(raw: Raw<Number>) {
    StoredInt(raw) == ParseIntOrZero(raw)
  }

  predicate PlainCounts(r: Reconciliation) {
    ReadAlike(r.attemptCount) && ReadAlike(r.matchedCount) && ReadAlike(r.mismatchCount) && ReadAlike(r.mismatchStreak)
  }

  ghost predicate Tallied(t: Trace) {
    var r := t.reconciliation;
    ParseIntOrZero(r.attemptCount) == ParseIntOrZero(r.matchedCount) + ParseIntOrZero(r.mismatchCount)
  }

  function Attempts(t: Trace): int {
    ParseIntOrZero(t.reconciliation.attemptCount)
  }

  lemma OutcomeTally(t: Trace, snapshot: Option<Snapshot>, d: Decision)
    ensures var done := Decided(RecordedIf(t, snapshot), d);
      && (Tallied(done) <==> Tallied(t))
      && Attempts(done) == Attempts(t) + (if snapshot.Some? then 1 else 0)
      && (PlainCounts(t.reconciliation) ==> PlainCounts(done.reconciliation))
  {}

  /** A recorded result adds one attempt exactly if the stored count reads alike from both sides. */
  lemma RecordTally(t: Trace, rec: Record)
    ensures var noted := OperatorRecorded(t, rec);
      && (Attempts(noted) == Attempts(t) + 1 <==> ReadAlike(t.reconciliation.attemptCount))
      && (PlainCounts(t.reconciliation) ==> (Tallied(noted) <==> Tallied(t)))
      && PlainCounts(noted.reconciliation)
  {}

  lemma StepTally(s: Store, step: Step, p: Policy, id: string)
    requires Tracked(s, [step], id) && id in Apply(s, step, p).traces && PlainCounts(s.traces[id].reconciliation)
    ensures var t, t' := s.traces[id], Apply(s, step, p).traces[id];
      && PlainCounts(t'.reconciliation) && (Tallied(t') <==> Tallied(t))
      && Attempts(t') ==
         Attempts(t) + (if TakesSnapshot(s, step, id) then 1 else 0) + (if NotesRecord(s, step, id) then 1 else 0)
  {
    assert [step][0] == step;
    var t := s.traces[id];
    if step.ProcessStep? && step.traceId == id && t.status.Active? {
      ProcessStepStores(s, id, step.inputs, p);
      OutcomeTally(t, SnapshotFor(t, step.inputs), DecisionFor(t, step.inputs, p));
    } else if NotesRecord(s, step, id) {
      RecordStores(s, step, p, id);
      RecordTally(t, step.rec);
    } else {
      StepKeepsReconciliation(s, step, p, id);
    }
  }

  /** Every snapshot and every recorded result is one attempt, a match or a mismatch, over any run, active or not. */
  lemma {:induction false} AttemptsAddUp(s: Store, steps: seq<Step>, p: Policy, id: string)
    requires Tracked(s, steps, id) && PlainCounts(s.traces[id].reconciliation)
    ensures id in Run(s, steps, p).traces
    ensures var t, t' := s.traces[id], Run(s, steps, p).traces[id];
      && PlainCounts(t'.reconciliation) && (Tallied(t') <==> Tallied(t))
      && Attempts(t') == Attempts(t) + SnapshotsTaken(s, steps, p, id) + RecordsNoted(s, steps, p, id)
  {
    RunKeepsTrack(s, steps, p, id);
    if steps != [] {
      var init, last := steps[..|steps| - 1], steps[|steps| - 1];
      AttemptsAddUp(s, init, p, id);
      RunKeepsTrack(s, init, p, id);
      StepTally(Run(s, init, p), last, p, id);
    }
  }

  // The streak, and how many snapshots an active trace can have

  ghost function StreakIn(s: Store, id: string): int
    requires id in s.traces
  {
    Streak(s.traces[id])
  }

  /** The results an operator asks to record on the trace, in order. */
  ghost function RecordsOf(steps: seq<Step>, id: string): seq<Record> {
    if steps == [] then []
    else
      var before, last := RecordsOf(steps[..|steps| - 1], id), steps[|steps| - 1];
      if last.RecordStep? && last.traceId == id then before + [last.rec] else before
  }

  ghost predicate AnyMatched(recs: seq<Record>) {
    exists i :: 0 <= i < |recs| && recs[i].matched
  }

  /** What one step does to the streak of a trace that is active before and after it. */
  lemma StepMovesStreak(s: Store, step: Step, p: Policy, id: string)
    requires Tracked(s, [step], id) && s.traces[id].status.Active? && PlainCounts(s.traces[id].reconciliation)
    requires id in Apply(s, step, p).traces && Apply(s, step, p).traces[id].status.Active?
    ensures TakesSnapshot(s, step, id) ==>
              StreakIn(s, id) + 1 == StreakIn(Apply(s, step, p), id) < p.mismatchHandoffCount
    ensures NotesRecord(s, step, id) ==>
              StreakIn(Apply(s, step, p), id) == if step.rec.matched then 0 else StreakIn(s, id) + 1
    ensures !TakesSnapshot(s, step, id) && !NotesRecord(s, step, id) ==>
              StreakIn(Apply(s, step, p), id) == StreakIn(s, id)
  {
    assert [step][0] == step;
    if step.ProcessStep? && step.traceId == id {
      var t, x := s.traces[id], step.inputs;
      ProcessStepStores(s, id, x, p);
      if SnapshotFor(t, x).Some? {
        ActiveSnapshotRaisesStreak(t, x, p);
      } else {
        ActiveMeansLeftAlone(t, x, p);
      }
    } else if NotesRecord(s, step, id) {
      RecordStores(s, step, p, id);
    } else {
      StepKeepsReconciliation(s, step, p, id);
    }
  }

  /** Snapshots and recorded mismatches since the last recorded match, or since the start. */
  ghost function SinceMatch(s: Store, steps: seq<Step>, p: Policy, id: string): nat {
    if steps == [] then 0
    else
      var init, last := steps[..|steps| - 1], steps[|steps| - 1];
      if NotesRecord(Run(s, init, p), last, id) then (if last.rec.matched then 0 else SinceMatch(s, init, p, id) + 1)
      else SinceMatch(s, init, p, id) + (if TakesSnapshot(Run(s, init, p), last, id) then 1 else 0)
  }

  lemma MatchedMore(recs: seq<Record>, rec: Record)
    ensures AnyMatched(recs + [rec]) <==> AnyMatched(recs) || rec.matched
  {
    var more := recs + [rec];
    assert more[|recs|] == rec;
    if i :| 0 <= i < |recs| && recs[i].matched {
      assert more[i].matched;
    }
  }

  /** While a trace stays active its streak counts what went against it since the last recorded match. */
  lemma {:induction false} StreakCountsSnapshots(s: Store, steps: seq<Step>, p: Policy, id: string)
    requires Tracked(s, steps, id) && PlainCounts(s.traces[id].reconciliation) && StaysActive(s, steps, p, id)
    ensures StreakIn(Run(s, steps, p), id) ==
            (if AnyMatched(RecordsOf(steps, id)) then 0 else StreakIn(s, id)) + SinceMatch(s, steps, p, id)
  {
    if steps != [] {
      var init, last := steps[..|steps| - 1], steps[|steps| - 1];
      StreakCountsSnapshots(s, init, p, id);
      AttemptsAddUp(s, init, p, id);
      RunKeepsTrack(s, init, p, id);
      StepMovesStreak(Run(s, init, p), last, p, id);
      if last.RecordStep? && last.traceId == id {
        MatchedMore(RecordsOf(init, id), last.rec);
      }
    }
  }

  /** Whether the automatic reconciliation still looks after the trace is decided by the last recorded result. */
  ghost predicate LeftToAutomatic(recs: seq<Record>) {
    recs != [] ==> !recs[|recs| - 1].source.OtherSource?
  }

  /** Once a result of another source is recorded, no snapshot is taken of the trace. */
  lemma RecordDecidesWhoMayRecord(t: Trace, rec: Record, x: Inputs)
    ensures MayRecord(OperatorRecorded(t, rec).reconciliation) <==> !rec.source.OtherSource?
    ensures rec.source.OtherSource? ==> SnapshotFor(OperatorRecorded(t, rec), x).None?
  {}

  lemma StepMovesSource(s: Store, step: Step, p: Policy, id: string)
    requires Tracked(s, [step], id) && id in Apply(s, step, p).traces
    ensures TakesSnapshot(s, step, id) ==>
              MayRecord(s.traces[id].reconciliation) && MayRecord(Apply(s, step, p).traces[id].reconciliation)
    ensures NotesRecord(s, step, id) ==>
              (MayRecord(Apply(s, step, p).traces[id].reconciliation) <==> !step.rec.source.OtherSource?)
    ensures !TakesSnapshot(s, step, id) && !NotesRecord(s, step, id) ==>
              (MayRecord(Apply(s, step, p).traces[id].reconciliation) <==> MayRecord(s.traces[id].reconciliation))
  {
    assert [step][0] == step;
    if step.ProcessStep? && step.traceId == id && s.traces[id].status.Active? {
      var t, x := s.traces[id], step.inputs;
      ProcessStepStores(s, id, x, p);
      OutcomeSource(t, SnapshotFor(t, x), DecisionFor(t, x, p));
    } else if NotesRecord(s, step, id) {
      RecordStores(s, step, p, id);
    } else {
      StepKeepsReconciliation(s, step, p, id);
    }
  }

  lemma OutcomeSource(t: Trace, snapshot: Option<Snapshot>, d: Decision)
    ensures MayRecord(Decided(RecordedIf(t, snapshot), d).reconciliation) <==>
            snapshot.Some? || MayRecord(t.reconciliation)
  {}

  lemma {:induction false} SourceIsLastRecords(s: Store, steps: seq<Step>, p: Policy, id: string)
    requires Tracked(s, steps, id) && StaysActive(s, steps, p, id) && RecordsOf(steps, id) != []
    ensures MayRecord(Run(s, steps, p).traces[id].reconciliation) <==> LeftToAutomatic(RecordsOf(steps, id))
  {
    var init, last := steps[..|steps| - 1], steps[|steps| - 1];
    RunKeepsTrack(s, init, p, id);
    StepMovesSource(Run(s, init, p), last, p, id);
    if RecordsOf(init, id) != [] {
      SourceIsLastRecords(s, init, p, id);
    }
  }

  /** The streak that recorded results alone account for, since the last match among them. */
  ghost function RecordedStreak(recs: seq<Record>): nat {
    if recs == [] || recs[|recs| - 1].matched then 0 else RecordedStreak(recs[..|recs| - 1]) + 1
  }

  /** Recorded up to here, the results wiped out the streak and let automatic reconciliation go on below the limit. */
  ghost predicate RestartsAt(recs: seq<Record>, limit: nat) {
    AnyMatched(recs) && LeftToAutomatic(recs) && RecordedStreak(recs) + 2 <= limit
  }

  ghost predicate Restarts(recs: seq<Record>, limit: nat) {
    exists n :: 0 <= n <= |recs| && RestartsAt(recs[..n], limit)
  }

  lemma RestartsLater(recs: seq<Record>, rec: Record, limit: nat)
    requires Restarts(recs, limit)
    ensures Restarts(recs + [rec], limit)
  {
    var n :| 0 <= n <= |recs| && RestartsAt(recs[..n], limit);
    assert (recs + [rec])[..n] == recs[..n];
  }

  lemma RestartsNow(recs: seq<Record>, limit: nat)
    requires RestartsAt(recs, limit)
    ensures Restarts(recs, limit)
  {
    assert recs[..|recs|] == recs;
  }

  lemma {:induction false} StreakAtLeastRecorded(s: Store, steps: seq<Step>, p: Policy, id: string)
    requires Tracked(s, steps, id) && PlainCounts(s.traces[id].reconciliation) && StaysActive(s, steps, p, id)
    requires StreakIn(s, id) >= 0
    ensures StreakIn(Run(s, steps, p), id) >= RecordedStreak(RecordsOf(steps, id))
    ensures !AnyMatched(RecordsOf(steps, id)) ==> StreakIn(Run(s, steps, p), id) >= SnapshotsTaken(s, steps, p, id)
  {
    if steps != [] {
      var init, last := steps[..|steps| - 1], steps[|steps| - 1];
      StreakAtLeastRecorded(s, init, p, id);
      AttemptsAddUp(s, init, p, id);
      RunKeepsTrack(s, init, p, id);
      StepMovesStreak(Run(s, init, p), last, p, id);
      if last.RecordStep? && last.traceId == id {
        MatchedMore(RecordsOf(init, id), last.rec);
        assert RecordsOf(steps, id)[..|RecordsOf(init, id)|] == RecordsOf(init, id);
      }
    }
  }

  /**
   Termination: however ticks and requests follow each other, a trace that starts without a mismatch streak
   has stayed active only if fewer snapshots than the handoff count were taken of it, as long as the recorded
   results do not restart the count.
   */
  lemma {:induction false} ActiveForFewSnapshots(s: Store, steps: seq<Step>, p: Policy, id: string)
    requires ValidPolicy(p) && Tracked(s, steps, id) && PlainCounts(s.traces[id].reconciliation)
    requires StreakIn(s, id) >= 0 && StaysActive(s, steps, p, id)
    requires !Restarts(RecordsOf(steps, id), p.mismatchHandoffCount)
    ensures SnapshotsTaken(s, steps, p, id) <= p.mismatchHandoffCount - 1
  {
    if steps != [] {
      var init, last := steps[..|steps| - 1], steps[|steps| - 1];
      var recs, before := RecordsOf(init, id), Run(s, init, p);
      if last.RecordStep? && last.traceId == id && Restarts(recs, p.mismatchHandoffCount) {
        RestartsLater(recs, last.rec, p.mismatchHandoffCount);
      }
      ActiveForFewSnapshots(s, init, p, id);
      if TakesSnapshot(before, last, id) {
        AttemptsAddUp(s, init, p, id);
        RunKeepsTrack(s, init, p, id);
        StepMovesStreak(before, last, p, id);
        StepMovesSource(before, last, p, id);
        StreakAtLeastRecorded(s, init, p, id);
        if AnyMatched(recs) {
          SourceIsLastRecords(s, init, p, id);
          RestartsNow(recs, p.mismatchHandoffCount);
        }
      }
    }
  }
}
