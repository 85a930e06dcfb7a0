/** What every step keeps, over any run of ticks and operator requests. */
module RecoveryInvariants {
  import opened Text
  import opened RecoveryModel
  import opened Snapshot
  import opened Cascade
  import opened RecoveryStore
  import opened RecoveryRequests
  import opened RecoveryRuntime

  ghost predicate SameRun(t: Trace, u: Trace) {
    t.botId == u.botId && t.runId == u.runId
  }

  ghost predicate OneBlockingPerRun(s: Store) {
    forall i, j | i in s.traces && j in s.traces && s.traces[i].status.Blocking() && s.traces[j].status.Blocking() ::
      SameRun(s.traces[i], s.traces[j]) ==> i == j
  }

  ghost predicate BotsAgree(s: Store) {
    forall id | id in s.traces && s.traces[id].runId in s.evaluations ::
      s.evaluations[s.traces[id].runId].botId == s.traces[id].botId
  }

  ghost predicate ActiveIsOpen(s: Store) {
    forall id | id in s.traces && s.traces[id].status.Active? :: !s.traces[id].lifecycle.Closed?
  }

  /** An evaluation shown as closed has nothing blocking its run. */
  ghost predicate ClosedIsQuiet(s: Store) {
    forall run, id | run in s.evaluations && s.evaluations[run].lifecycle.Closed? && id in s.traces
      && s.traces[id].status.Blocking() ::
      !(s.traces[id].runId == run && s.traces[id].botId == s.evaluations[run].botId)
  }

  ghost predicate Mirrors(e: Evaluation, t: Trace) {
    && e.recoveryStatus == Some(t.status)
    && (t.status.Terminal() ==> e.lifecycle.Closed?)
    && (t.status.HandoffRequired? ==> e.lifecycle.ManualHandoff?)
  }

  /** An evaluation linked to a trace is of the trace's run and shows the trace's status. */
  ghost predicate EvaluationsMirror(s: Store) {
    forall run | run in s.evaluations && s.evaluations[run].recoveryTraceId.Some? ::
      var id := s.evaluations[run].recoveryTraceId.value;
      id in s.traces && s.traces[id].runId == run && Mirrors(s.evaluations[run], s.traces[id])
  }

  ghost predicate Inv(s: Store) {
    Keyed(s) && OneBlockingPerRun(s) && BotsAgree(s) && ActiveIsOpen(s) && ClosedIsQuiet(s) && EvaluationsMirror(s)
  }

  // Which writes are safe

  /** `t` is the only trace of its run that blocks, if any does. */
  ghost predicate Alone(s: Store, t: Trace) {
    forall id | id in s.traces && id != t.id && s.traces[id].status.Blocking() :: !SameRun(s.traces[id], t)
  }

  ghost predicate Continues(s: Store, t: Trace) {
    t.id in s.traces && SameRun(s.traces[t.id], t)
  }

  ghost predicate Starts(s: Store, t: Trace) {
    t.id !in s.traces && (t.runId in s.evaluations ==> s.evaluations[t.runId].botId == t.botId)
  }

  ghost predicate OpenIfActive(s: Store, t: Trace) {
    t.status.Active? ==>
      !t.lifecycle.Closed? && (t.lifecycle.Blank? ==> t.id in s.traces && s.traces[t.id].status.Blocking())
  }

  ghost predicate SafeWrite(s: Store, t: Trace) {
    (Continues(s, t) || Starts(s, t)) && Alone(s, t) && OpenIfActive(s, t)
  }

  lemma WriteKeepsTraces(s: Store, t: Trace, now: Instant)
    requires Inv(s) && SafeWrite(s, t)
    ensures var s' := WriteTrace(s, t, now); Keyed(s') && BotsAgree(s') && ActiveIsOpen(s')
  {}

  lemma WriteKeepsOneBlocking(s: Store, t: Trace, now: Instant)
    requires Inv(s) && SafeWrite(s, t)
    ensures OneBlockingPerRun(WriteTrace(s, t, now))
  {
    var s' := WriteTrace(s, t, now);
    assert s'.traces == s.traces[t.id := Stamped(t, now)];
    forall i, j | i in s'.traces && j in s'.traces && s'.traces[i].status.Blocking() && s'.traces[j].status.Blocking()
      && i != j
      ensures !SameRun(s'.traces[i], s'.traces[j])
    {
      if i != t.id && j != t.id {
        assert s'.traces[i] == s.traces[i] && s'.traces[j] == s.traces[j];
      }
    }
  }

  lemma WriteKeepsClosedQuiet(s: Store, t: Trace, now: Instant)
    requires Inv(s) && SafeWrite(s, t)
    ensures ClosedIsQuiet(WriteTrace(s, t, now))
  {
    var s' := WriteTrace(s, t, now);
    forall run, id | run in s'.evaluations && s'.evaluations[run].lifecycle.Closed? && id in s'.traces
      && s'.traces[id].status.Blocking()
      ensures !(s'.traces[id].runId == run && s'.traces[id].botId == s'.evaluations[run].botId)
    {
      if id != t.id {
        assert s'.traces[id] == s.traces[id];
      }
    }
  }

  lemma WriteKeepsMirror(s: Store, t: Trace, now: Instant)
    requires Inv(s) && SafeWrite(s, t)
    ensures EvaluationsMirror(WriteTrace(s, t, now))
  {}

  lemma WriteKeepsInv(s: Store, t: Trace, now: Instant)
    requires Inv(s) && SafeWrite(s, t)
    ensures Inv(WriteTrace(s, t, now))
  {
    WriteKeepsTraces(s, t, now);
    WriteKeepsOneBlocking(s, t, now);
    WriteKeepsClosedQuiet(s, t, now);
    WriteKeepsMirror(s, t, now);
  }

  // Steps

  lemma CloseKeepsInv(s: Store, runId: string, w: World)
    requires Inv(s)
    ensures Inv(CloseTerminal(s, runId, w))
  {
    var s' := CloseTerminal(s, runId, w);
    if s' != s {
      var e := s.evaluations[runId];
      assert !Blocked(s, e.botId, e.runId);
      forall id | id in s.traces && s.traces[id].status.Blocking()
        ensures !(s.traces[id].runId == runId && s.traces[id].botId == e.botId)
      {
        assert !Matches(s.traces[id], e.botId, e.runId);
      }
    }
  }

  lemma TimeoutKeepsInv(s: Store, runId: string, freshId: string, w: World, now: Instant, p: Policy)
    requires Inv(s) && freshId !in s.traces
    ensures Inv(OpenTimeout(s, runId, freshId, w, now, p))
  {
    if runId in s.evaluations {
      var e := s.evaluations[runId];
      if SubmitTimedOut(e, w, now, p) && !Blocked(s, e.botId, e.runId) {
        var t := TimeoutTrace(freshId, e, now);
        forall id | id in s.traces && s.traces[id].status.Blocking() ensures !SameRun(s.traces[id], t) {
          assert !Matches(s.traces[id], e.botId, e.runId);
        }
        WriteKeepsInv(s, t, now);
      }
    }
  }

  lemma OutcomeKeepsInv(s: Store, id: string, snapshot: Option<Snapshot>, d: Decision, now: Instant)
    requires Inv(s) && id in s.traces && s.traces[id].status.Active?
    ensures Inv(WriteOutcome(s, s.traces[id], snapshot, d, now))
  {
    var t := s.traces[id];
    var recorded := RecordedIf(t, snapshot);
    if snapshot.Some? {
      assert SafeWrite(s, recorded);
      WriteKeepsInv(s, recorded, now);
    }
    var stored := WriteRecorded(s, t, snapshot, now);
    if !d.NoChange? {
      assert stored.traces[id].status.Active? && SameRun(stored.traces[id], t);
      assert SafeWrite(stored, Decided(recorded, d));
      WriteKeepsInv(stored, Decided(recorded, d), now);
    }
  }

  /**
   What an operator request must respect: an active trace is not shown closed, and a trace that does
   not block may only be moved while nothing else blocks its run.
   */
  ghost predicate LegalTransition(s: Store, id: string, status: TraceStatus, lifecycle: Lifecycle) {
    id in s.traces && !s.traces[id].status.Terminal() ==>
      && (status.Active? ==> !lifecycle.Closed? && !lifecycle.Blank?)
      && (s.traces[id].status.Blocking() || Alone(s, s.traces[id]))
  }

  lemma LegalIsSafe(s: Store, id: string, status: TraceStatus, lifecycle: Lifecycle, patch: Patch)
    requires Inv(s) && LegalTransition(s, id, status, lifecycle)
    requires id in s.traces && !s.traces[id].status.Terminal()
    ensures SafeWrite(s, Patched(s.traces[id], status, lifecycle, patch))
  {}

  lemma TransitionKeepsInv(s: Store, id: string, status: TraceStatus, lifecycle: Lifecycle, patch: Patch, now: Instant)
    requires Inv(s) && LegalTransition(s, id, status, lifecycle)
    ensures Inv(Transition(s, id, status, lifecycle, patch, now))
  {
    if id in s.traces && !s.traces[id].status.Terminal() {
      LegalIsSafe(s, id, status, lifecycle, patch);
      WriteKeepsInv(s, Patched(s.traces[id], status, lifecycle, patch), now);
    }
  }

  /** For one blocking trace a run, being alone is not just enough but needed. */
  lemma TransitionKeepsOneBlockingIff(
    s: Store, id: string, status: TraceStatus, lifecycle: Lifecycle, patch: Patch, now: Instant)
    requires Inv(s) && id in s.traces && !s.traces[id].status.Terminal()
    ensures OneBlockingPerRun(Transition(s, id, status, lifecycle, patch, now)) <==>
            (status.Blocking() ==> Alone(s, s.traces[id]))
  {
    var t := s.traces[id];
    var s' := Transition(s, id, status, lifecycle, patch, now);
    assert forall other | other in s.traces && other != id :: s'.traces[other] == s.traces[other];
    assert s'.traces[id].status == status && SameRun(s'.traces[id], t);
    if status.Blocking() && !Alone(s, t) {
      var other :|
        other in s.traces && other != t.id && s.traces[other].status.Blocking() && SameRun(s.traces[other], t);
      assert other in s'.traces && SameRun(s'.traces[other], s'.traces[id]);
    }
  }

  /** What the write endpoints ask for: resolve, hand off, unwind, or cancel orders and change neither. */
  ghost predicate EndpointRequest(t: Trace, status: TraceStatus, lifecycle: Lifecycle) {
    || (status == Resolved && lifecycle == Closed)
    || (status == HandoffRequired && lifecycle == ManualHandoff)
    || (status == Active && lifecycle == UnwindInProgress)
    || (status == t.status && lifecycle == (if t.lifecycle.Blank? then RecoveryRequired else t.lifecycle))
  }

  /** On a store that only ever saw the four known statuses, every endpoint request is legal. */
  lemma EndpointRequestsAreLegal(s: Store, id: string, status: TraceStatus, lifecycle: Lifecycle)
    requires Inv(s) && id in s.traces && !s.traces[id].status.OtherStatus?
    requires EndpointRequest(s.traces[id], status, lifecycle)
    ensures LegalTransition(s, id, status, lifecycle)
  {}

  /** A result may be recorded on a trace that blocks its run, or while nothing else does. */
  ghost predicate LegalRecord(s: Store, id: string) {
    id in s.traces && !s.traces[id].status.Terminal() ==> s.traces[id].status.Blocking() || Alone(s, s.traces[id])
  }

  lemma RecordKeepsInv(s: Store, id: string, rec: Record, now: Instant)
    requires Inv(s) && LegalRecord(s, id)
    ensures Inv(RecordIn(s, id, rec, now))
  {
    if id in s.traces && !s.traces[id].status.Terminal() {
      var t := OperatorRecorded(s.traces[id], rec);
      assert SafeWrite(s, t);
      WriteKeepsInv(s, t, now);
    }
  }

  /** On a store that only ever saw the four known statuses, recording a result is always legal. */
  lemma RecordRequestsAreLegal(s: Store, id: string)
    requires id in s.traces ==> !s.traces[id].status.OtherStatus?
    ensures LegalRecord(s, id)
  {}

  ghost predicate Legal(s: Store, step: Step) {
    match step
    case TimeoutStep(_, freshId, _, _) => freshId !in s.traces
    case OperatorStep(id, status, lifecycle, _, _) => LegalTransition(s, id, status, lifecycle)
    case RecordStep(id, _, _) => LegalRecord(s, id)
    case _ => true
  }

  lemma StepKeepsInv(s: Store, step: Step, p: Policy)
    requires Inv(s) && Legal(s, step)
    ensures Inv(Apply(s, step, p))
  {
    match step
    case CloseStep(runId, w) => CloseKeepsInv(s, runId, w);
    case TimeoutStep(runId, freshId, w, now) => TimeoutKeepsInv(s, runId, freshId, w, now, p);
    case ProcessStep(id, x) =>
      if id in s.traces && s.traces[id].status.Active? {
        OutcomeKeepsInv(s, id, SnapshotFor(s.traces[id], x), DecisionFor(s.traces[id], x, p), x.now);
      }
    case OperatorStep(id, status, lifecycle, patch, now) => TransitionKeepsInv(s, id, status, lifecycle, patch, now);
    case RecordStep(id, rec, now) => RecordKeepsInv(s, id, rec, now);
  }

  ghost predicate LegalRun(s: Store, steps: seq<Step>, p: Policy) {
    steps == [] ||
    (LegalRun(s, steps[..|steps| - 1], p) && Legal(Run(s, steps[..|steps| - 1], p), steps[|steps| - 1]))
  }

  /** Any run of ticks and legal operator requests, cut anywhere, leaves the store sound. */
  lemma {:induction false} RunKeepsInv(s: Store, steps: seq<Step>, p: Policy)
    requires Inv(s) && LegalRun(s, steps, p)
    ensures Inv(Run(s, steps, p))
  {
    if steps != [] {
      var n := |steps| - 1;
      RunKeepsInv(s, steps[..n], p);
      StepKeepsInv(Run(s, steps[..n], p), steps[n], p);
    }
  }

  // Terminal traces

  lemma StepKeepsTerminal(s: Store, step: Step, p: Policy, id: string)
    requires Keyed(s) && Legal(s, step) && id in s.traces && s.traces[id].status.Terminal()
    ensures id in Apply(s, step, p).traces && Apply(s, step, p).traces[id] == s.traces[id]
  {
    match step
    case ProcessStep(other, x) =>
      if other in s.traces && s.traces[other].status.Active? {
        var t := s.traces[other];
        OutcomeTouchesOne(s, t, SnapshotFor(t, x), DecisionFor(t, x, p), x.now);
      }
    case OperatorStep(other, status, lifecycle, patch, now) =>
      if other in s.traces {
        WriteTouchesOne(s, Patched(s.traces[other], status, lifecycle, patch), now);
      }
    case RecordStep(other, rec, now) =>
      if other in s.traces {
        WriteTouchesOne(s, OperatorRecorded(s.traces[other], rec), now);
      }
    case _ =>
  }

  /** Resolved and cancelled are final: no run changes anything about such a trace. */
  lemma {:induction false} TerminalIsAbsorbing(s: Store, steps: seq<Step>, p: Policy, id: string)
    requires Keyed(s) && LegalRun(s, steps, p) && id in s.traces && s.traces[id].status.Terminal()
    ensures Keyed(Run(s, steps, p))
    ensures id in Run(s, steps, p).traces && Run(s, steps, p).traces[id] == s.traces[id]
  {
    if steps != [] {
      var n := |steps| - 1;
      TerminalIsAbsorbing(s, steps[..n], p, id);
      StepKeepsTerminal(Run(s, steps[..n], p), steps[n], p, id);
      ApplyKeepsKeys(Run(s, steps[..n], p), steps[n], p);
    }
  }

  // A whole tick

  ghost predicate FreshIds(s: Store, freshIds: seq<string>) {
    && (forall i | 0 <= i < |freshIds| :: freshIds[i] !in s.traces)
    && (forall i, j | 0 <= i < j < |freshIds| :: freshIds[i] != freshIds[j])
  }

  lemma {:induction false} CloseStepsAreLegal(s: Store, listed: seq<Evaluation>, w: World, p: Policy)
    ensures LegalRun(s, CloseSteps(listed, w), p)
    ensures Run(s, CloseSteps(listed, w), p).traces == s.traces
  {
    if listed != [] {
      var n := |listed| - 1;
      assert CloseSteps(listed, w)[..n] == CloseSteps(listed[..n], w);
      CloseStepsAreLegal(s, listed[..n], w, p);
    }
  }

  lemma {:induction false} TimeoutStepsAreLegal(
    s: Store, listed: seq<Evaluation>, freshIds: seq<string>, w: World, now: Instant, p: Policy)
    requires |listed| <= |freshIds| && FreshIds(s, freshIds)
    ensures LegalRun(s, TimeoutSteps(listed, freshIds, w, now), p)
    ensures var after := Run(s, TimeoutSteps(listed, freshIds, w, now), p);
            forall i | |listed| <= i < |freshIds| :: freshIds[i] !in after.traces
  {
    if listed != [] {
      var n := |listed| - 1;
      assert TimeoutSteps(listed, freshIds, w, now)[..n] == TimeoutSteps(listed[..n], freshIds, w, now);
      TimeoutStepsAreLegal(s, listed[..n], freshIds, w, now, p);
    }
  }

  lemma {:induction false} ProcessStepsAreLegal(s: Store, listed: seq<Trace>, inputs: string -> Inputs, p: Policy)
    ensures LegalRun(s, ProcessSteps(listed, inputs), p)
  {
    if listed != [] {
      var n := |listed| - 1;
      assert ProcessSteps(listed, inputs)[..n] == ProcessSteps(listed[..n], inputs);
      ProcessStepsAreLegal(s, listed[..n], inputs, p);
    }
  }

  /** Every tick, whatever it lists and observes, keeps the store sound. */
  lemma TickKeepsInv(
    s: Store, closing: seq<Evaluation>, timing: seq<Evaluation>, active: seq<Trace>,
    w: World, now: Instant, freshIds: seq<string>, inputs: string -> Inputs, p: Policy)
    requires Inv(s) && |timing| <= |freshIds| && FreshIds(s, freshIds)
    ensures Inv(Run(s, CloseSteps(closing, w) + TimeoutSteps(timing, freshIds, w, now) + ProcessSteps(active, inputs),
                    p))
  {
    var first, second := CloseSteps(closing, w), TimeoutSteps(timing, freshIds, w, now);
    var third := ProcessSteps(active, inputs);
    CloseStepsAreLegal(s, closing, w, p);
    RunKeepsInv(s, first, p);
    var closed := Run(s, first, p);
    TimeoutStepsAreLegal(closed, timing, freshIds, w, now, p);
    RunKeepsInv(closed, second, p);
    var timed := Run(closed, second, p);
    ProcessStepsAreLegal(timed, active, inputs, p);
    RunKeepsInv(timed, third, p);
    RunAppend(s, first, second, p);
    RunAppend(s, first + second, third, p);
  }
}
