/** Traces and evaluations as the shared store keeps them, and the operations that write them. */
module RecoveryStore {
  import opened Text
  import opened RecoveryModel

  datatype Store = Store(traces: map<string, Trace>, evaluations: map<string, Evaluation>)

  // Writes

  function Stamped(t: Trace, now: Instant): Trace {
    t.(updatedAt := now)
  }

  /** The evaluation after its trace changed: the trace's terminal and handoff states win. */
  function Mirrored(e: Evaluation, t: Trace): Evaluation {
    var lifecycle :=
      if t.status.Terminal() then Closed
      else if t.status.HandoffRequired? then ManualHandoff
      else if t.lifecycle.Blank? then e.lifecycle
      else t.lifecycle;
    Evaluation(e.runId, e.botId, e.intentId, lifecycle, Some(t.id), Some(t.status), Some(t.lifecycle))
  }

  function SyncTrace(s: Store, t: Trace, now: Instant): Store {
    Store(s.traces[t.id := Stamped(t, now)], s.evaluations)
  }

  function SyncEvaluation(s: Store, runId: string, t: Trace): Store {
    if runId in s.evaluations then Store(s.traces, s.evaluations[runId := Mirrored(s.evaluations[runId], t)]) else s
  }

  /** Store the trace, read it back, and mirror it in the evaluation of its run. */
  function WriteTrace(s: Store, t: Trace, now: Instant): Store {
    var stored := SyncTrace(s, t, now);
    if t.runId == "" then stored else SyncEvaluation(stored, t.runId, Stamped(t, now))
  }

  // The fields an operator request may change besides status and lifecycle.
  datatype Patch = Patch(
    manualHandoffRequired: Option<bool>,
    residualExposureQuote: Option<Raw<real>>,
    linkedUnwindActionId: Option<string>,
    linkedUnwindOrderId: Option<string>)

  function Patched(t: Trace, status: TraceStatus, lifecycle: Lifecycle, patch: Patch): Trace {
    t.(status := status, lifecycle := lifecycle,
       manualHandoffRequired := patch.manualHandoffRequired.Get(t.manualHandoffRequired),
       residualExposureQuote := patch.residualExposureQuote.Get(t.residualExposureQuote),
       linkedUnwindActionId := patch.linkedUnwindActionId.Get(t.linkedUnwindActionId),
       linkedUnwindOrderId := patch.linkedUnwindOrderId.Get(t.linkedUnwindOrderId))
  }

  function Transition(
    s: Store, id: string, status: TraceStatus, lifecycle: Lifecycle, patch: Patch, now: Instant): Store
  {
    if id !in s.traces || s.traces[id].status.Terminal() then s
    else WriteTrace(s, Patched(s.traces[id], status, lifecycle, patch), now)
  }

  // Reads

  predicate Matches(t: Trace, botId: string, runId: string) {
    (botId == "" || t.botId == botId) && (runId == "" || t.runId == runId)
  }

  ghost predicate Blocked(s: Store, botId: string, runId: string) {
    exists id :: id in s.traces && s.traces[id].status.Blocking() && Matches(s.traces[id], botId, runId)
  }

  // Every trace is stored under its own id, every evaluation under its own run.
  ghost predicate Keyed(s: Store) {
    && (forall id | id in s.traces :: s.traces[id].id == id)
    && (forall run | run in s.evaluations :: s.evaluations[run].runId == run && run != "")
  }

  /** A newest-first listing of the stored traces that match, cut off after `limit` of them. */
  ghost predicate IsListing(
    listed: seq<Trace>, traces: map<string, Trace>, botId: string, runId: string, status: TraceStatus, limit: nat)
  {
    && |listed| <= limit
    && (forall i | 0 <= i < |listed| ::
          && listed[i].id in traces && traces[listed[i].id] == listed[i]
          && listed[i].status == status && Matches(listed[i], botId, runId))
    && (forall i, j | 0 <= i < j < |listed| ::
          listed[i].id != listed[j].id && listed[i].updatedAt >= listed[j].updatedAt)
    && (forall id | id in traces && traces[id].status == status && Matches(traces[id], botId, runId) ::
          || traces[id] in listed
          || (|listed| == limit && forall t :: t in listed ==> t.updatedAt >= traces[id].updatedAt))
  }

  function ClampLimit(limit: int): (n: nat)
    ensures 1 <= n <= 100
    ensures 1 <= limit <= 100 ==> n == limit
    ensures limit < 1 ==> n == 1
    ensures limit > 100 ==> n == 100
  {
    if limit < 1 then 1 else if limit > 100 then 100 else limit
  }

  function InsertNewestFirst(sorted: seq<Trace>, t: Trace): seq<Trace> {
    if sorted == [] || sorted[0].updatedAt < t.updatedAt then [t] + sorted
    else [sorted[0]] + InsertNewestFirst(sorted[1..], t)
  }

  ghost predicate NewestFirst(s: seq<Trace>) {
    forall i, j | 0 <= i < j < |s| :: s[i].updatedAt >= s[j].updatedAt && s[i].id != s[j].id
  }

  lemma {:induction false} InsertKeepsOrder(sorted: seq<Trace>, t: Trace)
    requires NewestFirst(sorted) && forall x :: x in sorted ==> x.id != t.id
    ensures NewestFirst(InsertNewestFirst(sorted, t))
    ensures forall x :: x in InsertNewestFirst(sorted, t) <==> x in sorted || x == t
  {
    if sorted != [] && sorted[0].updatedAt >= t.updatedAt {
      var rest := InsertNewestFirst(sorted[1..], t);
      InsertKeepsOrder(sorted[1..], t);
      assert sorted == [sorted[0]] + sorted[1..];
      forall j | 0 <= j < |rest| ensures sorted[0].updatedAt >= rest[j].updatedAt && sorted[0].id != rest[j].id {
        assert rest[j] in rest;
      }
    }
  }

  ghost predicate Selected(t: Trace, traces: map<string, Trace>, botId: string, runId: string, status: TraceStatus) {
    t.id in traces && traces[t.id] == t && t.status == status && Matches(t, botId, runId)
  }

  lemma CutIsListing(
    items: seq<Trace>, traces: map<string, Trace>, botId: string, runId: string, status: TraceStatus, limit: nat)
    requires forall id | id in traces :: traces[id].id == id
    requires NewestFirst(items) && forall t :: t in items <==> Selected(t, traces, botId, runId, status)
    ensures IsListing(if |items| <= limit then items else items[..limit], traces, botId, runId, status, limit)
  {
    var listed := if |items| <= limit then items else items[..limit];
    forall i | 0 <= i < |listed| ensures Selected(listed[i], traces, botId, runId, status) {
      assert items[i] in items;
    }
    forall id | id in traces && traces[id].status == status && Matches(traces[id], botId, runId)
      ensures || traces[id] in listed
              || (|listed| == limit && forall t :: t in listed ==> t.updatedAt >= traces[id].updatedAt)
    {
      assert Selected(traces[id], traces, botId, runId, status);
      var k :| 0 <= k < |items| && items[k] == traces[id];
      if k < |listed| {
        assert listed[k] == traces[id];
      }
    }
  }

  /** The shared store of traces and evaluations. */
  class RedisRuntime {
    var traces: map<string, Trace>
    var evaluations: map<string, Evaluation>

    ghost function State(): Store
      reads this
    {
      Store(traces, evaluations)
    }

    method SyncRecoveryTrace(t: Trace, now: Instant)
      modifies this
      ensures State() == SyncTrace(old(State()), t, now)
    {
      traces := traces[t.id := t.(updatedAt := now)];
    }

    method SyncArbitrageEvaluation(e: Evaluation)
      modifies this
      ensures State() == Store(old(traces), old(evaluations)[e.runId := e])
    {
      evaluations := evaluations[e.runId := e];
    }

    method SyncArbitrageEvaluationRecoveryState(runId: string, t: Trace)
      modifies this
      ensures State() == SyncEvaluation(old(State()), runId, t)
    {
      if runId !in evaluations {
        return;
      }
      var current := evaluations[runId];
      var lifecycle := if t.lifecycle != Blank then t.lifecycle else current.lifecycle;
      if t.status == Resolved || t.status == Cancelled {
        lifecycle := Closed;
      } else if t.status == HandoffRequired {
        lifecycle := ManualHandoff;
      }
      evaluations := evaluations[runId := Evaluation(
        current.runId, current.botId, current.intentId, lifecycle, Some(t.id), Some(t.status), Some(t.lifecycle))];
    }

    /** What resolve, handoff, timeout opening and auto-recording all end with. */
    method StoreAndMirror(t: Trace, now: Instant)
      modifies this
      ensures State() == WriteTrace(old(State()), t, now)
    {
      SyncRecoveryTrace(t, now);
      if t.runId != "" && t.id in traces {
        SyncArbitrageEvaluationRecoveryState(t.runId, traces[t.id]);
      }
    }

    method TransitionRecoveryTrace(
      id: string, status: TraceStatus, lifecycle: Lifecycle, patch: Patch, now: Instant)
      returns (result: Option<Trace>, conflict: bool)
      requires Keyed(State())
      modifies this
      ensures State() == Transition(old(State()), id, status, lifecycle, patch, now)
      ensures result.None? <==> id !in old(traces)
      ensures conflict <==> id in old(traces) && old(traces)[id].status.Terminal()
      ensures result.Some? ==> id in traces && result.value == traces[id]
    {
      if id !in traces {
        return None, false;
      }
      var current := traces[id];
      if current.status == Resolved || current.status == Cancelled {
        return Some(current), true;
      }
      StoreAndMirror(Patched(current, status, lifecycle, patch), now);
      result, conflict := Some(traces[id]), false;
    }

    method ListRecoveryTraces(limit: int, botId: string, runId: string, status: TraceStatus)
      returns (listed: seq<Trace>)
      requires Keyed(State())
      ensures IsListing(listed, traces, botId, runId, status, ClampLimit(limit))
    {
      var items: seq<Trace> := [];
      var keys := traces.Keys;
      while keys != {}
        invariant keys <= traces.Keys && NewestFirst(items)
        invariant forall t :: t in items <==> t.id !in keys && Selected(t, traces, botId, runId, status)
        decreases |keys|
      {
        var key :| key in keys;
        keys := keys - {key};
        var t := traces[key];
        if Matches(t, botId, runId) && t.status == status {
          InsertKeepsOrder(items, t);
          items := InsertNewestFirst(items, t);
        }
      }
      CutIsListing(items, traces, botId, runId, status, ClampLimit(limit));
      listed := if |items| <= ClampLimit(limit) then items else items[..ClampLimit(limit)];
    }

    method GetBlockingRecoveryTrace(botId: string, runId: string) returns (blocking: Option<Trace>)
      requires Keyed(State())
      ensures blocking.Some? <==> Blocked(State(), botId, runId)
      ensures blocking.Some? ==>
                && blocking.value.id in traces && traces[blocking.value.id] == blocking.value
                && blocking.value.status.Blocking() && Matches(blocking.value, botId, runId)
                && forall id | id in traces && traces[id].status.Blocking() && Matches(traces[id], botId, runId) ::
                     blocking.value.updatedAt >= traces[id].updatedAt
    {
      var handoffs := ListRecoveryTraces(10, botId, runId, HandoffRequired);
      var actives := ListRecoveryTraces(10, botId, runId, Active);
      if handoffs == [] && actives == [] {
        return None;
      }
      if actives == [] || (handoffs != [] && handoffs[0].updatedAt >= actives[0].updatedAt) {
        blocking := Some(handoffs[0]);
      } else {
        blocking := Some(actives[0]);
      }
    }

    /** At most 100 evaluations, each run once; which ones, when there are more, is left open. */
    method ListArbitrageEvaluations(limit: int) returns (listed: seq<Evaluation>)
      requires Keyed(State())
      ensures IsEvaluationListing(listed, evaluations, ClampLimit(limit))
    {
      listed := [];
      var runs := evaluations.Keys;
      while runs != {} && |listed| < ClampLimit(limit)
        invariant runs <= evaluations.Keys && |listed| <= ClampLimit(limit)
        invariant forall e :: e in listed ==> e.runId !in runs
        invariant forall e :: e in listed ==> e.runId in evaluations && evaluations[e.runId] == e
        invariant forall i, j | 0 <= i < j < |listed| :: listed[i].runId != listed[j].runId
        invariant forall run | run in evaluations :: run in runs || evaluations[run] in listed
        decreases |runs|
      {
        var run :| run in runs;
        runs := runs - {run};
        listed := listed + [evaluations[run]];
        assert evaluations[run] == listed[|listed| - 1];
      }
    }
  }

  ghost predicate IsEvaluationListing(listed: seq<Evaluation>, evaluations: map<string, Evaluation>, limit: nat) {
    && |listed| <= limit
    && (forall e :: e in listed ==> e.runId in evaluations && evaluations[e.runId] == e)
    && (forall i, j | 0 <= i < j < |listed| :: listed[i].runId != listed[j].runId)
    && (|listed| < limit ==> forall run | run in evaluations :: evaluations[run] in listed)
  }
}
