/** Which overdue traces a tick reaches: it lists a hundred active traces, the most recently updated ones. */
module RecoveryWaiting {
  import opened Text
  import opened Sets
  import opened RecoveryModel
  import opened Cascade
  import opened RecoveryStore
  import opened RecoveryRuntime
  import opened RecoveryProgress

  // What processing the listed traces leaves behind

  /** The traces listed are as stored, active and all different. */
  ghost predicate ListedFrom(listed: seq<Trace>, s: Store) {
    && (forall i | 0 <= i < |listed| ::
          listed[i].id in s.traces && s.traces[listed[i].id] == listed[i] && listed[i].status.Active?)
    && (forall i, j | 0 <= i < j < |listed| :: listed[i].id != listed[j].id)
  }

  ghost predicate Among(listed: seq<Trace>, id: string) {
    exists i :: 0 <= i < |listed| && listed[i].id == id
  }

  lemma StepLeavesOthers(s: Store, id: string, x: Inputs, p: Policy)
    requires Keyed(s)
    ensures Keyed(Apply(s, ProcessStep(id, x), p)) && OthersKept(s.traces, Apply(s, ProcessStep(id, x), p).traces, id)
  {
    ApplyKeepsKeys(s, ProcessStep(id, x), p);
    if id in s.traces && s.traces[id].status.Active? {
      OutcomeTouchesOne(s, s.traces[id], SnapshotFor(s.traces[id], x), DecisionFor(s.traces[id], x, p), x.now);
    }
  }

  /** After the listed traces were processed: an overdue one is not active any more, one not listed is as before. */
  ghost predicate PhaseLeft(
    s: Store, after: Store, listed: seq<Trace>, inputs: string -> Inputs, p: Policy, id: string)
    requires id in s.traces
  {
    && Keyed(after) && id in after.traces
    && (!Among(listed, id) ==> after.traces[id] == s.traces[id])
    && (Among(listed, id) && Overdue(s.traces[id], inputs(id).clock.ageCheck, p) ==> !after.traces[id].status.Active?)
  }

  lemma AmongMore(listed: seq<Trace>, last: Trace, id: string)
    ensures Among(listed + [last], id) <==> Among(listed, id) || last.id == id
  {
    var more := listed + [last];
    assert more[|listed|] == last;
    if i :| 0 <= i < |listed| && listed[i].id == id {
      assert more[i].id == id;
    }
  }

  lemma PhaseGoesOn(
    s: Store, before: Store, init: seq<Trace>, last: Trace, inputs: string -> Inputs, p: Policy, id: string)
    requires id != "" && id in s.traces && s.traces[id].status.Active? && PhaseLeft(s, before, init, inputs, p, id)
    requires last.id == id ==> !Among(init, id)
    ensures PhaseLeft(s, Apply(before, ProcessStep(last.id, inputs(last.id)), p), init + [last], inputs, p, id)
  {
    AmongMore(init, last, id);
    StepLeavesOthers(before, last.id, inputs(last.id), p);
    if last.id == id {
      ProcessStepStores(before, id, inputs(id), p);
      if Overdue(s.traces[id], inputs(id).clock.ageCheck, p) {
        OverdueNeverStaysActive(s.traces[id], inputs(id), p);
      }
    }
  }

  lemma OneProcessed(s: Store, init: seq<Trace>, last: Trace, inputs: string -> Inputs, p: Policy)
    ensures Run(s, ProcessSteps(init + [last], inputs), p) ==
            Apply(Run(s, ProcessSteps(init, inputs), p), ProcessStep(last.id, inputs(last.id)), p)
  {
    var listed := init + [last];
    assert listed[..|init| + 1] == listed && listed[..|init|] == init;
    OneMoreProcessed(s, listed, |init|, inputs, p);
  }

  /** A trace that is processed leaves the active state if it was overdue; the others are not touched. */
  lemma {:induction false} PhaseLeaves(s: Store, listed: seq<Trace>, inputs: string -> Inputs, p: Policy, id: string)
    requires Keyed(s) && ListedFrom(listed, s) && id != "" && id in s.traces && s.traces[id].status.Active?
    ensures PhaseLeft(s, Run(s, ProcessSteps(listed, inputs), p), listed, inputs, p, id)
  {
    if listed != [] {
      var init, last := listed[..|listed| - 1], listed[|listed| - 1];
      assert !(last.id == id && Among(init, id));
      PhaseLeaves(s, init, inputs, p, id);
      OneProcessed(s, init, last, inputs, p);
      PhaseGoesOn(s, Run(s, ProcessSteps(init, inputs), p), init, last, inputs, p, id);
      assert init + [last] == listed;
    }
  }

  lemma ListingIsListed(listed: seq<Trace>, s: Store)
    requires Keyed(s) && IsListing(listed, s.traces, "", "", Active, 100)
    ensures ListedFrom(listed, s)
    ensures forall id :: id in s.traces ==> (Among(listed, id) <==> s.traces[id] in listed)
  {
    forall id | id in s.traces && s.traces[id] in listed ensures Among(listed, id) {
      var i :| 0 <= i < |listed| && listed[i] == s.traces[id];
    }
  }

  /** An overdue trace is still active after the process phase if and only if the phase did not get to it. */
  lemma OverdueStaysExactlyWhenPassedOver(
    s: Store, listed: seq<Trace>, done: nat, inputs: string -> Inputs, p: Policy, id: string)
    requires Keyed(s) && IsListing(listed, s.traces, "", "", Active, 100) && done <= |listed|
    requires id != "" && id in s.traces && s.traces[id].status.Active?
    requires Overdue(s.traces[id], inputs(id).clock.ageCheck, p)
    ensures var after := Run(s, ProcessSteps(listed[..done], inputs), p);
      id in after.traces && (after.traces[id].status.Active? <==> s.traces[id] !in listed[..done])
  {
    ListingIsListed(listed, s);
    PhaseLeaves(s, listed[..done], inputs, p, id);
    if s.traces[id] in listed[..done] {
      var i :| 0 <= i < done && listed[..done][i] == s.traces[id];
      assert Among(listed[..done], id);
    }
  }

  // Which traces are listed

  ghost function ActiveIds(s: Store): set<string> {
    set id | id in s.traces && s.traces[id].status.Active?
  }

  ghost function NewerThan(s: Store, id: string): set<string>
    requires id in s.traces
  {
    set other | other in ActiveIds(s) && s.traces[other].updatedAt > s.traces[id].updatedAt
  }

  ghost function NotOlderThan(s: Store, id: string): set<string>
    requires id in s.traces
  {
    set other | other in ActiveIds(s) && other != id && s.traces[other].updatedAt >= s.traces[id].updatedAt
  }

  ghost function IdsOf(listed: seq<Trace>): set<string> {
    set t | t in listed :: t.id
  }

  lemma {:induction false} IdsCounted(listed: seq<Trace>)
    requires forall i, j | 0 <= i < j < |listed| :: listed[i].id != listed[j].id
    ensures |IdsOf(listed)| == |listed|
  {
    if listed != [] {
      var init, last := listed[..|listed| - 1], listed[|listed| - 1];
      IdsCounted(init);
      assert listed == init + [last];
      assert IdsOf(listed) == IdsOf(init) + {last.id};
      assert last.id !in IdsOf(init);
    }
  }

  /** A hundred newer active traces crowd a trace out of the listing. */
  lemma CrowdedOut(s: Store, listed: seq<Trace>, id: string)
    requires Keyed(s) && IsListing(listed, s.traces, "", "", Active, 100)
    requires id in ActiveIds(s) && |NewerThan(s, id)| >= 100
    ensures s.traces[id] !in listed
  {
    if s.traces[id] in listed {
      forall other | other in NewerThan(s, id) ensures other in IdsOf(listed) {
        assert s.traces[other] in listed;
      }
      FewerInside(NewerThan(s, id) + {id}, IdsOf(listed));
      IdsCounted(listed);
      assert false;
    }
  }

  /** With fewer than a hundred others as new as it is, a trace is listed. */
  lemma ListedWithFewOthers(s: Store, listed: seq<Trace>, id: string)
    requires Keyed(s) && IsListing(listed, s.traces, "", "", Active, 100)
    requires id in ActiveIds(s) && |NotOlderThan(s, id)| < 100
    ensures s.traces[id] in listed
  {
    if s.traces[id] !in listed {
      forall other | other in IdsOf(listed) ensures other in NotOlderThan(s, id) {
        var t :| t in listed && t.id == other;
      }
      FewerInside(IdsOf(listed), NotOlderThan(s, id));
      IdsCounted(listed);
      assert false;
    }
  }

  // A whole tick

  lemma {:induction false} ClosingKeepsTraces(s: Store, listed: seq<Evaluation>, w: World, p: Policy)
    requires Keyed(s)
    ensures var after := Run(s, CloseSteps(listed, w), p); Keyed(after) && after.traces == s.traces
  {
    if listed != [] {
      var init := listed[..|listed| - 1];
      ClosingKeepsTraces(s, init, w, p);
      assert CloseSteps(listed, w)[..|init|] == CloseSteps(init, w);
      ApplyKeepsKeys(Run(s, CloseSteps(init, w), p), CloseStep(listed[|init|].runId, w), p);
    }
  }

  lemma {:induction false} TimingKeepsTraces(
    s: Store, listed: seq<Evaluation>, freshIds: seq<string>, w: World, now: Instant, p: Policy, id: string)
    requires Keyed(s) && |listed| <= |freshIds| && id in s.traces && id !in freshIds
    ensures var after := Run(s, TimeoutSteps(listed, freshIds, w, now), p);
            Keyed(after) && id in after.traces && after.traces[id] == s.traces[id]
  {
    if listed != [] {
      var n := |listed| - 1;
      TimingKeepsTraces(s, listed[..n], freshIds, w, now, p, id);
      assert TimeoutSteps(listed, freshIds, w, now)[..n] == TimeoutSteps(listed[..n], freshIds, w, now);
      var before := Run(s, TimeoutSteps(listed[..n], freshIds, w, now), p);
      ApplyKeepsKeys(before, TimeoutStep(listed[n].runId, freshIds[n], w, now), p);
      OpeningKeepsOthers(before, listed[n].runId, freshIds[n], w, now, p);
      assert freshIds[n] in freshIds;
    }
  }

  lemma OpeningKeepsOthers(s: Store, runId: string, freshId: string, w: World, now: Instant, p: Policy)
    ensures OthersKept(s.traces, OpenTimeout(s, runId, freshId, w, now, p).traces, freshId)
  {
    if runId in s.evaluations {
      WriteTouchesOne(s, TimeoutTrace(freshId, s.evaluations[runId], now), now);
    }
  }

  /**
   Bounded waiting for whole ticks: if there is no stop request and at most a hundred traces are active once the
   timeout traces are open, no trace that was active and overdue before the tick is active after it.
   */
  lemma TickLeavesNoOverdue(
    s: Store, closing: seq<Evaluation>, timing: seq<Evaluation>, active: seq<Trace>,
    w: World, now: Instant, freshIds: seq<string>, inputs: string -> Inputs, p: Policy, id: string)
    requires Keyed(s) && |timing| <= |freshIds| && id !in freshIds
    requires var timed := Run(s, CloseSteps(closing, w) + TimeoutSteps(timing, freshIds, w, now), p);
             IsListing(active, timed.traces, "", "", Active, 100) && |ActiveIds(timed)| <= 100
    requires id != "" && id in s.traces && s.traces[id].status.Active?
    requires Overdue(s.traces[id], inputs(id).clock.ageCheck, p)
    ensures var after := Run(s, CloseSteps(closing, w) + TimeoutSteps(timing, freshIds, w, now)
                                + ProcessSteps(active, inputs), p);
            id in after.traces && !after.traces[id].status.Active?
  {
    var first, second := CloseSteps(closing, w), TimeoutSteps(timing, freshIds, w, now);
    var timed := Run(s, first + second, p);
    ClosingKeepsTraces(s, closing, w, p);
    TimingKeepsTraces(Run(s, first, p), timing, freshIds, w, now, p, id);
    RunAppend(s, first, second, p);
    RunAppend(s, first + second, ProcessSteps(active, inputs), p);
    FewActive(timed, active, id);
    assert active[..|active|] == active;
    OverdueStaysExactlyWhenPassedOver(timed, active, |active|, inputs, p, id);
  }

  lemma FewActive(s: Store, listed: seq<Trace>, id: string)
    requires Keyed(s) && IsListing(listed, s.traces, "", "", Active, 100)
    requires id in ActiveIds(s) && |ActiveIds(s)| <= 100
    ensures s.traces[id] in listed
  {
    FewerInside(NotOlderThan(s, id), ActiveIds(s) - {id});
    ListedWithFewOthers(s, listed, id);
  }

  // One trace too many

  function CrowdId(i: nat): (id: string)
    ensures |id| == i + 1
  {
    seq(i + 1, _ => 'a')
  }

  function CrowdTrace(i: nat): Trace {
    Trace(CrowdId(i), "", "", "", "", "", Active, RecoveryRequired, false, Absent, Some(0), Some(0), i,
          NO_RECONCILIATION, None, None)
  }

  /** `n` + 1 active traces, all opened at 0, each updated later than the one before. */
  ghost function Crowd(n: nat): (s: Store)
    ensures forall id :: id in s.traces <==> exists i: nat :: i <= n && CrowdId(i) == id
    ensures forall i: nat | i <= n :: CrowdId(i) in s.traces && s.traces[CrowdId(i)] == CrowdTrace(i)
    ensures s.evaluations == map[]
  {
    if n == 0 then Store(map[CrowdId(0) := CrowdTrace(0)], map[])
    else
      var less := Crowd(n - 1);
      Store(less.traces[CrowdId(n) := CrowdTrace(n)], map[])
  }

  ghost function CrowdIds(n: nat): (ids: set<string>)
    ensures |ids| == n && forall id :: id in ids <==> exists i: nat :: 1 <= i <= n && CrowdId(i) == id
  {
    if n == 0 then {} else CrowdIds(n - 1) + {CrowdId(n)}
  }

  lemma CrowdIsNewer(n: nat)
    ensures Keyed(Crowd(n)) && CrowdId(0) in ActiveIds(Crowd(n)) && |NewerThan(Crowd(n), CrowdId(0))| >= n
  {
    var s := Crowd(n);
    forall id | id in s.traces ensures s.traces[id].id == id {
      var i: nat :| i <= n && CrowdId(i) == id;
    }
    forall id | id in CrowdIds(n) ensures id in NewerThan(s, CrowdId(0)) {
      var i: nat :| 1 <= i <= n && CrowdId(i) == id;
      assert s.traces[id] == CrowdTrace(i) && s.traces[CrowdId(0)] == CrowdTrace(0);
    }
    FewerInside(CrowdIds(n), NewerThan(s, CrowdId(0)));
  }

  lemma OldestIsOverdue(p: Policy)
    ensures Overdue(CrowdTrace(0), (p.handoffAfterSeconds + 1) * MICROS_PER_SECOND, p)
  {}

  /** In a crowd of more than a hundred a tick does not list the oldest trace, and leaves it however overdue it is. */
  lemma OldestOfManyWaits(listed: seq<Trace>, inputs: string -> Inputs, p: Policy, n: nat)
    requires n >= 100 && IsListing(listed, Crowd(n).traces, "", "", Active, 100)
    ensures var after := Run(Crowd(n), ProcessSteps(listed, inputs), p);
            CrowdId(0) in after.traces && after.traces[CrowdId(0)] == CrowdTrace(0)
    ensures Overdue(CrowdTrace(0), (p.handoffAfterSeconds + 1) * MICROS_PER_SECOND, p)
  {
    OldestIsOverdue(p);
    CrowdIsNewer(n);
    CrowdedOut(Crowd(n), listed, CrowdId(0));
    PassedOverStays(Crowd(n), listed, inputs, p, CrowdId(0));
  }

  lemma PassedOverStays(s: Store, listed: seq<Trace>, inputs: string -> Inputs, p: Policy, id: string)
    requires Keyed(s) && IsListing(listed, s.traces, "", "", Active, 100)
    requires id != "" && id in ActiveIds(s) && s.traces[id] !in listed
    ensures var after := Run(s, ProcessSteps(listed, inputs), p); id in after.traces && after.traces[id] == s.traces[id]
  {
    ListingIsListed(listed, s);
    PhaseLeaves(s, listed, inputs, p, id);
  }
}
