/** When recorded results restart the count of automatic snapshots: the exact condition, and the runs that show it. */
module RecoveryRestarts {
  import opened Text
  import opened RecoveryModel
  import opened Evidence
  import opened Snapshot
  import opened Cascade
  import opened RecoveryStore
  import opened RecoveryRequests
  import opened RecoveryRuntime
  import opened RecoveryProgress

  // A trace with one order that stays open at its exchange

  const OPEN_ORDER :=
    Order("order", "", "", "intent", "exchange", "reference", "BTC-KRW", "buy", "submitted",
          None, None, None, None, None)

  const STILL_OPEN := StatusAnswer("submitted", "", Some(0.0), None, None)

  const LOOK := Inputs(
    World([OPEN_ORDER], [], map[]), {"exchange"}, [map["BTC-KRW" := STILL_OPEN]], [], Clock(0, 0, 0, 0), 0)

  const OPEN_READING := Reading("order", "submitted", true, Buy, 0.0, None)

  const OPEN_SNAPSHOT :=
    Snapshot(false, 1, 0.0, 0, ["order"], [], [StatusRow(Some("order"), Some("submitted"))], [])

  const TRACE_ID := "trace"

  ghost predicate Watched(t: Trace) {
    && t.id == TRACE_ID && t.botId == "" && t.runId == "" && t.intentId == "intent"
    && t.linkedUnwindActionId == "" && t.linkedUnwindOrderId == ""
    && t.status.Active? && t.openedAt.None? && t.createdAt.None?
    && PlainCounts(t.reconciliation) && Streak(t) >= 0
  }

  lemma OpenOrderMarket()
    ensures Upper(Strip("BTC-KRW")) == "BTC-KRW"
    ensures FirstMarket([Poll(OPEN_ORDER, map["BTC-KRW" := STILL_OPEN])]) == "BTC-KRW"
  {
    assert Strip("BTC-KRW") == "BTC-KRW";
  }

  lemma OpenOrderPollable()
    ensures Pollable(OPEN_ORDER, {"exchange"}) && Strip(OPEN_ORDER.orderId) == "order"
  {
    assert Strip("order") == "order" && Strip("exchange") == "exchange" && Strip("reference") == "reference";
  }

  lemma OpenOrderRead()
    ensures Read(Poll(OPEN_ORDER, map["BTC-KRW" := STILL_OPEN]), {"exchange"}, "BTC-KRW") == Some(OPEN_READING)
  {
    PlainStatuses();
    OpenOrderMarket();
    OpenOrderPollable();
    BuySide();
    UnpricedRead(OPEN_ORDER, STILL_OPEN, {"exchange"}, "BTC-KRW");
  }

  lemma BuySide()
    ensures SideOf("buy") == Buy
  {
    assert Normalised("buy") == "buy";
  }

  /** An order that names its side and is open, without a quantity or a price. */
  lemma UnpricedRead(o: Order, answer: StatusAnswer, connectors: set<string>, market: string)
    requires Pollable(o, connectors) && OwnMarket(o) == market != ""
    requires o.side != "" && SideOf(o.side) == Buy && o.requestedPrice.None?
    requires answer.status != "" && Normalised(answer.status) == answer.status && !SpellsTerminal(answer.status)
    requires answer.filledQty == Some(0.0) && answer.avgFillPrice.None? && answer.requestedPrice.None?
    ensures Read(Poll(o, map[market := answer]), connectors, market) ==
            Some(Reading(Strip(o.orderId), answer.status, true, Buy, 0.0, None))
  {
    assert AskedMarket(o, market) == market;
  }

  lemma OneOrderFiltered()
    ensures forall p: Order -> bool :: p(OPEN_ORDER) ==> Filter([OPEN_ORDER], p) == [OPEN_ORDER]
  {
    forall p: Order -> bool | p(OPEN_ORDER) ensures Filter([OPEN_ORDER], p) == [OPEN_ORDER] {
      assert [OPEN_ORDER][1..] == [];
    }
  }

  lemma OpenOrderPolled(t: Trace)
    requires Watched(t)
    ensures TraceOrders(t, LOOK.world) == [OPEN_ORDER]
    ensures PollingOf(t, LOOK).polls == [Poll(OPEN_ORDER, map["BTC-KRW" := STILL_OPEN])]
    ensures PollingOf(t, LOOK).fills == []
  {
    OneOrderFiltered();
    assert LOOK.world.orders == [OPEN_ORDER] && OPEN_ORDER.intentId == TraceIntentId(t) == "intent";
    var polls := PollingOf(t, LOOK).polls;
    assert |polls| == 1 && polls[0].order == OPEN_ORDER;
    assert polls[0].answers == LOOK.answers[0];
  }

  lemma OpenOrderJudged(fallback: Option<real>)
    ensures Judge(fallback, [OPEN_READING], [], [], 0) == Some(OPEN_SNAPSHOT)
  {
    FoldStep([], OPEN_READING);
    assert [] + [OPEN_READING] == [OPEN_READING];
    assert OrderIds([OPEN_READING]) == ["order"];
    assert Statuses([OPEN_READING]) == [StatusRow(Some("order"), Some("submitted"))];
  }

  lemma OpenOrderTaken(fallback: Option<real>, q: Polling)
    requires q.polls == [Poll(OPEN_ORDER, map["BTC-KRW" := STILL_OPEN])] && q.fills == [] && q.sheets == []
    requires q.connectors == {"exchange"} && q.now == 0
    ensures TakeSnapshot(fallback, q) == Some(OPEN_SNAPSHOT)
  {
    assert Answers(q) == [OPEN_READING] by {
      OpenOrderAnswered(q);
    }
    assert NamesAnExchange(q.polls) by {
      assert q.polls[0] in q.polls && Strip("exchange") == "exchange";
    }
    OpenOrderJudged(fallback);
    JudgedIsTaken(fallback, q, [OPEN_READING]);
  }

  lemma JudgedIsTaken(fallback: Option<real>, q: Polling, readings: seq<Reading>)
    requires q.connectors != {} && NamesAnExchange(q.polls) && Answers(q) == readings
    requires q.fills == [] && q.sheets == [] && q.now == 0
    ensures TakeSnapshot(fallback, q) == Judge(fallback, readings, [], [], 0)
  {}

  lemma OpenOrderAnswered(q: Polling)
    requires q.polls == [Poll(OPEN_ORDER, map["BTC-KRW" := STILL_OPEN])] && q.connectors == {"exchange"}
    ensures Answers(q) == [OPEN_READING]
  {
    OpenOrderRead();
    OpenOrderMarket();
    OneAnswerCollected(q.polls, Reader(q.connectors, FirstMarket(q.polls)), 0);
  }

  lemma OpenOrderSnapshot(t: Trace)
    requires Watched(t) && MayRecord(t.reconciliation)
    ensures SnapshotFor(t, LOOK) == Some(OPEN_SNAPSHOT)
  {
    OpenOrderPolled(t);
    OpenOrderTaken(ParseDecimal(t.residualExposureQuote), PollingOf(t, LOOK));
  }

  /** The recorded evidence is sound, and its one order is still open. */
  lemma OpenEvidence(r: Reconciliation)
    requires r.orderIds == Value(IdItems(["order"])) && r.fillIds == Value(IdItems([]))
    requires r.orderStatuses == Value([StatusRow(Some("order"), Some("submitted"))])
    requires r.balances == Value(BalanceItems([]))
    ensures !AnyBadEvidence(r)
    ensures ObservedOrderStatuses(r.orderStatuses) == Some([ObservedStatus("order", OrderSubmitted)])
  {
    PlainStatuses();
    assert Strip("order") == "order";
    assert ReadStatus("submitted") == Some(OrderSubmitted);
    var items := r.orderStatuses.value;
    assert WellFormedStatuses(items);
    assert ObservedOrderStatuses(r.orderStatuses).value == [ObservedStatus("order", OrderSubmitted)];
    assert WellFormedIds(IdItems(["order"])) && WellFormedIds(IdItems([])) && WellFormedBalances(BalanceItems([]));
  }

  lemma OpenOrderBlocksNothing(u: Trace, p: Policy)
    requires u.reconciliation.verdict.Mismatch? && u.reconciliation.openOrderCount == Value(Int(1))
    requires u.reconciliation.residual == Value(0.0) && u.reconciliation.observedAt == Value(0)
    requires u.reconciliation.mismatchStreak.Value? && u.reconciliation.mismatchStreak.value.Int?
    requires 0 <= u.reconciliation.mismatchStreak.value.n < p.mismatchHandoffCount
    requires !AnyBadEvidence(u.reconciliation)
    requires ObservedOrderStatuses(u.reconciliation.orderStatuses) == Some([ObservedStatus("order", OrderSubmitted)])
    ensures MatchBlocker(u, LOOK.world, LOOK.clock, p).None? && Resolution(u.reconciliation).None?
    ensures MismatchHandoff(u.reconciliation, p).None?
  {
    assert ObservedStatus("order", OrderSubmitted) in [ObservedStatus("order", OrderSubmitted)];
  }

  /** An open order seen again leaves the trace alone, as long as its streak is below the limit. */
  lemma OpenOrderLeftAlone(t: Trace, p: Policy)
    requires Watched(t) && Streak(t) + 1 < p.mismatchHandoffCount
    ensures Decide(Recorded(t, OPEN_SNAPSHOT), LOOK.world, LOOK.clock, p) == NoChange
  {
    var u := Recorded(t, OPEN_SNAPSHOT);
    OpenEvidence(u.reconciliation);
    OpenOrderBlocksNothing(u, p);
    OpenOrderPolled(t);
    assert HasActiveOrders(TraceOrders(u, LOOK.world)) by {
      PlainStatuses();
      assert OPEN_ORDER in TraceOrders(t, LOOK.world);
    }
  }

  lemma LookTakesSnapshot(s: Store, p: Policy)
    requires Keyed(s) && TRACE_ID in s.traces && Watched(s.traces[TRACE_ID])
    requires MayRecord(s.traces[TRACE_ID].reconciliation) && StreakIn(s, TRACE_ID) + 1 < p.mismatchHandoffCount
    ensures var step := ProcessStep(TRACE_ID, LOOK); var s' := Apply(s, step, p);
      && TakesSnapshot(s, step, TRACE_ID) && Keyed(s') && TRACE_ID in s'.traces && Watched(s'.traces[TRACE_ID])
      && StreakIn(s', TRACE_ID) == StreakIn(s, TRACE_ID) + 1 && MayRecord(s'.traces[TRACE_ID].reconciliation)
  {
    var t := s.traces[TRACE_ID];
    OpenOrderSnapshot(t);
    OpenOrderLeftAlone(t, p);
    ProcessStepStores(s, TRACE_ID, LOOK, p);
    ApplyKeepsKeys(s, ProcessStep(TRACE_ID, LOOK), p);
    LookKeepsWatch(t, Apply(s, ProcessStep(TRACE_ID, LOOK), p).traces[TRACE_ID]);
  }

  lemma LookKeepsWatch(t: Trace, after: Trace)
    requires Watched(t) && Stamped(after, 0) == Stamped(Recorded(t, OPEN_SNAPSHOT), 0)
    ensures Watched(after) && Streak(after) == Streak(t) + 1 && MayRecord(after.reconciliation)
  {
    assert after == Recorded(t, OPEN_SNAPSHOT).(updatedAt := after.updatedAt);
  }

  lemma NoteKeepsWatch(s: Store, rec: Record, p: Policy)
    requires Keyed(s) && TRACE_ID in s.traces && Watched(s.traces[TRACE_ID])
    ensures var step := RecordStep(TRACE_ID, rec, 0); var s' := Apply(s, step, p);
      && Keyed(s') && TRACE_ID in s'.traces && Watched(s'.traces[TRACE_ID])
      && StreakIn(s', TRACE_ID) == (if rec.matched then 0 else StreakIn(s, TRACE_ID) + 1)
      && (MayRecord(s'.traces[TRACE_ID].reconciliation) <==> !rec.source.OtherSource?)
  {
    ApplyKeepsKeys(s, RecordStep(TRACE_ID, rec, 0), p);
  }

  // Runs made of looks and notes

  datatype Move = Look | Note(rec: Record)

  datatype Mark = Mark(streak: nat, automatic: bool)

  function StepOf(m: Move): Step {
    match m
    case Look => ProcessStep(TRACE_ID, LOOK)
    case Note(rec) => RecordStep(TRACE_ID, rec, 0)
  }

  function StepsOf(moves: seq<Move>): seq<Step> {
    seq(|moves|, i requires 0 <= i < |moves| => StepOf(moves[i]))
  }

  ghost function Moved(mark: Mark, m: Move): Mark {
    match m
    case Look => Mark(mark.streak + 1, mark.automatic)
    case Note(rec) => Mark(if rec.matched then 0 else mark.streak + 1, !rec.source.OtherSource?)
  }

  ghost function MarkAfter(moves: seq<Move>): Mark {
    if moves == [] then Mark(0, true) else Moved(MarkAfter(moves[..|moves| - 1]), moves[|moves| - 1])
  }

  /** Every look is at a trace that is left to the automatic reconciliation and stays below the limit. */
  ghost predicate Possible(moves: seq<Move>, limit: nat) {
    moves != [] ==>
      var init := moves[..|moves| - 1];
      && Possible(init, limit)
      && (moves[|moves| - 1].Look? ==> MarkAfter(init).automatic && MarkAfter(init).streak + 2 <= limit)
  }

  ghost function Looks(moves: seq<Move>): nat {
    if moves == [] then 0 else Looks(moves[..|moves| - 1]) + (if moves[|moves| - 1].Look? then 1 else 0)
  }

  ghost function NotesOf(moves: seq<Move>): seq<Record> {
    if moves == [] then []
    else
      var before, last := NotesOf(moves[..|moves| - 1]), moves[|moves| - 1];
      if last.Note? then before + [last.rec] else before
  }

  const WATCHED_TRACE :=
    Trace(TRACE_ID, "", "", "intent", "", "", Active, RecoveryRequired, false, Absent, None, None, 0,
          NO_RECONCILIATION, None, None)

  const WATCHED_STORE := Store(map[TRACE_ID := WATCHED_TRACE], map[])

  /** The store after the moves holds the watched trace, with the streak and the source the moves lead to. */
  ghost predicate Reached(s: Store, mark: Mark) {
    && Keyed(s) && TRACE_ID in s.traces && Watched(s.traces[TRACE_ID])
    && StreakIn(s, TRACE_ID) == mark.streak && (MayRecord(s.traces[TRACE_ID].reconciliation) <==> mark.automatic)
  }

  lemma MoveReaches(s: Store, mark: Mark, m: Move, p: Policy)
    requires Reached(s, mark) && (m.Look? ==> mark.automatic && mark.streak + 2 <= p.mismatchHandoffCount)
    ensures Reached(Apply(s, StepOf(m), p), Moved(mark, m))
    ensures TakesSnapshot(s, StepOf(m), TRACE_ID) <==> m.Look?
  {
    match m
    case Look => LookTakesSnapshot(s, p);
    case Note(rec) => NoteKeepsWatch(s, rec, p);
  }

  /** The moves, as steps of the store: what they lead to and what they count. */
  ghost predicate RunAsMoved(moves: seq<Move>, p: Policy) {
    var steps := StepsOf(moves);
    && Reached(Run(WATCHED_STORE, steps, p), MarkAfter(moves))
    && StaysActive(WATCHED_STORE, steps, p, TRACE_ID)
    && SnapshotsTaken(WATCHED_STORE, steps, p, TRACE_ID) == Looks(moves)
    && RecordsOf(steps, TRACE_ID) == NotesOf(moves)
  }

  lemma OneMoreMove(init: seq<Move>, last: Move, p: Policy)
    requires RunAsMoved(init, p)
    requires last.Look? ==> MarkAfter(init).automatic && MarkAfter(init).streak + 2 <= p.mismatchHandoffCount
    ensures RunAsMoved(init + [last], p)
  {
    var before, step := StepsOf(init), StepOf(last);
    assert StepsOf(init + [last]) == before + [step] && (before + [step])[..|before|] == before;
    MoveReaches(Run(WATCHED_STORE, before, p), MarkAfter(init), last, p);
    MoveMore(init, last, p.mismatchHandoffCount);
  }

  lemma NoMoves(p: Policy)
    ensures RunAsMoved([], p)
  {}

  lemma {:induction false} MovesRun(moves: seq<Move>, p: Policy)
    requires Possible(moves, p.mismatchHandoffCount)
    ensures RunAsMoved(moves, p)
  {
    if moves == [] {
      NoMoves(p);
    } else {
      MovesRun(moves[..|moves| - 1], p);
      OneMoreMove(moves[..|moves| - 1], moves[|moves| - 1], p);
      assert moves[..|moves| - 1] + [moves[|moves| - 1]] == moves;
    }
  }

  // Putting moves together

  function NoteAll(recs: seq<Record>): seq<Move> {
    seq(|recs|, i requires 0 <= i < |recs| => Note(recs[i]))
  }

  lemma MoveMore(moves: seq<Move>, m: Move, limit: nat)
    ensures MarkAfter(moves + [m]) == Moved(MarkAfter(moves), m)
    ensures Possible(moves + [m], limit) <==>
            Possible(moves, limit) && (m.Look? ==> MarkAfter(moves).automatic && MarkAfter(moves).streak + 2 <= limit)
    ensures Looks(moves + [m]) == Looks(moves) + (if m.Look? then 1 else 0)
    ensures NotesOf(moves + [m]) == if m.Note? then NotesOf(moves) + [m.rec] else NotesOf(moves)
  {
    assert (moves + [m])[..|moves|] == moves;
  }

  /** `more` is `moves` and then a note of each result. */
  ghost predicate Followed(moves: seq<Move>, more: seq<Move>, recs: seq<Record>, limit: nat) {
    && Possible(more, limit) && Looks(more) == Looks(moves) && NotesOf(more) == NotesOf(moves) + recs
    && (recs != [] ==> (MarkAfter(more).automatic <==> LeftToAutomatic(recs)))
    && (AnyMatched(recs) ==> MarkAfter(more).streak == RecordedStreak(recs))
  }

  lemma FollowedMore(moves: seq<Move>, more: seq<Move>, recs: seq<Record>, rec: Record, limit: nat)
    requires Followed(moves, more, recs, limit)
    ensures Followed(moves, more + [Note(rec)], recs + [rec], limit)
  {
    var notes := NotesOf(moves);
    MoveMore(more, Note(rec), limit);
    MatchedMore(recs, rec);
    RecordedMore(recs, rec);
    assert notes + recs + [rec] == notes + (recs + [rec]);
  }

  lemma RecordedMore(recs: seq<Record>, rec: Record)
    ensures RecordedStreak(recs + [rec]) == if rec.matched then 0 else RecordedStreak(recs) + 1
    ensures LeftToAutomatic(recs + [rec]) <==> !rec.source.OtherSource?
    ensures !AnyMatched(recs) && !rec.matched ==> !AnyMatched(recs + [rec])
  {
    assert (recs + [rec])[..|recs|] == recs;
    MatchedMore(recs, rec);
  }

  lemma {:induction false} NotesFollow(moves: seq<Move>, recs: seq<Record>, limit: nat)
    requires Possible(moves, limit)
    ensures Followed(moves, moves + NoteAll(recs), recs, limit)
  {
    if recs == [] {
      assert moves + NoteAll(recs) == moves;
    } else {
      var init, last := recs[..|recs| - 1], recs[|recs| - 1];
      NotesFollow(moves, init, limit);
      FollowedMore(moves, moves + NoteAll(init), init, last, limit);
      assert moves + NoteAll(recs) == moves + NoteAll(init) + [Note(last)] && recs == init + [last];
    }
  }

  lemma {:induction false} LooksFirst(n: nat, limit: nat) returns (moves: seq<Move>)
    requires n < limit
    ensures Possible(moves, limit) && MarkAfter(moves) == Mark(n, true) && Looks(moves) == n && NotesOf(moves) == []
  {
    if n == 0 {
      moves := [];
    } else {
      var before := LooksFirst(n - 1, limit);
      MoveMore(before, Look, limit);
      moves := before + [Look];
    }
  }

  /** As many snapshots as the limit allows, the results up to where they restart the count, one more, the rest. */
  lemma RestartedMoves(recs: seq<Record>, limit: nat) returns (moves: seq<Move>)
    requires Restarts(recs, limit)
    ensures Possible(moves, limit) && Looks(moves) == limit && NotesOf(moves) == recs
  {
    var n :| 0 <= n <= |recs| && RestartsAt(recs[..n], limit);
    var restarted := MovesToRestart(recs[..n], limit);
    NotesFollow(restarted, recs[n..], limit);
    moves := restarted + NoteAll(recs[n..]);
    assert recs[..n] + recs[n..] == recs;
  }

  lemma MovesToRestart(recs: seq<Record>, limit: nat) returns (moves: seq<Move>)
    requires RestartsAt(recs, limit)
    ensures Possible(moves, limit) && Looks(moves) == limit && NotesOf(moves) == recs
  {
    var first := LooksFirst(limit - 1, limit);
    NotesFollow(first, recs, limit);
    MoveMore(first + NoteAll(recs), Look, limit);
    moves := first + NoteAll(recs) + [Look];
    assert NotesOf(moves) == [] + recs;
  }

  // The exact condition

  /** Whatever ticks and other requests come in between, these results leave the bound on snapshots in force. */
  ghost predicate BoundSurvives(recs: seq<Record>, p: Policy) {
    forall s, steps, id ::
      Tracked(s, steps, id) && PlainCounts(s.traces[id].reconciliation) && StreakIn(s, id) >= 0
      && StaysActive(s, steps, p, id) && RecordsOf(steps, id) == recs
      ==> SnapshotsTaken(s, steps, p, id) <= p.mismatchHandoffCount - 1
  }

  /**
   An active trace has fewer snapshots than the handoff count, in every run in which the operator records these
   results, if and only if they never wipe out the streak and then leave the trace to automatic reconciliation.
   Several results may be recorded before a tick next reaches the trace: the tick that the endpoint runs after
   recording is a step of its own, and requests are handled by concurrent threads.
   */
  lemma BoundSurvivesExactly(recs: seq<Record>, p: Policy)
    requires ValidPolicy(p)
    ensures BoundSurvives(recs, p) <==> !Restarts(recs, p.mismatchHandoffCount)
  {
    if Restarts(recs, p.mismatchHandoffCount) {
      var moves := RestartedMoves(recs, p.mismatchHandoffCount);
      MovesRun(moves, p);
      WatchedFromStart(StepsOf(moves), p);
      assert SnapshotsTaken(WATCHED_STORE, StepsOf(moves), p, TRACE_ID) == p.mismatchHandoffCount;
    } else {
      forall s, steps, id |
        Tracked(s, steps, id) && PlainCounts(s.traces[id].reconciliation) && StreakIn(s, id) >= 0
        && StaysActive(s, steps, p, id) && RecordsOf(steps, id) == recs
        ensures SnapshotsTaken(s, steps, p, id) <= p.mismatchHandoffCount - 1
      {
        ActiveForFewSnapshots(s, steps, p, id);
      }
    }
  }

  lemma WatchedFromStart(steps: seq<Step>, p: Policy)
    requires forall i | 0 <= i < |steps| :: !steps[i].TimeoutStep?
    ensures Tracked(WATCHED_STORE, steps, TRACE_ID)
    ensures PlainCounts(WATCHED_STORE.traces[TRACE_ID].reconciliation) && StreakIn(WATCHED_STORE, TRACE_ID) == 0
  {}

  // The cycle

  /** A match with an open order, recorded under the name of the automatic reconciliation. */
  const FALSE_MATCH := Record(true, 1, 0.0, AutoPrivateConnectors, None, None, None, None, None)

  lemma {:induction false} CycleMoves(n: nat, limit: nat) returns (moves: seq<Move>)
    requires limit >= 2
    ensures Possible(moves, limit) && MarkAfter(moves) == Mark(0, true) && Looks(moves) == n
    ensures NotesOf(moves) == seq(n, _ => FALSE_MATCH)
  {
    if n == 0 {
      moves := [];
    } else {
      var before := CycleMoves(n - 1, limit);
      MoveMore(before, Look, limit);
      MoveMore(before + [Look], Note(FALSE_MATCH), limit);
      moves := before + [Look] + [Note(FALSE_MATCH)];
    }
  }

  /** Recorded again and again, such a match keeps a trace active for any number of snapshots. */
  lemma FalseMatchesCycle(n: nat, p: Policy) returns (steps: seq<Step>)
    requires p.mismatchHandoffCount >= 2
    ensures Tracked(WATCHED_STORE, steps, TRACE_ID) && StaysActive(WATCHED_STORE, steps, p, TRACE_ID)
    ensures SnapshotsTaken(WATCHED_STORE, steps, p, TRACE_ID) == n
    ensures RecordsOf(steps, TRACE_ID) == seq(n, _ => FALSE_MATCH)
  {
    var moves := CycleMoves(n, p.mismatchHandoffCount);
    MovesRun(moves, p);
    steps := StepsOf(moves);
    WatchedFromStart(steps, p);
  }
}
