/**
 Refreshing market data: several callers (the poller, request handlers) refresh at once, and a target
 that somebody is fetching already is skipped.
 */
module MarketDataRuntime {
  import opened Text

  type Caller = nat
  // An exchange and a market, both normalised.
  type Target = (string, string)

  /** `fetching` is what each caller is in the middle of; it is not stored anywhere. */
  datatype State = State(inflight: set<Target>, skips: nat, fetching: map<Caller, Target>)

  datatype Step = Acquire(caller: Caller, target: Target) | Release(caller: Caller)

  function Next(s: State, step: Step): State {
    match step
    case Acquire(caller, target) =>
      if caller in s.fetching then s
      else if target in s.inflight then State(s.inflight, s.skips + 1, s.fetching)
      else State(s.inflight + {target}, s.skips, s.fetching[caller := target])
    case Release(caller) =>
      if caller !in s.fetching then s
      else State(s.inflight - {s.fetching[caller]}, s.skips, s.fetching - {caller})
  }

  const START := State({}, 0, map[])

  function Run(s: State, steps: seq<Step>): State {
    if steps == [] then s else Next(Run(s, steps[..|steps| - 1]), steps[|steps| - 1])
  }

  lemma RunMore(s: State, steps: seq<Step>, step: Step)
    ensures Run(s, steps + [step]) == Next(Run(s, steps), step)
  {
    assert (steps + [step])[..|steps|] == steps;
  }

  // Exclusion

  ghost predicate Fetches(s: State, caller: Caller, target: Target) {
    caller in s.fetching && s.fetching[caller] == target
  }

  /** A target is marked exactly while one caller fetches it, and no target has two. */
  ghost predicate Inv(s: State) {
    && (forall caller | caller in s.fetching :: s.fetching[caller] in s.inflight)
    && (forall target | target in s.inflight :: exists caller :: Fetches(s, caller, target))
    && (forall a, b, target | Fetches(s, a, target) && Fetches(s, b, target) :: a == b)
  }

  lemma AcquireKeepsInv(s: State, caller: Caller, target: Target)
    requires Inv(s)
    ensures Inv(Next(s, Acquire(caller, target)))
  {
    var s' := Next(s, Acquire(caller, target));
    if s'.fetching != s.fetching {
      forall t | t in s'.inflight ensures exists c :: Fetches(s', c, t) {
        if t == target {
          assert Fetches(s', caller, t);
        } else {
          var c :| Fetches(s, c, t);
          assert Fetches(s', c, t);
        }
      }
      forall a, b, t | Fetches(s', a, t) && Fetches(s', b, t) ensures a == b {
        if t != target {
          assert Fetches(s, a, t) && Fetches(s, b, t);
        }
      }
    } else {
      SameFetching(s, s');
    }
  }

  lemma SameFetching(s: State, s': State)
    requires Inv(s) && s'.fetching == s.fetching && s'.inflight == s.inflight
    ensures Inv(s')
  {
    forall c, t ensures Fetches(s', c, t) <==> Fetches(s, c, t) {}
    forall t | t in s'.inflight ensures exists c :: Fetches(s', c, t) {
      var c :| Fetches(s, c, t);
      assert Fetches(s', c, t);
    }
  }

  lemma ReleaseKeepsInv(s: State, caller: Caller)
    requires Inv(s)
    ensures Inv(Next(s, Release(caller)))
  {
    var s' := Next(s, Release(caller));
    if caller in s.fetching {
      assert Fetches(s, caller, s.fetching[caller]);
      forall c | c in s'.fetching ensures s'.fetching[c] in s'.inflight {
        assert Fetches(s, c, s.fetching[c]);
      }
      forall t | t in s'.inflight ensures exists c :: Fetches(s', c, t) {
        var c :| Fetches(s, c, t);
        assert Fetches(s', c, t);
      }
      forall a, b, t | Fetches(s', a, t) && Fetches(s', b, t) ensures a == b {
        assert Fetches(s, a, t) && Fetches(s, b, t);
      }
    }
  }

  lemma {:induction false} RunKeepsInv(s: State, steps: seq<Step>)
    requires Inv(s)
    ensures Inv(Run(s, steps))
  {
    if steps != [] {
      var n := |steps| - 1;
      RunKeepsInv(s, steps[..n]);
      match steps[n]
      case Acquire(caller, target) => AcquireKeepsInv(Run(s, steps[..n]), caller, target);
      case Release(caller) => ReleaseKeepsInv(Run(s, steps[..n]), caller);
    }
  }

  /**
   However the callers interleave: one target is never fetched twice at once, a caller is turned away
   exactly when another one is fetching its target, and when all are done nothing stays marked.
   */
  lemma OneFetchPerTarget(steps: seq<Step>, caller: Caller, target: Target)
    ensures var s := Run(START, steps);
      && (forall a, b, t | Fetches(s, a, t) && Fetches(s, b, t) :: a == b)
      && (caller !in s.fetching ==>
            (Fetches(Next(s, Acquire(caller, target)), caller, target) <==> !exists other :: Fetches(s, other, target)))
      && (s.fetching == map[] ==> s.inflight == {})
  {
    RunKeepsInv(START, steps);
    MarksAreFetches(Run(START, steps));
  }

  lemma MarksAreFetches(s: State)
    requires Inv(s)
    ensures forall t :: t in s.inflight <==> exists c :: Fetches(s, c, t)
    ensures s.inflight == set c | c in s.fetching :: s.fetching[c]
  {
    forall t ensures t in s.inflight <==> exists c :: Fetches(s, c, t) {
      if c :| Fetches(s, c, t) {
        assert s.fetching[c] in s.inflight;
      }
    }
    forall t | t in s.inflight ensures t in set c | c in s.fetching :: s.fetching[c] {
      var c :| Fetches(s, c, t);
    }
  }

  /** The skip count is the number of callers that were turned away. */
  ghost function TurnedAway(s: State, steps: seq<Step>): nat {
    if steps == [] then 0
    else
      var before, last := Run(s, steps[..|steps| - 1]), steps[|steps| - 1];
      TurnedAway(s, steps[..|steps| - 1]) +
      (if last.Acquire? && last.caller !in before.fetching && last.target in before.inflight then 1 else 0)
  }

  lemma {:induction false} SkipsAreCounted(s: State, steps: seq<Step>)
    ensures Run(s, steps).skips == s.skips + TurnedAway(s, steps)
  {
    if steps != [] {
      SkipsAreCounted(s, steps[..|steps| - 1]);
    }
  }

  lemma SkipsFromStart(steps: seq<Step>)
    ensures Run(START, steps).skips == TurnedAway(START, steps)
  {
    SkipsAreCounted(START, steps);
  }

  // A whole refresh, the other callers' steps falling between its own

  datatype Answer = Snapshot(payload: string) | MarketError(code: string)

  datatype Outcome = Got(payload: string) | Failed(market: string, code: string) | AlreadyFetching(market: string)

  // The market and the code of an error.
  type Error = (string, string)

  predicate ByOthers(steps: seq<Step>, caller: Caller) {
    forall i | 0 <= i < |steps| :: steps[i].caller != caller
  }

  lemma {:induction false} OthersLeaveCaller(s: State, steps: seq<Step>, caller: Caller)
    requires ByOthers(steps, caller)
    ensures caller in Run(s, steps).fetching <==> caller in s.fetching
    ensures caller in s.fetching ==> Run(s, steps).fetching[caller] == s.fetching[caller]
  {
    if steps != [] {
      OthersLeaveCaller(s, steps[..|steps| - 1], caller);
    }
  }

  /** What others do before the k-th market is tried, and while it is fetched. */
  datatype Others = Others(before: nat -> seq<Step>, during: nat -> seq<Step>)
  {
    ghost predicate Without(caller: Caller) {
      forall k :: ByOthers(before(k), caller) && ByOthers(during(k), caller)
    }
  }

  function Wanted(exchange: string, markets: seq<string>): seq<Target> {
    var names := NonBlankParts(markets);
    seq(|names|, i requires 0 <= i < |names| => (Lower(Strip(exchange)), Upper(names[i])))
  }

  /** A market that is not blank is wanted once for each time it is listed, its name and the exchange's normalised. */
  lemma WantedOne(exchange: string, market: string)
    ensures Wanted(exchange, [market]) ==
            if Strip(market) == "" then [] else [(Lower(Strip(exchange)), Upper(Strip(market)))]
  {
    PartOfOne(market);
  }

  lemma WantedInOrder(exchange: string, first: seq<string>, second: seq<string>)
    ensures Wanted(exchange, first + second) == Wanted(exchange, first) + Wanted(exchange, second)
  {
    PartsJoined(first, second);
  }

  ghost function Before(s: State, caller: Caller, targets: seq<Target>, o: Others, k: nat): State
    requires k <= |targets|
    decreases k, 1
  {
    Run(AfterMarkets(s, caller, targets, o, k), o.before(k))
  }

  /** The shared state after the caller is through with its first `k` targets. */
  ghost function AfterMarkets(s: State, caller: Caller, targets: seq<Target>, o: Others, k: nat): State
    requires k <= |targets|
    decreases k, 0
  {
    if k == 0 then s
    else
      var before := Before(s, caller, targets, o, k - 1);
      var tried := Next(before, Acquire(caller, targets[k - 1]));
      if targets[k - 1] in before.inflight then tried else Next(Run(tried, o.during(k - 1)), Release(caller))
  }

  ghost function OutcomeOf(
    s: State, caller: Caller, targets: seq<Target>, o: Others, answer: nat -> Answer, k: nat): Outcome
    requires k < |targets|
  {
    if targets[k] in Before(s, caller, targets, o, k).inflight then AlreadyFetching(targets[k].1)
    else Told(targets[k], answer(k))
  }

  function Snapshots(outcomes: seq<Outcome>): seq<string> {
    if outcomes == [] then []
    else
      var last := outcomes[|outcomes| - 1];
      Snapshots(outcomes[..|outcomes| - 1]) + (if last.Got? then [last.payload] else [])
  }

  function ErrorsOf(outcome: Outcome): seq<Error> {
    match outcome
    case Got(_) => []
    case Failed(market, code) => [(market, code)]
    case AlreadyFetching(market) => [(market, "FETCH_INFLIGHT")]
  }

  function Errors(outcomes: seq<Outcome>): seq<Error> {
    if outcomes == [] then []
    else
      var last := outcomes[|outcomes| - 1];
      Errors(outcomes[..|outcomes| - 1]) + ErrorsOf(last)
  }

  lemma {:induction false} EveryMarketIsReported(outcomes: seq<Outcome>)
    ensures |Snapshots(outcomes)| + |Errors(outcomes)| == |outcomes|
  {
    if outcomes != [] {
      EveryMarketIsReported(outcomes[..|outcomes| - 1]);
    }
  }

  function Told(target: Target, answer: Answer): Outcome {
    match answer case Snapshot(payload) => Got(payload) case MarketError(code) => Failed(target.1, code)
  }

  /** One market was tried, from state `s` to state `s'`. */
  ghost predicate Tried(
    s: State, s': State, caller: Caller, target: Target, answer: Answer, before: seq<Step>, during: seq<Step>,
    outcome: Outcome)
  {
    var tried := Run(s, before);
    if target in tried.inflight then outcome == AlreadyFetching(target.1) && s' == Next(tried, Acquire(caller, target))
    else
      && s' == Next(Run(Next(tried, Acquire(caller, target)), during), Release(caller))
      && outcome == Told(target, answer)
  }

  /** The caller is through with as many targets as there are outcomes, and is now in state `s`. */
  ghost predicate Through(
    start: State, s: State, caller: Caller, targets: seq<Target>, o: Others, answer: nat -> Answer,
    outcomes: seq<Outcome>)
  {
    && |outcomes| <= |targets| && s == AfterMarkets(start, caller, targets, o, |outcomes|)
    && forall k | 0 <= k < |outcomes| :: outcomes[k] == OutcomeOf(start, caller, targets, o, answer, k)
  }

  lemma ThroughOneMore(
    start: State, s: State, s': State, caller: Caller, targets: seq<Target>, o: Others, answer: nat -> Answer,
    outcomes: seq<Outcome>, outcome: Outcome)
    requires Through(start, s, caller, targets, o, answer, outcomes) && |outcomes| < |targets|
    requires var k := |outcomes|; Tried(s, s', caller, targets[k], answer(k), o.before(k), o.during(k), outcome)
    ensures Through(start, s', caller, targets, o, answer, outcomes + [outcome])
  {
    var k := |outcomes|;
    assert Before(start, caller, targets, o, k) == Run(s, o.before(k));
    assert outcome == OutcomeOf(start, caller, targets, o, answer, k);
    assert s' == AfterMarkets(start, caller, targets, o, k + 1);
  }

  /** Each market is reported as answered or, under its own name, with its error or as being fetched already. */
  lemma ReportedUnderItsName(
    start: State, s: State, caller: Caller, targets: seq<Target>, o: Others, answer: nat -> Answer,
    outcomes: seq<Outcome>, k: nat)
    requires Through(start, s, caller, targets, o, answer, outcomes) && k < |outcomes|
    ensures var busy := targets[k] in Before(start, caller, targets, o, k).inflight;
      && (busy ==> ErrorsOf(outcomes[k]) == [(targets[k].1, "FETCH_INFLIGHT")] && !outcomes[k].Got?)
      && (!busy && answer(k).MarketError? ==>
            ErrorsOf(outcomes[k]) == [(targets[k].1, answer(k).code)] && !outcomes[k].Got?)
      && (!busy && answer(k).Snapshot? ==> ErrorsOf(outcomes[k]) == [] && outcomes[k] == Got(answer(k).payload))
  {
    assert outcomes[k] == OutcomeOf(start, caller, targets, o, answer, k);
  }

  lemma ReportedOneMore(outcomes: seq<Outcome>, outcome: Outcome)
    ensures Snapshots(outcomes + [outcome]) == Snapshots(outcomes) + (if outcome.Got? then [outcome.payload] else [])
    ensures Errors(outcomes + [outcome]) == Errors(outcomes) + ErrorsOf(outcome)
  {
    assert (outcomes + [outcome])[..|outcomes|] == outcomes;
  }

  class Runtime {
    var state: State

    constructor ()
      ensures state == START
    {
      state := START;
    }

    method LetOthersRun(steps: seq<Step>)
      modifies this
      ensures state == Run(old(state), steps)
    {
      for k := 0 to |steps|
        invariant state == Run(old(state), steps[..k])
      {
        RunMore(old(state), steps[..k], steps[k]);
        assert steps[..k + 1] == steps[..k] + [steps[k]];
        state := Next(state, steps[k]);
      }
      assert steps[..|steps|] == steps;
    }

    method AcquireInflightTarget(caller: Caller, target: Target) returns (acquired: bool)
      requires caller !in state.fetching
      modifies this
      ensures state == Next(old(state), Acquire(caller, target)) && (acquired <==> target !in old(state).inflight)
    {
      if target in state.inflight {
        state := State(state.inflight, state.skips + 1, state.fetching);
        return false;
      }
      state := State(state.inflight + {target}, state.skips, state.fetching[caller := target]);
      acquired := true;
    }

    method ReleaseInflightTarget(caller: Caller)
      requires caller in state.fetching
      modifies this
      ensures state == Next(old(state), Release(caller))
    {
      state := State(state.inflight - {state.fetching[caller]}, state.skips, state.fetching - {caller});
    }

    /** One market; the mark is taken off whatever the connector answered. */
    method RefreshOne(caller: Caller, target: Target, answer: Answer, before: seq<Step>, during: seq<Step>)
      returns (outcome: Outcome)
      requires caller !in state.fetching && ByOthers(before, caller) && ByOthers(during, caller)
      modifies this
      ensures caller !in state.fetching
      ensures Tried(old(state), state, caller, target, answer, before, during, outcome)
    {
      OthersLeaveCaller(state, before, caller);
      LetOthersRun(before);
      var acquired := AcquireInflightTarget(caller, target);
      if !acquired {
        return AlreadyFetching(target.1);
      }
      OthersLeaveCaller(state, during, caller);
      LetOthersRun(during);
      outcome := Told(target, answer);
      ReleaseInflightTarget(caller);
    }

    /** `stopAt`: how many markets are tried before the runtime is told to stop, if it is. */
    method Refresh(
      caller: Caller, exchange: string, markets: seq<string>, answer: nat -> Answer, o: Others, stopAt: nat)
      returns (snapshots: seq<string>, errors: seq<Error>, ghost outcomes: seq<Outcome>)
      requires caller !in state.fetching && o.Without(caller)
      modifies this
      ensures caller !in state.fetching
      ensures var targets := Wanted(exchange, markets);
              && |outcomes| == (if stopAt < |targets| then stopAt else |targets|)
              && Through(old(state), state, caller, targets, o, answer, outcomes)
      ensures snapshots == Snapshots(outcomes) && errors == Errors(outcomes)
      ensures |snapshots| + |errors| == |outcomes|
    {
      var targets := Wanted(exchange, markets);
      snapshots, errors, outcomes := [], [], [];
      var k := 0;
      while k < |targets| && k < stopAt
        invariant k <= stopAt && |outcomes| == k && caller !in state.fetching
        invariant Through(old(state), state, caller, targets, o, answer, outcomes)
        invariant snapshots == Snapshots(outcomes) && errors == Errors(outcomes)
      {
        ghost var s := state;
        var outcome := RefreshOne(caller, targets[k], answer(k), o.before(k), o.during(k));
        ThroughOneMore(old(state), s, state, caller, targets, o, answer, outcomes, outcome);
        ReportedOneMore(outcomes, outcome);
        match outcome {
          case Got(payload) => snapshots := snapshots + [payload];
          case Failed(market, code) => errors := errors + [(market, code)];
          case AlreadyFetching(market) => errors := errors + [(market, "FETCH_INFLIGHT")];
        }
        outcomes := outcomes + [outcome];
        k := k + 1;
      }
      EveryMarketIsReported(outcomes);
    }
  }
}
