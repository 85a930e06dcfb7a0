/**
 The pair lock, as clients see it: acquire and release are several commands each (GET, SET NX, SET,
 DEL), other clients' commands fall in between, and a lock may expire at any time.
 */
module PairLock {
  import opened Text

  // A market and a quote pair id.
  type Pair = (string, string)

  datatype Lock = Lock(ownerId: string, runId: string, botId: string)

  /** The identity a lock names is the requested one: by owner id, or by run and bot together. */
  predicate SameHolder(existing: Lock, ownerId: string, runId: string, botId: string) {
    || (ownerId != "" && Strip(existing.ownerId) == ownerId)
    || (runId != "" && botId != "" && Strip(existing.runId) == runId && Strip(existing.botId) == botId)
  }

  predicate AcquireMatches(existing: Lock, payload: Lock) {
    SameHolder(existing, Strip(payload.ownerId), Strip(payload.runId), Strip(payload.botId))
  }

  // A release request; each credential may be left out.
  datatype Credentials = Credentials(ownerId: Option<string>, runId: Option<string>, botId: Option<string>)

  /** Without an owner id, or a run id and a bot id, a release asks nobody whose lock it is. */
  predicate Checked(c: Credentials) {
    c.ownerId.Some? || (c.runId.Some? && c.botId.Some?)
  }

  predicate ReleaseMatches(existing: Lock, c: Credentials) {
    || (c.ownerId.Some? && c.ownerId.value != "" && Strip(existing.ownerId) == c.ownerId.value)
    || (c.runId.Some? && c.runId.value != "" && c.botId.Some? && c.botId.value != ""
        && Strip(existing.runId) == Strip(c.runId.value) && Strip(existing.botId) == Strip(c.botId.value))
  }

  predicate MayDelete(existing: Lock, c: Credentials) {
    !Checked(c) || ReleaseMatches(existing, c)
  }

  // Clients and what they are in the middle of

  type Client = nat

  datatype Pc =
    | Idle
    | SawNone(pair: Pair)   // acquire: GET found no lock, SET NX is next
    | SawOwn(pair: Pair)    // acquire: GET found its own lock, SET is next
    | SawFree(pair: Pair)   // release: GET found a lock it may delete, DEL is next

  /** `holds` is what the acquire and release outcomes told the clients; it is not stored anywhere. */
  datatype State = State(locks: map<Pair, (Client, Lock)>, pcs: map<Client, Pc>, holds: set<(Client, Pair)>)

  function PcOf(s: State, c: Client): Pc {
    if c in s.pcs then s.pcs[c] else Idle
  }

  function At(s: State, c: Client, pc: Pc): State {
    State(s.locks, s.pcs[c := pc], s.holds)
  }

  datatype Step =
    | AcquireGet(c: Client, pair: Pair)
    | AcquireSetNx(c: Client)
    | AcquireSet(c: Client)
    | ReleaseGet(c: Client, pair: Pair, credentials: Credentials)
    | ReleaseDel(c: Client)
    | Expire(pair: Pair)

  /** Who each client is: the payload it locks with. */
  type Directory = Client -> Lock

  function Next(s: State, step: Step, who: Directory): State {
    match step
    case AcquireGet(c, pair) =>
      if PcOf(s, c) != Idle then s
      else if pair !in s.locks then At(s, c, SawNone(pair))
      else if AcquireMatches(s.locks[pair].1, who(c)) then At(s, c, SawOwn(pair))
      else s
    case AcquireSetNx(c) =>
      (match PcOf(s, c)
       case SawNone(pair) =>
         if pair in s.locks then At(s, c, Idle)
         else State(s.locks[pair := (c, who(c))], s.pcs[c := Idle], s.holds + {(c, pair)})
       case _ => s)
    case AcquireSet(c) =>
      (match PcOf(s, c)
       case SawOwn(pair) => State(s.locks[pair := (c, who(c))], s.pcs[c := Idle], s.holds + {(c, pair)})
       case _ => s)
    case ReleaseGet(c, pair, credentials) =>
      if PcOf(s, c) == Idle && pair in s.locks && MayDelete(s.locks[pair].1, credentials)
      then At(s, c, SawFree(pair)) else s
    case ReleaseDel(c) =>
      (match PcOf(s, c)
       case SawFree(pair) => State(s.locks - {pair}, s.pcs[c := Idle], s.holds - {(c, pair)})
       case _ => s)
    case Expire(pair) =>
      // The holder knows its time to live and stops counting on the lock.
      if pair in s.locks then State(s.locks - {pair}, s.pcs, s.holds - {(s.locks[pair].0, pair)}) else s
  }

  const START := State(map[], map[], {})

  function Run(s: State, steps: seq<Step>, who: Directory): State {
    if steps == [] then s else Next(Run(s, steps[..|steps| - 1], who), steps[|steps| - 1], who)
  }

  lemma RunMore(s: State, steps: seq<Step>, step: Step, who: Directory)
    ensures Run(s, steps + [step], who) == Next(Run(s, steps, who), step, who)
  {
    assert (steps + [step])[..|steps|] == steps;
  }

  // When exactly it is safe

  ghost predicate Owns(s: State, c: Client, pair: Pair) {
    pair in s.locks && s.locks[pair].0 == c
  }

  /** Whoever counts on a pair finds its own entry there. */
  ghost predicate HoldersOwn(s: State) {
    forall h | h in s.holds :: Owns(s, h.0, h.1)
  }

  ghost predicate OwnersHold(s: State) {
    forall pair | pair in s.locks :: (s.locks[pair].0, pair) in s.holds
  }

  ghost predicate Exclusive(s: State) {
    forall c, d, pair | (c, pair) in s.holds && (d, pair) in s.holds :: c == d
  }

  /** Between the client's GET and its SET or DEL, the pair came to be another client's. */
  ghost predicate Overtaken(s: State, c: Client) {
    match PcOf(s, c)
    case SawOwn(pair) => pair in s.locks && s.locks[pair].0 != c
    case SawFree(pair) => pair in s.locks && s.locks[pair].0 != c
    case _ => false
  }

  /** The step is not an overtaken client's SET or DEL. */
  ghost predicate Polite(s: State, step: Step) {
    match step
    case AcquireSet(c) => PcOf(s, c).SawOwn? ==> !Overtaken(s, c)
    case ReleaseDel(c) => PcOf(s, c).SawFree? ==> !Overtaken(s, c)
    case _ => true
  }

  ghost predicate PoliteRun(steps: seq<Step>, who: Directory) {
    steps == [] ||
    (PoliteRun(steps[..|steps| - 1], who) && Polite(Run(START, steps[..|steps| - 1], who), steps[|steps| - 1]))
  }

  /** At every point of the run, whoever counts on a pair finds its own entry there. */
  ghost predicate SafeRun(steps: seq<Step>, who: Directory) {
    HoldersOwn(Run(START, steps, who)) && (steps != [] ==> SafeRun(steps[..|steps| - 1], who))
  }

  lemma OwnersAlwaysHold(s: State, step: Step, who: Directory)
    requires OwnersHold(s)
    ensures OwnersHold(Next(s, step, who))
  {}

  lemma PoliteStepIsSafe(s: State, step: Step, who: Directory)
    requires HoldersOwn(s) && Polite(s, step)
    ensures HoldersOwn(Next(s, step, who))
  {
    var s' := Next(s, step, who);
    forall h | h in s'.holds ensures Owns(s', h.0, h.1) {
      if h in s.holds {
        assert Owns(s, h.0, h.1);
      }
    }
  }

  /** An overtaken SET or DEL pulls the entry from under the client that counts on it. */
  lemma ImpoliteStepIsNot(s: State, step: Step, who: Directory)
    requires OwnersHold(s) && !Polite(s, step)
    ensures !HoldersOwn(Next(s, step, who))
  {
    var pair := PcOf(s, step.c).pair;
    var holder := s.locks[pair].0;
    var s' := Next(s, step, who);
    assert (holder, pair) in s'.holds && !Owns(s', holder, pair);
  }

  lemma {:induction false} OwnersHoldThroughout(steps: seq<Step>, who: Directory)
    ensures OwnersHold(Run(START, steps, who))
  {
    if steps != [] {
      OwnersHoldThroughout(steps[..|steps| - 1], who);
      OwnersAlwaysHold(Run(START, steps[..|steps| - 1], who), steps[|steps| - 1], who);
    }
  }

  /**
   With expiry at any time and any credentials: nobody ever counts on a lock that is not its own if
   and only if no overtaken client goes on to its SET or DEL.
   */
  lemma {:induction false} SafeExactlyWhenPolite(steps: seq<Step>, who: Directory)
    ensures SafeRun(steps, who) <==> PoliteRun(steps, who)
    ensures SafeRun(steps, who) ==> Exclusive(Run(START, steps, who))
  {
    if steps != [] {
      var init, last := steps[..|steps| - 1], steps[|steps| - 1];
      SafeExactlyWhenPolite(init, who);
      OwnersHoldThroughout(init, who);
      var s := Run(START, init, who);
      if Polite(s, last) {
        if HoldersOwn(s) {
          PoliteStepIsSafe(s, last, who);
        }
      } else {
        ImpoliteStepIsNot(s, last, who);
      }
    }
    HoldersAreAlone(Run(START, steps, who));
  }

  lemma HoldersAreAlone(s: State)
    ensures HoldersOwn(s) ==> Exclusive(s)
  {
    if HoldersOwn(s) {
      forall c, d, pair | (c, pair) in s.holds && (d, pair) in s.holds ensures c == d {
        assert Owns(s, c, pair) && Owns(s, d, pair);
      }
    }
  }

  // How a client is overtaken, and what its SET or DEL then does

  /** A lock that lapses after its owner's GET and is taken by another leaves the owner overtaken. */
  lemma LapseOvertakes(s: State, get: Step, c: Client, d: Client, pair: Pair, who: Directory)
    requires Owns(s, c, pair) && PcOf(s, c) == Idle && PcOf(s, d) == Idle && c != d
    requires match get
             case AcquireGet(b, p) => b == c && p == pair && AcquireMatches(s.locks[pair].1, who(c))
             case ReleaseGet(b, p, credentials) => b == c && p == pair && MayDelete(s.locks[pair].1, credentials)
             case _ => false
    ensures Overtaken(Run(s, [get, Expire(pair), AcquireGet(d, pair), AcquireSetNx(d)], who), c)
  {
    var seen := Next(s, get, who);
    RunOfFour(s, get, Expire(pair), AcquireGet(d, pair), AcquireSetNx(d), who);
    assert PcOf(seen, c) == if get.AcquireGet? then SawOwn(pair) else SawFree(pair);
  }

  lemma RunOfFour(s: State, a: Step, b: Step, c: Step, d: Step, who: Directory)
    ensures Run(s, [a, b, c, d], who) == Next(Next(Next(Next(s, a, who), b, who), c, who), d, who)
  {
    RunMore(s, [], a, who);
    RunMore(s, [a], b, who);
    RunMore(s, [a, b], c, who);
    RunMore(s, [a, b, c], d, who);
    assert [] + [a] == [a] && [a] + [b] == [a, b] && [a, b] + [c] == [a, b, c] && [a, b, c] + [d] == [a, b, c, d];
  }

  lemma OvertakenSetBreaksExclusion(s: State, c: Client, who: Directory)
    requires OwnersHold(s) && PcOf(s, c).SawOwn? && Overtaken(s, c)
    ensures !Exclusive(Next(s, AcquireSet(c), who))
  {
    var pair := PcOf(s, c).pair;
    assert {(c, pair), (s.locks[pair].0, pair)} <= Next(s, AcquireSet(c), who).holds;
  }

  /** An overtaken DEL leaves the pair free, and the next client to come holds it as well. */
  lemma OvertakenDelBreaksExclusion(s: State, c: Client, next: Client, who: Directory)
    requires OwnersHold(s) && PcOf(s, c).SawFree? && Overtaken(s, c)
    requires PcOf(s, next) == Idle && next != s.locks[PcOf(s, c).pair].0
    ensures var pair := PcOf(s, c).pair;
            !Exclusive(Next(Next(Next(s, ReleaseDel(c), who), AcquireGet(next, pair), who), AcquireSetNx(next), who))
  {
    var pair := PcOf(s, c).pair;
    var after := Next(Next(Next(s, ReleaseDel(c), who), AcquireGet(next, pair), who), AcquireSetNx(next), who);
    assert {(next, pair), (s.locks[pair].0, pair)} <= after.holds;
  }

  // What keeps clients from being overtaken

  /** No client's lock answers to another client's credentials. */
  ghost predicate Distinguishable(who: Directory) {
    forall c: Client, d: Client :: AcquireMatches(who(c), who(d)) ==> c == d
  }

  /** A release names its caller and nobody else. */
  ghost predicate OwnCredentials(c: Client, credentials: Credentials, who: Directory) {
    Checked(credentials) && forall d: Client :: ReleaseMatches(who(d), credentials) ==> c == d
  }

  /** A lock does not lapse between its owner's GET and the SET or DEL that follows. */
  ghost predicate ExpiryAllowed(s: State, pair: Pair) {
    pair in s.locks ==>
      var pc := PcOf(s, s.locks[pair].0);
      pc != SawOwn(pair) && pc != SawFree(pair)
  }

  ghost predicate Fair(s: State, step: Step, who: Directory) {
    match step
    case ReleaseGet(c, _, credentials) => OwnCredentials(c, credentials, who)
    case Expire(pair) => ExpiryAllowed(s, pair)
    case _ => true
  }

  ghost predicate FairRun(steps: seq<Step>, who: Directory) {
    steps == [] ||
    (FairRun(steps[..|steps| - 1], who) && Fair(Run(START, steps[..|steps| - 1], who), steps[|steps| - 1], who))
  }

  /** The stored entry is its owner's, and whoever is about to overwrite or delete a lock owns it. */
  ghost predicate Inv(s: State, who: Directory) {
    && (forall pair | pair in s.locks :: s.locks[pair].1 == who(s.locks[pair].0))
    && (forall c | c in s.pcs :: Entitled(s, c, s.pcs[c]))
  }

  /** A client about to overwrite or delete a lock owns it. */
  ghost predicate Entitled(s: State, c: Client, pc: Pc) {
    match pc
    case SawOwn(pair) => Owns(s, c, pair)
    case SawFree(pair) => Owns(s, c, pair)
    case _ => true
  }

  lemma GetKeepsInv(s: State, c: Client, pair: Pair, who: Directory)
    requires Inv(s, who) && Distinguishable(who)
    ensures Inv(Next(s, AcquireGet(c, pair), who), who)
  {
    if pair in s.locks && AcquireMatches(s.locks[pair].1, who(c)) {
      assert Owns(s, c, pair);
    }
  }

  lemma ReleaseGetKeepsInv(s: State, c: Client, pair: Pair, credentials: Credentials, who: Directory)
    requires Inv(s, who) && OwnCredentials(c, credentials, who)
    ensures Inv(Next(s, ReleaseGet(c, pair, credentials), who), who)
  {
    if pair in s.locks && MayDelete(s.locks[pair].1, credentials) {
      assert Owns(s, c, pair);
    }
  }

  /** The commands that write: nobody else was about to touch the lock they change. */
  lemma WriteKeepsInv(s: State, step: Step, who: Directory)
    requires step.AcquireSetNx? || step.AcquireSet? || step.ReleaseDel? || step.Expire?
    requires Inv(s, who) && Fair(s, step, who)
    ensures Inv(Next(s, step, who), who)
  {
    var s' := Next(s, step, who);
    forall d | d in s'.pcs ensures Entitled(s', d, s'.pcs[d]) {
      if d in s.pcs {
        assert Entitled(s, d, s.pcs[d]);
      }
    }
  }

  lemma StepKeepsInv(s: State, step: Step, who: Directory)
    requires Inv(s, who) && Distinguishable(who) && Fair(s, step, who)
    ensures Inv(Next(s, step, who), who)
  {
    match step
    case AcquireGet(c, pair) => GetKeepsInv(s, c, pair, who);
    case ReleaseGet(c, pair, credentials) => ReleaseGetKeepsInv(s, c, pair, credentials, who);
    case _ => WriteKeepsInv(s, step, who);
  }

  lemma InvMeansPolite(s: State, step: Step, who: Directory)
    requires Inv(s, who)
    ensures Polite(s, step)
  {
    if step.AcquireSet? || step.ReleaseDel? {
      assert step.c in s.pcs ==> Entitled(s, step.c, s.pcs[step.c]);
    }
  }

  lemma {:induction false} FairIsPolite(steps: seq<Step>, who: Directory)
    requires Distinguishable(who) && FairRun(steps, who)
    ensures Inv(Run(START, steps, who), who) && PoliteRun(steps, who)
  {
    if steps != [] {
      var init, last := steps[..|steps| - 1], steps[|steps| - 1];
      FairIsPolite(init, who);
      InvMeansPolite(Run(START, init, who), last, who);
      StepKeepsInv(Run(START, init, who), last, who);
    }
  }

  /** Mutual exclusion: at no time, however the commands interleave, do two clients hold one pair. */
  lemma NeverTwoHolders(steps: seq<Step>, who: Directory)
    requires Distinguishable(who) && FairRun(steps, who)
    ensures SafeRun(steps, who) && Exclusive(Run(START, steps, who))
  {
    FairIsPolite(steps, who);
    SafeExactlyWhenPolite(steps, who);
  }

  lemma StepRespectsOwner(s: State, step: Step, who: Directory, pair: Pair)
    requires Inv(s, who) && pair in s.locks
    ensures var s' := Next(s, step, who);
      && (pair in s'.locks ==> s'.locks[pair] == s.locks[pair])
      && (pair !in s'.locks ==> step == Expire(pair) || step == ReleaseDel(s.locks[pair].0))
  {}

  /** Only the owner's own SET replaces a lock, and only the owner's own DEL, or expiry, removes one. */
  lemma LocksAreTheirOwners(steps: seq<Step>, step: Step, who: Directory, pair: Pair)
    requires Distinguishable(who) && FairRun(steps, who)
    requires pair in Run(START, steps, who).locks
    ensures var s, s' := Run(START, steps, who), Run(START, steps + [step], who);
      && (pair in s'.locks ==> s'.locks[pair] == s.locks[pair])
      && (pair !in s'.locks ==> step == Expire(pair) || step == ReleaseDel(s.locks[pair].0))
  {
    RunMore(START, steps, step, who);
    FairIsPolite(steps, who);
    StepRespectsOwner(Run(START, steps, who), step, who, pair);
  }

  /** The credentials give the owner id of the lock, or its run and bot together. */
  ghost predicate NamesHolder(l: Lock, c: Credentials) {
    || (exists id :: c.ownerId == Some(id) && id != "" && Strip(l.ownerId) == id)
    || (exists runId, botId :: c.runId == Some(runId) && c.botId == Some(botId) && runId != "" && botId != ""
                               && Strip(l.runId) == Strip(runId) && Strip(l.botId) == Strip(botId))
  }

  /** A release that names nobody deletes whatever lock is there, whoever holds it. */
  lemma UncheckedReleaseDeletesAnyLock(s: State, c: Client, pair: Pair, credentials: Credentials, who: Directory)
    requires PcOf(s, c) == Idle && pair in s.locks
    ensures pair !in Next(Next(s, ReleaseGet(c, pair, credentials), who), ReleaseDel(c), who).locks <==>
            || (credentials.ownerId.None? && (credentials.runId.None? || credentials.botId.None?))
            || NamesHolder(s.locks[pair].1, credentials)
  {}

  // The two operations as the client runs them, other clients' commands falling between

  datatype AcquireOutcome = Acquired | Refreshed | AcquireConflict
  datatype ReleaseOutcome = Released | Missing | ReleaseConflict | DeleteMissed

  predicate ByOthers(step: Step, c: Client) {
    match step
    case AcquireGet(d, _) => d != c
    case AcquireSetNx(d) => d != c
    case AcquireSet(d) => d != c
    case ReleaseGet(d, _, _) => d != c
    case ReleaseDel(d) => d != c
    case Expire(_) => true
  }

  lemma {:induction false} OthersKeepPc(s: State, steps: seq<Step>, who: Directory, c: Client)
    requires forall i | 0 <= i < |steps| :: ByOthers(steps[i], c)
    ensures PcOf(Run(s, steps, who), c) == PcOf(s, c)
  {
    if steps != [] {
      OthersKeepPc(s, steps[..|steps| - 1], who, c);
    }
  }

  class RedisLocks {
    const who: Directory
    var state: State

    constructor (who: Directory)
      ensures this.who == who && state == START
    {
      this.who, state := who, START;
    }

    method Command(step: Step)
      modifies this
      ensures state == Next(old(state), step, who)
    {
      state := Next(state, step, who);
    }

    method LetOthersRun(steps: seq<Step>)
      modifies this
      ensures state == Run(old(state), steps, who)
    {
      for k := 0 to |steps|
        invariant state == Run(old(state), steps[..k], who)
      {
        RunMore(old(state), steps[..k], steps[k], who);
        assert steps[..k + 1] == steps[..k] + [steps[k]];
        Command(steps[k]);
      }
      assert steps[..|steps|] == steps;
    }

    /** `between` is what other clients, and expiry, do after this client's GET. */
    method AcquirePairLock(c: Client, pair: Pair, between: seq<Step>) returns (outcome: AcquireOutcome)
      requires PcOf(state, c) == Idle && forall i | 0 <= i < |between| :: ByOthers(between[i], c)
      modifies this
      ensures PcOf(state, c) == Idle
      ensures outcome.AcquireConflict? ==> pair in state.locks
      ensures !outcome.AcquireConflict? ==> Owns(state, c, pair) && (c, pair) in state.holds
      ensures outcome.Refreshed? ==> pair in old(state).locks && AcquireMatches(old(state).locks[pair].1, who(c))
      ensures outcome.Acquired? ==> pair !in old(state).locks
      ensures var start := Next(old(state), AcquireGet(c, pair), who);
              && (PcOf(start, c) == Idle ==> state == old(state))
              && (PcOf(start, c) == SawNone(pair) ==> state == Next(Run(start, between, who), AcquireSetNx(c), who))
              && (PcOf(start, c) == SawOwn(pair) ==> state == Next(Run(start, between, who), AcquireSet(c), who))
    {
      var existing := if pair in state.locks then Some(state.locks[pair].1) else None;
      Command(AcquireGet(c, pair));
      if existing.Some? && !AcquireMatches(existing.value, who(c)) {
        return AcquireConflict;
      }
      OthersKeepPc(state, between, who, c);
      LetOthersRun(between);
      if existing.Some? {
        Command(AcquireSet(c));
        return Refreshed;
      }
      var taken := pair in state.locks;
      Command(AcquireSetNx(c));
      outcome := if taken then AcquireConflict else Acquired;
    }

    method ReleasePairLock(c: Client, pair: Pair, credentials: Credentials, between: seq<Step>)
      returns (outcome: ReleaseOutcome)
      requires PcOf(state, c) == Idle && forall i | 0 <= i < |between| :: ByOthers(between[i], c)
      modifies this
      ensures PcOf(state, c) == Idle
      ensures outcome.Missing? <==> pair !in old(state).locks
      ensures outcome.ReleaseConflict? <==>
                pair in old(state).locks && !MayDelete(old(state).locks[pair].1, credentials)
      ensures outcome.Missing? || outcome.ReleaseConflict? ==> state == old(state)
      ensures outcome.Released? || outcome.DeleteMissed? ==>
                var others := Run(Next(old(state), ReleaseGet(c, pair, credentials), who), between, who);
                && state == Next(others, ReleaseDel(c), who) && pair !in state.locks
                && (outcome.Released? <==> pair in others.locks)
    {
      if pair !in state.locks {
        return Missing;
      }
      if !MayDelete(state.locks[pair].1, credentials) {
        return ReleaseConflict;
      }
      Command(ReleaseGet(c, pair, credentials));
      OthersKeepPc(state, between, who, c);
      LetOthersRun(between);
      var deleted := pair in state.locks;
      Command(ReleaseDel(c));
      outcome := if deleted then Released else DeleteMissed;
    }
  }
}
