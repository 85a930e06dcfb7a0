/**
 The token bucket without a lock. Every access of a thread to the clock and to the two shared fields is a step of
 its own, and other threads' steps fall in between.
 */
module RateLimitRaces {
  import opened RateLimit

  type Client = nat

  /** What a thread has in its hands between two accesses; `seen` is what it read of the field it stores next. */
  datatype Pc =
    | Outside                                       // reads the clock next
    | Clocked(now: real)                            // reads when the bucket was last filled
    | Timed(now: real, seen: real, elapsed: real)   // stores `now` as the time of the last filling
    | Marked(credit: real)                          // reads the tokens
    | Looked(credit: real, seen: real)              // stores them with the credit added
    | Filled                                        // tests for a whole token
    | Passed                                        // reads the tokens again
    | Picked(seen: real)                            // stores them less one, and returns

  /**
   `due` and `grants` are not stored anywhere: how many acquires have returned, and what a bucket would hold that is
   filled at every clock reading and charged for every one of them.
   */
  datatype State = State(bucket: Bucket, pcs: map<Client, Pc>, due: Bucket, grants: nat)

  function PcOf(s: State, c: Client): Pc {
    if c in s.pcs then s.pcs[c] else Outside
  }

  // The client makes its next access; `now` is what the clock says at that time.
  datatype Step = Step(c: Client, now: real)

  function At(s: State, c: Client, pc: Pc): State {
    State(s.bucket, s.pcs[c := pc], s.due, s.grants)
  }

  function Next(s: State, step: Step, p: Policy): State {
    var c := step.c;
    match PcOf(s, c)
    case Outside => State(s.bucket, s.pcs[c := Clocked(step.now)], Refilled(s.due, step.now, p), s.grants)
    case Clocked(now) => At(s, c, Timed(now, s.bucket.updatedAt, Max(now - s.bucket.updatedAt, 0.0)))
    case Timed(now, _, elapsed) =>
      State(Bucket(s.bucket.tokens, now), s.pcs[c := Marked(elapsed * p.ratePerSec)], s.due, s.grants)
    case Marked(credit) => At(s, c, Looked(credit, s.bucket.tokens))
    case Looked(credit, seen) =>
      State(Bucket(Min(p.burst as real, seen + credit), s.bucket.updatedAt), s.pcs[c := Filled], s.due, s.grants)
    // A thread that finds no whole token sleeps, and fills the bucket again.
    case Filled => At(s, c, if s.bucket.tokens >= 1.0 then Passed else Outside)
    case Passed => At(s, c, Picked(s.bucket.tokens))
    case Picked(seen) =>
      State(Bucket(seen - 1.0, s.bucket.updatedAt), s.pcs[c := Outside], Taken(s.due), s.grants + 1)
  }

  ghost function Run(s: State, steps: seq<Step>, p: Policy): State {
    if steps == [] then s else Next(Run(s, steps[..|steps| - 1], p), steps[|steps| - 1], p)
  }

  lemma RunMore(s: State, steps: seq<Step>, step: Step, p: Policy)
    ensures Run(s, steps + [step], p) == Next(Run(s, steps, p), step, p)
  {
    assert (steps + [step])[..|steps|] == steps;
  }

  /** Left alone, a thread that starts an acquire fills the bucket as one clock reading does. */
  lemma AloneItFills(s: State, c: Client, now: real, p: Policy)
    requires PcOf(s, c) == Outside
    ensures var step := Step(c, now);
      var filled := Next(Next(Next(Next(Next(s, step, p), step, p), step, p), step, p), step, p);
      filled.bucket == Refilled(s.bucket, now, p) && PcOf(filled, c) == Filled && filled.grants == s.grants
  {}

  /** And then takes a whole token and returns, or begins anew. */
  lemma AloneItTakes(s: State, c: Client, now: real, p: Policy)
    requires PcOf(s, c) == Filled
    ensures var step := Step(c, now); var tested := Next(s, step, p);
      var done := Next(Next(tested, step, p), step, p);
      if s.bucket.tokens >= 1.0
      then done.bucket == Taken(s.bucket) && PcOf(done, c) == Outside && done.grants == s.grants + 1
      else tested.bucket == s.bucket && PcOf(tested, c) == Outside && tested.grants == s.grants
  {}

  /** A limiter just made, with a full bucket. */
  function Fresh(at: real, p: Policy): State {
    State(Bucket(p.burst as real, at), map[], Bucket(p.burst as real, at), 0)
  }

  /** The clients are the first `n`, and the clock does not go back. */
  ghost predicate Timely(s: State, step: Step, n: nat) {
    step.c < n && step.now >= s.due.updatedAt
  }

  ghost predicate TimelyRun(s: State, steps: seq<Step>, p: Policy, n: nat) {
    steps != [] ==>
      TimelyRun(s, steps[..|steps| - 1], p, n) && Timely(Run(s, steps[..|steps| - 1], p), steps[|steps| - 1], n)
  }

  lemma TimelyMore(s: State, steps: seq<Step>, step: Step, p: Policy, n: nat)
    ensures TimelyRun(s, steps + [step], p, n) <==> TimelyRun(s, steps, p, n) && Timely(Run(s, steps, p), step, n)
  {
    assert (steps + [step])[..|steps|] == steps;
  }

  // The bound, run by run

  /** Between two points of a run: no more grants than the burst and what the time between the readings brought. */
  ghost predicate WindowKept(s: State, e: State, p: Policy) {
    e.grants as real - s.grants as real <= p.burst as real + Gain(s.due.updatedAt, e.due.updatedAt, p)
  }

  /** Every window of the run that ends with it, and every window that ended before. */
  ghost predicate BoundHolds(start: State, steps: seq<Step>, p: Policy) {
    && (forall k | 0 <= k <= |steps| :: WindowKept(Run(start, steps[..k], p), Run(start, steps, p), p))
    && (steps != [] ==> BoundHolds(start, steps[..|steps| - 1], p))
  }

  /** The step returns a token that the charged bucket does not hold. */
  ghost predicate Uncovered(s: State, step: Step) {
    PcOf(s, step.c).Picked? && s.due.tokens < 1.0
  }

  ghost predicate CoveredRun(start: State, steps: seq<Step>, p: Policy) {
    steps != [] ==>
      && CoveredRun(start, steps[..|steps| - 1], p)
      && !Uncovered(Run(start, steps[..|steps| - 1], p), steps[|steps| - 1])
  }

  /** How a step moves the charged bucket. */
  lemma StepMovesDue(s: State, step: Step, p: Policy, n: nat)
    requires p.Enabled() && Timely(s, step, n) && s.due.tokens <= p.burst as real
    ensures var s' := Next(s, step, p);
      && s'.due.tokens <= p.burst as real && s'.due.updatedAt >= s.due.updatedAt
      && s'.due.tokens + s'.grants as real <=
         s.due.tokens + s.grants as real + Gain(s.due.updatedAt, s'.due.updatedAt, p)
      && ((s'.due.tokens == p.burst as real && s'.grants == s.grants)
          || s'.due.tokens + s'.grants as real ==
             s.due.tokens + s.grants as real + Gain(s.due.updatedAt, s'.due.updatedAt, p))
  {
    if PcOf(s, step.c).Outside? {
      RefillMoves(s.due, step.now, p);
    } else {
      assert Gain(s.due.updatedAt, s.due.updatedAt, p) == 0.0;
    }
  }

  lemma RefillMoves(b: Bucket, now: real, p: Policy)
    requires p.Enabled() && now >= b.updatedAt && b.tokens <= p.burst as real
    ensures Refilled(b, now, p) == Bucket(Min(p.burst as real, b.tokens + Gain(b.updatedAt, now, p)), now)
    ensures b.tokens <= Refilled(b, now, p).tokens
  {
    GainIsPositive(b.updatedAt, now, p);
  }

  /** From any point of a run, grants are paid for by what the charged bucket held and what time brought. */
  lemma {:induction false} GrantsAreCharged(start: State, steps: seq<Step>, k: nat, p: Policy, n: nat)
    requires p.Enabled() && TimelyRun(start, steps, p, n) && start.due.tokens <= p.burst as real && k <= |steps|
    ensures var s, e := Run(start, steps[..k], p), Run(start, steps, p);
      && s.due.tokens <= p.burst as real && e.due.tokens <= p.burst as real
      && e.due.tokens + e.grants as real <=
         s.due.tokens + s.grants as real + Gain(s.due.updatedAt, e.due.updatedAt, p)
  {
    if k == |steps| {
      assert steps[..k] == steps;
      if steps != [] {
        GrantsAreCharged(start, steps[..k - 1], 0, p, n);
        StepMovesDue(Run(start, steps[..k - 1], p), steps[k - 1], p, n);
      }
      assert Gain(Run(start, steps, p).due.updatedAt, Run(start, steps, p).due.updatedAt, p) == 0.0;
    } else {
      var init, last := steps[..|steps| - 1], steps[|steps| - 1];
      GrantsAreCharged(start, init, k, p, n);
      assert init[..k] == steps[..k];
      var s, before := Run(start, steps[..k], p), Run(start, init, p);
      StepMovesDue(before, last, p, n);
      GainsAdd(s.due.updatedAt, before.due.updatedAt, Next(before, last, p).due.updatedAt, p);
    }
  }

  /** The window that began when the charged bucket was last full uses up all that the bound allows but what is due. */
  lemma {:induction false} SinceFull(at: real, steps: seq<Step>, p: Policy, n: nat) returns (k: nat)
    requires p.Enabled() && TimelyRun(Fresh(at, p), steps, p, n)
    ensures k <= |steps|
    ensures var s, e := Run(Fresh(at, p), steps[..k], p), Run(Fresh(at, p), steps, p);
            e.due.tokens + e.grants as real - s.grants as real ==
            p.burst as real + Gain(s.due.updatedAt, e.due.updatedAt, p)
  {
    if steps == [] {
      k := 0;
      assert Gain(at, at, p) == 0.0;
    } else {
      var init, last := steps[..|steps| - 1], steps[|steps| - 1];
      k := SinceFull(at, init, p, n);
      assert init[..k] == steps[..k];
      var s, before, e := Run(Fresh(at, p), steps[..k], p), Run(Fresh(at, p), init, p), Run(Fresh(at, p), steps, p);
      GrantsAreCharged(Fresh(at, p), init, 0, p, n);
      StepMovesDue(before, last, p, n);
      GainsAdd(s.due.updatedAt, before.due.updatedAt, e.due.updatedAt, p);
      if e.due.tokens == p.burst as real && e.grants == before.grants {
        k := |steps|;
        assert steps[..k] == steps;
        assert Gain(e.due.updatedAt, e.due.updatedAt, p) == 0.0;
      }
    }
  }

  lemma {:induction false} CoveredIsNeverOverdrawn(at: real, steps: seq<Step>, p: Policy, n: nat)
    requires p.Enabled() && TimelyRun(Fresh(at, p), steps, p, n) && CoveredRun(Fresh(at, p), steps, p)
    ensures Run(Fresh(at, p), steps, p).due.tokens >= 0.0
  {
    if steps != [] {
      var init, last := steps[..|steps| - 1], steps[|steps| - 1];
      CoveredIsNeverOverdrawn(at, init, p, n);
      GrantsAreCharged(Fresh(at, p), init, 0, p, n);
      if PcOf(Run(Fresh(at, p), init, p), last.c).Outside? {
        RefillMoves(Run(Fresh(at, p), init, p).due, last.now, p);
      }
    }
  }

  /**
   For every interleaving: the bound holds of every window of the run if and only if every token that is returned is
   one that a bucket filled at every reading and charged for every grant still holds.
   */
  lemma {:induction false} BoundHoldsExactly(at: real, steps: seq<Step>, p: Policy, n: nat)
    requires p.Enabled() && TimelyRun(Fresh(at, p), steps, p, n)
    ensures BoundHolds(Fresh(at, p), steps, p) <==> CoveredRun(Fresh(at, p), steps, p)
  {
    var start := Fresh(at, p);
    if CoveredRun(start, steps, p) {
      CoveredIsNeverOverdrawn(at, steps, p, n);
      forall k | 0 <= k <= |steps| ensures WindowKept(Run(start, steps[..k], p), Run(start, steps, p), p) {
        GrantsAreCharged(start, steps, k, p, n);
      }
    }
    if steps != [] {
      BoundHoldsExactly(at, steps[..|steps| - 1], p, n);
      if Uncovered(Run(start, steps[..|steps| - 1], p), steps[|steps| - 1]) {
        UncoveredBreaksBound(at, steps, p, n);
      }
    }
  }

  lemma UncoveredBreaksBound(at: real, steps: seq<Step>, p: Policy, n: nat)
    requires p.Enabled() && steps != [] && TimelyRun(Fresh(at, p), steps, p, n)
    requires Uncovered(Run(Fresh(at, p), steps[..|steps| - 1], p), steps[|steps| - 1])
    ensures !BoundHolds(Fresh(at, p), steps, p)
  {
    var k := SinceFull(at, steps, p, n);
    assert !WindowKept(Run(Fresh(at, p), steps[..k], p), Run(Fresh(at, p), steps, p), p);
  }

  // What threads must not do to each other

  /** The time that a thread has taken off the clock and not yet put into the bucket, as tokens. */
  function CreditOf(pc: Pc): real {
    match pc
    case Marked(credit) => credit
    case Looked(credit, _) => credit
    case _ => 0.0
  }

  ghost function InHand(s: State, n: nat): real {
    if n == 0 then 0.0 else InHand(s, n - 1) + CreditOf(PcOf(s, n - 1))
  }

  /** What the bucket comes to when every filling under way, and one more for the time since, is through. */
  ghost function Pending(s: State, p: Policy, n: nat): real {
    s.bucket.tokens + InHand(s, n) + Gain(s.bucket.updatedAt, s.due.updatedAt, p)
  }

  /**
   The next store is not stale: no one has moved the time since it was read; no one has lowered the tokens since they
   were read; and a token is taken while there is a whole one and the fillings under way do not overflow the bucket.
   */
  ghost predicate Polite(s: State, step: Step, p: Policy, n: nat) {
    match PcOf(s, step.c)
    case Timed(now, seen, _) => s.bucket.updatedAt == seen <= now
    case Looked(_, seen) => seen <= s.bucket.tokens
    case Picked(seen) => 1.0 <= seen <= s.bucket.tokens && Pending(s, p, n) <= p.burst as real
    case _ => true
  }

  ghost predicate PoliteRun(start: State, steps: seq<Step>, p: Policy, n: nat) {
    steps != [] ==>
      && PoliteRun(start, steps[..|steps| - 1], p, n)
      && Polite(Run(start, steps[..|steps| - 1], p), steps[|steps| - 1], p, n)
  }

  /** What a thread holds was read at some earlier time. */
  predicate Held(pc: Pc, latest: real) {
    match pc
    case Clocked(now) => now <= latest
    case Timed(now, seen, elapsed) => now <= latest && elapsed == Max(now - seen, 0.0)
    case Marked(credit) => credit >= 0.0
    case Looked(credit, _) => credit >= 0.0
    case _ => true
  }

  /** Whatever the fillings under way come to, the charged bucket holds as much. */
  ghost predicate Backed(s: State, p: Policy, n: nat) {
    && s.bucket.updatedAt <= s.due.updatedAt && s.due.tokens <= p.burst as real
    && (forall c | c in s.pcs :: Held(s.pcs[c], s.due.updatedAt))
    && Min(p.burst as real, Pending(s, p, n)) <= s.due.tokens
  }

  lemma {:induction false} InHandMoves(s: State, s': State, c: Client, n: nat)
    requires forall d: Client | d != c :: PcOf(s', d) == PcOf(s, d)
    ensures InHand(s', n) ==
            InHand(s, n) + (if c < n then CreditOf(PcOf(s', c)) - CreditOf(PcOf(s, c)) else 0.0)
  {
    if n > 0 {
      InHandMoves(s, s', c, n - 1);
    }
  }

  lemma {:induction false} InHandPositive(s: State, latest: real, n: nat)
    requires forall c | c in s.pcs :: Held(s.pcs[c], latest)
    ensures InHand(s, n) >= 0.0
  {
    if n > 0 {
      InHandPositive(s, latest, n - 1);
    }
  }

  lemma StepMovesInHand(s: State, step: Step, p: Policy, n: nat)
    requires step.c < n
    ensures InHand(Next(s, step, p), n) ==
            InHand(s, n) + CreditOf(PcOf(Next(s, step, p), step.c)) - CreditOf(PcOf(s, step.c))
  {
    InHandMoves(s, Next(s, step, p), step.c, n);
  }

  lemma ElapsedIsGain(seen: real, now: real, latest: real, p: Policy)
    requires seen <= now <= latest
    ensures Max(now - seen, 0.0) * p.ratePerSec + Gain(now, latest, p) == Gain(seen, latest, p)
  {}

  lemma CreditPositive(elapsed: real, p: Policy)
    requires p.Enabled() && elapsed >= 0.0
    ensures elapsed * p.ratePerSec >= 0.0
  {}

  /** How a polite step moves what is pending: only a clock reading can raise it, and a grant lowers it by one. */
  lemma PoliteMovesPending(s: State, step: Step, p: Policy, n: nat)
    requires p.Enabled() && Timely(s, step, n) && Backed(s, p, n) && Polite(s, step, p, n)
    ensures var s' := Next(s, step, p);
            Pending(s', p, n) <= Pending(s, p, n) + Gain(s.due.updatedAt, s'.due.updatedAt, p)
                                 - (s'.grants - s.grants) as real
  {
    StepMovesInHand(s, step, p, n);
    StepMovesBucket(s, step, p, n);
  }

  /** The same of the stored bucket alone, with what the thread holds before and after. */
  lemma StepMovesBucket(s: State, step: Step, p: Policy, n: nat)
    requires p.Enabled() && Timely(s, step, n) && Backed(s, p, n) && Polite(s, step, p, n)
    ensures var s' := Next(s, step, p);
            s'.bucket.tokens + CreditOf(PcOf(s', step.c)) + Gain(s'.bucket.updatedAt, s'.due.updatedAt, p) <=
            s.bucket.tokens + CreditOf(PcOf(s, step.c)) + Gain(s.bucket.updatedAt, s.due.updatedAt, p)
            + Gain(s.due.updatedAt, s'.due.updatedAt, p) - (s'.grants - s.grants) as real
  {
    match PcOf(s, step.c)
    case Outside => GainsAdd(s.bucket.updatedAt, s.due.updatedAt, step.now, p);
    case Timed(now, seen, _) => ElapsedIsGain(seen, now, s.due.updatedAt, p);
    case _ =>
      assert Gain(s.due.updatedAt, s.due.updatedAt, p) == 0.0;
  }

  lemma StepKeepsHeld(s: State, step: Step, p: Policy, n: nat)
    requires p.Enabled() && Timely(s, step, n) && Backed(s, p, n)
    ensures var s' := Next(s, step, p);
      && s'.bucket.updatedAt <= s'.due.updatedAt
      && forall c | c in s'.pcs :: Held(s'.pcs[c], s'.due.updatedAt)
  {
    if PcOf(s, step.c).Timed? {
      CreditPositive(PcOf(s, step.c).elapsed, p);
    }
  }

  lemma PoliteKeepsBacked(s: State, step: Step, p: Policy, n: nat)
    requires p.Enabled() && Timely(s, step, n) && Backed(s, p, n) && Polite(s, step, p, n)
    ensures Backed(Next(s, step, p), p, n) && !Uncovered(s, step)
  {
    StepKeepsHeld(s, step, p, n);
    StepMovesDue(s, step, p, n);
    PoliteMovesPending(s, step, p, n);
    InHandPositive(s, s.due.updatedAt, n);
    GainIsPositive(s.bucket.updatedAt, s.due.updatedAt, p);
    if PcOf(s, step.c).Outside? {
      RefillMoves(s.due, step.now, p);
      GainIsPositive(s.due.updatedAt, step.now, p);
    }
  }

  lemma {:induction false} NothingInHand(s: State, n: nat)
    requires s.pcs == map[]
    ensures InHand(s, n) == 0.0
  {
    if n > 0 {
      NothingInHand(s, n - 1);
    }
  }

  /** Threads that never store over each other's changes keep the bound of one thread. */
  lemma {:induction false} PoliteIsCovered(at: real, steps: seq<Step>, p: Policy, n: nat)
    requires p.Enabled() && TimelyRun(Fresh(at, p), steps, p, n) && PoliteRun(Fresh(at, p), steps, p, n)
    ensures Backed(Run(Fresh(at, p), steps, p), p, n) && CoveredRun(Fresh(at, p), steps, p)
  {
    if steps == [] {
      NothingInHand(Fresh(at, p), n);
      assert Gain(at, at, p) == 0.0;
    } else {
      var init, last := steps[..|steps| - 1], steps[|steps| - 1];
      PoliteIsCovered(at, init, p, n);
      PoliteKeepsBacked(Run(Fresh(at, p), init, p), last, p, n);
    }
  }

  lemma PoliteRunsKeepTheBound(at: real, steps: seq<Step>, p: Policy, n: nat)
    requires p.Enabled() && TimelyRun(Fresh(at, p), steps, p, n) && PoliteRun(Fresh(at, p), steps, p, n)
    ensures BoundHolds(Fresh(at, p), steps, p)
  {
    PoliteIsCovered(at, steps, p, n);
    BoundHoldsExactly(at, steps, p, n);
  }

  // One thread alone

  /** Nothing a thread holds is stale while there is no other. */
  ghost predicate Solo(s: State, p: Policy) {
    && (forall c | c in s.pcs :: c == 0)
    && s.bucket.tokens <= p.burst as real
    && s.bucket.updatedAt <= s.due.updatedAt
    && match PcOf(s, 0)
       case Clocked(now) => now == s.due.updatedAt
       case Timed(now, seen, _) => now == s.due.updatedAt && seen == s.bucket.updatedAt
       case Looked(_, seen) => s.bucket.updatedAt == s.due.updatedAt && seen == s.bucket.tokens
       case Passed => s.bucket.updatedAt == s.due.updatedAt && s.bucket.tokens >= 1.0
       case Picked(seen) => s.bucket.updatedAt == s.due.updatedAt && 1.0 <= seen == s.bucket.tokens
       case _ => s.bucket.updatedAt == s.due.updatedAt
  }

  lemma SoloIsPolite(s: State, step: Step, p: Policy)
    requires p.Enabled() && Solo(s, p) && Timely(s, step, 1)
    ensures Polite(s, step, p, 1) && Solo(Next(s, step, p), p)
  {
    if PcOf(s, 0).Picked? {
      assert InHand(s, 1) == InHand(s, 0) + CreditOf(PcOf(s, 0)) == 0.0;
      assert Gain(s.bucket.updatedAt, s.due.updatedAt, p) == 0.0;
    }
  }

  lemma {:induction false} SoloRunIsPolite(at: real, steps: seq<Step>, p: Policy)
    requires p.Enabled() && TimelyRun(Fresh(at, p), steps, p, 1)
    ensures Solo(Run(Fresh(at, p), steps, p), p) && PoliteRun(Fresh(at, p), steps, p, 1)
  {
    if steps != [] {
      var init, last := steps[..|steps| - 1], steps[|steps| - 1];
      SoloRunIsPolite(at, init, p);
      SoloIsPolite(Run(Fresh(at, p), init, p), last, p);
    }
  }

  // Two threads

  /** A full bucket, `a` about to test it, `b` not begun, and `k` tokens returned while the clock stood still. */
  ghost predicate Ready(s: State, a: Client, b: Client, k: nat, at: real, p: Policy) {
    && s.bucket == Bucket(p.burst as real, at) && s.due == Bucket((p.burst - k) as real, at) && s.grants == k
    && PcOf(s, a) == Filled && PcOf(s, b) == Outside
  }

  lemma RefillNow(b: Bucket, p: Policy)
    requires b.tokens <= p.burst as real
    ensures Refilled(b, b.updatedAt, p) == b
  {
    assert Max(b.updatedAt - b.updatedAt, 0.0) * p.ratePerSec == 0.0;
  }

  /** `b` reads the full bucket. */
  lemma SecondLooks(s: State, a: Client, b: Client, k: nat, at: real, p: Policy)
    requires p.Enabled() && a != b && Ready(s, a, b, k, at, p)
    ensures var looking := Next(Next(Next(Next(s, Step(b, at), p), Step(b, at), p), Step(b, at), p), Step(b, at), p);
      && looking.bucket == s.bucket && looking.due == s.due && looking.grants == k
      && PcOf(looking, a) == Filled && PcOf(looking, b) == Looked(0.0, p.burst as real)
  {
    RefillNow(s.due, p);
    assert Max(at - at, 0.0) * p.ratePerSec == 0.0;
  }

  /** `a` takes a token of the bucket that `b` has read, and `b` puts it back. */
  lemma FirstTakes(s: State, a: Client, b: Client, k: nat, at: real, p: Policy)
    requires p.Enabled() && a != b
    requires s.bucket == Bucket(p.burst as real, at) && s.due == Bucket((p.burst - k) as real, at) && s.grants == k
    requires PcOf(s, a) == Filled && PcOf(s, b) == Looked(0.0, p.burst as real)
    ensures var taken := Next(Next(Next(s, Step(a, at), p), Step(a, at), p), Step(a, at), p);
      && taken.bucket.tokens == p.burst as real - 1.0
      && Ready(Next(taken, Step(b, at), p), b, a, k + 1, at, p)
  {}

  /** Steps of the first `n` clients, all at one reading of the clock. */
  ghost predicate AtOnce(steps: seq<Step>, at: real, n: nat) {
    forall i | 0 <= i < |steps| :: steps[i].now == at && steps[i].c < n
  }

  lemma FourMore(s: State, steps: seq<Step>, a: Step, b: Step, c: Step, d: Step, p: Policy)
    ensures Run(s, steps + [a] + [b] + [c] + [d], p) ==
            Next(Next(Next(Next(Run(s, steps, p), a, p), b, p), c, p), d, p)
  {
    RunMore(s, steps, a, p);
    RunMore(s, steps + [a], b, p);
    RunMore(s, steps + [a] + [b], c, p);
    RunMore(s, steps + [a] + [b] + [c], d, p);
  }

  /** One round: one token more is returned, the bucket is full again, and the threads have changed places. */
  lemma OneRound(start: State, steps: seq<Step>, a: Client, b: Client, k: nat, at: real, p: Policy)
    returns (more: seq<Step>)
    requires p.Enabled() && a != b && a < 2 && b < 2 && AtOnce(steps, at, 2)
    requires Ready(Run(start, steps, p), a, b, k, at, p)
    ensures AtOnce(more, at, 2) && Ready(Run(start, more, p), b, a, k + 1, at, p)
  {
    var s, byA, byB := Run(start, steps, p), Step(a, at), Step(b, at);
    SecondLooks(s, a, b, k, at, p);
    FourMore(start, steps, byB, byB, byB, byB, p);
    var looking := steps + [byB] + [byB] + [byB] + [byB];
    FirstTakes(Run(start, looking, p), a, b, k, at, p);
    FourMore(start, looking, byA, byA, byA, byB, p);
    more := looking + [byA] + [byA] + [byA] + [byB];
  }

  lemma FirstFills(at: real, p: Policy) returns (steps: seq<Step>)
    requires p.Enabled()
    ensures AtOnce(steps, at, 2) && Ready(Run(Fresh(at, p), steps, p), 0, 1, 0, at, p)
  {
    var step := Step(0, at);
    FourMore(Fresh(at, p), [], step, step, step, step, p);
    steps := [] + [step] + [step] + [step] + [step];
    RunMore(Fresh(at, p), steps, step, p);
    RefillNow(Fresh(at, p).due, p);
    assert Max(at - at, 0.0) * p.ratePerSec == 0.0;
    steps := steps + [step];
  }

  lemma {:induction false} Rounds(at: real, p: Policy, k: nat) returns (steps: seq<Step>, a: Client, b: Client)
    requires p.Enabled()
    ensures a != b && a < 2 && b < 2 && AtOnce(steps, at, 2)
    ensures Ready(Run(Fresh(at, p), steps, p), a, b, k, at, p)
  {
    if k == 0 {
      a, b := 0, 1;
      steps := FirstFills(at, p);
    } else {
      var before, first, second := Rounds(at, p, k - 1);
      a, b := second, first;
      steps := OneRound(Fresh(at, p), before, first, second, k - 1, at, p);
    }
  }

  lemma {:induction false} AtOnceIsTimely(at: real, steps: seq<Step>, p: Policy, n: nat)
    requires AtOnce(steps, at, n)
    ensures TimelyRun(Fresh(at, p), steps, p, n) && Run(Fresh(at, p), steps, p).due.updatedAt == at
  {
    if steps != [] {
      AtOnceIsTimely(at, steps[..|steps| - 1], p, n);
    }
  }

  /** Two threads can be granted any number of tokens while the clock stands still. */
  lemma RacingLeavesNoBound(at: real, p: Policy, k: nat, n: nat) returns (steps: seq<Step>)
    requires p.Enabled() && n >= 2
    ensures TimelyRun(Fresh(at, p), steps, p, n)
    ensures Run(Fresh(at, p), steps, p).due.updatedAt == at && Run(Fresh(at, p), steps, p).grants == k
  {
    var a, b;
    steps, a, b := Rounds(at, p, k);
    AtOnceIsTimely(at, steps, p, n);
  }

  // The exact condition on the number of threads

  ghost predicate BoundKept(p: Policy, n: nat) {
    forall at, steps | TimelyRun(Fresh(at, p), steps, p, n) :: BoundHolds(Fresh(at, p), steps, p)
  }

  /** The bound holds of every interleaving of `n` threads if and only if there is only one. */
  lemma BoundKeptExactly(p: Policy, n: nat)
    requires p.Enabled() && n >= 1
    ensures BoundKept(p, n) <==> n == 1
  {
    if n == 1 {
      forall at, steps | TimelyRun(Fresh(at, p), steps, p, n) ensures BoundHolds(Fresh(at, p), steps, p) {
        SoloRunIsPolite(at, steps, p);
        PoliteRunsKeepTheBound(at, steps, p, 1);
      }
    } else {
      var steps := RacingLeavesNoBound(0.0, p, p.burst + 1, n);
      TooMany(steps, p);
    }
  }

  lemma TooMany(steps: seq<Step>, p: Policy)
    requires Run(Fresh(0.0, p), steps, p).due.updatedAt == 0.0 && Run(Fresh(0.0, p), steps, p).grants == p.burst + 1
    ensures !BoundHolds(Fresh(0.0, p), steps, p)
  {
    assert steps[..0] == [];
    assert Gain(0.0, 0.0, p) == 0.0;
    assert !WindowKept(Run(Fresh(0.0, p), steps[..0], p), Run(Fresh(0.0, p), steps, p), p);
  }
}
