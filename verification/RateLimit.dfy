/** The token bucket and exponential backoff. */
module RateLimit {
  import opened Powers

  // The token bucket, over real-valued seconds

  datatype Policy = Policy(ratePerSec: real, burst: int)
  {
    predicate Enabled() { ratePerSec > 0.0 && burst > 0 }
  }

  datatype Bucket = Bucket(tokens: real, updatedAt: real)

  function Min(a: real, b: real): real {
    if a <= b then a else b
  }

  function Max(a: real, b: real): real {
    if a >= b then a else b
  }

  function Refilled(b: Bucket, now: real, p: Policy): Bucket {
    Bucket(Min(p.burst as real, b.tokens + Max(now - b.updatedAt, 0.0) * p.ratePerSec), now)
  }

  function Taken(b: Bucket): Bucket {
    Bucket(b.tokens - 1.0, b.updatedAt)
  }

  function AtLeastZero(n: int): nat {
    if n < 0 then 0 else n
  }

  ghost predicate InBounds(b: Bucket, p: Policy) {
    0.0 <= b.tokens <= AtLeastZero(p.burst) as real
  }

  // What happens to a bucket over time: refills at clock readings, and grants of one token.
  datatype Event = Refill(now: real) | Grant

  ghost function After(b: Bucket, events: seq<Event>, p: Policy): Bucket {
    if events == [] then b
    else
      var before := After(b, events[..|events| - 1], p);
      match events[|events| - 1]
      case Refill(now) => Refilled(before, now, p)
      case Grant => Taken(before)
  }

  /** Grants only of whole tokens, and a clock that does not run backwards. */
  ghost predicate Proper(b: Bucket, events: seq<Event>, p: Policy) {
    events == [] ||
    (&& Proper(b, events[..|events| - 1], p)
     && var before := After(b, events[..|events| - 1], p);
        match events[|events| - 1]
        case Refill(now) => now >= before.updatedAt
        case Grant => before.tokens >= 1.0)
  }

  ghost function Grants(events: seq<Event>): nat {
    if events == [] then 0
    else Grants(events[..|events| - 1]) + (if events[|events| - 1].Grant? then 1 else 0)
  }

  /** What time puts into the bucket between two moments, were it never full. */
  function Gain(since: real, until: real, p: Policy): real {
    (until - since) * p.ratePerSec
  }

  lemma GainsAdd(t0: real, t1: real, t2: real, p: Policy)
    ensures Gain(t0, t2, p) == Gain(t0, t1, p) + Gain(t1, t2, p)
  {}

  lemma GainIsPositive(t0: real, t1: real, p: Policy)
    requires p.Enabled() && t0 <= t1
    ensures Gain(t0, t1, p) >= 0.0
  {}

  lemma RefillGains(b: Bucket, now: real, p: Policy)
    requires p.Enabled() && InBounds(b, p) && now >= b.updatedAt
    ensures InBounds(Refilled(b, now, p), p)
    ensures b.tokens <= Refilled(b, now, p).tokens <= b.tokens + Gain(b.updatedAt, now, p)
  {
    GainIsPositive(b.updatedAt, now, p);
  }

  /**
   Tokens stay within bounds, and over any stretch of a history no more is granted than was in the
   bucket plus what time put in.
   */
  lemma {:induction false} GrantsArePaidFor(b: Bucket, events: seq<Event>, p: Policy)
    requires p.Enabled() && InBounds(b, p) && Proper(b, events, p)
    ensures var e := After(b, events, p);
      && InBounds(e, p) && e.updatedAt >= b.updatedAt
      && Grants(events) as real + e.tokens <= b.tokens + Gain(b.updatedAt, e.updatedAt, p)
  {
    if events != [] {
      var n := |events| - 1;
      var before := After(b, events[..n], p);
      GrantsArePaidFor(b, events[..n], p);
      if events[n].Refill? {
        RefillGains(before, events[n].now, p);
        GainsAdd(b.updatedAt, before.updatedAt, events[n].now, p);
      }
    }
  }

  lemma {:induction false} AfterAppend(b: Bucket, first: seq<Event>, second: seq<Event>, p: Policy)
    ensures After(b, first + second, p) == After(After(b, first, p), second, p)
    ensures Proper(b, first + second, p) <==> Proper(b, first, p) && Proper(After(b, first, p), second, p)
  {
    if second == [] {
      assert first + second == first;
    } else {
      assert (first + second)[..|first + second| - 1] == first + second[..|second| - 1];
      AfterAppend(b, first, second[..|second| - 1], p);
    }
  }

  /** In any window of a history, grants number at most the burst plus the rate times its length. */
  lemma WindowBound(start: Bucket, past: seq<Event>, window: seq<Event>, p: Policy)
    requires p.Enabled() && InBounds(start, p) && Proper(start, past + window, p)
    ensures Grants(window) as real <=
            p.burst as real + Gain(After(start, past, p).updatedAt, After(start, past + window, p).updatedAt, p)
  {
    AfterAppend(start, past, window, p);
    GrantsArePaidFor(start, past, p);
    GrantsArePaidFor(After(start, past, p), window, p);
  }

  /** When each grant of a history was made, in order. */
  ghost function GrantTimes(b: Bucket, events: seq<Event>, p: Policy): (times: seq<real>)
    ensures |times| == Grants(events)
  {
    if events == [] then []
    else
      var n := |events| - 1;
      GrantTimes(b, events[..n], p) + (if events[n].Grant? then [After(b, events[..n], p).updatedAt] else [])
  }

  lemma {:induction false} GrantAt(b: Bucket, events: seq<Event>, p: Policy, i: nat) returns (k: nat)
    requires i < Grants(events)
    ensures k < |events| && events[k].Grant? && Grants(events[..k]) == i
    ensures After(b, events[..k], p).updatedAt == GrantTimes(b, events, p)[i]
  {
    var n := |events| - 1;
    if i < Grants(events[..n]) {
      k := GrantAt(b, events[..n], p, i);
      assert events[..n][..k] == events[..k];
    } else {
      k := n;
    }
  }

  lemma {:induction false} GrantsAdd(first: seq<Event>, second: seq<Event>)
    ensures Grants(first + second) == Grants(first) + Grants(second)
  {
    if second == [] {
      assert first + second == first;
    } else {
      assert (first + second)[..|first + second| - 1] == first + second[..|second| - 1];
      GrantsAdd(first, second[..|second| - 1]);
    }
  }

  lemma GrantCounted(events: seq<Event>, k: nat)
    requires k < |events| && events[k].Grant?
    ensures Grants(events[..k + 1]) == Grants(events[..k]) + 1
  {
    assert events[..k + 1][..k] == events[..k];
  }

  /** Between the i-th and the j-th grant of any history, the time that passed pays for all but a burst. */
  lemma GrantsInAnyInterval(start: Bucket, events: seq<Event>, p: Policy, i: nat, j: nat)
    requires p.Enabled() && InBounds(start, p) && Proper(start, events, p)
    requires i <= j < Grants(events)
    ensures var times := GrantTimes(start, events, p);
            (j - i + 1) as real <= p.burst as real + Gain(times[i], times[j], p)
  {
    var from := GrantAt(start, events, p, i);
    var to := GrantAt(start, events, p, j);
    WindowGrants(events, from, to);
    WindowCut(start, events, p, from, to);
    WindowBound(start, events[..from], events[from..to + 1], p);
  }

  lemma WindowGrants(events: seq<Event>, from: nat, to: nat)
    requires from < |events| && to < |events| && events[to].Grant? && Grants(events[..from]) <= Grants(events[..to])
    ensures from <= to && Grants(events[from..to + 1]) == Grants(events[..to]) - Grants(events[..from]) + 1
  {
    GrantCounted(events, to);
    LaterGrantsComeLater(events, from, to);
    assert events[..to + 1] == events[..from] + events[from..to + 1];
    GrantsAdd(events[..from], events[from..to + 1]);
  }

  lemma WindowCut(start: Bucket, events: seq<Event>, p: Policy, from: nat, to: nat)
    requires from <= to < |events| && events[to].Grant? && Proper(start, events, p)
    ensures Proper(start, events[..from] + events[from..to + 1], p)
    ensures After(start, events[..from] + events[from..to + 1], p).updatedAt == After(start, events[..to], p).updatedAt
  {
    assert events[..from] + events[from..to + 1] == events[..to + 1] && events[..to + 1] + events[to + 1..] == events;
    AfterAppend(start, events[..to + 1], events[to + 1..], p);
    assert events[..to + 1][..to] == events[..to];
  }

  lemma LaterGrantsComeLater(events: seq<Event>, from: nat, to: nat)
    requires from < |events| && to < |events| && Grants(events[..from]) < Grants(events[..to + 1])
    ensures from <= to
  {
    if to < from {
      assert events[..from] == events[..to + 1] + events[to + 1..from];
      GrantsAdd(events[..to + 1], events[to + 1..from]);
    }
  }

  /** A monotonic clock: readings never go back, and a sleep takes at least as long as asked. */
  class Clock {
    var now: real

    constructor ()
      ensures now == 0.0
    {
      now := 0.0;
    }

    method Now(elapsed: real) returns (t: real)
      requires elapsed >= 0.0
      modifies this
      ensures t == now == old(now) + elapsed
    {
      now := now + elapsed;
      t := now;
    }

    method Sleep(seconds: real, overshoot: real)
      requires seconds >= 0.0 && overshoot >= 0.0
      modifies this
      ensures now == old(now) + seconds + overshoot
    {
      now := now + seconds + overshoot;
    }
  }

  /** What a call does not control: the time until each clock reading, and how much a sleep overshoots. */
  datatype Delays = Delays(beforeFirst: real, overshoot: real, beforeSecond: real)
  {
    ghost predicate Valid() { beforeFirst >= 0.0 && overshoot >= 0.0 && beforeSecond >= 0.0 }
  }

  datatype Acquisition = Acquisition(bucket: Bucket, now: real, waited: real)

  function MissingTime(b: Bucket, p: Policy): real
    requires p.Enabled()
  {
    (1.0 - b.tokens) / p.ratePerSec
  }

  /** One enabled `acquire`: a token at the first look, or after one sleep. */
  function Acquired(b: Bucket, start: real, d: Delays, p: Policy): Acquisition
    requires p.Enabled()
  {
    var first := start + d.beforeFirst;
    var seen := Refilled(b, first, p);
    if seen.tokens >= 1.0 then Acquisition(Taken(seen), first, 0.0)
    else
      var second := first + MissingTime(seen, p) + d.overshoot + d.beforeSecond;
      Acquisition(Taken(Refilled(seen, second, p)), second, MissingTime(seen, p))
  }

  /** A call that finds a whole token does not wait; one that does not waits for what is missing, and no longer. */
  lemma WaitsForWhatIsMissing(b: Bucket, start: real, d: Delays, p: Policy)
    requires p.Enabled() && d.Valid()
    ensures var seen, a := Refilled(b, start + d.beforeFirst, p), Acquired(b, start, d, p);
      && (seen.tokens >= 1.0 ==> a == Acquisition(Taken(seen), start + d.beforeFirst, 0.0))
      && (seen.tokens < 1.0 ==> seen.tokens + a.waited * p.ratePerSec == 1.0
                                && a.now == start + d.beforeFirst + a.waited + d.overshoot + d.beforeSecond
                                && a.bucket == Taken(Refilled(seen, a.now, p)))
  {
    var seen := Refilled(b, start + d.beforeFirst, p);
    if seen.tokens < 1.0 {
      SleepIsPositive(seen.tokens, MissingTime(seen, p), p);
    }
  }

  class TokenBucketRateLimiter {
    const policy: Policy
    const clock: Clock
    var tokens: real
    var updatedAt: real

    ghost function State(): Bucket
      reads this
    {
      Bucket(tokens, updatedAt)
    }

    constructor (policy: Policy, clock: Clock)
      ensures this.policy == policy && this.clock == clock
      ensures State() == Bucket(AtLeastZero(policy.burst) as real, clock.now)
    {
      this.policy, this.clock := policy, clock;
      tokens, updatedAt := AtLeastZero(policy.burst) as real, clock.now;
    }

    method Refill(elapsed: real)
      requires policy.Enabled() && elapsed >= 0.0
      modifies this, clock
      ensures clock.now == old(clock.now) + elapsed && State() == Refilled(old(State()), clock.now, policy)
    {
      var now := clock.Now(elapsed);
      var gone := Max(now - updatedAt, 0.0);
      updatedAt := now;
      tokens := Min(policy.burst as real, tokens + gone * policy.ratePerSec);
    }

    /** The loop goes round twice at most: after one sleep the token is there. */
    method Acquire(d: Delays) returns (waited: real)
      requires d.Valid() && updatedAt <= clock.now
      modifies this, clock
      ensures updatedAt <= clock.now
      ensures !policy.Enabled() ==> waited == 0.0 && State() == old(State()) && clock.now == old(clock.now)
      ensures policy.Enabled() ==>
                Acquisition(State(), clock.now, waited) == Acquired(old(State()), old(clock.now), d, policy)
    {
      if !policy.Enabled() {
        return 0.0;
      }
      waited := 0.0;
      ghost var seen := Refilled(old(State()), old(clock.now) + d.beforeFirst, policy);
      var round := 0;
      while true
        invariant 0 <= round <= 1
        invariant round == 0 ==> waited == 0.0 && State() == old(State()) && clock.now == old(clock.now)
        invariant round == 1 ==>
            && State() == seen && seen.tokens < 1.0 && waited == MissingTime(seen, policy)
            && clock.now == seen.updatedAt + waited + d.overshoot
        decreases 1 - round
      {
        if round == 1 {
          OneSleepIsEnough(seen, clock.now + d.beforeSecond, d, policy);
        }
        Refill(if round == 0 then d.beforeFirst else d.beforeSecond);
        if tokens >= 1.0 {
          tokens := tokens - 1.0;
          return;
        }
        var sleepSeconds := (1.0 - tokens) / policy.ratePerSec;
        SleepIsPositive(tokens, sleepSeconds, policy);
        if sleepSeconds > 0.0 {
          clock.Sleep(sleepSeconds, d.overshoot);
          waited := waited + sleepSeconds;
        }
        round := round + 1;
      }
    }
  }

  lemma SleepIsPositive(tokens: real, slept: real, p: Policy)
    requires p.Enabled() && tokens < 1.0 && slept == (1.0 - tokens) / p.ratePerSec
    ensures slept > 0.0 && slept * p.ratePerSec == 1.0 - tokens
  {}

  /** After sleeping for what was missing there is a whole token, so the loop ends there. */
  lemma OneSleepIsEnough(b: Bucket, now: real, d: Delays, p: Policy)
    requires p.Enabled() && d.Valid() && b.tokens < 1.0
    requires now == b.updatedAt + MissingTime(b, p) + d.overshoot + d.beforeSecond
    ensures Refilled(b, now, p).tokens >= 1.0
  {
    var slept := MissingTime(b, p);
    SleepIsPositive(b.tokens, slept, p);
    Longer(slept, now - b.updatedAt, p.ratePerSec);
    assert Max(now - b.updatedAt, 0.0) == now - b.updatedAt;
    assert p.burst as real >= 1.0;
  }

  lemma Longer(a: real, b: real, rate: real)
    requires a <= b && rate > 0.0
    ensures a * rate <= b * rate
  {}

  // Runs of calls are histories

  ghost function CallEvents(b: Bucket, start: real, d: Delays, p: Policy): seq<Event>
    requires p.Enabled()
  {
    var a := Acquired(b, start, d, p);
    if a.waited == 0.0 then [Event.Refill(a.now), Event.Grant]
    else [Event.Refill(start + d.beforeFirst), Event.Refill(a.now), Event.Grant]
  }

  lemma AfterOne(b: Bucket, event: Event, p: Policy)
    ensures After(b, [event], p) == match event case Refill(now) => Refilled(b, now, p) case Grant => Taken(b)
    ensures Proper(b, [event], p) <==> match event case Refill(now) => now >= b.updatedAt case Grant => b.tokens >= 1.0
  {
    assert [event][..0] == [];
  }

  lemma AfterThree(b: Bucket, first: Event, second: Event, third: Event, p: Policy)
    requires Proper(b, [first], p)
    requires Proper(After(b, [first], p), [second], p)
    requires Proper(After(After(b, [first], p), [second], p), [third], p)
    ensures Proper(b, [first, second, third], p)
    ensures After(b, [first, second, third], p) == After(After(After(b, [first], p), [second], p), [third], p)
  {
    AfterAppend(b, [first], [second], p);
    AfterAppend(b, [first] + [second], [third], p);
    assert [first] + [second] + [third] == [first, second, third];
  }

  lemma AfterTwo(b: Bucket, first: Event, second: Event, p: Policy)
    requires Proper(b, [first], p) && Proper(After(b, [first], p), [second], p)
    ensures Proper(b, [first, second], p)
    ensures After(b, [first, second], p) == After(After(b, [first], p), [second], p)
  {
    AfterAppend(b, [first], [second], p);
    assert [first] + [second] == [first, second];
  }

  lemma CallIsHistory(b: Bucket, start: real, d: Delays, p: Policy)
    requires p.Enabled() && d.Valid() && b.updatedAt <= start
    ensures var a := Acquired(b, start, d, p);
      && a.waited >= 0.0 && a.now >= start + a.waited && a.bucket.updatedAt == a.now
      && Proper(b, CallEvents(b, start, d, p), p) && After(b, CallEvents(b, start, d, p), p) == a.bucket
  {
    var a := Acquired(b, start, d, p);
    var first := start + d.beforeFirst;
    var seen := Refilled(b, first, p);
    AfterOne(b, Event.Refill(first), p);
    if seen.tokens >= 1.0 {
      AfterOne(seen, Event.Grant, p);
      AfterTwo(b, Event.Refill(first), Event.Grant, p);
    } else {
      SleepIsPositive(seen.tokens, a.waited, p);
      OneSleepIsEnough(seen, a.now, d, p);
      AfterOne(seen, Event.Refill(a.now), p);
      AfterOne(Refilled(seen, a.now, p), Event.Grant, p);
      AfterThree(b, Event.Refill(first), Event.Refill(a.now), Event.Grant, p);
    }
  }

  /** Where a fresh limiter stands after some calls. */
  ghost function AfterCalls(start: real, calls: seq<Delays>, p: Policy): Acquisition
    requires p.Enabled()
  {
    if calls == [] then Acquisition(Bucket(p.burst as real, start), start, 0.0)
    else
      var before := AfterCalls(start, calls[..|calls| - 1], p);
      Acquired(before.bucket, before.now, calls[|calls| - 1], p)
  }

  ghost function CallsEvents(start: real, calls: seq<Delays>, p: Policy): seq<Event>
    requires p.Enabled()
  {
    if calls == [] then []
    else
      var before := AfterCalls(start, calls[..|calls| - 1], p);
      CallsEvents(start, calls[..|calls| - 1], p) + CallEvents(before.bucket, before.now, calls[|calls| - 1], p)
  }

  /** When each call of a run returned. */
  ghost function ReturnTimes(start: real, calls: seq<Delays>, p: Policy): (times: seq<real>)
    requires p.Enabled()
    ensures |times| == |calls|
  {
    if calls == [] then []
    else ReturnTimes(start, calls[..|calls| - 1], p) + [AfterCalls(start, calls, p).now]
  }

  lemma {:induction false} GrantTimesAppend(b: Bucket, first: seq<Event>, second: seq<Event>, p: Policy)
    ensures GrantTimes(b, first + second, p) == GrantTimes(b, first, p) + GrantTimes(After(b, first, p), second, p)
  {
    if second == [] {
      assert first + second == first;
    } else {
      var n := |second| - 1;
      assert (first + second)[..|first + second| - 1] == first + second[..n];
      GrantTimesAppend(b, first, second[..n], p);
      AfterAppend(b, first, second[..n], p);
    }
  }

  /** A call grants once, at the time it returns. */
  lemma CallGrantsOnce(b: Bucket, start: real, d: Delays, p: Policy)
    requires p.Enabled() && d.Valid() && b.updatedAt <= start
    ensures GrantTimes(b, CallEvents(b, start, d, p), p) == [Acquired(b, start, d, p).now]
  {
    CallIsHistory(b, start, d, p);
    var a := Acquired(b, start, d, p);
    var refills := if a.waited == 0.0 then [Event.Refill(a.now)]
                   else [Event.Refill(start + d.beforeFirst)] + [Event.Refill(a.now)];
    assert CallEvents(b, start, d, p) == refills + [Event.Grant];
    GrantTimesOfOne(b, refills[0], p);
    if a.waited != 0.0 {
      GrantTimesOfOne(After(b, [refills[0]], p), refills[1], p);
      GrantTimesAppend(b, [refills[0]], [refills[1]], p);
    }
    AfterAppend(b, refills, [Event.Grant], p);
    GrantTimesOfOne(After(b, refills, p), Event.Grant, p);
    GrantTimesAppend(b, refills, [Event.Grant], p);
    AfterOne(After(b, refills, p), Event.Grant, p);
  }

  lemma GrantTimesOfOne(b: Bucket, event: Event, p: Policy)
    ensures GrantTimes(b, [event], p) == if event.Grant? then [b.updatedAt] else []
  {
    assert [event][..0] == [];
  }

  lemma {:induction false} RunIsHistory(start: real, calls: seq<Delays>, p: Policy)
    requires p.Enabled() && forall i | 0 <= i < |calls| :: calls[i].Valid()
    ensures var b := Bucket(p.burst as real, start);
      && AfterCalls(start, calls, p).bucket.updatedAt <= AfterCalls(start, calls, p).now
      && Proper(b, CallsEvents(start, calls, p), p)
      && After(b, CallsEvents(start, calls, p), p) == AfterCalls(start, calls, p).bucket
      && GrantTimes(b, CallsEvents(start, calls, p), p) == ReturnTimes(start, calls, p)
  {
    if calls != [] {
      var n, b := |calls| - 1, Bucket(p.burst as real, start);
      var before := AfterCalls(start, calls[..n], p);
      RunIsHistory(start, calls[..n], p);
      CallIsHistory(before.bucket, before.now, calls[n], p);
      CallGrantsOnce(before.bucket, before.now, calls[n], p);
      var past, more := CallsEvents(start, calls[..n], p), CallEvents(before.bucket, before.now, calls[n], p);
      AfterAppend(b, past, more, p);
      GrantTimesAppend(b, past, more, p);
    }
  }

  /**
   From any call to any later one, both counted, there are at most a burst of calls more than the time
   between their returns pays for; and the bucket is never below empty or above the burst.
   */
  lemma CallsInAnyInterval(start: real, calls: seq<Delays>, p: Policy, i: nat, j: nat)
    requires p.Enabled() && (forall k | 0 <= k < |calls| :: calls[k].Valid()) && i <= j < |calls|
    ensures var times := ReturnTimes(start, calls, p);
            (j - i + 1) as real <= p.burst as real + Gain(times[i], times[j], p)
    ensures InBounds(AfterCalls(start, calls, p).bucket, p)
  {
    var b := Bucket(p.burst as real, start);
    RunIsHistory(start, calls, p);
    GrantsInAnyInterval(b, CallsEvents(start, calls, p), p, i, j);
    GrantsArePaidFor(b, CallsEvents(start, calls, p), p);
  }

  // Backoff, in milliseconds; the code divides by a thousand at the end

  datatype Backoff = Backoff(initialDelayMs: int, maxDelayMs: int)

  function DelayMs(b: Backoff, attempt: int): (delay: nat)
    ensures delay <= AtLeastZero(b.maxDelayMs)
  {
    var wanted := AtLeastZero(b.initialDelayMs) * Pow2(AtLeastZero(attempt));
    if wanted <= AtLeastZero(b.maxDelayMs) then wanted else AtLeastZero(b.maxDelayMs)
  }

  function AtMost(n: nat, limit: nat): nat {
    if n <= limit then n else limit
  }

  /** The first delay is the initial one and each one after it twice the one before, none above the limit. */
  lemma DelaysDouble(b: Backoff, attempt: nat)
    ensures DelayMs(b, 0) == AtMost(AtLeastZero(b.initialDelayMs), AtLeastZero(b.maxDelayMs))
    ensures DelayMs(b, attempt + 1) == AtMost(2 * DelayMs(b, attempt), AtLeastZero(b.maxDelayMs))
    ensures b.initialDelayMs <= 0 || b.maxDelayMs <= 0 ==> DelayMs(b, 0) == 0
  {
    var start := AtLeastZero(b.initialDelayMs);
    assert start * Pow2(0) == start;
    assert start * Pow2(attempt + 1) == 2 * (start * Pow2(attempt));
  }

  lemma DelaysGrow(b: Backoff, attempt: nat)
    ensures DelayMs(b, attempt) <= DelayMs(b, attempt + 1)
  {
    var start := AtLeastZero(b.initialDelayMs);
    assert start * Pow2(attempt + 1) == 2 * (start * Pow2(attempt));
  }

  function TotalMs(delays: seq<nat>): nat {
    if delays == [] then 0 else TotalMs(delays[..|delays| - 1]) + delays[|delays| - 1]
  }

  ghost predicate BackedOff(b: Backoff, delays: seq<nat>) {
    forall i | 0 <= i < |delays| :: delays[i] == DelayMs(b, i)
  }

  lemma {:induction false} GeometricBound(b: Backoff, delays: seq<nat>)
    requires BackedOff(b, delays)
    ensures TotalMs(delays) <= AtLeastZero(b.initialDelayMs) * (Pow2(|delays|) - 1)
  {
    if delays != [] {
      var n, start := |delays| - 1, AtLeastZero(b.initialDelayMs);
      GeometricBound(b, delays[..n]);
      Doubling(start, Pow2(n));
      assert DelayMs(b, n) <= start * Pow2(n);
    }
  }

  lemma Doubling(start: nat, p: nat)
    ensures start * (2 * p - 1) == start * (p - 1) + start * p
  {}

  lemma {:induction false} CappedBound(b: Backoff, delays: seq<nat>)
    requires BackedOff(b, delays)
    ensures TotalMs(delays) <= |delays| * AtLeastZero(b.maxDelayMs)
  {
    if delays != [] {
      var n := |delays| - 1;
      CappedBound(b, delays[..n]);
      OneCapMore(n, AtLeastZero(b.maxDelayMs));
    }
  }

  lemma OneCapMore(n: nat, cap: nat)
    ensures (n + 1) * cap == n * cap + cap
  {}

  lemma {:induction false} DelaysNeverShrink(b: Backoff, i: nat, j: nat)
    requires i <= j
    ensures DelayMs(b, i) <= DelayMs(b, j)
    decreases j - i
  {
    if i < j {
      DelaysNeverShrink(b, i, j - 1);
      DelaysGrow(b, j - 1);
    }
  }

  /** n retries sleep at most the smaller of the full geometric sum and n times the cap. */
  lemma TotalSleepBound(b: Backoff, delays: seq<nat>)
    requires BackedOff(b, delays)
    ensures TotalMs(delays) <= AtLeastZero(b.initialDelayMs) * (Pow2(|delays|) - 1)
    ensures TotalMs(delays) <= |delays| * AtLeastZero(b.maxDelayMs)
    ensures forall i, j | 0 <= i <= j < |delays| :: delays[i] <= delays[j]
  {
    GeometricBound(b, delays);
    CappedBound(b, delays);
    forall i, j | 0 <= i <= j < |delays| ensures delays[i] <= delays[j] {
      DelaysNeverShrink(b, i, j);
    }
  }
}
