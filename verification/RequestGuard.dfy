/** The write-request guard's sliding window: at most so many requests a client in any window. */
module RequestGuard {
  import opened Text

  datatype Limits = Limits(windowMs: nat, maxRequests: nat)
  {
    predicate Enabled() { windowMs > 0 && maxRequests > 0 }
  }

  // One check of one client's queue

  function Pruned(queue: seq<int>, cutoff: int): seq<int> {
    if queue != [] && queue[0] <= cutoff then Pruned(queue[1..], cutoff) else queue
  }

  datatype Checked = Checked(queue: seq<int>, retryAfterMs: Option<int>)

  function Check(queue: seq<int>, now: int, l: Limits): Checked
    requires l.Enabled()
  {
    var recent := Pruned(queue, now - l.windowMs);
    if |recent| >= l.maxRequests then
      var wait := l.windowMs - (now - recent[0]);
      Checked(recent, Some(if wait < 1 then 1 else wait))
    else Checked(recent + [now], None)
  }

  class WriteRequestRateLimiter {
    const limits: Limits
    var entries: map<string, seq<int>>

    constructor (windowMs: int, maxRequests: int)
      ensures limits == Limits(if windowMs < 0 then 0 else windowMs, if maxRequests < 0 then 0 else maxRequests)
      ensures entries == map[]
    {
      limits := Limits(if windowMs < 0 then 0 else windowMs, if maxRequests < 0 then 0 else maxRequests);
      entries := map[];
    }

    /** `now` is the clock reading of the call, taken before the lock. */
    method CheckAndConsume(clientId: string, now: int) returns (retryAfterMs: Option<int>)
      modifies this
      ensures Entries(old(entries), [Call(clientId, now)], limits) == entries
      ensures !limits.Enabled() ==> retryAfterMs == None && entries == old(entries)
      ensures limits.Enabled() ==> retryAfterMs == Check(QueueOf(old(entries), clientId), now, limits).retryAfterMs
    {
      assert [Call(clientId, now)][..0] == [];
      if !limits.Enabled() {
        return None;
      }
      var cutoff := now - limits.windowMs;
      var queue := if clientId in entries then entries[clientId] else [];
      while queue != [] && queue[0] <= cutoff
        invariant Pruned(queue, cutoff) == Pruned(QueueOf(old(entries), clientId), cutoff)
      {
        queue := queue[1..];
      }
      if |queue| >= limits.maxRequests {
        entries := entries[clientId := queue];
        var wait := limits.windowMs - (now - queue[0]);
        return Some(if wait < 1 then 1 else wait);
      }
      entries := entries[clientId := queue + [now]];
      retryAfterMs := None;
    }
  }

  // Histories of calls

  datatype Call = Call(client: string, now: int)

  function QueueOf(entries: map<string, seq<int>>, client: string): seq<int> {
    if client in entries then entries[client] else []
  }

  ghost function Entries(start: map<string, seq<int>>, calls: seq<Call>, l: Limits): map<string, seq<int>> {
    if calls == [] || !l.Enabled() then start
    else
      var before := Entries(start, calls[..|calls| - 1], l);
      var last := calls[|calls| - 1];
      before[last.client := Check(QueueOf(before, last.client), last.now, l).queue]
  }

  function Later(times: seq<int>, cutoff: int): (r: seq<int>)
    ensures |r| <= |times|
  {
    if times == [] then []
    else
      var n := |times| - 1;
      Later(times[..n], cutoff) + (if times[n] > cutoff then [times[n]] else [])
  }

  /** The readings of one client's calls. */
  ghost function TimesOf(calls: seq<Call>, client: string): seq<int> {
    if calls == [] then []
    else
      var n := |calls| - 1;
      if calls[n].client == client then TimesOf(calls[..n], client) + [calls[n].now] else TimesOf(calls[..n], client)
  }

  // One client's queue, and every reading at which it was let through; nothing is forgotten in the latter.
  datatype Ledger = Ledger(queue: seq<int>, admitted: seq<int>)

  ghost function Asked(b: Ledger, now: int, l: Limits): Ledger
    requires l.Enabled()
  {
    var checked := Check(b.queue, now, l);
    Ledger(checked.queue, if checked.retryAfterMs.None? then b.admitted + [now] else b.admitted)
  }

  ghost function After(times: seq<int>, l: Limits): Ledger
    requires l.Enabled()
  {
    if times == [] then Ledger([], []) else Asked(After(times[..|times| - 1], l), times[|times| - 1], l)
  }

  ghost function Admitted(times: seq<int>, l: Limits): seq<int>
    requires l.Enabled()
  {
    After(times, l).admitted
  }

  lemma AfterMore(times: seq<int>, now: int, l: Limits)
    requires l.Enabled()
    ensures After(times + [now], l) == Asked(After(times, l), now, l)
  {
    assert (times + [now])[..|times|] == times;
  }

  ghost predicate Sorted(s: seq<int>) {
    forall i, j | 0 <= i <= j < |s| :: s[i] <= s[j]
  }

  ghost predicate AtMost(s: seq<int>, bound: int) {
    forall i | 0 <= i < |s| :: s[i] <= bound
  }

  ghost predicate Above(s: seq<int>, bound: int) {
    forall i | 0 <= i < |s| :: s[i] > bound
  }

  // Pruning from the front is filtering, on a sorted queue

  lemma {:induction false} LaterOfYounger(times: seq<int>, cutoff: int)
    requires Above(times, cutoff)
    ensures Later(times, cutoff) == times
  {
    if times != [] {
      LaterOfYounger(times[..|times| - 1], cutoff);
    }
  }

  lemma {:induction false} LaterAppend(a: seq<int>, b: seq<int>, cutoff: int)
    ensures Later(a + b, cutoff) == Later(a, cutoff) + Later(b, cutoff)
  {
    if b == [] {
      assert a + b == a;
    } else {
      assert (a + b)[..|a + b| - 1] == a + b[..|b| - 1];
      LaterAppend(a, b[..|b| - 1], cutoff);
    }
  }

  lemma LaterOfOne(time: int, cutoff: int)
    ensures Later([time], cutoff) == if time > cutoff then [time] else []
  {
    assert [time][..0] == [];
  }

  lemma {:induction false} PrunedIsLater(queue: seq<int>, cutoff: int)
    requires Sorted(queue)
    ensures Pruned(queue, cutoff) == Later(queue, cutoff)
  {
    if queue != [] && queue[0] <= cutoff {
      PrunedIsLater(queue[1..], cutoff);
      LaterAppend([queue[0]], queue[1..], cutoff);
      LaterOfOne(queue[0], cutoff);
      assert queue == [queue[0]] + queue[1..];
    } else {
      LaterOfYounger(queue, cutoff);
    }
  }

  lemma {:induction false} LaterTwice(times: seq<int>, first: int, second: int)
    requires first <= second
    ensures Later(Later(times, first), second) == Later(times, second)
  {
    if times != [] {
      var n := |times| - 1;
      LaterTwice(times[..n], first, second);
      if times[n] > first {
        LaterAppend(Later(times[..n], first), [times[n]], second);
        LaterOfOne(times[n], second);
      } else {
        assert Later(times, first) == Later(times[..n], first);
        assert Later(times, second) == Later(times[..n], second);
      }
    }
  }

  lemma LaterShrinks(times: seq<int>, first: int, second: int)
    requires first <= second
    ensures |Later(times, second)| <= |Later(times, first)|
  {
    LaterTwice(times, first, second);
  }

  lemma {:induction false} LaterKeepsOrder(times: seq<int>, cutoff: int, bound: int)
    requires Sorted(times) && AtMost(times, bound)
    ensures Sorted(Later(times, cutoff)) && AtMost(Later(times, cutoff), bound)
  {
    if times != [] {
      var n := |times| - 1;
      LaterKeepsOrder(times[..n], cutoff, times[n]);
    }
  }

  // Ordered readings: the queue is as good as the whole history

  /** The queue holds what is younger than the window of the last reading, out of all that was ever admitted. */
  ghost predicate Refines(b: Ledger, last: Option<int>, l: Limits) {
    match last
    case None => b == Ledger([], [])
    case Some(t) => Sorted(b.admitted) && AtMost(b.admitted, t) && b.queue == Later(b.admitted, t - l.windowMs)
  }

  ghost predicate ChecksLike(queue: seq<int>, past: seq<int>, now: int, l: Limits)
    requires l.Enabled()
  {
    var room := |Later(past, now - l.windowMs)| < l.maxRequests;
    && (Check(queue, now, l).retryAfterMs.None? <==> room)
    && Check(queue, now, l).queue == Later(if room then past + [now] else past, now - l.windowMs)
  }

  lemma PruneOfCut(queue: seq<int>, past: seq<int>, cutoff: int, next: int, bound: int)
    requires Sorted(past) && AtMost(past, bound) && cutoff <= next && queue == Later(past, cutoff)
    ensures Pruned(queue, next) == Later(past, next)
  {
    LaterKeepsOrder(past, cutoff, bound);
    PrunedIsLater(queue, next);
    LaterTwice(past, cutoff, next);
  }

  lemma LaterWithNow(past: seq<int>, now: int, cutoff: int)
    requires now > cutoff
    ensures Later(past + [now], cutoff) == Later(past, cutoff) + [now]
  {
    LaterAppend(past, [now], cutoff);
    LaterOfOne(now, cutoff);
  }

  lemma CheckOfPruned(queue: seq<int>, past: seq<int>, now: int, l: Limits)
    requires l.Enabled() && Pruned(queue, now - l.windowMs) == Later(past, now - l.windowMs)
    ensures ChecksLike(queue, past, now, l)
  {
    LaterWithNow(past, now, now - l.windowMs);
  }

  lemma CheckRefines(queue: seq<int>, past: seq<int>, cutoff: int, now: int, l: Limits)
    requires l.Enabled() && Sorted(past) && AtMost(past, now) && cutoff <= now - l.windowMs
    requires queue == Later(past, cutoff)
    ensures ChecksLike(queue, past, now, l)
  {
    PruneOfCut(queue, past, cutoff, now - l.windowMs, now);
    CheckOfPruned(queue, past, now, l);
  }

  /** A later check answers as the whole history would. */
  lemma NextCheckLike(b: Ledger, last: Option<int>, now: int, l: Limits)
    requires l.Enabled() && Refines(b, last, l) && (last.Some? ==> last.value <= now)
    ensures ChecksLike(b.queue, b.admitted, now, l)
  {
    match last
    case None => CheckRefines([], [], now - l.windowMs, now, l);
    case Some(t) => CheckRefines(b.queue, b.admitted, t - l.windowMs, now, l);
  }

  lemma OneMoreOrdered(past: seq<int>, last: int, now: int)
    requires Sorted(past) && AtMost(past, last) && last <= now
    ensures Sorted(past + [now]) && AtMost(past + [now], now) && AtMost(past, now)
  {}

  lemma NextQueue(b: Ledger, last: Option<int>, now: int, l: Limits)
    requires l.Enabled() && Refines(b, last, l) && (last.Some? ==> last.value <= now)
    ensures Asked(b, now, l).queue == Later(Asked(b, now, l).admitted, now - l.windowMs)
  {
    NextCheckLike(b, last, now, l);
  }

  lemma NextOrdered(b: Ledger, last: Option<int>, now: int, l: Limits)
    requires l.Enabled() && Refines(b, last, l) && (last.Some? ==> last.value <= now)
    ensures Sorted(Asked(b, now, l).admitted) && AtMost(Asked(b, now, l).admitted, now)
  {
    OneMoreOrdered(b.admitted, if last.Some? then last.value else now, now);
  }

  lemma NextRefines(b: Ledger, last: Option<int>, now: int, l: Limits)
    requires l.Enabled() && Refines(b, last, l) && (last.Some? ==> last.value <= now)
    ensures Refines(Asked(b, now, l), Some(now), l)
  {
    NextQueue(b, last, now, l);
    NextOrdered(b, last, now, l);
  }

  ghost function LastOf(times: seq<int>): Option<int> {
    if times == [] then None else Some(times[|times| - 1])
  }

  lemma {:induction false} OrderedReadingsRefine(times: seq<int>, l: Limits)
    requires l.Enabled() && Sorted(times)
    ensures Refines(After(times, l), LastOf(times), l)
  {
    if times != [] {
      var past := times[..|times| - 1];
      OrderedReadingsRefine(past, l);
      NextRefines(After(past, l), LastOf(past), times[|times| - 1], l);
    }
  }

  // From one client's readings to the calls of all

  lemma EntriesMove(calls: seq<Call>, l: Limits)
    requires l.Enabled() && calls != []
    ensures var before, last := Entries(map[], calls[..|calls| - 1], l), calls[|calls| - 1];
            Entries(map[], calls, l) == before[last.client := Check(QueueOf(before, last.client), last.now, l).queue]
  {}

  /** What is queued for a client is decided by its own calls, whatever the others did and when. */
  lemma {:induction false} ClientsAreIndependent(calls: seq<Call>, client: string, l: Limits)
    requires l.Enabled()
    ensures QueueOf(Entries(map[], calls, l), client) == After(TimesOf(calls, client), l).queue
  {
    if calls != [] {
      var n := |calls| - 1;
      ClientsAreIndependent(calls[..n], client, l);
      EntriesMove(calls, l);
      if calls[n].client == client {
        AfterMore(TimesOf(calls[..n], client), calls[n].now, l);
      }
    }
  }

  /** A client's queue is always its whole admission history, cut to the window of its last call. */
  lemma QueueIsFilteredHistory(calls: seq<Call>, client: string, l: Limits)
    requires l.Enabled() && Sorted(TimesOf(calls, client))
    ensures var times := TimesOf(calls, client);
            Refines(Ledger(QueueOf(Entries(map[], calls, l), client), Admitted(times, l)), LastOf(times), l)
  {
    ClientsAreIndependent(calls, client, l);
    OrderedReadingsRefine(TimesOf(calls, client), l);
  }

  lemma SortedBefore(times: seq<int>, now: int)
    requires Sorted(times + [now])
    ensures Sorted(times) && (LastOf(times).Some? ==> LastOf(times).value <= now)
  {
    var all := times + [now];
    assert forall i | 0 <= i < |times| :: all[i] == times[i];
    assert all[|times|] == now;
  }

  /** The next call is refused exactly when the window behind it is full of the client's admissions. */
  lemma RefusedExactlyWhenFull(calls: seq<Call>, client: string, now: int, l: Limits)
    requires l.Enabled() && Sorted(TimesOf(calls, client) + [now])
    ensures Check(QueueOf(Entries(map[], calls, l), client), now, l).retryAfterMs.Some? <==>
            |Later(Admitted(TimesOf(calls, client), l), now - l.windowMs)| >= l.maxRequests
  {
    var times := TimesOf(calls, client);
    SortedBefore(times, now);
    QueueIsFilteredHistory(calls, client, l);
    NextCheckLike(Ledger(QueueOf(Entries(map[], calls, l), client), Admitted(times, l)), LastOf(times), now, l);
  }

  // The bound

  /** How many of the times lie in the window that ends at `end`, open at its start. */
  ghost function InWindow(times: seq<int>, end: int, l: Limits): nat {
    if times == [] then 0
    else
      var n := |times| - 1;
      InWindow(times[..n], end, l) + (if end - l.windowMs < times[n] <= end then 1 else 0)
  }

  lemma InWindowMore(times: seq<int>, time: int, end: int, l: Limits)
    ensures InWindow(times + [time], end, l) ==
            InWindow(times, end, l) + (if end - l.windowMs < time <= end then 1 else 0)
  {
    assert (times + [time])[..|times|] == times;
  }

  lemma {:induction false} WindowWithinLater(times: seq<int>, end: int, l: Limits)
    ensures InWindow(times, end, l) <= |Later(times, end - l.windowMs)|
  {
    if times != [] {
      WindowWithinLater(times[..|times| - 1], end, l);
    }
  }

  lemma RoomMeansFit(past: seq<int>, now: int, end: int, l: Limits)
    requires |Later(past, now - l.windowMs)| < l.maxRequests && InWindow(past, end, l) <= l.maxRequests
    ensures InWindow(past + [now], end, l) <= l.maxRequests
  {
    InWindowMore(past, now, end, l);
    if now <= end {
      WindowWithinLater(past, end, l);
      LaterShrinks(past, now - l.windowMs, end - l.windowMs);
    }
  }

  lemma StillFits(b: Ledger, last: Option<int>, now: int, end: int, l: Limits)
    requires l.Enabled() && Refines(b, last, l) && (last.Some? ==> last.value <= now)
    requires InWindow(b.admitted, end, l) <= l.maxRequests
    ensures InWindow(Asked(b, now, l).admitted, end, l) <= l.maxRequests
  {
    NextCheckLike(b, last, now, l);
    if Asked(b, now, l).admitted != b.admitted {
      RoomMeansFit(b.admitted, now, end, l);
    }
  }

  lemma {:induction false} OrderedReadingsFit(times: seq<int>, end: int, l: Limits)
    requires l.Enabled() && Sorted(times)
    ensures InWindow(Admitted(times, l), end, l) <= l.maxRequests
  {
    if times != [] {
      var past := times[..|times| - 1];
      OrderedReadingsFit(past, end, l);
      OrderedReadingsRefine(past, l);
      StillFits(After(past, l), LastOf(past), times[|times| - 1], end, l);
    }
  }

  /** No window of any run, wherever it lies, holds more than the maximum of one client's admissions. */
  lemma NoWindowIsOverfull(calls: seq<Call>, client: string, end: int, l: Limits)
    requires l.Enabled() && Sorted(TimesOf(calls, client))
    ensures InWindow(Admitted(TimesOf(calls, client), l), end, l) <= l.maxRequests
  {
    OrderedReadingsFit(TimesOf(calls, client), end, l);
  }

  // Retrying

  lemma {:induction false} PrunedShorter(queue: seq<int>, cutoff: int)
    ensures |Pruned(queue, cutoff)| <= |queue|
  {
    if queue != [] && queue[0] <= cutoff {
      PrunedShorter(queue[1..], cutoff);
    }
  }

  lemma {:induction false} QueueNeverAboveMaximum(calls: seq<Call>, client: string, l: Limits)
    requires l.Enabled()
    ensures |QueueOf(Entries(map[], calls, l), client)| <= l.maxRequests
  {
    if calls != [] {
      var n := |calls| - 1;
      QueueNeverAboveMaximum(calls[..n], client, l);
      PrunedShorter(QueueOf(Entries(map[], calls[..n], l), client), calls[n].now - l.windowMs);
    }
  }

  lemma RetryOfQueue(queue: seq<int>, now: int, l: Limits, later: int)
    requires l.Enabled() && |queue| <= l.maxRequests && (queue != [] ==> queue[0] <= now)
    requires Check(queue, now, l).retryAfterMs.Some? && later >= now
    ensures Check(Check(queue, now, l).queue, later, l).retryAfterMs.None? <==>
            later - now >= Check(queue, now, l).retryAfterMs.value
    ensures 1 <= Check(queue, now, l).retryAfterMs.value <= l.windowMs
  {
    PrunedShorter(queue, now - l.windowMs);
    PrunedShorter(queue[1..], now - l.windowMs);
    assert Check(queue, now, l).queue == queue && queue[0] > now - l.windowMs;
    PrunedShorter(queue[1..], later - l.windowMs);
  }

  lemma {:induction false} TimesOfOthers(calls: seq<Call>, others: seq<Call>, client: string)
    requires forall i | 0 <= i < |others| :: others[i].client != client
    ensures TimesOf(calls + others, client) == TimesOf(calls, client)
  {
    if others == [] {
      assert calls + others == calls;
    } else {
      assert (calls + others)[..|calls + others| - 1] == calls + others[..|others| - 1];
      TimesOfOthers(calls, others[..|others| - 1], client);
    }
  }

  lemma QueueAfterCall(calls: seq<Call>, client: string, now: int, others: seq<Call>, l: Limits)
    requires l.Enabled() && forall i | 0 <= i < |others| :: others[i].client != client
    ensures QueueOf(Entries(map[], calls + [Call(client, now)] + others, l), client) ==
            Check(QueueOf(Entries(map[], calls, l), client), now, l).queue
  {
    var asked := calls + [Call(client, now)];
    TimesOfOthers(asked, others, client);
    ClientsAreIndependent(asked + others, client, l);
    ClientsAreIndependent(asked, client, l);
    assert asked[..|asked| - 1] == calls;
    EntriesMove(asked, l);
  }

  lemma OldestNotAhead(b: Ledger, last: Option<int>, now: int, l: Limits)
    requires Refines(b, last, l) && (last.Some? ==> last.value <= now)
    ensures b.queue != [] ==> b.queue[0] <= now
  {
    if last.Some? {
      LaterKeepsOrder(b.admitted, last.value - l.windowMs, last.value);
    }
  }

  /**
   A call refused in any run may be retried: whatever other clients do in between, the retry is
   refused before the time given has passed and admitted from then on.
   */
  lemma RetryAdmittedExactlyFrom(
    calls: seq<Call>, client: string, now: int, others: seq<Call>, later: int, l: Limits)
    requires l.Enabled() && Sorted(TimesOf(calls, client) + [now]) && later >= now
    requires forall i | 0 <= i < |others| :: others[i].client != client
    requires Check(QueueOf(Entries(map[], calls, l), client), now, l).retryAfterMs.Some?
    ensures var wait := Check(QueueOf(Entries(map[], calls, l), client), now, l).retryAfterMs.value;
            var waiting := Entries(map[], calls + [Call(client, now)] + others, l);
      && 1 <= wait <= l.windowMs
      && (Check(QueueOf(waiting, client), later, l).retryAfterMs.None? <==> later - now >= wait)
  {
    var queue, times := QueueOf(Entries(map[], calls, l), client), TimesOf(calls, client);
    QueueAfterCall(calls, client, now, others, l);
    QueueNeverAboveMaximum(calls, client, l);
    SortedBefore(times, now);
    QueueIsFilteredHistory(calls, client, l);
    OldestNotAhead(Ledger(queue, Admitted(times, l)), LastOf(times), now, l);
    RetryOfQueue(queue, now, l, later);
  }

  // Late readings: the clock is read before the lock is taken, so a slow caller can bring an older one

  ghost predicate Spaced(times: seq<int>, gap: int) {
    forall i, j | 0 <= i < j < |times| :: times[j] - times[i] >= gap
  }

  /** With a maximum of one, the queue is the last admission, and admissions are a window apart. */
  ghost predicate OneAtATime(b: Ledger, l: Limits) {
    && Spaced(b.admitted, l.windowMs)
    && b.queue == if b.admitted == [] then [] else [b.admitted[|b.admitted| - 1]]
  }

  lemma OneKept(queue: seq<int>, now: int, l: Limits)
    requires l.Enabled() && l.maxRequests == 1 && |queue| <= 1
    ensures var room := queue == [] || now - queue[0] >= l.windowMs;
            Check(queue, now, l) == if room then Checked([now], None) else Check(queue, now, l).(queue := queue)
    ensures Check(queue, now, l).retryAfterMs.None? <==> queue == [] || now - queue[0] >= l.windowMs
  {
    if queue != [] {
      assert queue[1..] == [] && Pruned(queue[1..], now - l.windowMs) == [];
    }
  }

  lemma SpacedMore(times: seq<int>, now: int, gap: nat)
    requires Spaced(times, gap) && (times != [] ==> now - times[|times| - 1] >= gap)
    ensures Spaced(times + [now], gap)
  {
    var more := times + [now];
    forall i | 0 <= i < |times| ensures now - more[i] >= gap {
      assert times[|times| - 1] - times[i] >= 0;
    }
  }

  lemma NextOneAtATime(b: Ledger, now: int, l: Limits)
    requires l.Enabled() && l.maxRequests == 1 && OneAtATime(b, l)
    ensures OneAtATime(Asked(b, now, l), l)
  {
    OneKept(b.queue, now, l);
    if b.admitted == [] || now - b.admitted[|b.admitted| - 1] >= l.windowMs {
      SpacedMore(b.admitted, now, l.windowMs);
      assert Asked(b, now, l) == Ledger([now], b.admitted + [now]);
    } else {
      assert Asked(b, now, l) == b;
    }
  }

  lemma {:induction false} OnlyOneAtATime(times: seq<int>, l: Limits)
    requires l.Enabled() && l.maxRequests == 1
    ensures OneAtATime(After(times, l), l)
  {
    if times != [] {
      OnlyOneAtATime(times[..|times| - 1], l);
      NextOneAtATime(After(times[..|times| - 1], l), times[|times| - 1], l);
    }
  }

  lemma {:induction false} SpacedFits(times: seq<int>, end: int, l: Limits)
    requires l.Enabled() && Spaced(times, l.windowMs)
    ensures InWindow(times, end, l) <= 1
    ensures (forall i | 0 <= i < |times| :: times[i] <= end - l.windowMs) ==> InWindow(times, end, l) == 0
  {
    if times != [] {
      SpacedFits(times[..|times| - 1], end, l);
    }
  }

  /** A reading that finds room. */
  lemma LetIn(b: Ledger, recent: seq<int>, now: int, l: Limits)
    requires l.Enabled() && Pruned(b.queue, now - l.windowMs) == recent && |recent| < l.maxRequests
    ensures Asked(b, now, l) == Ledger(recent + [now], b.admitted + [now])
  {}

  ghost function Zeros(n: nat): (times: seq<int>)
    ensures |times| == n && forall i | 0 <= i < n :: times[i] == 0
  {
    seq(n, _ => 0)
  }

  lemma ZerosMore(n: nat)
    ensures Zeros(n + 1) == Zeros(n) + [0]
    ensures Zeros(n + 1)[..n] == Zeros(n) && Zeros(n + 1)[1..] == Zeros(n)
  {}

  lemma {:induction false} ZerosAdmitted(n: nat, l: Limits)
    requires l.Enabled() && n <= l.maxRequests
    ensures After(Zeros(n), l) == Ledger(Zeros(n), Zeros(n))
  {
    if n > 0 {
      ZerosMore(n - 1);
      ZerosAdmitted(n - 1, l);
      AfterMore(Zeros(n - 1), 0, l);
      LetIn(Ledger(Zeros(n - 1), Zeros(n - 1)), Zeros(n - 1), 0, l);
    }
  }

  lemma {:induction false} ZerosPruned(n: nat)
    ensures Pruned(Zeros(n), 0) == []
  {
    if n > 0 {
      ZerosMore(n - 1);
      ZerosPruned(n - 1);
    }
  }

  lemma {:induction false} ZerosInWindow(n: nat, end: int, l: Limits)
    requires 0 <= end < l.windowMs
    ensures InWindow(Zeros(n), end, l) == n
  {
    if n > 0 {
      ZerosMore(n - 1);
      ZerosInWindow(n - 1, end, l);
    }
  }

  /** As many readings of 0 as the queue holds; one when these have left; and one a millisecond late. */
  ghost function LateByOne(l: Limits): seq<int> {
    Zeros(l.maxRequests) + [l.windowMs] + [l.windowMs - 1]
  }

  lemma LateByOneAdmitted(l: Limits)
    requires l.Enabled() && l.maxRequests >= 2
    ensures Admitted(LateByOne(l), l) == LateByOne(l)
  {
    var zeros, w := Zeros(l.maxRequests), l.windowMs;
    ZerosAdmitted(l.maxRequests, l);
    ZerosPruned(l.maxRequests);
    AfterMore(zeros, w, l);
    LetIn(Ledger(zeros, zeros), [], w, l);
    AfterMore(zeros + [w], w - 1, l);
    LetIn(Ledger([w], zeros + [w]), [w], w - 1, l);
  }

  lemma LateByOneCounted(l: Limits)
    requires l.Enabled()
    ensures InWindow(LateByOne(l), l.windowMs - 1, l) == l.maxRequests + 1
  {
    var zeros, w := Zeros(l.maxRequests), l.windowMs;
    ZerosInWindow(l.maxRequests, w - 1, l);
    InWindowMore(zeros, w, w - 1, l);
    InWindowMore(zeros + [w], w - 1, w - 1, l);
  }

  /** A single reading, a millisecond late, gets one request too many into a window. */
  lemma LateByOneOverfills(l: Limits)
    requires l.Enabled() && l.maxRequests >= 2
    ensures InWindow(Admitted(LateByOne(l), l), l.windowMs - 1, l) == l.maxRequests + 1
  {
    LateByOneAdmitted(l);
    LateByOneCounted(l);
  }

  /** Two requests in 10 ms: a reading of 9 that comes after one of 10 is a third one in the window up to 9. */
  lemma ThreeInAWindowOfTwo()
    ensures var l := Limits(10, 2); InWindow(Admitted([0, 0, 10, 9], l), 9, l) == 3
  {
    var l := Limits(10, 2);
    assert Zeros(2) == [0, 0] && LateByOne(l) == [0, 0, 10, 9];
    LateByOneOverfills(l);
  }

  ghost predicate NeverOverfull(l: Limits)
    requires l.Enabled()
  {
    forall times, end :: InWindow(Admitted(times, l), end, l) <= l.maxRequests
  }

  /** The bound survives readings in any order if and only if the maximum is one request. */
  lemma LateReadingsHarmlessExactly(l: Limits)
    requires l.Enabled()
    ensures NeverOverfull(l) <==> l.maxRequests == 1
  {
    if l.maxRequests == 1 {
      forall times, end ensures InWindow(Admitted(times, l), end, l) <= l.maxRequests {
        OnlyOneAtATime(times, l);
        SpacedFits(Admitted(times, l), end, l);
      }
    } else {
      LateByOneOverfills(l);
      assert InWindow(Admitted(LateByOne(l), l), l.windowMs - 1, l) > l.maxRequests;
    }
  }

  lemma BothPruned(ahead: nat)
    ensures Pruned([ahead, 0], ahead) == []
  {
    assert Pruned([0], ahead) == [] by {
      assert [0][1..] == [];
    }
    assert [ahead, 0][1..] == [0];
  }

  lemma OneRound(b: Ledger, ahead: nat, l: Limits)
    requires l.Enabled() && l.maxRequests >= 2 && Pruned(b.queue, ahead) == []
    ensures var next := ahead + l.windowMs;
            Asked(Asked(b, next, l), 0, l) == Ledger([next, 0], b.admitted + [next] + [0])
  {
    var next := ahead + l.windowMs;
    LetIn(b, [], next, l);
    LetIn(Ledger([next], b.admitted + [next]), [next], 0, l);
    assert [next] + [0] == [next, 0];
  }

  lemma OneRoundCounted(past: seq<int>, next: int, l: Limits)
    requires next > 0 && l.windowMs > 0
    ensures InWindow(past + [next] + [0], 0, l) == InWindow(past, 0, l) + 1
  {
    InWindowMore(past, next, 0, l);
    InWindowMore(past + [next], 0, 0, l);
  }

  lemma RoundAdmitted(times: seq<int>, queue: seq<int>, ahead: nat, l: Limits)
    requires l.Enabled() && l.maxRequests >= 2
    requires After(times, l) == Ledger(queue, times) && Pruned(queue, ahead) == []
    ensures var more := times + [ahead + l.windowMs] + [0];
            After(more, l) == Ledger([ahead + l.windowMs, 0], more)
  {
    AfterMore(times, ahead + l.windowMs, l);
    AfterMore(times + [ahead + l.windowMs], 0, l);
    OneRound(Ledger(queue, times), ahead, l);
  }

  /** `n` rounds: a reading that empties the queue, followed by a reading of 0. All of them are admitted. */
  lemma {:induction false} BackAndForth(n: nat, l: Limits) returns (times: seq<int>, queue: seq<int>, ahead: nat)
    requires l.Enabled() && l.maxRequests >= 2
    ensures After(times, l) == Ledger(queue, times) && Pruned(queue, ahead) == []
    ensures InWindow(times, 0, l) == n
  {
    if n == 0 {
      times, queue, ahead := [], [], 0;
    } else {
      times, queue, ahead := BackAndForth(n - 1, l);
      RoundAdmitted(times, queue, ahead, l);
      OneRoundCounted(times, ahead + l.windowMs, l);
      BothPruned(ahead + l.windowMs);
      times, queue, ahead := times + [ahead + l.windowMs] + [0], [ahead + l.windowMs, 0], ahead + l.windowMs;
    }
  }

  /** With a maximum of two or more, late readings leave no bound at all on a window. */
  lemma LateReadingsLeaveNoBound(l: Limits, bound: nat)
    requires l.Enabled() && l.maxRequests >= 2
    ensures exists times, end :: InWindow(Admitted(times, l), end, l) > bound
  {
    var times, queue, ahead := BackAndForth(bound + 1, l);
    assert InWindow(Admitted(times, l), 0, l) > bound;
  }
}
