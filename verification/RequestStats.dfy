/** Request statistics: recorders per exchange, their merged totals, and interpolated percentiles. */
module RequestStats {
  import opened Text

  // Recording

  // One recorded request; `exchange` is the normalised name.
  datatype Event =
    | Succeeded(exchange: string, latencyMs: real)
    | Errored(exchange: string, code: string, latencyMs: real)

  /** What a recorder holds. `errorCodes` is a counter: how often each code was seen. */
  datatype Totals = Totals(
    attempts: nat, successes: nat, errors: nat,
    all: seq<real>, ofSuccesses: seq<real>, ofErrors: seq<real>,
    errorCodes: multiset<string>)

  const EMPTY := Totals(0, 0, 0, [], [], [], multiset{})

  function Recorded(t: Totals, e: Event): Totals {
    match e
    case Succeeded(_, latency) =>
      Totals(t.attempts + 1, t.successes + 1, t.errors, t.all + [latency], t.ofSuccesses + [latency], t.ofErrors,
             t.errorCodes)
    case Errored(_, code, latency) =>
      Totals(t.attempts + 1, t.successes, t.errors + 1, t.all + [latency], t.ofSuccesses, t.ofErrors + [latency],
             t.errorCodes + multiset{code})
  }

  /** One recorder that sees every event. */
  ghost function Single(events: seq<Event>): Totals {
    if events == [] then EMPTY else Recorded(Single(events[..|events| - 1]), events[|events| - 1])
  }

  function Exchange(text: string): string {
    Lower(Strip(text))
  }

  /** One recorder that sees the events of one exchange. */
  ghost function Seen(events: seq<Event>, exchange: string): Totals {
    if events == [] then EMPTY
    else
      var before := Seen(events[..|events| - 1], exchange);
      if events[|events| - 1].exchange == exchange then Recorded(before, events[|events| - 1]) else before
  }

  class ExchangeRequestStats {
    var attemptCount: nat
    var successCount: nat
    var errorCount: nat
    var latencyAllMs: seq<real>
    var latencySuccessMs: seq<real>
    var latencyErrorMs: seq<real>
    var errorCodeCounts: multiset<string>

    function Value(): Totals
      reads this
    {
      Totals(attemptCount, successCount, errorCount, latencyAllMs, latencySuccessMs, latencyErrorMs, errorCodeCounts)
    }

    constructor ()
      ensures Value() == EMPTY
    {
      attemptCount, successCount, errorCount := 0, 0, 0;
      latencyAllMs, latencySuccessMs, latencyErrorMs := [], [], [];
      errorCodeCounts := multiset{};
    }

    method RecordSuccess(exchange: string, latencyMs: real)
      modifies this
      ensures Value() == Recorded(old(Value()), Succeeded(exchange, latencyMs))
    {
      attemptCount := attemptCount + 1;
      successCount := successCount + 1;
      latencyAllMs := latencyAllMs + [latencyMs];
      latencySuccessMs := latencySuccessMs + [latencyMs];
    }

    method RecordError(exchange: string, code: string, latencyMs: real)
      modifies this
      ensures Value() == Recorded(old(Value()), Errored(exchange, code, latencyMs))
    {
      attemptCount := attemptCount + 1;
      errorCount := errorCount + 1;
      latencyAllMs := latencyAllMs + [latencyMs];
      latencyErrorMs := latencyErrorMs + [latencyMs];
      errorCodeCounts := errorCodeCounts + multiset{code};
    }

    method Record(e: Event)
      modifies this
      ensures Value() == Recorded(old(Value()), e)
    {
      match e
      case Succeeded(exchange, latency) => RecordSuccess(exchange, latency);
      case Errored(exchange, code, latency) => RecordError(exchange, code, latency);
    }

    /** One step of the merge: counters are added, lists extended. */
    method Extend(t: Totals)
      modifies this
      ensures Value() == Joined(old(Value()), t)
    {
      attemptCount := attemptCount + t.attempts;
      successCount := successCount + t.successes;
      errorCount := errorCount + t.errors;
      latencyAllMs := latencyAllMs + t.all;
      latencySuccessMs := latencySuccessMs + t.ofSuccesses;
      latencyErrorMs := latencyErrorMs + t.ofErrors;
      errorCodeCounts := errorCodeCounts + t.errorCodes;
    }
  }

  function Joined(a: Totals, b: Totals): Totals {
    Totals(a.attempts + b.attempts, a.successes + b.successes, a.errors + b.errors,
           a.all + b.all, a.ofSuccesses + b.ofSuccesses, a.ofErrors + b.ofErrors, a.errorCodes + b.errorCodes)
  }

  // Merging

  /** Totals with the order of the latencies forgotten. */
  ghost function Unordered(t: Totals): Tally {
    Tally(t.attempts, t.successes, t.errors,
          multiset(t.all), multiset(t.ofSuccesses), multiset(t.ofErrors), t.errorCodes)
  }

  datatype Tally = Tally(
    attempts: nat, successes: nat, errors: nat,
    all: multiset<real>, ofSuccesses: multiset<real>, ofErrors: multiset<real>,
    errorCodes: multiset<string>)

  ghost function Plus(a: Tally, b: Tally): Tally {
    Tally(a.attempts + b.attempts, a.successes + b.successes, a.errors + b.errors,
          a.all + b.all, a.ofSuccesses + b.ofSuccesses, a.ofErrors + b.ofErrors, a.errorCodes + b.errorCodes)
  }

  lemma UnorderedJoined(a: Totals, b: Totals)
    ensures Unordered(Joined(a, b)) == Plus(Unordered(a), Unordered(b))
  {}

  /** One event more, counted. */
  ghost function Tallied(t: Tally, e: Event): Tally {
    match e
    case Succeeded(_, l) =>
      Tally(t.attempts + 1, t.successes + 1, t.errors, t.all + multiset{l}, t.ofSuccesses + multiset{l}, t.ofErrors,
            t.errorCodes)
    case Errored(_, code, l) =>
      Tally(t.attempts + 1, t.successes, t.errors + 1, t.all + multiset{l}, t.ofSuccesses, t.ofErrors + multiset{l},
            t.errorCodes + multiset{code})
  }

  lemma UnorderedRecorded(t: Totals, e: Event)
    ensures Unordered(Recorded(t, e)) == Tallied(Unordered(t), e)
  {}

  lemma PlusTallied(a: Tally, b: Tally, e: Event)
    ensures Tallied(Plus(a, b), e) == Plus(Tallied(a, e), b)
    ensures Tallied(Plus(a, b), e) == Plus(a, Tallied(b, e))
  {
    var l := multiset{e.latencyMs};
    assert (a.all + b.all) + l == (a.all + l) + b.all == a.all + (b.all + l);
    match e {
      case Succeeded(_, _) =>
        assert (a.ofSuccesses + b.ofSuccesses) + l == (a.ofSuccesses + l) + b.ofSuccesses
            == a.ofSuccesses + (b.ofSuccesses + l);
      case Errored(_, code, _) =>
        var c := multiset{code};
        assert (a.ofErrors + b.ofErrors) + l == (a.ofErrors + l) + b.ofErrors == a.ofErrors + (b.ofErrors + l);
        assert (a.errorCodes + b.errorCodes) + c == (a.errorCodes + c) + b.errorCodes
            == a.errorCodes + (b.errorCodes + c);
    }
  }

  /** The events of some exchanges, added up. */
  ghost function Sum(events: seq<Event>, exchanges: set<string>): Tally {
    if events == [] then Unordered(EMPTY)
    else
      var before := Sum(events[..|events| - 1], exchanges);
      if events[|events| - 1].exchange in exchanges then Tallied(before, events[|events| - 1]) else before
  }

  lemma PlusNothing(a: Tally)
    ensures Plus(a, Unordered(EMPTY)) == a
  {}

  /** Disjoint groups of exchanges may be added up apart. */
  lemma {:induction false} SumApart(events: seq<Event>, a: set<string>, b: set<string>)
    requires a !! b
    ensures Sum(events, a + b) == Plus(Sum(events, a), Sum(events, b))
  {
    if events == [] {
      PlusNothing(Unordered(EMPTY));
    } else {
      var init, last := events[..|events| - 1], events[|events| - 1];
      SumApart(init, a, b);
      PlusTallied(Sum(init, a), Sum(init, b), last);
    }
  }

  lemma {:induction false} SumOfOne(events: seq<Event>, exchange: string)
    ensures Sum(events, {exchange}) == Unordered(Seen(events, exchange))
  {
    if events != [] {
      var init, last := events[..|events| - 1], events[|events| - 1];
      SumOfOne(init, exchange);
      UnorderedRecorded(Seen(init, exchange), last);
    }
  }

  lemma {:induction false} SumOfAll(events: seq<Event>, exchanges: set<string>)
    requires forall i | 0 <= i < |events| :: events[i].exchange in exchanges
    ensures Sum(events, exchanges) == Unordered(Single(events))
  {
    if events != [] {
      var init, last := events[..|events| - 1], events[|events| - 1];
      SumOfAll(init, exchanges);
      UnorderedRecorded(Single(init), last);
    }
  }

  lemma {:induction false} SumOfNone(events: seq<Event>)
    ensures Sum(events, {}) == Unordered(EMPTY)
  {
    if events != [] {
      SumOfNone(events[..|events| - 1]);
    }
  }

  /** The recorders of these exchanges have been merged. */
  ghost predicate Merged(t: Totals, events: seq<Event>, done: set<string>) {
    Unordered(t) == Sum(events, done)
  }

  lemma NothingMerged(events: seq<Event>)
    ensures Merged(EMPTY, events, {})
  {
    SumOfNone(events);
  }

  lemma MergeStep(values: map<string, Totals>, events: seq<Event>, done: set<string>, exchange: string, merged: Totals)
    requires Consistent(values, events) && exchange in values && exchange !in done && Merged(merged, events, done)
    ensures Merged(Joined(merged, values[exchange]), events, done + {exchange})
  {
    UnorderedJoined(merged, values[exchange]);
    SumOfOne(events, exchange);
    SumApart(events, done, {exchange});
  }

  lemma EverythingMerged(values: map<string, Totals>, merged: Totals, events: seq<Event>)
    requires Consistent(values, events) && Merged(merged, events, values.Keys)
    ensures Unordered(merged) == Unordered(Single(events))
  {
    SumOfAll(events, values.Keys);
  }

  /** Every recorder holds what its own exchange's events add up to, and every event has a recorder. */
  ghost predicate Consistent(values: map<string, Totals>, events: seq<Event>) {
    && (forall x | x in values :: values[x] == Seen(events, x))
    && (forall i | 0 <= i < |events| :: events[i].exchange in values)
  }

  lemma ConsistentNew(values: map<string, Totals>, events: seq<Event>, exchange: string)
    requires Consistent(values, events) && exchange !in values
    ensures Consistent(values[exchange := EMPTY], events)
  {
    NothingSeen(events, exchange);
  }

  lemma ConsistentMore(values: map<string, Totals>, events: seq<Event>, e: Event)
    requires Consistent(values, events) && e.exchange in values
    ensures Consistent(values[e.exchange := Recorded(values[e.exchange], e)], events + [e])
  {
    forall x
      ensures Seen(events + [e], x) == if x == e.exchange then Recorded(Seen(events, x), e) else Seen(events, x)
    {
      SeenMore(events, e, x);
    }
  }

  // Each exchange's recorder is kept as the value it holds.
  class RequestStatsTracker {
    var byExchange: map<string, Totals>
    ghost var events: seq<Event> // everything recorded so far

    ghost predicate Valid()
      reads this
    {
      Consistent(byExchange, events)
    }

    constructor ()
      ensures Valid() && events == [] && byExchange == map[]
    {
      byExchange, events := map[], [];
    }

    method Record(e: Event)
      requires Valid()
      modifies this
      ensures Valid() && events == old(events) + [e]
      ensures byExchange == Tracked(old(byExchange), e)
    {
      if e.exchange !in byExchange {
        ConsistentNew(byExchange, events, e.exchange);
        byExchange := byExchange[e.exchange := EMPTY];
      }
      ConsistentMore(byExchange, events, e);
      byExchange := byExchange[e.exchange := Recorded(byExchange[e.exchange], e)];
      events := events + [e];
    }

    method RecordSuccess(exchange: string, latencyMs: real)
      requires Valid()
      modifies this
      ensures Valid() && events == old(events) + [Succeeded(Exchange(exchange), latencyMs)]
      ensures byExchange == Tracked(old(byExchange), Succeeded(Exchange(exchange), latencyMs))
    {
      Record(Succeeded(Exchange(exchange), latencyMs));
    }

    method RecordError(exchange: string, code: string, latencyMs: real)
      requires Valid()
      modifies this
      ensures Valid() && events == old(events) + [Errored(Exchange(exchange), code, latencyMs)]
      ensures byExchange == Tracked(old(byExchange), Errored(Exchange(exchange), code, latencyMs))
    {
      Record(Errored(Exchange(exchange), code, latencyMs));
    }

    /**
     The total agrees with one recorder that saw everything, but for the order of the latencies; and
     each exchange's share is what one recorder that saw only its events would hold.
     */
    method Snapshot() returns (total: ExchangeRequestStats, each: map<string, Totals>)
      requires Valid()
      ensures fresh(total) && Unordered(total.Value()) == Unordered(Single(events))
      ensures total.attemptCount == total.successCount + total.errorCount == |events|
      ensures each == byExchange && Consistent(each, events)
    {
      total := new ExchangeRequestStats();
      MergeAll(total, byExchange, events);
      EverythingMerged(byExchange, total.Value(), events);
      MergedAddsUp(total.Value(), events);
      each := byExchange;
    }
  }

  function Tracked(values: map<string, Totals>, e: Event): map<string, Totals> {
    values[e.exchange := Recorded(if e.exchange in values then values[e.exchange] else EMPTY, e)]
  }

  method MergeOne(
    total: ExchangeRequestStats, values: map<string, Totals>, exchange: string, ghost events: seq<Event>,
    ghost done: set<string>)
    requires Consistent(values, events) && exchange in values && exchange !in done
    requires Merged(total.Value(), events, done)
    modifies total
    ensures Merged(total.Value(), events, done + {exchange})
  {
    MergeStep(values, events, done, exchange, total.Value());
    total.Extend(values[exchange]);
  }

  method MergeAll(total: ExchangeRequestStats, values: map<string, Totals>, ghost events: seq<Event>)
    requires Consistent(values, events) && total.Value() == EMPTY
    modifies total
    ensures Merged(total.Value(), events, values.Keys)
  {
    var left := values.Keys;
    NothingMerged(events);
    assert values.Keys - left == {};
    while left != {}
      invariant left <= values.Keys && Merged(total.Value(), events, values.Keys - left)
      decreases |left|
    {
      var x :| x in left;
      MergeOne(total, values, x, events, values.Keys - left);
      assert values.Keys - (left - {x}) == values.Keys - left + {x};
      left := left - {x};
    }
    assert values.Keys - left == values.Keys;
  }

  lemma {:induction false} NothingSeen(events: seq<Event>, exchange: string)
    requires forall i | 0 <= i < |events| :: events[i].exchange != exchange
    ensures Seen(events, exchange) == EMPTY
  {
    if events != [] {
      NothingSeen(events[..|events| - 1], exchange);
    }
  }

  lemma SeenMore(events: seq<Event>, e: Event, x: string)
    ensures Seen(events + [e], x) == if x == e.exchange then Recorded(Seen(events, x), e) else Seen(events, x)
  {
    assert (events + [e])[..|events|] == events;
  }

  /** Every attempt is a success or an error, with one latency each, and every error has its code. */
  lemma {:induction false} AttemptsAddUp(events: seq<Event>)
    ensures var t := Single(events);
      && t.attempts == t.successes + t.errors == |events|
      && |t.all| == t.attempts && |t.ofSuccesses| == t.successes && |t.ofErrors| == t.errors == |t.errorCodes|
      && multiset(t.all) == multiset(t.ofSuccesses) + multiset(t.ofErrors)
  {
    if events != [] {
      AttemptsAddUp(events[..|events| - 1]);
    }
  }

  lemma MergedAddsUp(t: Totals, events: seq<Event>)
    requires Unordered(t) == Unordered(Single(events))
    ensures t.attempts == t.successes + t.errors == |events|
    ensures multiset(t.all) == multiset(t.ofSuccesses) + multiset(t.ofErrors)
  {
    AttemptsAddUp(events);
  }

  // Percentiles

  ghost predicate Sorted(s: seq<real>) {
    forall i, j | 0 <= i <= j < |s| :: s[i] <= s[j]
  }

  function Insert(s: seq<real>, x: real): (r: seq<real>)
    ensures multiset(r) == multiset(s) + multiset{x}
  {
    if s == [] || x <= s[0] then [x] + s
    else
      assert s == [s[0]] + s[1..];
      [s[0]] + Insert(s[1..], x)
  }

  /** `sorted(values)`. */
  function Ordered(values: seq<real>): (r: seq<real>)
    ensures multiset(r) == multiset(values) && |r| == |values|
  {
    if values == [] then []
    else
      var n := |values| - 1;
      assert values == values[..n] + [values[n]];
      var r := Insert(Ordered(values[..n]), values[n]);
      assert |multiset(r)| == |multiset(values)|;
      r
  }

  lemma {:induction false} InsertKeepsOrder(s: seq<real>, x: real)
    requires Sorted(s)
    ensures Sorted(Insert(s, x))
  {
    if s != [] && x > s[0] {
      InsertKeepsOrder(s[1..], x);
      var rest := Insert(s[1..], x);
      forall j | 0 <= j < |rest| ensures s[0] <= rest[j] {
        assert rest[j] in multiset(rest);
        assert rest[j] == x || rest[j] in s[1..];
      }
    }
  }

  lemma {:induction false} OrderedIsSorted(values: seq<real>)
    ensures Sorted(Ordered(values))
  {
    if values != [] {
      OrderedIsSorted(values[..|values| - 1]);
      InsertKeepsOrder(Ordered(values[..|values| - 1]), values[|values| - 1]);
    }
  }

  /** There is only one way to sort. */
  lemma {:induction false} SortedIsUnique(a: seq<real>, b: seq<real>)
    requires Sorted(a) && Sorted(b) && multiset(a) == multiset(b)
    ensures a == b
  {
    assert |a| == |multiset(a)| == |multiset(b)| == |b|;
    if a != [] {
      SameSmallest(a, b);
      SortedIsUnique(a[1..], b[1..]);
    }
  }

  lemma SmallestFirst(a: seq<real>, x: real)
    requires Sorted(a) && x in multiset(a)
    ensures a[0] <= x
  {
    var i :| 0 <= i < |a| && a[i] == x;
  }

  lemma WithoutFirst(a: seq<real>)
    requires a != []
    ensures multiset(a[1..]) == multiset(a) - multiset{a[0]}
  {
    assert a == [a[0]] + a[1..];
  }

  lemma SameSmallest(a: seq<real>, b: seq<real>)
    requires Sorted(a) && Sorted(b) && multiset(a) == multiset(b) && a != [] && b != []
    ensures a[0] == b[0] && multiset(a[1..]) == multiset(b[1..])
  {
    SmallestFirst(a, b[0]);
    SmallestFirst(b, a[0]);
    WithoutFirst(a);
    WithoutFirst(b);
  }

  function Mix(low: real, high: real, weight: real): real {
    low + (high - low) * weight
  }

  /** The value at a fractional rank, between its two neighbours. */
  function Interpolated(ordered: seq<real>, rank: real): real
    requires |ordered| > 0 && 0.0 <= rank <= (|ordered| - 1) as real
  {
    var lower := rank.Floor;
    var upper := if lower + 1 < |ordered| - 1 then lower + 1 else |ordered| - 1;
    Mix(ordered[lower], ordered[upper], rank - lower as real)
  }

  /** The point on the straight line from the k-th sample to the next. */
  ghost function OnLine(ordered: seq<real>, k: nat, weight: real): real
    requires k < |ordered| && (weight > 0.0 ==> k + 1 < |ordered|)
  {
    if weight > 0.0 then ordered[k] + weight * (ordered[k + 1] - ordered[k]) else ordered[k]
  }

  /** At a whole rank it is the sample of that rank, and from there to the next it moves in a straight line. */
  lemma InterpolatesLinearly(ordered: seq<real>, k: nat, weight: real)
    requires k < |ordered| && 0.0 <= weight < 1.0 && (weight > 0.0 ==> k + 1 < |ordered|)
    ensures 0.0 <= k as real + weight <= (|ordered| - 1) as real
    ensures Interpolated(ordered, k as real + weight) == OnLine(ordered, k, weight)
  {
    assert (k as real + weight).Floor == k;
    if weight == 0.0 {
      MixOfNothing(ordered[k], ordered[if k + 1 < |ordered| - 1 then k + 1 else |ordered| - 1]);
    }
  }

  lemma MixOfNothing(low: real, high: real)
    ensures Mix(low, high, 0.0) == low
  {}

  function Rank(n: nat, percentile: real): (rank: real)
    requires n > 0 && 0.0 <= percentile <= 1.0
    ensures 0.0 <= rank <= (n - 1) as real
  {
    RankFits((n - 1) as real, percentile);
    (n - 1) as real * percentile
  }

  lemma RankFits(last: real, percentile: real)
    requires last >= 0.0 && 0.0 <= percentile <= 1.0
    ensures 0.0 <= last * percentile <= last
  {}

  function Percentile(values: seq<real>, percentile: real): Option<real>
    requires 0.0 <= percentile <= 1.0
  {
    if values == [] then None
    else if |values| == 1 then Some(values[0])
    else Some(Interpolated(Ordered(values), Rank(|values|, percentile)))
  }

  lemma RankOfOne(percentile: real)
    requires 0.0 <= percentile <= 1.0
    ensures Rank(1, percentile) == 0.0
  {
    RankFits(0.0, percentile);
  }

  lemma InterpolatedOfOne(ordered: seq<real>)
    requires |ordered| == 1
    ensures Interpolated(ordered, 0.0) == ordered[0]
  {
    assert (0.0).Floor == 0;
    assert Mix(ordered[0], ordered[0], 0.0) == ordered[0];
  }

  lemma OrderedOfOne(values: seq<real>)
    requires |values| == 1
    ensures Ordered(values)[0] == values[0]
  {
    assert Ordered(values)[0] in multiset(Ordered(values));
    assert Ordered(values)[0] in multiset(values);
  }

  /** The short cut for a single sample is the interpolation at its only rank. */
  lemma PercentileIsInterpolated(values: seq<real>, percentile: real)
    requires values != [] && 0.0 <= percentile <= 1.0
    ensures Percentile(values, percentile) == Some(Interpolated(Ordered(values), Rank(|values|, percentile)))
  {
    if |values| == 1 {
      RankOfOne(percentile);
      InterpolatedOfOne(Ordered(values));
      OrderedOfOne(values);
    }
  }

  /** The percentile that falls between two samples of the ordered list, or on one of them. */
  lemma PercentileFallsBetween(values: seq<real>, percentile: real, k: nat, weight: real)
    requires k < |values| && 0.0 <= weight < 1.0 && (weight > 0.0 ==> k + 1 < |values|)
    requires 0.0 <= percentile <= 1.0 && (|values| - 1) as real * percentile == k as real + weight
    ensures Percentile(values, percentile) == Some(OnLine(Ordered(values), k, weight))
  {
    RankIs(|values|, percentile, k as real + weight);
    PercentileAtRank(values, percentile, k, weight);
  }

  lemma RankIs(n: nat, percentile: real, rank: real)
    requires n > 0 && 0.0 <= percentile <= 1.0 && (n - 1) as real * percentile == rank
    ensures Rank(n, percentile) == rank
  {}

  lemma PercentileAtRank(values: seq<real>, percentile: real, k: nat, weight: real)
    requires k < |values| && 0.0 <= weight < 1.0 && (weight > 0.0 ==> k + 1 < |values|)
    requires 0.0 <= percentile <= 1.0 && Rank(|values|, percentile) == k as real + weight
    ensures Percentile(values, percentile) == Some(OnLine(Ordered(values), k, weight))
  {
    PercentileIsInterpolated(values, percentile);
    LinearAtRank(Ordered(values), Rank(|values|, percentile), k, weight);
  }

  lemma LinearAtRank(ordered: seq<real>, rank: real, k: nat, weight: real)
    requires k < |ordered| && 0.0 <= weight < 1.0 && (weight > 0.0 ==> k + 1 < |ordered|)
    requires rank == k as real + weight && 0.0 <= rank <= (|ordered| - 1) as real
    ensures Interpolated(ordered, rank) == OnLine(ordered, k, weight)
  {
    InterpolatesLinearly(ordered, k, weight);
  }

  /** The median of an odd number of samples is the one in the middle. */
  lemma MedianOfOdd(values: seq<real>, m: nat)
    requires |values| == 2 * m + 1
    ensures Percentile(values, 0.5) == Some(Ordered(values)[m])
  {
    PercentileFallsBetween(values, 0.5, m, 0.0);
  }

  lemma Between(low: real, high: real, weight: real)
    requires low <= high && 0.0 <= weight <= 1.0
    ensures low <= Mix(low, high, weight) <= high
  {
    var gap := high - low;
    RankFits(gap, weight);
    assert Mix(low, high, weight) == low + gap * weight;
  }

  lemma BetweenGrows(low: real, high: real, w1: real, w2: real)
    requires low <= high && w1 <= w2
    ensures Mix(low, high, w1) <= Mix(low, high, w2)
  {
    ProductGrows(high - low, w1, w2);
  }

  lemma InterpolatedBetween(ordered: seq<real>, rank: real)
    requires |ordered| > 0 && 0.0 <= rank <= (|ordered| - 1) as real && Sorted(ordered)
    ensures ordered[rank.Floor] <= Interpolated(ordered, rank) <= ordered[|ordered| - 1]
    ensures rank.Floor + 1 < |ordered| ==> Interpolated(ordered, rank) <= ordered[rank.Floor + 1]
  {
    var lower := rank.Floor;
    var upper := if lower + 1 < |ordered| - 1 then lower + 1 else |ordered| - 1;
    FloorFits(rank);
    assert ordered[lower] <= ordered[upper] <= ordered[|ordered| - 1];
    Between(ordered[lower], ordered[upper], rank - lower as real);
  }

  lemma FloorFits(rank: real)
    ensures 0.0 <= rank - rank.Floor as real <= 1.0
  {}

  lemma InterpolatedGrows(ordered: seq<real>, r1: real, r2: real)
    requires |ordered| > 0 && 0.0 <= r1 <= r2 <= (|ordered| - 1) as real && Sorted(ordered)
    ensures Interpolated(ordered, r1) <= Interpolated(ordered, r2)
  {
    var lower := r1.Floor;
    if lower == r2.Floor {
      var upper := if lower + 1 < |ordered| - 1 then lower + 1 else |ordered| - 1;
      BetweenGrows(ordered[lower], ordered[upper], r1 - lower as real, r2 - lower as real);
    } else {
      InterpolatedBetween(ordered, r1);
      InterpolatedBetween(ordered, r2);
    }
  }

  lemma RankGrows(n: nat, p1: real, p2: real)
    requires n > 0 && 0.0 <= p1 <= p2 <= 1.0
    ensures Rank(n, p1) <= Rank(n, p2)
  {
    ProductGrows((n - 1) as real, p1, p2);
  }

  lemma ProductGrows(x: real, p1: real, p2: real)
    requires x >= 0.0 && p1 <= p2
    ensures x * p1 <= x * p2
  {}

  /** A higher percentile is never a smaller value. */
  lemma PercentilesGrow(values: seq<real>, p1: real, p2: real)
    requires values != [] && 0.0 <= p1 <= p2 <= 1.0
    ensures Percentile(values, p1).value <= Percentile(values, p2).value
  {
    PercentileIsInterpolated(values, p1);
    PercentileIsInterpolated(values, p2);
    OrderedIsSorted(values);
    RankGrows(|values|, p1, p2);
    InterpolatedGrows(Ordered(values), Rank(|values|, p1), Rank(|values|, p2));
  }

  lemma MiddleNeverAboveTail(values: seq<real>)
    requires values != []
    ensures Percentile(values, 0.50).value <= Percentile(values, 0.95).value <= Percentile(values, 0.99).value
  {
    PercentilesGrow(values, 0.50, 0.95);
    PercentilesGrow(values, 0.95, 0.99);
  }

  /** Percentiles do not depend on the order of the samples. */
  lemma PercentileIgnoresOrder(a: seq<real>, b: seq<real>, percentile: real)
    requires multiset(a) == multiset(b) && 0.0 <= percentile <= 1.0
    ensures Percentile(a, percentile) == Percentile(b, percentile)
  {
    assert |a| == |multiset(a)| == |multiset(b)| == |b|;
    OrderedIsSorted(a);
    OrderedIsSorted(b);
    SortedIsUnique(Ordered(a), Ordered(b));
    if a != [] {
      PercentileIsInterpolated(a, percentile);
      PercentileIsInterpolated(b, percentile);
    }
  }

  lemma SortedEnds(ordered: seq<real>, rank: real)
    requires |ordered| > 0 && 0.0 <= rank <= (|ordered| - 1) as real && Sorted(ordered)
    ensures ordered[0] <= Interpolated(ordered, rank) <= ordered[|ordered| - 1]
    ensures Interpolated(ordered, 0.0) == ordered[0]
    ensures Interpolated(ordered, (|ordered| - 1) as real) == ordered[|ordered| - 1]
  {
    InterpolatedBetween(ordered, rank);
  }

  /** Percentiles lie between the smallest and the largest sample, and reach them at 0 and at 1. */
  lemma PercentileWithinSamples(values: seq<real>, percentile: real)
    requires values != [] && 0.0 <= percentile <= 1.0
    ensures Percentile(values, 0.0).value in values && Percentile(values, 1.0).value in values
    ensures forall x :: x in values ==> Percentile(values, 0.0).value <= x <= Percentile(values, 1.0).value
    ensures Percentile(values, 0.0).value <= Percentile(values, percentile).value <= Percentile(values, 1.0).value
  {
    var ordered := Ordered(values);
    OrderedIsSorted(values);
    PercentileIsInterpolated(values, 0.0);
    PercentileIsInterpolated(values, 1.0);
    PercentilesGrow(values, 0.0, percentile);
    PercentilesGrow(values, percentile, 1.0);
    SortedEnds(ordered, 0.0);
    assert ordered[0] in multiset(values) && ordered[|ordered| - 1] in multiset(values);
    forall x | x in values ensures ordered[0] <= x <= ordered[|ordered| - 1] {
      assert x in multiset(ordered);
    }
  }

  /** The merged percentiles are those of all the samples recorded, at whatever exchange. */
  lemma MergedPercentiles(t: Totals, events: seq<Event>, percentile: real)
    requires Unordered(t) == Unordered(Single(events)) && 0.0 <= percentile <= 1.0
    ensures Percentile(t.all, percentile) == Percentile(Single(events).all, percentile)
    ensures Percentile(t.ofSuccesses, percentile) == Percentile(Single(events).ofSuccesses, percentile)
    ensures Percentile(t.ofErrors, percentile) == Percentile(Single(events).ofErrors, percentile)
  {
    PercentileIgnoresOrder(t.all, Single(events).all, percentile);
    PercentileIgnoresOrder(t.ofSuccesses, Single(events).ofSuccesses, percentile);
    PercentileIgnoresOrder(t.ofErrors, Single(events).ofErrors, percentile);
  }
}
