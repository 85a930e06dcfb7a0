/** The records the recovery runtime reads and writes: traces, evaluations, orders and intents. */
module RecoveryModel {
  import opened Text

  // Microseconds since the epoch.
  type Instant = int

  const MICROS_PER_SECOND := 1_000_000

  /** `max(0, int((now - then).total_seconds()))`: whole seconds, truncated, never negative. */
  function AgeSeconds(now: Instant, then_: Instant): (age: nat)
    ensures now <= then_ ==> age == 0
    ensures now > then_ ==> age * MICROS_PER_SECOND <= now - then_ < (age + 1) * MICROS_PER_SECOND
  {
    if now <= then_ then 0 else (now - then_) / MICROS_PER_SECOND
  }

  /** A stored field as a guard sees it: key missing, JSON null, present but unusable, or parsed. */
  datatype Raw<+T> = Absent | Null | Malformed | Value(value: T)

  // A bool, an int, or a text that spells an int; the guards and the endpoints tell them apart.
  datatype Number = Bool(flag: bool) | Int(n: int) | Spelled(n: int)

  function ParseInt(raw: Raw<Number>): Option<int> {
    match raw
    case Value(Int(n)) => Some(n)
    case Value(Spelled(n)) => Some(n)
    case Value(Bool(flag)) => Some(if flag then 1 else 0)
    case _ => None
  }

  function ParseIntOrZero(raw: Raw<Number>): int {
    match ParseInt(raw)
    case Some(n) => n
    case None => 0
  }

  /** How the endpoint that records a reconciliation reads a stored count: anything but an int is zero. */
  function StoredInt(raw: Raw<Number>): int {
    match raw
    case Value(Int(n)) => n
    case _ => 0
  }

  /** What the runtime reads of a stored count, and where the endpoint that records a result reads otherwise. */
  lemma CountsAreRead(raw: Raw<Number>, n: int)
    ensures ParseInt(raw) == Some(n) <==>
            || raw in {Value(Int(n)), Value(Spelled(n))}
            || (raw == Value(Bool(true)) && n == 1) || (raw == Value(Bool(false)) && n == 0)
    ensures ParseInt(raw).None? ==> ParseIntOrZero(raw) == 0
    ensures ParseInt(raw) == Some(n) ==> ParseIntOrZero(raw) == n
    ensures raw == Value(Int(n)) ==> StoredInt(raw) == n
    ensures !(raw.Value? && raw.value.Int?) ==> StoredInt(raw) == 0
  {}

  function ParseDecimal(raw: Raw<real>): Option<real> {
    if raw.Value? then Some(raw.value) else None
  }

  datatype TraceStatus = Active | HandoffRequired | Resolved | Cancelled | OtherStatus(text: string)
  {
    predicate Blocking() { Active? || HandoffRequired? }
    predicate Terminal() { Resolved? || Cancelled? }
  }

  datatype Lifecycle =
    | Blank | EntrySubmitting | EntryOpen | HedgeBalanced | UnwindInProgress
    | RecoveryRequired | ManualHandoff | Closed | OtherLifecycle(text: string)

  datatype Verdict = VerdictAbsent | VerdictBlank | Matched | Mismatch | OtherVerdict(text: string)

  datatype Source = SourceBlank | AutoPrivateConnectors | OtherSource(text: string)

  // One entry of an evidence list; a field that is not a string, or not a finite decimal, is None.
  datatype IdItem = NotText | IdText(text: string)
  datatype StatusItem = NotStatusRow | StatusRow(orderId: Option<string>, status: Option<string>)
  datatype BalanceItem =
    | NotBalanceRow
    | BalanceRow(exchange: Option<string>, asset: Option<string>, free: Option<real>, locked: Option<real>)

  /** The `reconciliation_*` fields of a trace. `otherKeys`: some further key with that prefix is there. */
  datatype Reconciliation = Reconciliation(
    verdict: Verdict,
    source: Option<Source>,
    openOrderCount: Raw<Number>,
    residual: Raw<real>,
    observedAt: Raw<Instant>,
    attemptCount: Raw<Number>,
    matchedCount: Raw<Number>,
    mismatchCount: Raw<Number>,
    mismatchStreak: Raw<Number>,
    orderIds: Raw<seq<IdItem>>,
    fillIds: Raw<seq<IdItem>>,
    orderStatuses: Raw<seq<StatusItem>>,
    balances: Raw<seq<BalanceItem>>,
    otherKeys: bool)

  // No field with the `reconciliation_` prefix at all.
  const NO_RECONCILIATION := Reconciliation(
    VerdictAbsent, None, Absent, Absent, Absent, Absent, Absent, Absent, Absent, Absent, Absent, Absent, Absent, false)

  datatype ResolutionReason = MatchedZeroResidual | NoActiveOrdersAndZeroResidual

  datatype HandoffReason =
    | ResultInvalid | ObservationMissing | ObservationStale | EvidenceInvalid | EvidenceMissing
    | TerminalFailureStatusConflict | OpenOrderStatusConflict
    | ContextMissing | MarketContextMissing | BalanceEvidenceIncomplete | BalanceLocked
    | MismatchRepeated | OpenOrdersTerminalFailure | OpenOrdersTerminalStatusConflict
    | ZeroOpenOrdersStatusConflict | MismatchZeroResidualConflict | MismatchResidualWithoutOrders
    | UnwindOrderTerminal | UnwindOrderTimeout | RecoveryTimeoutExceeded

  datatype Trace = Trace(
    id: string,
    botId: string,
    runId: string,
    intentId: string,
    linkedUnwindActionId: string,
    linkedUnwindOrderId: string,
    status: TraceStatus,
    lifecycle: Lifecycle,
    manualHandoffRequired: bool,
    residualExposureQuote: Raw<real>,
    openedAt: Option<Instant>,
    createdAt: Option<Instant>,
    updatedAt: Instant,
    reconciliation: Reconciliation,
    resolutionReason: Option<ResolutionReason>,
    handoffReason: Option<HandoffReason>)

  datatype Evaluation = Evaluation(
    runId: string,
    botId: string,
    intentId: string,
    lifecycle: Lifecycle,
    recoveryTraceId: Option<string>,
    recoveryStatus: Option<TraceStatus>,
    recoveryLifecycle: Option<Lifecycle>)

  datatype Order = Order(
    orderId: string,
    botId: string,
    runId: string,
    intentId: string,
    exchangeName: string,
    exchangeOrderId: string,
    market: string,
    side: string,
    status: string,
    filledQty: Option<real>,
    requestedPrice: Option<real>,
    submittedAt: Option<Instant>,
    createdAt: Option<Instant>,
    updatedAt: Option<Instant>)

  datatype Intent = Intent(
    status: string,
    buyExchange: Option<string>,
    sellExchange: Option<string>,
    market: string)

  datatype Fill = Fill(fillId: string, botId: string, runId: string, intentId: string)

  /** What the control-plane store answers while one trace or evaluation is being handled. */
  datatype World = World(orders: seq<Order>, fills: seq<Fill>, intents: map<string, Intent>)

  datatype Policy = Policy(
    handoffAfterSeconds: nat,
    submitTimeoutSeconds: nat,
    mismatchHandoffCount: nat,
    staleAfterSeconds: nat)

  // The clamps of the constructor: at least 1 everywhere but for the handoff window.
  ghost predicate ValidPolicy(p: Policy) {
    p.submitTimeoutSeconds >= 1 && p.mismatchHandoffCount >= 1 && p.staleAfterSeconds >= 1
  }

  const TERMINAL_INTENT_STATUSES: set<string> :=
    {"filled", "closed", "simulated", "cancelled", "expired", "rejected"}

  function Normalised(text: string): string {
    Lower(Strip(text))
  }

  /** The order statuses the recovery runtime knows. */
  datatype OrderStatus =
    | OrderNew | OrderSubmitted | OrderPartiallyFilled
    | OrderFilled | OrderCancelled | OrderRejected | OrderExpired | OrderFailed
  {
    predicate Failure() { OrderCancelled? || OrderRejected? || OrderExpired? || OrderFailed? }
    predicate Terminal() { OrderFilled? || Failure() }
  }

  function KnownStatus(normalised: string): Option<OrderStatus> {
    if normalised == "new" then Some(OrderNew)
    else if normalised == "submitted" then Some(OrderSubmitted)
    else if normalised == "partially_filled" then Some(OrderPartiallyFilled)
    else if normalised == "filled" then Some(OrderFilled)
    else if normalised == "cancelled" then Some(OrderCancelled)
    else if normalised == "rejected" then Some(OrderRejected)
    else if normalised == "expired" then Some(OrderExpired)
    else if normalised == "failed" then Some(OrderFailed)
    else None
  }

  /** The status a raw text spells, if it spells a known one. */
  function ReadStatus(text: string): Option<OrderStatus> {
    KnownStatus(Normalised(text))
  }

  predicate SpellsTerminal(text: string) {
    var status := ReadStatus(text);
    status.Some? && status.value.Terminal()
  }

  predicate SpellsFailure(text: string) {
    var status := ReadStatus(text);
    status.Some? && status.value.Failure()
  }

  predicate IsTerminalOrder(o: Order) {
    SpellsTerminal(o.status)
  }

  lemma FailureIsSpelled(text: string)
    ensures SpellsFailure(text) <==> Normalised(text) in {"cancelled", "rejected", "expired", "failed"}
  {}

  lemma TerminalIsSpelled(text: string)
    ensures SpellsTerminal(text) <==> Normalised(text) in {"filled", "cancelled", "rejected", "expired", "failed"}
  {}

  lemma StatusIsSpelled(text: string)
    ensures ReadStatus(text).Some? <==>
            SpellsTerminal(text) || Normalised(text) in {"new", "submitted", "partially_filled"}
  {}

  /** The two assets a market text names, or nothing: split at '-' first, then at '/'. */
  function MarketAssets(market: string): set<string> {
    var text := Upper(Strip(market));
    var dashed := NonBlankParts(Split(text, '-'));
    var slashed := NonBlankParts(Split(text, '/'));
    if |dashed| == 2 then {dashed[0], dashed[1]}
    else if |slashed| == 2 then {slashed[0], slashed[1]}
    else {}
  }

  predicate AssetName(s: string) {
    s != "" && Stripped(s) && '-' !in s && '/' !in s
  }

  lemma TwoParts(left: string, separator: char, right: string)
    requires left != "" && Stripped(left) && right != "" && Stripped(right) && separator !in left && separator !in right
    ensures NonBlankParts(Split(left + [separator] + right, separator)) == [left, right]
  {
    SplitAt(left, separator, right);
    SplitPlain(left, separator);
    SplitPlain(right, separator);
    PartsJoined([left], [right]);
    PartOfOne(left);
    PartOfOne(right);
  }

  /** A market is its two assets with a dash or a slash between, in any letter case. */
  lemma MarketNamesTwoAssets(market: string, base: string, quote: string)
    requires AssetName(base) && AssetName(quote)
    requires Upper(Strip(market)) in {base + "-" + quote, base + "/" + quote}
    ensures MarketAssets(market) == {base, quote}
  {
    var text := Upper(Strip(market));
    TwoParts(base, if text == base + "-" + quote then '-' else '/', quote);
    if text != base + "-" + quote {
      SplitPlain(text, '-');
      PartOfOne(text);
    }
  }

  lemma ThreeParts(a: string, b: string, c: string)
    requires AssetName(a) && AssetName(b) && AssetName(c)
    ensures NonBlankParts(Split(a + "-" + b + "-" + c, '-')) == [a, b, c]
  {
    TwoParts(a, '-', b);
    SplitAt(a + "-" + b, '-', c);
    SplitPlain(c, '-');
    PartsJoined(Split(a + "-" + b, '-'), [c]);
    PartOfOne(c);
  }

  lemma OnePart(text: string, separator: char)
    requires separator !in text
    ensures |NonBlankParts(Split(text, separator))| <= 1
  {
    SplitPlain(text, separator);
    PartOfOne(text);
  }

  /** One name alone, or three, are no market. */
  lemma OtherMarketsNameNothing(market: string, a: string, b: string, c: string)
    requires AssetName(a) && AssetName(b) && AssetName(c)
    ensures Upper(Strip(market)) == a ==> MarketAssets(market) == {}
    ensures Upper(Strip(market)) == a + "-" + b + "-" + c ==> MarketAssets(market) == {}
  {
    var text := Upper(Strip(market));
    if text == a {
      OnePart(text, '-');
      OnePart(text, '/');
    } else if text == a + "-" + b + "-" + c {
      assert '/' !in text;
      OnePart(text, '/');
      ThreeParts(a, b, c);
    }
  }

  function Filter<T(!new)>(s: seq<T>, p: T -> bool): (r: seq<T>)
    ensures forall x :: x in r <==> x in s && p(x)
  {
    if s == [] then []
    else if p(s[0]) then [s[0]] + Filter(s[1..], p)
    else Filter(s[1..], p)
  }

  lemma FilterOfOne<T(!new)>(x: T, p: T -> bool)
    ensures Filter([x], p) == if p(x) then [x] else []
  {
    assert [x][1..] == [];
  }

  /** Filtering keeps the order and every repetition. */
  lemma {:induction false} FilterJoined<T(!new)>(first: seq<T>, second: seq<T>, p: T -> bool)
    ensures Filter(first + second, p) == Filter(first, p) + Filter(second, p)
  {
    if first == [] {
      assert first + second == second;
    } else {
      assert (first + second)[0] == first[0] && (first + second)[1..] == first[1..] + second;
      FilterJoined(first[1..], second, p);
    }
  }

  /** `list_orders` narrowed to the intent; a blank filter value filters nothing. */
  function RelatedOrders(w: World, botId: string, runId: string, intentId: string): seq<Order> {
    Filter(w.orders, (o: Order) =>
      (botId == "" || o.botId == botId) && (runId == "" || o.runId == runId) &&
      (intentId == "" || o.intentId == intentId))
  }

  function TraceIntentId(t: Trace): string {
    if t.linkedUnwindActionId != "" then t.linkedUnwindActionId else t.intentId
  }

  function TraceOrders(t: Trace, w: World): seq<Order> {
    RelatedOrders(w, t.botId, t.runId, TraceIntentId(t))
  }
}
