/** What a snapshot says of the related orders and of what their exchanges answered, order by order. */
module SnapshotMeaning {
  import opened Text
  import opened RecoveryModel
  import opened Evidence
  import opened Snapshot

  // One order and its answer

  /** The market the order is asked about in: its own, or the first one any related order names. */
  ghost function MarketOf(p: Poll, q: Polling): string {
    if p.order.market != "" then Upper(Strip(p.order.market)) else FirstMarket(q.polls)
  }

  /** The order is known to an exchange that can be asked, and the exchange answered with a status. */
  ghost predicate Heard(p: Poll, q: Polling) {
    && Strip(p.order.exchangeName) in q.connectors && Strip(p.order.exchangeOrderId) != ""
    && Strip(p.order.orderId) != ""
    && MarketOf(p, q) != "" && MarketOf(p, q) in p.answers && Strip(p.answers[MarketOf(p, q)].status) != ""
  }

  ghost function AnswerTo(p: Poll, q: Polling): StatusAnswer
    requires Heard(p, q)
  {
    p.answers[MarketOf(p, q)]
  }

  ghost predicate Ended(p: Poll, q: Polling)
    requires Heard(p, q)
  {
    Normalised(AnswerTo(p, q).status) in {"filled", "cancelled", "rejected", "expired", "failed"}
  }

  /** The side the order names, or the exchange if the order names none, in lower case. */
  ghost function SideText(p: Poll, q: Polling): string
    requires Heard(p, q)
  {
    Normalised(if p.order.side == "" then AnswerTo(p, q).side else p.order.side)
  }

  /** The quantity filled: what the exchange says, else what the order says, else nothing. */
  ghost function Quantity(p: Poll, q: Polling): real
    requires Heard(p, q)
  {
    match (AnswerTo(p, q).filledQty, p.order.filledQty)
    case (Some(answered), _) => answered
    case (None, Some(recorded)) => recorded
    case (None, None) => 0.0
  }

  /** What the order moves the net quantity by: a buy adds, a sell takes away. */
  ghost function Signed(p: Poll, q: Polling): real {
    if Heard(p, q) && SideText(p, q) == "buy" then Quantity(p, q)
    else if Heard(p, q) && SideText(p, q) == "sell" then -Quantity(p, q)
    else 0.0
  }

  ghost predicate NotZero(price: Option<real>) {
    price.Some? && price.value != 0.0
  }

  /** The price is the average the exchange names, else the limit it names, else the order's own limit. */
  ghost predicate PricedAt(p: Poll, q: Polling, price: real)
    requires Heard(p, q)
  {
    var average, limit, own := AnswerTo(p, q).avgFillPrice, AnswerTo(p, q).requestedPrice, p.order.requestedPrice;
    && price > 0.0
    && (|| average == Some(price)
        || (!NotZero(average) && limit == Some(price))
        || (!NotZero(average) && !NotZero(limit) && own == Some(price)))
  }

  lemma SidesAreSpelled(text: string)
    ensures SideOf(text) == Buy <==> Normalised(text) == "buy"
    ensures SideOf(text) == Sell <==> Normalised(text) == "sell"
  {}

  lemma BlankNormalised(text: string)
    ensures Normalised(text) == "" <==> Strip(text) == ""
  {
    assert |Normalised(text)| == |Strip(text)|;
  }

  ghost function ReaderOf(q: Polling): Poll -> Option<Reading> {
    Reader(q.connectors, FirstMarket(q.polls))
  }

  /** The reading says what the order and the answer say. */
  ghost predicate ReadsAs(r: Reading, p: Poll, q: Polling)
    requires Heard(p, q)
  {
    && r.orderId == Strip(p.order.orderId) && r.status == Normalised(AnswerTo(p, q).status)
    && (r.open <==> !Ended(p, q)) && r.filledQty == Quantity(p, q)
    && (r.side == Buy <==> SideText(p, q) == "buy") && (r.side == Sell <==> SideText(p, q) == "sell")
  }

  lemma MarketAsked(p: Poll, q: Polling)
    ensures AskedMarket(p.order, FirstMarket(q.polls)) == MarketOf(p, q)
  {}

  lemma HeardIsRead(p: Poll, q: Polling)
    ensures ReaderOf(q)(p).Some? <==> Heard(p, q)
  {
    MarketAsked(p, q);
    if MarketOf(p, q) in p.answers {
      BlankNormalised(p.answers[MarketOf(p, q)].status);
    }
  }

  lemma ReadingMeans(p: Poll, q: Polling)
    requires Heard(p, q)
    ensures ReaderOf(q)(p).Some? && ReadsAs(ReaderOf(q)(p).value, p, q)
  {
    MarketAsked(p, q);
    HeardIsRead(p, q);
    TerminalIsSpelled(AnswerTo(p, q).status);
    SidesAreSpelled(if p.order.side != "" then p.order.side else AnswerTo(p, q).side);
  }

  lemma PriceMeans(p: Poll, q: Polling, price: Price)
    requires Heard(p, q)
    ensures ReaderOf(q)(p).Some?
    ensures ReaderOf(q)(p).value.price == Some(price) <==> PricedAt(p, q, price)
  {
    MarketAsked(p, q);
    HeardIsRead(p, q);
  }

  // All orders together

  ghost function Net(polls: seq<Poll>, q: Polling): real {
    if polls == [] then 0.0 else Net(polls[..|polls| - 1], q) + Signed(polls[|polls| - 1], q)
  }

  ghost function StillOpenAmong(polls: seq<Poll>, q: Polling): nat {
    if polls == [] then 0
    else
      var last := polls[|polls| - 1];
      StillOpenAmong(polls[..|polls| - 1], q) + (if Heard(last, q) && !Ended(last, q) then 1 else 0)
  }

  lemma CollectLastOne(polls: seq<Poll>, q: Polling)
    requires polls != []
    ensures var n := |polls| - 1;
            var before := Collect(polls[..n], ReaderOf(q));
            Collect(polls, ReaderOf(q)) ==
              if Heard(polls[n], q) then before + [ReaderOf(q)(polls[n]).value] else before
  {
    HeardIsRead(polls[|polls| - 1], q);
  }

  lemma {:induction false} FoldsMean(polls: seq<Poll>, q: Polling)
    ensures var readings := Collect(polls, ReaderOf(q));
      && Filled(Buy, readings) - Filled(Sell, readings) == Net(polls, q)
      && OpenCount(readings) == StillOpenAmong(polls, q)
  {
    if polls != [] {
      var n := |polls| - 1;
      FoldsMean(polls[..n], q);
      CollectLastOne(polls, q);
      if Heard(polls[n], q) {
        ReadingMeans(polls[n], q);
        FoldStep(Collect(polls[..n], ReaderOf(q)), ReaderOf(q)(polls[n]).value);
      }
    }
  }

  /** The last answered order that has a price has this one. */
  ghost predicate LastPricedAt(polls: seq<Poll>, q: Polling, price: real) {
    polls != [] &&
    var last := polls[|polls| - 1];
    if Heard(last, q) && exists x :: PricedAt(last, q, x) then PricedAt(last, q, price)
    else LastPricedAt(polls[..|polls| - 1], q, price)
  }

  ghost predicate AnyPriced(q: Polling) {
    exists p, price :: p in q.polls && Heard(p, q) && PricedAt(p, q, price)
  }

  lemma ReadingIsPriced(p: Poll, q: Polling)
    requires Heard(p, q)
    ensures ReaderOf(q)(p).Some?
    ensures ReaderOf(q)(p).value.price.Some? <==> exists price :: PricedAt(p, q, price)
  {
    HeardIsRead(p, q);
    var read := ReaderOf(q)(p).value.price;
    if read.Some? {
      PriceMeans(p, q, read.value);
    }
    if price :| PricedAt(p, q, price) {
      PriceMeans(p, q, price);
    }
  }

  lemma {:induction false} LastPriceMeans(polls: seq<Poll>, q: Polling, price: Price)
    ensures LastPrice(Collect(polls, ReaderOf(q))) == Some(price) <==> LastPricedAt(polls, q, price)
  {
    if polls != [] {
      var n := |polls| - 1;
      LastPriceMeans(polls[..n], q, price);
      CollectLastOne(polls, q);
      if Heard(polls[n], q) {
        ReadingIsPriced(polls[n], q);
        PriceMeans(polls[n], q, price);
        FoldStep(Collect(polls[..n], ReaderOf(q)), ReaderOf(q)(polls[n]).value);
      }
    }
  }

  lemma HeardIsAnswered(q: Polling, p: Poll)
    requires p in q.polls && Heard(p, q)
    ensures ReaderOf(q)(p).Some? && ReaderOf(q)(p).value in Answers(q)
  {
    HeardIsRead(p, q);
    CollectHas(q.polls, ReaderOf(q), p);
  }

  lemma PricesMean(q: Polling)
    ensures Priced(q) <==> AnyPriced(q)
  {
    if Priced(q) {
      var i :| 0 <= i < |Answers(q)| && Answers(q)[i].price.Some?;
      var k := Collected(q.polls, ReaderOf(q), i);
      HeardIsRead(q.polls[k], q);
      ReadingIsPriced(q.polls[k], q);
      assert q.polls[k] in q.polls;
    }
    if AnyPriced(q) {
      var p, price :| p in q.polls && Heard(p, q) && PricedAt(p, q, price);
      ReadingIsPriced(p, q);
      HeardIsAnswered(q, p);
    }
  }

  lemma EndsMean(q: Polling)
    ensures AllTerminal(q) <==> forall p :: p in q.polls && Heard(p, q) ==> Ended(p, q)
  {
    if AllTerminal(q) {
      forall p | p in q.polls && Heard(p, q) ensures Ended(p, q) {
        HeardIsAnswered(q, p);
        ReadingMeans(p, q);
      }
    } else {
      var i :| 0 <= i < |Answers(q)| && Answers(q)[i].open;
      var k := Collected(q.polls, ReaderOf(q), i);
      HeardIsRead(q.polls[k], q);
      ReadingMeans(q.polls[k], q);
      assert q.polls[k] in q.polls;
    }
  }

  // The snapshot

  ghost predicate Decidable(fallback: Option<real>, q: Polling) {
    Net(q.polls, q) == 0.0 || AnyPriced(q) || fallback.Some?
  }

  lemma ResidualKnown(net: real, price: Option<Price>, fallback: Option<real>)
    ensures Residual(net, price, fallback).Some? <==> net == 0.0 || price.Some? || fallback.Some?
  {}

  /** What a snapshot needs, with the net quantity given. */
  lemma TakenWhenKnown(fallback: Option<real>, q: Polling, net: real)
    requires net == Filled(Buy, Answers(q)) - Filled(Sell, Answers(q))
    ensures TakeSnapshot(fallback, q).Some? <==>
            q.connectors != {} && NamesAnExchange(q.polls) && Answers(q) != []
            && (net == 0.0 || Priced(q) || fallback.Some?)
  {
    JudgeIsGiven(fallback, Answers(q), q.fills, Balances(q), q.now);
    ResidualKnown(net, LastPrice(Answers(q)), fallback);
  }

  lemma SomeHeard(q: Polling)
    ensures Answers(q) != [] <==> exists p :: p in q.polls && Heard(p, q)
    ensures Answers(q) != [] ==> q.connectors != {}
  {
    if Answers(q) != [] {
      var k := Collected(q.polls, ReaderOf(q), 0);
      HeardIsRead(q.polls[k], q);
      assert q.polls[k] in q.polls;
    }
    if p :| p in q.polls && Heard(p, q) {
      HeardIsAnswered(q, p);
    }
  }

  /** A verdict is given when some order was answered, unless nothing tells what a net quantity is worth. */
  lemma VerdictIsGiven(fallback: Option<real>, q: Polling)
    ensures TakeSnapshot(fallback, q).Some? <==>
            && (exists p :: p in q.polls && Strip(p.order.exchangeName) != "")
            && (exists p :: p in q.polls && Heard(p, q))
            && Decidable(fallback, q)
  {
    FoldsMean(q.polls, q);
    PricesMean(q);
    SomeHeard(q);
    TakenWhenKnown(fallback, q, Net(q.polls, q));
  }

  lemma BalancedMeans(q: Polling)
    ensures Balanced(q) <==> Net(q.polls, q) == 0.0
  {
    FoldsMean(q.polls, q);
  }

  /**
   The verdict in terms of orders and answers: matched if and only if every order that was answered has ended and
   buys and sells cancel out, or nothing had a price and the trace has a zero residual recorded.
   */
  lemma VerdictMeans(fallback: Option<real>, q: Polling)
    requires TakeSnapshot(fallback, q).Some?
    ensures TakeSnapshot(fallback, q).value.matched <==>
            && (forall p :: p in q.polls && Heard(p, q) ==> Ended(p, q))
            && (Net(q.polls, q) == 0.0 || (!AnyPriced(q) && fallback == Some(0.0)))
  {
    BalancedMeans(q);
    PricesMean(q);
    EndsMean(q);
    VerdictIsConservation(fallback, q);
  }

  lemma OpenOrdersCounted(fallback: Option<real>, q: Polling)
    requires TakeSnapshot(fallback, q).Some?
    ensures TakeSnapshot(fallback, q).value.openOrderCount == StillOpenAmong(q.polls, q)
    ensures TakeSnapshot(fallback, q).value.observedAt == q.now
  {
    FoldsMean(q.polls, q);
    JudgeIsGiven(fallback, Answers(q), q.fills, Balances(q), q.now);
  }

  lemma AbsIs(x: real)
    ensures Abs(x) >= 0.0 && (Abs(x) == x || Abs(x) == -x)
  {}

  lemma ResidualOf(net: real, price: Option<Price>, fallback: Option<real>)
    ensures net == 0.0 ==> Residual(net, price, fallback) == Some(0.0)
    ensures net != 0.0 && price.Some? ==> Residual(net, price, fallback) == Some(Worth(net, price.value))
    ensures net != 0.0 && price.None? && fallback.Some? ==>
              Residual(net, price, fallback) == Some(Abs(fallback.value))
  {}

  lemma JudgedResidual(
    fallback: Option<real>, readings: seq<Reading>, fills: seq<Fill>, balances: seq<ObservedBalance>, now: Instant,
    net: real, residual: real)
    requires Judge(fallback, readings, fills, balances, now).Some?
    requires residual == Judge(fallback, readings, fills, balances, now).value.residual
    requires net == Filled(Buy, readings) - Filled(Sell, readings)
    ensures var price := LastPrice(readings);
      && (net == 0.0 ==> residual == 0.0)
      && (net != 0.0 && price.Some? ==> residual == Worth(net, price.value))
      && (net != 0.0 && price.None? && fallback.Some? ==> residual == Abs(fallback.value))
  {
    ResidualOf(net, LastPrice(readings), fallback);
  }

  lemma TakenIsJudged(fallback: Option<real>, q: Polling)
    requires TakeSnapshot(fallback, q).Some?
    ensures Judge(fallback, Answers(q), q.fills, Balances(q), q.now) == TakeSnapshot(fallback, q)
  {}

  /** The residual is what the net quantity is worth at the last price seen, or what the trace has recorded. */
  lemma ResidualIsPriced(fallback: Option<real>, q: Polling) returns (price: Option<Price>)
    requires TakeSnapshot(fallback, q).Some?
    ensures price.Some? <==> AnyPriced(q)
    ensures price.Some? ==> LastPricedAt(q.polls, q, price.value)
    ensures var net, residual := Net(q.polls, q), TakeSnapshot(fallback, q).value.residual;
      && (net == 0.0 ==> residual == 0.0)
      && (net != 0.0 && price.Some? ==> residual == Worth(net, price.value))
      && (net != 0.0 && price.None? && fallback.Some? ==> residual == Abs(fallback.value))
  {
    price := LastPriceOf(q);
    FoldsMean(q.polls, q);
    TakenIsJudged(fallback, q);
    JudgedResidual(fallback, Answers(q), q.fills, Balances(q), q.now,
                   Net(q.polls, q), TakeSnapshot(fallback, q).value.residual);
  }

  lemma LastPriceOf(q: Polling) returns (price: Option<Price>)
    ensures price == LastPrice(Answers(q)) && (price.Some? <==> AnyPriced(q))
    ensures price.Some? ==> LastPricedAt(q.polls, q, price.value)
  {
    price := LastPrice(Answers(q));
    PricesMean(q);
    if price.Some? {
      LastPriceMeans(q.polls, q, price.value);
    }
  }

  lemma NetOfTwo(q: Polling, a: Poll, b: Poll)
    ensures Net([a, b], q) == Signed(a, q) + Signed(b, q)
  {
    assert [a][..0] == [];
    assert Net([a], q) == Signed(a, q);
    assert [a, b][..1] == [a];
  }

  /** The two orders of a pair were answered. */
  ghost predicate PairHeard(q: Polling, a: Poll, b: Poll) {
    q.polls == [a, b] && Strip(a.order.exchangeName) != "" && Heard(a, q) && Heard(b, q)
  }

  lemma PairIsJudged(fallback: Option<real>, q: Polling, a: Poll, b: Poll)
    requires PairHeard(q, a, b) && Decidable(fallback, q)
    ensures TakeSnapshot(fallback, q).Some?
    ensures Net(q.polls, q) == Signed(a, q) + Signed(b, q)
  {
    NetOfTwo(q, a, b);
    assert a in q.polls;
    VerdictIsGiven(fallback, q);
  }

  lemma PairCancels(q: Polling, a: Poll, b: Poll)
    requires PairHeard(q, a, b)
    requires SideText(a, q) == "buy" && SideText(b, q) == "sell" && Quantity(a, q) == Quantity(b, q)
    ensures Net(q.polls, q) == 0.0
  {
    NetOfTwo(q, a, b);
  }

  /** Two ended orders, one bought and one sold in the same quantity, cancel out. */
  lemma HedgeIsMatched(fallback: Option<real>, q: Polling, a: Poll, b: Poll)
    requires PairHeard(q, a, b) && Ended(a, q) && Ended(b, q)
    requires SideText(a, q) == "buy" && SideText(b, q) == "sell" && Quantity(a, q) == Quantity(b, q)
    ensures TakeSnapshot(fallback, q).Some? && TakeSnapshot(fallback, q).value.matched
  {
    PairCancels(q, a, b);
    PairIsJudged(fallback, q, a, b);
    VerdictMeans(fallback, q);
  }

  /** Two of the same side do not. */
  lemma OneSidedIsNotMatched(fallback: Option<real>, q: Polling, a: Poll, b: Poll)
    requires PairHeard(q, a, b) && SideText(a, q) == SideText(b, q) && SideText(a, q) in {"buy", "sell"}
    requires Quantity(a, q) > 0.0 && Quantity(b, q) > 0.0 && exists price :: PricedAt(a, q, price)
    ensures TakeSnapshot(fallback, q).Some? && !TakeSnapshot(fallback, q).value.matched
  {
    assert a in q.polls;
    PairIsJudged(fallback, q, a, b);
    VerdictMeans(fallback, q);
  }

  // The evidence that is recorded

  ghost function IdHeard(q: Polling): Poll -> Option<string> {
    (p: Poll) => if Heard(p, q) then Some(Strip(p.order.orderId)) else None
  }

  ghost function StatusHeard(q: Polling): Poll -> Option<StatusItem> {
    (p: Poll) =>
      if !Heard(p, q) then None
      else Some(StatusRow(Some(Strip(p.order.orderId)), Some(Normalised(AnswerTo(p, q).status))))
  }

  lemma ListedOneMore(readings: seq<Reading>, r: Reading)
    ensures OrderIds(readings + [r]) == OrderIds(readings) + [r.orderId]
    ensures Statuses(readings + [r]) == Statuses(readings) + [StatusRow(Some(r.orderId), Some(r.status))]
  {}

  lemma {:induction false} ListsMean(polls: seq<Poll>, q: Polling)
    ensures OrderIds(Collect(polls, ReaderOf(q))) == Collect(polls, IdHeard(q))
    ensures Statuses(Collect(polls, ReaderOf(q))) == Collect(polls, StatusHeard(q))
  {
    if polls != [] {
      var n := |polls| - 1;
      ListsMean(polls[..n], q);
      CollectLastOne(polls, q);
      if Heard(polls[n], q) {
        ReadingMeans(polls[n], q);
        ListedOneMore(Collect(polls[..n], ReaderOf(q)), ReaderOf(q)(polls[n]).value);
      }
    }
  }

  lemma JudgeLists(
    fallback: Option<real>, readings: seq<Reading>, fills: seq<Fill>, balances: seq<ObservedBalance>, now: Instant)
    requires Judge(fallback, readings, fills, balances, now).Some?
    ensures var s := Judge(fallback, readings, fills, balances, now).value;
      && s.orderIds == OrderIds(readings) && s.statuses == Statuses(readings)
      && s.fillIds == FillIds(fills) && s.balances == balances
  {}

  /** What is recorded as evidence: the answered orders with their statuses, the fills, and the balances. */
  lemma EvidenceMeans(fallback: Option<real>, q: Polling)
    requires TakeSnapshot(fallback, q).Some?
    ensures var s := TakeSnapshot(fallback, q).value;
      && s.orderIds == Collect(q.polls, IdHeard(q)) && s.statuses == Collect(q.polls, StatusHeard(q))
      && (forall id :: id in s.fillIds <==> id != "" && exists f :: f in q.fills && Strip(f.fillId) == id)
      && FirstRows(s.balances, AllUsable(q.sheets, MarketAssets(FirstMarket(q.polls))))
  {
    JudgeLists(fallback, Answers(q), q.fills, Balances(q), q.now);
    TakenIsJudged(fallback, q);
    ListsMean(q.polls, q);
    FillsMean(q.fills);
    FirstBalancesKept(q.sheets, MarketAssets(FirstMarket(q.polls)));
  }

  lemma {:induction false} FillsMean(fills: seq<Fill>)
    ensures forall id :: id in FillIds(fills) <==> id != "" && exists f :: f in fills && Strip(f.fillId) == id
  {
    if fills != [] {
      var n := |fills| - 1;
      FillsMean(fills[..n]);
      FillsOneMore(fills[..n], fills[n]);
      assert fills == fills[..n] + [fills[n]];
    }
  }

  lemma FillsOneMore(fills: seq<Fill>, f: Fill)
    ensures FillIds(fills + [f]) == FillIds(fills) + (if Strip(f.fillId) == "" then [] else [Strip(f.fillId)])
  {
    var ids := seq(|fills|, i requires 0 <= i < |fills| => fills[i].fillId);
    assert seq(|fills| + 1, i requires 0 <= i < |fills| + 1 => (fills + [f])[i].fillId) == ids + [f.fillId];
    PartsJoined(ids, [f.fillId]);
    PartOfOne(f.fillId);
  }

  /** The balances that count: of a relevant asset, if any is, with two amounts that are not negative. */
  lemma UsableMeans(exchange: string, item: BalanceAnswer, assets: set<string>, row: ObservedBalance)
    ensures UsableRow(exchange, item, assets) == Some(row) <==>
            && item.Balance? && row.exchange == exchange && row.asset == Upper(Strip(item.asset))
            && (assets == {} || row.asset in assets)
            && item.free == Some(row.free) && item.locked == Some(row.locked)
            && row.free >= 0.0 && row.locked >= 0.0
  {}

  lemma UsableOneMore(exchange: string, items: seq<BalanceAnswer>, item: BalanceAnswer, assets: set<string>)
    ensures Usable(exchange, items + [item], assets) ==
            Usable(exchange, items, assets) + Singleton(UsableRow(exchange, item, assets))
  {
    assert (items + [item])[..|items|] == items;
  }

  // What is recorded is read back

  lemma IdsReadBack(ids: seq<string>)
    requires WellFormedIds(IdItems(ids)) && forall id :: id in ids ==> Stripped(id)
    ensures ObservedStringIds(Value(IdItems(ids))) == Some(ids)
  {
    var observed := ObservedStringIds(Value(IdItems(ids))).value;
    forall i | 0 <= i < |ids| ensures observed[i] == ids[i] {
      assert ids[i] in ids;
    }
    assert observed == ids;
  }

  lemma StatusesReadBack(readings: seq<Reading>)
    requires WellFormedStatuses(Statuses(readings)) && forall r :: r in readings ==> ReadRight(r)
    ensures var observed := ObservedOrderStatuses(Value(Statuses(readings)));
      && observed.Some? && |observed.value| == |readings|
      && forall i | 0 <= i < |readings| ::
           && observed.value[i].orderId == readings[i].orderId
           && Some(observed.value[i].status) == KnownStatus(readings[i].status)
  {
    forall i | 0 <= i < |readings|
      ensures var row := StatusOf(Statuses(readings)[i]);
              row.orderId == readings[i].orderId && Some(row.status) == KnownStatus(readings[i].status)
    {
      assert readings[i] in readings && WellFormedStatus(Statuses(readings)[i]);
    }
  }

  lemma BalancesReadBack(rows: seq<ObservedBalance>)
    requires BalancesPolled(rows) && WellFormedBalances(BalanceItems(rows))
    ensures ObservedBalances(Value(BalanceItems(rows))) == Some(rows)
  {
    var observed := ObservedBalances(Value(BalanceItems(rows))).value;
    forall i | 0 <= i < |rows| ensures observed[i] == rows[i] {
      assert WellFormedBalance(BalanceItems(rows)[i]);
    }
    assert observed == rows;
  }
}
