/**
 The automatic reconciliation snapshot: every related order is looked up at its exchange, and the
 answers are folded into an open-order count, a net base quantity and a residual.
 */
module Snapshot {
  import opened Text
  import opened RecoveryModel
  import opened Evidence

  datatype StatusAnswer = StatusAnswer(
    status: string,
    side: string,
    filledQty: Option<real>,
    avgFillPrice: Option<real>,
    requestedPrice: Option<real>)

  /** A related order, and what its exchange says of it when asked in a market; no entry is any answer but an ok one. */
  datatype Poll = Poll(order: Order, answers: map<string, StatusAnswer>)

  datatype BalanceAnswer = NotBalance | Balance(asset: string, free: Option<real>, locked: Option<real>)

  // The balance rows one exchange listed, in the order the exchanges were asked.
  datatype BalanceSheet = BalanceSheet(exchange: string, items: seq<BalanceAnswer>)

  datatype Polling = Polling(
    connectors: set<string>,
    polls: seq<Poll>,
    fills: seq<Fill>,
    sheets: seq<BalanceSheet>,
    now: Instant)

  datatype Snapshot = Snapshot(
    matched: bool,
    openOrderCount: nat,
    residual: real,
    observedAt: Instant,
    orderIds: seq<string>,
    fillIds: seq<string>,
    statuses: seq<StatusItem>,
    balances: seq<ObservedBalance>)

  // What one answered poll tells

  type Price = p: real | p > 0.0 witness 1.0

  datatype Side = Buy | Sell | NoSide

  datatype Reading = Reading(
    orderId: string,
    status: string,
    open: bool,
    side: Side,
    filledQty: real,
    price: Option<Price>)

  // Python's `or`: zero is as good as missing.
  function OrElse(a: Option<real>, b: Option<real>): Option<real> {
    if a.Some? && a.value != 0.0 then a else b
  }

  function SideOf(text: string): Side {
    if Normalised(text) == "buy" then Buy else if Normalised(text) == "sell" then Sell else NoSide
  }

  function Positive(price: Option<real>): Option<Price> {
    if price.Some? && price.value > 0.0 then Some(price.value) else None
  }

  /** The order is known to an exchange that can be asked. */
  predicate Pollable(o: Order, connectors: set<string>) {
    Strip(o.exchangeName) in connectors && Strip(o.exchangeOrderId) != "" && Strip(o.orderId) != ""
  }

  /** The market an exchange is asked about an order in. */
  function AskedMarket(o: Order, fallback: string): string {
    Upper(Strip(if o.market != "" then o.market else fallback))
  }

  function OwnMarket(o: Order): string {
    Upper(Strip(o.market))
  }

  /** The reading of one poll; None when the loop skips the order. */
  function Read(p: Poll, connectors: set<string>, market: string): (r: Option<Reading>)
    ensures r.Some? ==> r.value.orderId != "" && Stripped(r.value.orderId)
    ensures r.Some? ==> Normalised(r.value.status) == r.value.status
  {
    var orderMarket := AskedMarket(p.order, market);
    if !Pollable(p.order, connectors) || orderMarket == "" || orderMarket !in p.answers ||
       Normalised(p.answers[orderMarket].status) == ""
    then None
    else
      var answer := p.answers[orderMarket];
      NormalisedTwice(answer.status);
      Some(Reading(
        Strip(p.order.orderId),
        Normalised(answer.status),
        !SpellsTerminal(answer.status),
        SideOf(if p.order.side != "" then p.order.side else answer.side),
        match answer.filledQty {
          case Some(quantity) => quantity
          case None => (match p.order.filledQty case Some(quantity) => quantity case None => 0.0)
        },
        Positive(OrElse(answer.avgFillPrice, OrElse(answer.requestedPrice, p.order.requestedPrice)))))
  }

  /** The first market any of the orders names; it stands in for the market of orders without one. */
  function FirstMarket(polls: seq<Poll>): (market: string)
    ensures market == "" <==> forall p :: p in polls ==> OwnMarket(p.order) == ""
    ensures market != "" ==> exists p :: p in polls && OwnMarket(p.order) == market
    ensures Upper(Strip(market)) == market
  {
    if polls == [] then ""
    else if Strip(polls[0].order.market) != "" then
      assert polls[0] in polls;
      NormalisedTwice(polls[0].order.market);
      OwnMarket(polls[0].order)
    else FirstMarket(polls[1..])
  }

  function Singleton<U>(o: Option<U>): seq<U> {
    if o.Some? then [o.value] else []
  }

  /** What `f` yields over `s`, in order, leaving out the Nones. */
  function Collect<T, U>(s: seq<T>, f: T -> Option<U>): seq<U> {
    if s == [] then []
    else
      var n := |s| - 1;
      Collect(s[..n], f) + Singleton(f(s[n]))
  }

  lemma {:induction false} Collected<T, U>(s: seq<T>, f: T -> Option<U>, i: nat) returns (k: nat)
    requires i < |Collect(s, f)|
    ensures k < |s| && f(s[k]) == Some(Collect(s, f)[i])
  {
    var n := |s| - 1;
    if i < |Collect(s[..n], f)| {
      k := Collected(s[..n], f, i);
    } else {
      k := n;
    }
  }

  lemma {:induction false} CollectHas<T, U>(s: seq<T>, f: T -> Option<U>, x: T)
    requires x in s && f(x).Some?
    ensures f(x).value in Collect(s, f)
  {
    var n := |s| - 1;
    if x == s[n] {
      assert Collect(s, f)[|Collect(s[..n], f)|] == f(x).value;
    } else {
      assert s == s[..n] + [s[n]];
      CollectHas(s[..n], f, x);
    }
  }

  function Reader(connectors: set<string>, market: string): Poll -> Option<Reading> {
    (p: Poll) => Read(p, connectors, market)
  }

  // Folds over the readings

  /** Total quantity filled on one side of the book. */
  ghost function Filled(side: Side, readings: seq<Reading>): real {
    if readings == [] then 0.0
    else
      var n := |readings| - 1;
      Filled(side, readings[..n]) + (if readings[n].side == side then readings[n].filledQty else 0.0)
  }

  ghost function OpenCount(readings: seq<Reading>): (n: nat)
    ensures n == 0 <==> forall r :: r in readings ==> !r.open
  {
    if readings == [] then 0
    else
      var n := |readings| - 1;
      assert readings == readings[..n] + [readings[n]];
      OpenCount(readings[..n]) + (if readings[n].open then 1 else 0)
  }

  ghost function LastPrice(readings: seq<Reading>): (price: Option<Price>)
    ensures price.Some? <==> exists r :: r in readings && r.price.Some?
    ensures price.Some? ==> exists r :: r in readings && r.price == price
  {
    if readings == [] then None
    else
      var n := |readings| - 1;
      assert readings == readings[..n] + [readings[n]];
      assert readings[n] in readings;
      if readings[n].price.Some? then readings[n].price else LastPrice(readings[..n])
  }

  function Statuses(readings: seq<Reading>): seq<StatusItem> {
    seq(|readings|, i requires 0 <= i < |readings| => StatusRow(Some(readings[i].orderId), Some(readings[i].status)))
  }

  function OrderIds(readings: seq<Reading>): seq<string> {
    seq(|readings|, i requires 0 <= i < |readings| => readings[i].orderId)
  }

  /** The ids of the fills that have one, in order. */
  function FillIds(fills: seq<Fill>): seq<string> {
    NonBlankParts(seq(|fills|, i requires 0 <= i < |fills| => fills[i].fillId))
  }

  // Balances

  predicate HasKey(rows: seq<ObservedBalance>, exchange: string, asset: string) {
    exists b :: b in rows && b.exchange == exchange && b.asset == asset
  }

  /** What a listed balance amounts to; None when it is unusable or of no relevant asset. */
  function UsableRow(exchange: string, item: BalanceAnswer, assets: set<string>): Option<ObservedBalance> {
    if item.NotBalance? then None
    else
      var asset := Upper(Strip(item.asset));
      if (assets != {} && asset !in assets) || item.free.None? || item.locked.None?
        || item.free.value < 0.0 || item.locked.value < 0.0
      then None
      else Some(ObservedBalance(exchange, asset, item.free.value, item.locked.value))
  }

  /** `rows` with one more listed balance, unless it is unusable, irrelevant or seen already. */
  function AddBalance(rows: seq<ObservedBalance>, exchange: string, item: BalanceAnswer, assets: set<string>)
    : seq<ObservedBalance>
  {
    var row := UsableRow(exchange, item, assets);
    if row.None? || HasKey(rows, exchange, row.value.asset) then rows else rows + [row.value]
  }

  ghost function AddSheet(rows: seq<ObservedBalance>, exchange: string, items: seq<BalanceAnswer>, assets: set<string>)
    : seq<ObservedBalance>
  {
    if items == [] then rows
    else AddBalance(AddSheet(rows, exchange, items[..|items| - 1], assets), exchange, items[|items| - 1], assets)
  }

  ghost function AddSheets(sheets: seq<BalanceSheet>, assets: set<string>): seq<ObservedBalance> {
    if sheets == [] then []
    else
      var last := sheets[|sheets| - 1];
      AddSheet(AddSheets(sheets[..|sheets| - 1], assets), last.exchange, last.items, assets)
  }

  method CollectBalances(sheets: seq<BalanceSheet>, assets: set<string>) returns (rows: seq<ObservedBalance>)
    ensures rows == AddSheets(sheets, assets) && FirstRows(rows, AllUsable(sheets, assets))
  {
    FirstBalancesKept(sheets, assets);
    rows := [];
    var seen: set<(string, string)> := {};
    for k := 0 to |sheets|
      invariant rows == AddSheets(sheets[..k], assets)
      invariant forall e, a :: (e, a) in seen <==> HasKey(rows, e, a)
    {
      var exchange, items := sheets[k].exchange, sheets[k].items;
      ghost var before := rows;
      for i := 0 to |items|
        invariant rows == AddSheet(before, exchange, items[..i], assets)
        invariant forall e, a :: (e, a) in seen <==> HasKey(rows, e, a)
      {
        assert items[..i + 1][..i] == items[..i];
        if items[i].NotBalance? { continue; }
        var asset := Upper(Strip(items[i].asset));
        if assets != {} && asset !in assets { continue; }
        var free, locked := items[i].free, items[i].locked;
        if free.None? || locked.None? || free.value < 0.0 || locked.value < 0.0 { continue; }
        if (exchange, asset) in seen { continue; }
        seen := seen + {(exchange, asset)};
        ghost var was := rows;
        rows := rows + [ObservedBalance(exchange, asset, free.value, locked.value)];
        assert rows[|rows| - 1] == ObservedBalance(exchange, asset, free.value, locked.value);
        assert forall e, a :: HasKey(rows, e, a) <==> HasKey(was, e, a) || (e == exchange && a == asset);
      }
      assert items[..|items|] == items;
      assert sheets[..k + 1][..k] == sheets[..k];
    }
    assert sheets[..|sheets|] == sheets;
  }

  /** All usable balances in the order they were listed, repeated keys included. */
  ghost function Usable(exchange: string, items: seq<BalanceAnswer>, assets: set<string>): seq<ObservedBalance> {
    if items == [] then []
    else
      var n := |items| - 1;
      Usable(exchange, items[..n], assets) + Singleton(UsableRow(exchange, items[n], assets))
  }

  ghost function AllUsable(sheets: seq<BalanceSheet>, assets: set<string>): seq<ObservedBalance> {
    if sheets == [] then []
    else
      var last := sheets[|sheets| - 1];
      AllUsable(sheets[..|sheets| - 1], assets) + Usable(last.exchange, last.items, assets)
  }

  ghost predicate FirstOfItsKey(listed: seq<ObservedBalance>, i: nat)
    requires i < |listed|
  {
    forall j | 0 <= j < i :: !SameKey(listed[j], listed[i])
  }

  /** `b` is listed as the first of its key at some index. */
  ghost predicate ListedFirst(listed: seq<ObservedBalance>, b: ObservedBalance) {
    exists i :: 0 <= i < |listed| && listed[i] == b && FirstOfItsKey(listed, i)
  }

  /** `rows` are the listed balances that are the first of their exchange and asset: all of them and no others. */
  ghost predicate FirstRows(rows: seq<ObservedBalance>, listed: seq<ObservedBalance>) {
    && (forall b :: b in rows <==> ListedFirst(listed, b))
    && (forall i, j | 0 <= i < j < |rows| :: !SameKey(rows[i], rows[j]))
  }

  lemma KeysKept(rows: seq<ObservedBalance>, listed: seq<ObservedBalance>, exchange: string, asset: string)
    requires FirstRows(rows, listed)
    ensures HasKey(rows, exchange, asset) <==> HasKey(listed, exchange, asset)
  {
    if HasKey(listed, exchange, asset) {
      var k := FirstListed(listed, exchange, asset);
      assert ListedFirst(listed, listed[k]);
    }
    if HasKey(rows, exchange, asset) {
      var b :| b in rows && b.exchange == exchange && b.asset == asset;
      assert ListedFirst(listed, b);
    }
  }

  lemma {:induction false} FirstListed(listed: seq<ObservedBalance>, exchange: string, asset: string) returns (k: nat)
    requires HasKey(listed, exchange, asset)
    ensures k < |listed| && listed[k].exchange == exchange && listed[k].asset == asset && FirstOfItsKey(listed, k)
  {
    var n := |listed| - 1;
    assert listed == listed[..n] + [listed[n]];
    if HasKey(listed[..n], exchange, asset) {
      k := FirstListed(listed[..n], exchange, asset);
    } else {
      k := n;
      forall j | 0 <= j < n ensures !SameKey(listed[j], listed[n]) {
        assert listed[j] in listed[..n];
      }
    }
  }

  lemma FirstStays(listed: seq<ObservedBalance>, b: ObservedBalance, i: nat)
    requires i < |listed|
    ensures FirstOfItsKey(listed + [b], i) <==> FirstOfItsKey(listed, i)
  {
    assert forall j | 0 <= j <= i :: (listed + [b])[j] == listed[j];
  }

  lemma NewKeyIsFirst(listed: seq<ObservedBalance>, b: ObservedBalance)
    ensures FirstOfItsKey(listed + [b], |listed|) <==> !HasKey(listed, b.exchange, b.asset)
  {
    var more := listed + [b];
    if HasKey(listed, b.exchange, b.asset) {
      var k := FirstListed(listed, b.exchange, b.asset);
      assert SameKey(more[k], more[|listed|]);
    } else {
      forall j | 0 <= j < |listed| ensures !SameKey(more[j], more[|listed|]) {
        assert listed[j] in listed;
      }
    }
  }

  lemma ListedFirstMore(listed: seq<ObservedBalance>, b: ObservedBalance, x: ObservedBalance)
    ensures ListedFirst(listed + [b], x) <==> ListedFirst(listed, x) || (x == b && !HasKey(listed, b.exchange, b.asset))
  {
    var more := listed + [b];
    NewKeyIsFirst(listed, b);
    if ListedFirst(more, x) {
      var i :| 0 <= i < |more| && more[i] == x && FirstOfItsKey(more, i);
      if i < |listed| {
        FirstStays(listed, b, i);
      }
    }
    if ListedFirst(listed, x) {
      var i :| 0 <= i < |listed| && listed[i] == x && FirstOfItsKey(listed, i);
      FirstStays(listed, b, i);
      assert more[i] == x;
    }
    if x == b && !HasKey(listed, b.exchange, b.asset) {
      assert more[|listed|] == x;
    }
  }

  lemma FirstRowsMore(rows: seq<ObservedBalance>, listed: seq<ObservedBalance>, b: ObservedBalance)
    requires FirstRows(rows, listed)
    ensures FirstRows(if HasKey(rows, b.exchange, b.asset) then rows else rows + [b], listed + [b])
  {
    KeysKept(rows, listed, b.exchange, b.asset);
    forall x ensures ListedFirst(listed + [b], x) <==>
                     ListedFirst(listed, x) || (x == b && !HasKey(listed, b.exchange, b.asset)) {
      ListedFirstMore(listed, b, x);
    }
    if !HasKey(rows, b.exchange, b.asset) {
      forall i | 0 <= i < |rows| ensures !SameKey(rows[i], b) {
        assert rows[i] in rows;
      }
    }
  }

  lemma {:induction false} AddSheetKeepsFirst(
    rows: seq<ObservedBalance>, listed: seq<ObservedBalance>, exchange: string, items: seq<BalanceAnswer>,
    assets: set<string>)
    requires FirstRows(rows, listed)
    ensures FirstRows(AddSheet(rows, exchange, items, assets), listed + Usable(exchange, items, assets))
  {
    if items == [] {
      assert listed + [] == listed;
    } else {
      var n := |items| - 1;
      var row := UsableRow(exchange, items[n], assets);
      var before := listed + Usable(exchange, items[..n], assets);
      AddSheetKeepsFirst(rows, listed, exchange, items[..n], assets);
      if row.Some? {
        FirstRowsMore(AddSheet(rows, exchange, items[..n], assets), before, row.value);
        assert before + [row.value] == listed + Usable(exchange, items, assets);
      } else {
        assert before == listed + Usable(exchange, items, assets);
      }
    }
  }

  /** Every usable balance is kept, once for each exchange and asset, and the one kept is the first listed. */
  lemma {:induction false} FirstBalancesKept(sheets: seq<BalanceSheet>, assets: set<string>)
    ensures FirstRows(AddSheets(sheets, assets), AllUsable(sheets, assets))
  {
    if sheets != [] {
      var n := |sheets| - 1;
      FirstBalancesKept(sheets[..n], assets);
      AddSheetKeepsFirst(
        AddSheets(sheets[..n], assets), AllUsable(sheets[..n], assets), sheets[n].exchange, sheets[n].items, assets);
    }
  }

  // The whole snapshot

  function Abs(x: real): real {
    if x < 0.0 then -x else x
  }

  /** What a net quantity is worth. */
  function Worth(net: real, price: Price): real {
    Abs(net) * price
  }

  ghost function Residual(net: real, price: Option<Price>, fallback: Option<real>): Option<real> {
    if net == 0.0 then Some(0.0)
    else if price.Some? then Some(Worth(net, price.value))
    else if fallback.Some? then Some(Abs(fallback.value))
    else None
  }

  predicate NamesAnExchange(polls: seq<Poll>) {
    exists p :: p in polls && Strip(p.order.exchangeName) != ""
  }

  /** The readings of a polling, in order. */
  ghost function Answers(q: Polling): seq<Reading> {
    Collect(q.polls, Reader(q.connectors, FirstMarket(q.polls)))
  }

  ghost function Judge(
    fallback: Option<real>, readings: seq<Reading>, fills: seq<Fill>, balances: seq<ObservedBalance>, now: Instant)
    : Option<Snapshot>
  {
    var residual := Residual(Filled(Buy, readings) - Filled(Sell, readings), LastPrice(readings), fallback);
    if readings == [] || residual.None? then None
    else Some(Assemble(OpenCount(readings), residual.value, readings, fills, balances, now))
  }

  function Assemble(
    openOrderCount: nat, residual: real, readings: seq<Reading>, fills: seq<Fill>,
    balances: seq<ObservedBalance>, now: Instant)
    : Snapshot
  {
    Snapshot(openOrderCount == 0 && residual == 0.0, openOrderCount, residual, now,
             OrderIds(readings), FillIds(fills), Statuses(readings), balances)
  }

  ghost function Balances(q: Polling): seq<ObservedBalance> {
    AddSheets(q.sheets, MarketAssets(FirstMarket(q.polls)))
  }

  ghost function TakeSnapshot(fallback: Option<real>, q: Polling): Option<Snapshot> {
    if q.connectors == {} || !NamesAnExchange(q.polls) then None
    else Judge(fallback, Answers(q), q.fills, Balances(q), q.now)
  }

  lemma JudgeIsGiven(
    fallback: Option<real>, readings: seq<Reading>, fills: seq<Fill>, balances: seq<ObservedBalance>, now: Instant)
    ensures var residual := Residual(Filled(Buy, readings) - Filled(Sell, readings), LastPrice(readings), fallback);
      var s := Judge(fallback, readings, fills, balances, now);
      && (s.Some? <==> readings != [] && residual.Some?)
      && (s.Some? ==> Some(s.value.residual) == residual && s.value.openOrderCount == OpenCount(readings)
                      && s.value.observedAt == now)
  {}

  /** One reading more: how each of the running values moves. */
  lemma FoldStep(readings: seq<Reading>, r: Reading)
    ensures OpenCount(readings + [r]) == OpenCount(readings) + (if r.open then 1 else 0)
    ensures LastPrice(readings + [r]) == if r.price.Some? then r.price else LastPrice(readings)
    ensures forall side ::
              Filled(side, readings + [r]) == Filled(side, readings) + (if r.side == side then r.filledQty else 0.0)
  {
    assert (readings + [r])[..|readings|] == readings;
  }

  lemma CollectOneMore<T, U>(s: seq<T>, k: nat, f: T -> Option<U>)
    requires k < |s|
    ensures Collect(s[..k + 1], f) == if f(s[k]).Some? then Collect(s[..k], f) + [f(s[k]).value] else Collect(s[..k], f)
  {
    assert s[..k + 1][..k] == s[..k];
  }

  method PollOrders(polls: seq<Poll>, connectors: set<string>, market: string)
    returns (answers: seq<Reading>, openOrderCount: nat, net: real, price: Option<Price>)
    ensures answers == Collect(polls, Reader(connectors, market))
    ensures openOrderCount == OpenCount(answers) && price == LastPrice(answers)
    ensures net == Filled(Buy, answers) - Filled(Sell, answers)
  {
    answers, openOrderCount, net, price := [], 0, 0.0, None;
    for k := 0 to |polls|
      invariant answers == Collect(polls[..k], Reader(connectors, market))
      invariant openOrderCount == OpenCount(answers) && price == LastPrice(answers)
      invariant net == Filled(Buy, answers) - Filled(Sell, answers)
    {
      CollectOneMore(polls, k, Reader(connectors, market));
      var reading := Reader(connectors, market)(polls[k]);
      if reading.None? { continue; }
      var r := reading.value;
      FoldStep(answers, r);
      answers := answers + [r];
      if r.open {
        openOrderCount := openOrderCount + 1;
      }
      if r.price.Some? {
        price := r.price;
      }
      if r.side == Buy {
        net := net + r.filledQty;
      } else if r.side == Sell {
        net := net - r.filledQty;
      }
    }
    assert polls[..|polls|] == polls;
  }

  method BuildAutoReconciliationSnapshot(fallback: Option<real>, q: Polling) returns (snapshot: Option<Snapshot>)
    ensures snapshot == TakeSnapshot(fallback, q)
  {
    if q.connectors == {} || !NamesAnExchange(q.polls) {
      return None;
    }
    var market := FirstMarket(q.polls);
    var answers, openOrderCount, net, price := PollOrders(q.polls, q.connectors, market);
    if |answers| == 0 {
      return None;
    }
    var balances := CollectBalances(q.sheets, MarketAssets(market));
    snapshot := Conclude(fallback, answers, openOrderCount, net, price, q.fills, balances, q.now);
  }

  method Conclude(
    fallback: Option<real>, answers: seq<Reading>, openOrderCount: nat, net: real, price: Option<Price>,
    fills: seq<Fill>, balances: seq<ObservedBalance>, now: Instant)
    returns (snapshot: Option<Snapshot>)
    requires answers != [] && openOrderCount == OpenCount(answers) && price == LastPrice(answers)
    requires net == Filled(Buy, answers) - Filled(Sell, answers)
    ensures snapshot == Judge(fallback, answers, fills, balances, now)
  {
    var residual := PriceResidual(net, price, fallback);
    if residual.None? {
      return None;
    }
    snapshot := Some(Assemble(openOrderCount, residual.value, answers, fills, balances, now));
  }

  method PriceResidual(net: real, price: Option<Price>, fallback: Option<real>) returns (residual: Option<real>)
    ensures residual == Residual(net, price, fallback)
    ensures residual.None? <==> net != 0.0 && price.None? && fallback.None?
    ensures residual.Some? ==> residual.value >= 0.0
    ensures residual == Some(0.0) <==> net == 0.0 || (price.None? && fallback == Some(0.0))
  {
    if net == 0.0 {
      residual := Some(0.0);
    } else if price.Some? {
      residual := Some(Abs(net) * price.value);
    } else if fallback.None? {
      residual := None;
    } else {
      residual := Some(Abs(fallback.value));
    }
    ResidualMeans(net, price, fallback);
  }

  // The verdict as a conservation law

  /** No residual: nothing tells what a net quantity is worth. A zero one: the book is balanced or known to be. */
  lemma ResidualMeans(net: real, price: Option<Price>, fallback: Option<real>)
    ensures var residual := Residual(net, price, fallback);
      && (residual.None? <==> net != 0.0 && price.None? && fallback.None?)
      && (residual.Some? ==> residual.value >= 0.0)
      && (residual == Some(0.0) <==> net == 0.0 || (price.None? && fallback == Some(0.0)))
      && (residual.Some? && price.Some? ==> residual.value == Abs(net) * price.value)
  {
    if net != 0.0 && price.Some? {
      assert Abs(net) * price.value > 0.0;
    }
  }

  /** Some answered order gave a positive price: it is then known what a net quantity is worth. */
  ghost predicate Priced(q: Polling) {
    exists r :: r in Answers(q) && r.price.Some?
  }

  ghost predicate AllTerminal(q: Polling) {
    forall r :: r in Answers(q) ==> !r.open
  }

  ghost predicate Balanced(q: Polling) {
    Filled(Buy, Answers(q)) == Filled(Sell, Answers(q))
  }

  /**
   Matched means: nothing is open and as much was bought as sold. Only when no answer carried a
   positive price can a zero residual recorded on the trace stand in for a balanced book.
   */
  lemma VerdictIsConservation(fallback: Option<real>, q: Polling)
    requires TakeSnapshot(fallback, q).Some?
    ensures TakeSnapshot(fallback, q).value.matched <==>
            AllTerminal(q) && (Balanced(q) || (!Priced(q) && fallback == Some(0.0)))
    ensures TakeSnapshot(fallback, q).value.residual >= 0.0
  {
    JudgeIsConservation(fallback, Answers(q), q.fills, Balances(q), q.now);
  }

  lemma JudgeIsConservation(
    fallback: Option<real>, readings: seq<Reading>, fills: seq<Fill>, balances: seq<ObservedBalance>, now: Instant)
    requires Judge(fallback, readings, fills, balances, now).Some?
    ensures Judge(fallback, readings, fills, balances, now).value.matched <==>
            (forall r :: r in readings ==> !r.open) &&
            (Filled(Buy, readings) == Filled(Sell, readings) ||
             ((forall r :: r in readings ==> r.price.None?) && fallback == Some(0.0)))
    ensures Judge(fallback, readings, fills, balances, now).value.residual >= 0.0
  {
    ResidualMeans(Filled(Buy, readings) - Filled(Sell, readings), LastPrice(readings), fallback);
  }

  /** Cuts a permutation `b` of `a` around the last element of `a`. */
  lemma CutAtLast<T>(a: seq<T>, b: seq<T>) returns (left: seq<T>, right: seq<T>)
    requires a != [] && multiset(a) == multiset(b)
    ensures b == left + [a[|a| - 1]] + right
    ensures multiset(a[..|a| - 1]) == multiset(left + right)
  {
    var n := |a| - 1;
    WithoutAt(a, n);
    assert a[n] in multiset(b);
    var i :| 0 <= i < |b| && b[i] == a[n];
    left, right := b[..i], b[i + 1..];
    WithoutAt(b, i);
    assert a[..n] + a[n + 1..] == a[..n];
  }

  lemma WithoutAt<T>(a: seq<T>, i: nat)
    requires i < |a|
    ensures a == a[..i] + [a[i]] + a[i + 1..]
    ensures multiset(a[..i] + a[i + 1..]) == multiset(a) - multiset{a[i]}
  {
    assert a == a[..i] + [a[i]] + a[i + 1..];
    assert multiset(a) == multiset(a[..i]) + multiset([a[i]]) + multiset(a[i + 1..]);
  }

  lemma {:induction false} FilledAppend(side: Side, a: seq<Reading>, b: seq<Reading>)
    ensures Filled(side, a + b) == Filled(side, a) + Filled(side, b)
  {
    if b == [] {
      assert a + b == a;
    } else {
      assert (a + b)[..|a + b| - 1] == a + b[..|b| - 1];
      FilledAppend(side, a, b[..|b| - 1]);
    }
  }

  lemma {:induction false} FilledPermuted(side: Side, a: seq<Reading>, b: seq<Reading>)
    requires multiset(a) == multiset(b)
    ensures Filled(side, a) == Filled(side, b)
  {
    if a == [] {
      assert |multiset(b)| == 0;
    } else {
      var n := |a| - 1;
      var left, right := CutAtLast(a, b);
      FilledAppend(side, left + [a[n]], right);
      FilledAppend(side, left, [a[n]]);
      FilledAppend(side, left, right);
      FilledAppend(side, a[..n], [a[n]]);
      assert a == a[..n] + [a[n]];
      FilledPermuted(side, a[..n], left + right);
    }
  }

  lemma {:induction false} CollectAppend<T, U>(a: seq<T>, b: seq<T>, f: T -> Option<U>)
    ensures Collect(a + b, f) == Collect(a, f) + Collect(b, f)
  {
    if b == [] {
      assert a + b == a;
    } else {
      assert (a + b)[..|a + b| - 1] == a + b[..|b| - 1];
      CollectAppend(a, b[..|b| - 1], f);
    }
  }

  lemma {:induction false} CollectPermuted<T, U>(a: seq<T>, b: seq<T>, f: T -> Option<U>)
    requires multiset(a) == multiset(b)
    ensures multiset(Collect(a, f)) == multiset(Collect(b, f))
  {
    if a == [] {
      assert |multiset(b)| == 0;
    } else {
      var n := |a| - 1;
      var left, right := CutAtLast(a, b);
      CollectPermuted(a[..n], left + right, f);
      CollectMiddle(left, a[n], right, f);
      CollectLast(a, f);
    }
  }

  lemma CollectLast<T, U>(s: seq<T>, f: T -> Option<U>)
    requires s != []
    ensures multiset(Collect(s, f)) == multiset(Collect(s[..|s| - 1], f)) + multiset(Collect([s[|s| - 1]], f))
  {
    assert [s[|s| - 1]][..0] == [];
  }

  /** Wherever an element stands, it contributes the same. */
  lemma CollectMiddle<T, U>(left: seq<T>, x: T, right: seq<T>, f: T -> Option<U>)
    ensures multiset(Collect(left + [x] + right, f)) == multiset(Collect(left + right, f)) + multiset(Collect([x], f))
  {
    CollectAppend(left + [x], right, f);
    CollectAppend(left, [x], f);
    CollectAppend(left, right, f);
  }

  lemma {:induction false} CollectSame<T, U>(s: seq<T>, f: T -> Option<U>, g: T -> Option<U>)
    requires forall i | 0 <= i < |s| :: f(s[i]) == g(s[i])
    ensures Collect(s, f) == Collect(s, g)
  {
    if s != [] {
      CollectSame(s[..|s| - 1], f, g);
    }
  }

  lemma SameMembers<T>(a: seq<T>, b: seq<T>)
    requires multiset(a) == multiset(b)
    ensures forall x :: x in a <==> x in b
    ensures a == [] <==> b == []
  {
    forall x ensures x in a <==> x in b {
      assert x in multiset(a) <==> x in multiset(b);
    }
    assert |multiset(a)| == |multiset(b)|;
  }

  /** Some order will be asked about in whatever market comes first, and which one that is depends on the order. */
  ghost predicate Ambiguous(orders: seq<Order>, connectors: set<string>) {
    && (exists o :: o in orders && o.market == "" && Pollable(o, connectors))
    && (exists a, b :: a in orders && b in orders && OwnMarket(a) != "" && OwnMarket(b) != ""
                       && OwnMarket(a) != OwnMarket(b))
  }

  function OrdersOf(polls: seq<Poll>): seq<Order> {
    seq(|polls|, i requires 0 <= i < |polls| => polls[i].order)
  }

  lemma OrderIn(polls: seq<Poll>, p: Poll)
    requires p in polls
    ensures p.order in OrdersOf(polls)
  {
    var i :| 0 <= i < |polls| && polls[i] == p;
    assert OrdersOf(polls)[i] == p.order;
  }

  lemma SameFallback(a: seq<Poll>, b: seq<Poll>, connectors: set<string>)
    requires multiset(a) == multiset(b) && !Ambiguous(OrdersOf(a), connectors)
    requires exists p :: p in a && p.order.market == "" && Pollable(p.order, connectors)
    ensures FirstMarket(a) == FirstMarket(b)
  {
    SameMembers(a, b);
    var blank :| blank in a && blank.order.market == "" && Pollable(blank.order, connectors);
    OrderIn(a, blank);
    if FirstMarket(a) != "" {
      var p :| p in a && OwnMarket(p.order) == FirstMarket(a);
      assert FirstMarket(b) != "";
      var q :| q in b && OwnMarket(q.order) == FirstMarket(b);
      OrderIn(a, p);
      OrderIn(a, q);
    }
  }

  lemma SameReading(p: Poll, connectors: set<string>, m1: string, m2: string)
    requires p.order.market != "" || !Pollable(p.order, connectors) || m1 == m2
    ensures Reader(connectors, m1)(p) == Reader(connectors, m2)(p)
  {}

  lemma AnswersPermuted(q: Polling, r: Polling)
    requires r.connectors == q.connectors && multiset(r.polls) == multiset(q.polls)
    requires !Ambiguous(OrdersOf(q.polls), q.connectors)
    ensures multiset(Answers(q)) == multiset(Answers(r))
  {
    SameMembers(q.polls, r.polls);
    var f, g := Reader(q.connectors, FirstMarket(q.polls)), Reader(q.connectors, FirstMarket(r.polls));
    forall i | 0 <= i < |r.polls| ensures f(r.polls[i]) == g(r.polls[i]) {
      assert r.polls[i] in q.polls;
      if r.polls[i].order.market == "" && Pollable(r.polls[i].order, q.connectors) {
        SameFallback(q.polls, r.polls, q.connectors);
      }
      SameReading(r.polls[i], q.connectors, FirstMarket(q.polls), FirstMarket(r.polls));
    }
    CollectSame(r.polls, f, g);
    CollectPermuted(q.polls, r.polls, f);
  }

  lemma JudgeIgnoresOrder(
    fallback: Option<real>, a: seq<Reading>, fillsA: seq<Fill>, balancesA: seq<ObservedBalance>, nowA: Instant,
    b: seq<Reading>, fillsB: seq<Fill>, balancesB: seq<ObservedBalance>, nowB: Instant)
    requires multiset(a) == multiset(b)
    ensures SameVerdict(Judge(fallback, a, fillsA, balancesA, nowA), Judge(fallback, b, fillsB, balancesB, nowB))
  {
    SameMembers(a, b);
    FilledPermuted(Buy, a, b);
    FilledPermuted(Sell, a, b);
    if Judge(fallback, a, fillsA, balancesA, nowA).Some? {
      JudgeIsConservation(fallback, a, fillsA, balancesA, nowA);
      JudgeIsConservation(fallback, b, fillsB, balancesB, nowB);
    }
  }

  ghost predicate SameVerdict(a: Option<Snapshot>, b: Option<Snapshot>) {
    a.Some? == b.Some? && (a.Some? ==> a.value.matched == b.value.matched)
  }

  lemma NamesPermuted(a: seq<Poll>, b: seq<Poll>)
    requires multiset(a) == multiset(b)
    ensures NamesAnExchange(a) == NamesAnExchange(b)
  {
    SameMembers(a, b);
  }

  /**
   Unless they are ambiguous, shuffling the related orders changes neither whether there is a verdict nor
   which one it is; nor do the fills, the balances or the time of the observation.
   */
  lemma VerdictIgnoresOrder(fallback: Option<real>, q: Polling, r: Polling)
    requires r.connectors == q.connectors && multiset(r.polls) == multiset(q.polls)
    requires !Ambiguous(OrdersOf(q.polls), q.connectors)
    ensures SameVerdict(TakeSnapshot(fallback, q), TakeSnapshot(fallback, r))
  {
    NamesPermuted(q.polls, r.polls);
    if q.connectors != {} && NamesAnExchange(q.polls) {
      AnswersPermuted(q, r);
      JudgeIgnoresOrder(fallback, Answers(q), q.fills, Balances(q), q.now,
                        Answers(r), r.fills, Balances(r), r.now);
    }
  }

  /** Whatever the exchanges answer of these orders, shuffling them does not change the verdict. */
  ghost predicate ShufflingHarmless(orders: seq<Order>, connectors: set<string>, fallback: Option<real>) {
    forall q: Polling, r: Polling ::
      q.connectors == connectors && r.connectors == connectors && OrdersOf(q.polls) == orders
      && multiset(q.polls) == multiset(r.polls)
      ==> SameVerdict(TakeSnapshot(fallback, q), TakeSnapshot(fallback, r))
  }

  function PlainAnswer(status: string): StatusAnswer {
    StatusAnswer(status, "", Some(0.0), None, None)
  }

  /** Only the k-th order is known to its exchange: open in one market, filled in the other. */
  function TwoFaced(orders: seq<Order>, k: nat, openIn: string, filledIn: string): seq<Poll>
    requires k < |orders|
  {
    seq(|orders|, i requires 0 <= i < |orders| =>
      Poll(orders[i],
           if i == k then map[openIn := PlainAnswer("submitted"), filledIn := PlainAnswer("filled")] else map[]))
  }

  lemma {:induction false} OneAnswerCollected<T, U>(s: seq<T>, f: T -> Option<U>, k: nat)
    requires k < |s| && forall i | 0 <= i < |s| && i != k :: f(s[i]) == None
    ensures Collect(s, f) == Singleton(f(s[k]))
  {
    var n := |s| - 1;
    if k < n {
      OneAnswerCollected(s[..n], f, k);
    } else {
      NothingCollected(s[..n], f);
    }
  }

  lemma {:induction false} NothingCollected<T, U>(s: seq<T>, f: T -> Option<U>)
    requires forall i | 0 <= i < |s| :: f(s[i]) == None
    ensures Collect(s, f) == []
  {
    if s != [] {
      NothingCollected(s[..|s| - 1], f);
    }
  }

  /** The verdict on a single answer without a quantity is the answer's status. */
  lemma OneAnswerJudged(fallback: Option<real>, q: Polling, r: Reading)
    requires q.connectors != {} && NamesAnExchange(q.polls)
    requires Answers(q) == [r] && r.filledQty == 0.0
    ensures TakeSnapshot(fallback, q).Some? && TakeSnapshot(fallback, q).value.matched == !r.open
  {
    OneReadingJudged(fallback, r, q.fills, Balances(q), q.now);
  }

  lemma OneReadingJudged(
    fallback: Option<real>, r: Reading, fills: seq<Fill>, balances: seq<ObservedBalance>, now: Instant)
    requires r.filledQty == 0.0
    ensures Judge(fallback, [r], fills, balances, now).Some?
    ensures Judge(fallback, [r], fills, balances, now).value.matched == !r.open
  {
    FoldStep([], r);
    assert [] + [r] == [r];
  }

  lemma PlainStatuses()
    ensures Normalised("submitted") == "submitted" && !SpellsTerminal("submitted")
    ensures Normalised("filled") == "filled" && SpellsTerminal("filled")
  {}

  lemma TwoFacedReading(o: Order, connectors: set<string>, openIn: string, filledIn: string, market: string)
    requires o.market == "" && Pollable(o, connectors) && openIn != filledIn && market in {openIn, filledIn}
    requires market != "" && Upper(Strip(market)) == market
    ensures var answers := map[openIn := PlainAnswer("submitted"), filledIn := PlainAnswer("filled")];
            var reading := Reader(connectors, market)(Poll(o, answers));
            reading.Some? && reading.value.filledQty == 0.0 && (reading.value.open <==> market == openIn)
  {
    PlainStatuses();
  }

  lemma TwoFacedVerdict(
    fallback: Option<real>, q: Polling, orders: seq<Order>, k: nat, openIn: string, filledIn: string)
    requires k < |orders| && orders[k].market == "" && Pollable(orders[k], q.connectors) && openIn != filledIn
    requires NamesAnExchange(q.polls) && multiset(q.polls) == multiset(TwoFaced(orders, k, openIn, filledIn))
    requires FirstMarket(q.polls) in {openIn, filledIn} && FirstMarket(q.polls) != ""
    ensures TakeSnapshot(fallback, q).Some?
    ensures TakeSnapshot(fallback, q).value.matched <==> FirstMarket(q.polls) == filledIn
  {
    var polls, f := TwoFaced(orders, k, openIn, filledIn), Reader(q.connectors, FirstMarket(q.polls));
    TwoFacedReading(orders[k], q.connectors, openIn, filledIn, FirstMarket(q.polls));
    OneAnswerCollected(polls, f, k);
    CollectPermuted(q.polls, polls, f);
    var r := f(polls[k]).value;
    OnlyOne(Answers(q), r);
    OneAnswerJudged(fallback, q, r);
  }

  lemma OnlyOne<T>(s: seq<T>, x: T)
    requires multiset(s) == multiset([x])
    ensures s == [x]
  {
    assert |multiset(s)| == 1;
    assert s[0] in multiset([x]);
  }

  /** `polls` with the j-th moved to the front. */
  function Fronted(polls: seq<Poll>, j: nat): seq<Poll>
    requires j < |polls|
  {
    [polls[j]] + (polls[..j] + polls[j + 1..])
  }

  lemma FrontedIsShuffled(polls: seq<Poll>, j: nat)
    requires j < |polls| && OwnMarket(polls[j].order) != ""
    ensures multiset(Fronted(polls, j)) == multiset(polls)
    ensures FirstMarket(Fronted(polls, j)) == OwnMarket(polls[j].order)
  {
    WithoutAt(polls, j);
    assert multiset(Fronted(polls, j)) == multiset([polls[j]]) + multiset(polls[..j] + polls[j + 1..]);
  }

  /** Bringing an order of another market to the front turns the verdict around. */
  lemma AmbiguousVerdict(orders: seq<Order>, connectors: set<string>, fallback: Option<real>)
    requires Ambiguous(orders, connectors) && exists o :: o in orders && Strip(o.exchangeName) != ""
    ensures !ShufflingHarmless(orders, connectors, fallback)
  {
    var k :| 0 <= k < |orders| && orders[k].market == "" && Pollable(orders[k], connectors);
    var j := OtherMarket(orders, connectors, k);
    Turned(orders, connectors, fallback, k, FirstMarket(TwoFaced(orders, k, "", "")), j);
  }

  lemma Turned(orders: seq<Order>, connectors: set<string>, fallback: Option<real>, k: nat, first: string, j: nat)
    requires k < |orders| && orders[k].market == "" && Pollable(orders[k], connectors)
    requires first == FirstMarket(TwoFaced(orders, k, "", "")) && first != ""
    requires j < |orders| && OwnMarket(orders[j]) != "" && OwnMarket(orders[j]) != first
    requires exists o :: o in orders && Strip(o.exchangeName) != ""
    ensures !ShufflingHarmless(orders, connectors, fallback)
  {
    var polls := TwoFaced(orders, k, first, OwnMarket(orders[j]));
    var q := Polling(connectors, polls, [], [], 0);
    var r := Polling(connectors, Fronted(polls, j), [], [], 0);
    assert OrdersOf(polls) == orders;
    SameOrdersSameMarket(TwoFaced(orders, k, "", ""), polls);
    FrontedIsShuffled(polls, j);
    assert NamesAnExchange(polls) by {
      var named :| 0 <= named < |orders| && Strip(orders[named].exchangeName) != "";
      assert polls[named] in polls;
    }
    NamesPermuted(polls, r.polls);
    TwoVerdicts(orders, connectors, fallback, k, first, OwnMarket(orders[j]), q, r);
  }

  lemma TwoVerdicts(
    orders: seq<Order>, connectors: set<string>, fallback: Option<real>, k: nat, first: string, other: string,
    q: Polling, r: Polling)
    requires k < |orders| && orders[k].market == "" && Pollable(orders[k], connectors)
    requires q.connectors == connectors && r.connectors == connectors
    requires first != other && first != "" && other != ""
    requires OrdersOf(q.polls) == orders && q.polls == TwoFaced(orders, k, first, other)
    requires multiset(q.polls) == multiset(r.polls) && NamesAnExchange(q.polls) && NamesAnExchange(r.polls)
    requires FirstMarket(q.polls) == first && FirstMarket(r.polls) == other
    ensures !ShufflingHarmless(orders, connectors, fallback)
  {
    TwoFacedVerdict(fallback, q, orders, k, first, other);
    TwoFacedVerdict(fallback, r, orders, k, first, other);
    assert !SameVerdict(TakeSnapshot(fallback, q), TakeSnapshot(fallback, r));
  }

  lemma {:induction false} SameOrdersSameMarket(a: seq<Poll>, b: seq<Poll>)
    requires |a| == |b| && forall i | 0 <= i < |a| :: a[i].order == b[i].order
    ensures FirstMarket(a) == FirstMarket(b)
  {
    if a != [] {
      SameOrdersSameMarket(a[1..], b[1..]);
    }
  }

  /** Some order names a market that is not the first one. */
  lemma OtherMarket(orders: seq<Order>, connectors: set<string>, k: nat) returns (j: nat)
    requires Ambiguous(orders, connectors) && k < |orders|
    ensures j < |orders| && OwnMarket(orders[j]) != ""
    ensures OwnMarket(orders[j]) != FirstMarket(TwoFaced(orders, k, "", ""))
    ensures FirstMarket(TwoFaced(orders, k, "", "")) != ""
  {
    var polls := TwoFaced(orders, k, "", "");
    var a, b :| a in orders && b in orders && OwnMarket(a) != "" && OwnMarket(b) != "" && OwnMarket(a) != OwnMarket(b);
    var i :| 0 <= i < |orders| && orders[i] == a;
    var i' :| 0 <= i' < |orders| && orders[i'] == b;
    assert polls[i] in polls && polls[i'] in polls;
    j := if OwnMarket(a) != FirstMarket(polls) then i else i';
  }

  /** The verdict does not depend on the order of the orders if and only if they are not ambiguous. */
  lemma ShufflingHarmlessExactly(orders: seq<Order>, connectors: set<string>, fallback: Option<real>)
    requires exists o :: o in orders && Strip(o.exchangeName) != ""
    ensures ShufflingHarmless(orders, connectors, fallback) <==> !Ambiguous(orders, connectors)
  {
    if Ambiguous(orders, connectors) {
      AmbiguousVerdict(orders, connectors, fallback);
    } else {
      forall q: Polling, r: Polling |
        q.connectors == connectors && r.connectors == connectors && OrdersOf(q.polls) == orders
        && multiset(q.polls) == multiset(r.polls)
        ensures SameVerdict(TakeSnapshot(fallback, q), TakeSnapshot(fallback, r))
      {
        VerdictIgnoresOrder(fallback, q, r);
      }
    }
  }

  // The evidence a snapshot leaves behind

  function IdItems(ids: seq<string>): seq<IdItem> {
    seq(|ids|, i requires 0 <= i < |ids| => IdText(ids[i]))
  }

  function BalanceItems(rows: seq<ObservedBalance>): seq<BalanceItem> {
    seq(|rows|, i requires 0 <= i < |rows| =>
      BalanceRow(Some(rows[i].exchange), Some(rows[i].asset), Some(rows[i].free), Some(rows[i].locked)))
  }

  ghost predicate Distinct<T>(s: seq<T>) {
    forall i, j | 0 <= i < j < |s| :: s[i] != s[j]
  }

  ghost predicate BalancesPolled(rows: seq<ObservedBalance>) {
    && (forall i | 0 <= i < |rows| ::
          && rows[i].exchange != "" && Stripped(rows[i].exchange)
          && Upper(Strip(rows[i].asset)) == rows[i].asset
          && rows[i].free >= 0.0 && rows[i].locked >= 0.0)
    && (forall i, j | 0 <= i < j < |rows| :: !SameKey(rows[i], rows[j]))
  }

  lemma AddBalancePolled(rows: seq<ObservedBalance>, exchange: string, item: BalanceAnswer, assets: set<string>)
    requires BalancesPolled(rows) && exchange != "" && Stripped(exchange)
    ensures BalancesPolled(AddBalance(rows, exchange, item, assets))
  {
    var added := AddBalance(rows, exchange, item, assets);
    if added != rows {
      NormalisedTwice(item.asset);
      assert added[..|rows|] == rows && !HasKey(rows, exchange, added[|rows|].asset);
      forall i | 0 <= i < |rows| ensures !SameKey(rows[i], added[|rows|]) {
        assert rows[i] in rows;
      }
    }
  }

  lemma {:induction false} AddSheetPolled(
    rows: seq<ObservedBalance>, exchange: string, items: seq<BalanceAnswer>, assets: set<string>)
    requires BalancesPolled(rows) && exchange != "" && Stripped(exchange)
    ensures BalancesPolled(AddSheet(rows, exchange, items, assets))
  {
    if items != [] {
      var n := |items| - 1;
      AddSheetPolled(rows, exchange, items[..n], assets);
      AddBalancePolled(AddSheet(rows, exchange, items[..n], assets), exchange, items[n], assets);
    }
  }

  lemma {:induction false} SheetsPolled(sheets: seq<BalanceSheet>, assets: set<string>)
    requires forall sheet :: sheet in sheets ==> sheet.exchange != "" && Stripped(sheet.exchange)
    ensures BalancesPolled(AddSheets(sheets, assets))
  {
    if sheets != [] {
      var n := |sheets| - 1;
      assert sheets[n] in sheets && forall sheet :: sheet in sheets[..n] ==> sheet in sheets;
      SheetsPolled(sheets[..n], assets);
      AddSheetPolled(AddSheets(sheets[..n], assets), sheets[n].exchange, sheets[n].items, assets);
    }
  }

  ghost predicate SheetsPolledFrom(q: Polling) {
    forall sheet :: sheet in q.sheets ==> sheet.exchange != "" && Stripped(sheet.exchange)
  }

  /**
   A snapshot's evidence passes the validators exactly when no order id or fill id repeats, every
   exchange spoke a known status, and every balance row names its asset.
   */
  lemma SnapshotEvidenceIsWellFormed(fallback: Option<real>, q: Polling)
    requires TakeSnapshot(fallback, q).Some? && SheetsPolledFrom(q)
    ensures var s := TakeSnapshot(fallback, q).value;
      && (WellFormedIds(IdItems(s.orderIds)) <==> Distinct(s.orderIds))
      && (WellFormedIds(IdItems(s.fillIds)) <==> Distinct(s.fillIds))
      && (WellFormedStatuses(s.statuses) <==>
          Distinct(s.orderIds) && forall r :: r in Answers(q) ==> KnownStatus(r.status).Some?)
      && (WellFormedBalances(BalanceItems(s.balances)) <==> forall b :: b in s.balances ==> b.asset != "")
  {
    SheetsPolled(q.sheets, MarketAssets(FirstMarket(q.polls)));
    AnswersRead(q);
    JudgeEvidence(fallback, Answers(q), q.fills, Balances(q), q.now);
  }

  lemma AnswersRead(q: Polling)
    ensures forall r :: r in Answers(q) ==> ReadRight(r)
  {
    forall i | 0 <= i < |Answers(q)| ensures ReadRight(Answers(q)[i]) {
      var k := Collected(q.polls, Reader(q.connectors, FirstMarket(q.polls)), i);
    }
  }

  ghost predicate ReadRight(r: Reading) {
    r.orderId != "" && Stripped(r.orderId) && Normalised(r.status) == r.status
  }

  lemma JudgeEvidence(
    fallback: Option<real>, readings: seq<Reading>, fills: seq<Fill>, balances: seq<ObservedBalance>, now: Instant)
    requires Judge(fallback, readings, fills, balances, now).Some?
    requires forall r :: r in readings ==> ReadRight(r)
    requires forall id :: id in FillIds(fills) ==> id != "" && Stripped(id)
    requires BalancesPolled(balances)
    ensures var s := Judge(fallback, readings, fills, balances, now).value;
      && (WellFormedIds(IdItems(s.orderIds)) <==> Distinct(s.orderIds))
      && (WellFormedIds(IdItems(s.fillIds)) <==> Distinct(s.fillIds))
      && (WellFormedStatuses(s.statuses) <==>
          Distinct(s.orderIds) && forall r :: r in readings ==> KnownStatus(r.status).Some?)
      && (WellFormedBalances(BalanceItems(s.balances)) <==> forall b :: b in s.balances ==> b.asset != "")
  {
    forall id | id in OrderIds(readings) ensures id != "" && Stripped(id) {
      var i :| 0 <= i < |readings| && OrderIds(readings)[i] == id;
      assert readings[i] in readings;
    }
    IdsWellFormed(OrderIds(readings));
    IdsWellFormed(FillIds(fills));
    StatusesWellFormed(readings);
    BalancesWellFormed(balances);
  }

  lemma IdsWellFormed(ids: seq<string>)
    requires forall id :: id in ids ==> id != "" && Stripped(id)
    ensures WellFormedIds(IdItems(ids)) <==> Distinct(ids)
  {
    var items := IdItems(ids);
    forall i | 0 <= i < |ids| ensures WellFormedId(items[i]) && IdOf(items[i]) == ids[i] {
      assert ids[i] in ids;
    }
    if Distinct(ids) {
      assert WellFormedIds(items);
    } else {
      var i, j :| 0 <= i < j < |ids| && ids[i] == ids[j];
      assert IdOf(items[i]) == IdOf(items[j]);
    }
  }

  lemma StatusesWellFormed(readings: seq<Reading>)
    requires forall r :: r in readings ==> ReadRight(r)
    ensures WellFormedStatuses(Statuses(readings)) <==>
            Distinct(OrderIds(readings)) && forall r :: r in readings ==> KnownStatus(r.status).Some?
  {
    var items := Statuses(readings);
    forall i | 0 <= i < |readings|
      ensures WellFormedStatus(items[i]) <==> KnownStatus(readings[i].status).Some?
      ensures WellFormedStatus(items[i]) ==> StatusOf(items[i]).orderId == OrderIds(readings)[i]
    {
      assert readings[i] in readings;
    }
    if WellFormedStatuses(items) {
      forall r | r in readings ensures KnownStatus(r.status).Some? {
        var i :| 0 <= i < |readings| && readings[i] == r;
        assert WellFormedStatus(items[i]);
      }
      forall i, j | 0 <= i < j < |readings| ensures OrderIds(readings)[i] != OrderIds(readings)[j] {
        assert StatusOf(items[i]).orderId != StatusOf(items[j]).orderId;
      }
    }
  }

  lemma BalancesWellFormed(rows: seq<ObservedBalance>)
    requires BalancesPolled(rows)
    ensures WellFormedBalances(BalanceItems(rows)) <==> forall b :: b in rows ==> b.asset != ""
  {
    var items := BalanceItems(rows);
    forall i | 0 <= i < |rows|
      ensures WellFormedBalance(items[i]) <==> rows[i].asset != ""
      ensures WellFormedBalance(items[i]) ==> BalanceOf(items[i]) == rows[i]
    {
      assert |Upper(Strip(rows[i].asset))| == |Strip(rows[i].asset)|;
    }
    if WellFormedBalances(items) {
      forall b | b in rows ensures b.asset != "" {
        var i :| 0 <= i < |rows| && rows[i] == b;
        assert WellFormedBalance(items[i]);
      }
    }
  }
}
