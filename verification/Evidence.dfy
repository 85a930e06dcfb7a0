/**
 Evidence lists of a reconciliation. Each validator is a loop with a seen-set in the source; here it
 is proved to accept exactly the well-formed lists, stated with quantifiers and no seen-set.
 */
module Evidence {
  import opened Text
  import opened RecoveryModel

  datatype ObservedStatus = ObservedStatus(orderId: string, status: OrderStatus)
  datatype ObservedBalance = ObservedBalance(exchange: string, asset: string, free: real, locked: real)

  // String ids

  predicate WellFormedId(item: IdItem) {
    item.IdText? && Strip(item.text) != ""
  }

  function IdOf(item: IdItem): string
    requires WellFormedId(item)
  {
    Strip(item.text)
  }

  predicate WellFormedIds(items: seq<IdItem>) {
    && (forall i | 0 <= i < |items| :: WellFormedId(items[i]))
    && (forall i, j | 0 <= i < j < |items| :: IdOf(items[i]) != IdOf(items[j]))
  }

  function ObservedStringIds(raw: Raw<seq<IdItem>>): Option<seq<string>> {
    if raw.Value? && WellFormedIds(raw.value)
    then Some(seq(|raw.value|, i requires 0 <= i < |raw.value| && WellFormedId(raw.value[i]) => IdOf(raw.value[i])))
    else None
  }

  method ReadStringIds(raw: Raw<seq<IdItem>>) returns (ids: Option<seq<string>>)
    ensures ids == ObservedStringIds(raw)
  {
    if !raw.Value? {
      return None;
    }
    var items: seq<string>, seen: set<string> := [], {};
    for k := 0 to |raw.value|
      invariant |items| == k
      invariant forall i | 0 <= i < k :: WellFormedId(raw.value[i]) && items[i] == IdOf(raw.value[i])
      invariant forall i, j | 0 <= i < j < k :: items[i] != items[j]
      invariant forall x :: x in seen <==> x in items
    {
      var item := raw.value[k];
      if !WellFormedId(item) {
        return None;
      }
      if IdOf(item) in seen {
        var i :| 0 <= i < k && items[i] == IdOf(item);
        assert IdOf(raw.value[i]) == IdOf(raw.value[k]);
        return None;
      }
      seen := seen + {IdOf(item)};
      items := items + [IdOf(item)];
    }
    assert WellFormedIds(raw.value) && items == ObservedStringIds(raw).value;
    ids := Some(items);
  }

  ghost predicate NotBlank(text: Option<string>) {
    text.Some? && !AllSpaces(text.value)
  }

  /** A list of ids passes exactly if each is a text that is not blank, and no two agree up to blanks around. */
  lemma IdsAccepted(items: seq<IdItem>)
    ensures ObservedStringIds(Value(items)).Some? <==>
            && (forall i | 0 <= i < |items| :: items[i].IdText? && !AllSpaces(items[i].text))
            && (forall i, j | 0 <= i < j < |items| :: Strip(items[i].text) != Strip(items[j].text))
  {
    forall i | 0 <= i < |items| && items[i].IdText? ensures WellFormedId(items[i]) <==> !AllSpaces(items[i].text) {
      BlankStripsToNothing(items[i].text);
    }
    if ObservedStringIds(Value(items)).Some? {
      forall i, j | 0 <= i < j < |items| ensures Strip(items[i].text) != Strip(items[j].text) {
        assert IdOf(items[i]) != IdOf(items[j]);
      }
    }
  }

  // Order statuses

  predicate WellFormedStatus(item: StatusItem) {
    && item.StatusRow? && item.orderId.Some? && item.status.Some?
    && Strip(item.orderId.value) != ""
    && ReadStatus(item.status.value).Some?
  }

  function StatusOf(item: StatusItem): ObservedStatus
    requires WellFormedStatus(item)
  {
    ObservedStatus(Strip(item.orderId.value), ReadStatus(item.status.value).value)
  }

  predicate WellFormedStatuses(items: seq<StatusItem>) {
    && (forall i | 0 <= i < |items| :: WellFormedStatus(items[i]))
    && (forall i, j | 0 <= i < j < |items| :: StatusOf(items[i]).orderId != StatusOf(items[j]).orderId)
  }

  function ObservedOrderStatuses(raw: Raw<seq<StatusItem>>): Option<seq<ObservedStatus>> {
    if raw.Value? && WellFormedStatuses(raw.value)
    then Some(seq(|raw.value|, i requires 0 <= i < |raw.value| && WellFormedStatus(raw.value[i]) =>
           StatusOf(raw.value[i])))
    else None
  }

  method ReadOrderStatuses(raw: Raw<seq<StatusItem>>) returns (statuses: Option<seq<ObservedStatus>>)
    ensures statuses == ObservedOrderStatuses(raw)
  {
    if !raw.Value? {
      return None;
    }
    var rows: seq<ObservedStatus>, seen: set<string> := [], {};
    for k := 0 to |raw.value|
      invariant |rows| == k
      invariant forall i | 0 <= i < k :: WellFormedStatus(raw.value[i]) && rows[i] == StatusOf(raw.value[i])
      invariant forall i, j | 0 <= i < j < k :: rows[i].orderId != rows[j].orderId
      invariant forall x :: x in seen <==> exists i :: 0 <= i < k && rows[i].orderId == x
    {
      var item := raw.value[k];
      if !WellFormedStatus(item) {
        return None;
      }
      var row := StatusOf(item);
      if row.orderId in seen {
        var i :| 0 <= i < k && rows[i].orderId == row.orderId;
        assert StatusOf(raw.value[i]).orderId == StatusOf(raw.value[k]).orderId;
        return None;
      }
      seen := seen + {row.orderId};
      rows := rows + [row];
      assert rows[k].orderId == row.orderId;
    }
    assert WellFormedStatuses(raw.value) && rows == ObservedOrderStatuses(raw).value;
    statuses := Some(rows);
  }

  ghost predicate AcceptedStatus(item: StatusItem) {
    && item.StatusRow? && NotBlank(item.orderId) && item.status.Some?
    && Normalised(item.status.value) in
       {"new", "submitted", "partially_filled", "filled", "cancelled", "rejected", "expired", "failed"}
  }

  lemma StatusAccepted(item: StatusItem)
    ensures WellFormedStatus(item) <==> AcceptedStatus(item)
  {
    if item.StatusRow? && item.orderId.Some? && item.status.Some? {
      BlankStripsToNothing(item.orderId.value);
      StatusIsSpelled(item.status.value);
      TerminalIsSpelled(item.status.value);
    }
  }

  /** A list of statuses passes exactly if each row names an order and a known status, and no two the same order. */
  lemma StatusesAccepted(items: seq<StatusItem>)
    ensures ObservedOrderStatuses(Value(items)).Some? <==>
            && (forall i | 0 <= i < |items| :: AcceptedStatus(items[i]))
            && (forall i, j | 0 <= i < j < |items| ::
                  Strip(items[i].orderId.value) != Strip(items[j].orderId.value))
  {
    forall i | 0 <= i < |items| ensures WellFormedStatus(items[i]) <==> AcceptedStatus(items[i]) {
      StatusAccepted(items[i]);
    }
    if ObservedOrderStatuses(Value(items)).Some? {
      forall i, j | 0 <= i < j < |items| ensures Strip(items[i].orderId.value) != Strip(items[j].orderId.value) {
        assert StatusOf(items[i]).orderId != StatusOf(items[j]).orderId;
      }
    }
  }

  // Balances

  predicate WellFormedBalance(item: BalanceItem) {
    && item.BalanceRow? && item.exchange.Some? && item.asset.Some? && item.free.Some? && item.locked.Some?
    && Strip(item.exchange.value) != "" && Strip(item.asset.value) != ""
    && item.free.value >= 0.0 && item.locked.value >= 0.0
  }

  function BalanceOf(item: BalanceItem): ObservedBalance
    requires WellFormedBalance(item)
  {
    ObservedBalance(Strip(item.exchange.value), Upper(Strip(item.asset.value)), item.free.value, item.locked.value)
  }

  predicate SameKey(a: ObservedBalance, b: ObservedBalance) {
    a.exchange == b.exchange && a.asset == b.asset
  }

  predicate WellFormedBalances(items: seq<BalanceItem>) {
    && (forall i | 0 <= i < |items| :: WellFormedBalance(items[i]))
    && (forall i, j | 0 <= i < j < |items| :: !SameKey(BalanceOf(items[i]), BalanceOf(items[j])))
  }

  function ObservedBalances(raw: Raw<seq<BalanceItem>>): Option<seq<ObservedBalance>> {
    if raw.Value? && WellFormedBalances(raw.value)
    then Some(seq(|raw.value|, i requires 0 <= i < |raw.value| && WellFormedBalance(raw.value[i]) =>
           BalanceOf(raw.value[i])))
    else None
  }

  method ReadBalances(raw: Raw<seq<BalanceItem>>) returns (balances: Option<seq<ObservedBalance>>)
    ensures balances == ObservedBalances(raw)
  {
    if !raw.Value? {
      return None;
    }
    var rows: seq<ObservedBalance>, seen: set<(string, string)> := [], {};
    for k := 0 to |raw.value|
      invariant |rows| == k
      invariant forall i | 0 <= i < k :: WellFormedBalance(raw.value[i]) && rows[i] == BalanceOf(raw.value[i])
      invariant forall i, j | 0 <= i < j < k :: !SameKey(rows[i], rows[j])
      invariant forall x :: x in seen <==> exists i :: 0 <= i < k && (rows[i].exchange, rows[i].asset) == x
    {
      var item := raw.value[k];
      if !WellFormedBalance(item) {
        return None;
      }
      var row := BalanceOf(item);
      if (row.exchange, row.asset) in seen {
        var i :| 0 <= i < k && (rows[i].exchange, rows[i].asset) == (row.exchange, row.asset);
        assert SameKey(BalanceOf(raw.value[i]), BalanceOf(raw.value[k]));
        return None;
      }
      seen := seen + {(row.exchange, row.asset)};
      rows := rows + [row];
      assert (rows[k].exchange, rows[k].asset) == (row.exchange, row.asset);
    }
    assert WellFormedBalances(raw.value) && rows == ObservedBalances(raw).value;
    balances := Some(rows);
  }

  ghost predicate AcceptedBalance(item: BalanceItem) {
    && item.BalanceRow? && NotBlank(item.exchange) && NotBlank(item.asset)
    && item.free.Some? && item.free.value >= 0.0 && item.locked.Some? && item.locked.value >= 0.0
  }

  /** The two rows name the same exchange, and the same asset in whatever letter case. */
  ghost predicate OfOneKey(a: BalanceItem, b: BalanceItem)
    requires AcceptedBalance(a) && AcceptedBalance(b)
  {
    && Strip(a.exchange.value) == Strip(b.exchange.value)
    && Upper(Strip(a.asset.value)) == Upper(Strip(b.asset.value))
  }

  /** A list of balances passes exactly if each row has names and two amounts, and no two are of one key. */
  lemma BalancesAccepted(items: seq<BalanceItem>)
    ensures ObservedBalances(Value(items)).Some? <==>
            && (forall i | 0 <= i < |items| :: AcceptedBalance(items[i]))
            && (forall i, j | 0 <= i < j < |items| :: !OfOneKey(items[i], items[j]))
  {
    forall i | 0 <= i < |items| ensures WellFormedBalance(items[i]) <==> AcceptedBalance(items[i]) {
      BalanceAccepted(items[i]);
    }
    if ObservedBalances(Value(items)).Some? {
      forall i, j | 0 <= i < j < |items| ensures !OfOneKey(items[i], items[j]) {
        assert !SameKey(BalanceOf(items[i]), BalanceOf(items[j]));
      }
    }
  }

  lemma BalanceAccepted(item: BalanceItem)
    ensures WellFormedBalance(item) <==> AcceptedBalance(item)
  {
    if item.BalanceRow? && item.exchange.Some? && item.asset.Some? {
      BlankStripsToNothing(item.exchange.value);
      BlankStripsToNothing(item.asset.value);
    }
  }
}
