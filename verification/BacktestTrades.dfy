/** A backtest told by its events alone: which order event each fill belongs to, and what the fills add up to. */
module BacktestTrades {
  import opened Options
  import opened Sums
  import opened BacktestReplay

  // ----- Order ids

  function Generated(j: nat): string {
    "order-" + Digits(j)
  }

  /** The number that a sequence of decimal digits stands for. */
  function ValueOf(digits: string): int {
    if digits == "" then 0 else 10 * ValueOf(digits[..|digits| - 1]) + (digits[|digits| - 1] as int - '0' as int)
  }

  /** Decimal digits of the number, without a leading zero. */
  lemma {:induction false} DigitsMean(n: nat)
    ensures var d := Digits(n);
      && ValueOf(d) == n && d != "" && (n > 0 ==> d[0] != '0')
      && forall i :: 0 <= i < |d| ==> '0' <= d[i] <= '9'
  {
    var d := Digits(n);
    if n < 10 {
      assert d[..0] == "";
    } else {
      DigitsMean(n / 10);
      assert d[..|d| - 1] == Digits(n / 10);
    }
  }

  /** The id of an order event: its own, or `order-` and one more than the number of ids in use. */
  function AssignedId(known: nat, e: Event): string
    requires e.OrderEvent?
  {
    if e.orderId != "" then e.orderId else "order-" + Digits(known + 1)
  }

  /** The ids in use, in the order in which they first came up. */
  function BookIds(events: seq<Event>): seq<string> {
    if events == [] then []
    else
      var past, e := events[..|events| - 1], events[|events| - 1];
      var before := BookIds(past);
      if !e.OrderEvent? || AssignedId(|before|, e) in before then before else before + [AssignedId(|before|, e)]
  }

  /** The last order event that was assigned this id. */
  function OpenedBy(events: seq<Event>, id: string): (r: Option<Event>)
    ensures r.Some? ==> r.value.OrderEvent?
  {
    if events == [] then None
    else
      var past, e := events[..|events| - 1], events[|events| - 1];
      if e.OrderEvent? && AssignedId(|BookIds(past)|, e) == id then Some(e) else OpenedBy(past, id)
  }

  /** The fills of an id since then. */
  function FillsSince(events: seq<Event>, id: string): seq<Fill> {
    if events == [] then []
    else
      var past, e := events[..|events| - 1], events[|events| - 1];
      if e.OrderEvent? && AssignedId(|BookIds(past)|, e) == id then []
      else if e.FillEvent? && e.orderId == id && OpenedBy(past, id).Some?
      then FillsSince(past, id) + [Fill(e.quantity, e.price, e.fee)]
      else FillsSince(past, id)
  }

  /** An order as its event and its fills make it. */
  ghost predicate IsOrderOf(o: Order, id: string, e: Event, fills: seq<Fill>) {
    && e.OrderEvent? && o.orderId == id && o.symbol == e.symbol && o.isBuy == e.isBuy
    && o.quantity == e.quantity && o.limitPrice == e.price && o.fills == fills
    && o.signedQuantity == if e.isBuy then e.quantity else -e.quantity
  }

  ghost predicate IsBookOf(orders: Dict<Order>, events: seq<Event>) {
    && orders.keys == BookIds(events)
    && (forall id :: id in orders.entries <==> id in orders.keys)
    && (forall id :: id in orders.entries <==> OpenedBy(events, id).Some?)
    && (forall id :: id in orders.entries ==>
          IsOrderOf(orders.entries[id], id, OpenedBy(events, id).value, FillsSince(events, id)))
  }

  lemma OrderOpens(past: seq<Event>, e: Event, k: string)
    requires e.OrderEvent?
    ensures var events, id := past + [e], AssignedId(|BookIds(past)|, e);
      && OpenedBy(events, k) == (if k == id then Some(e) else OpenedBy(past, k))
      && FillsSince(events, k) == (if k == id then [] else FillsSince(past, k))
      && BookIds(events) == (if id in BookIds(past) then BookIds(past) else BookIds(past) + [id])
  {
    hide AssignedId;
    assert (past + [e])[..|past|] == past;
  }

  lemma NewOrderIs(id: string, e: Event)
    requires e.OrderEvent?
    ensures IsOrderOf(NewOrder(id, e), id, e, [])
  {
  }

  lemma OrderStepBook(orders: Dict<Order>, past: seq<Event>, e: Event)
    requires IsBookOf(orders, past) && e.OrderEvent?
    ensures IsBookOf(orders.Put(OrderId(orders, e), NewOrder(OrderId(orders, e), e)), past + [e])
  {
    var id := OrderId(orders, e);
    assert id == AssignedId(|BookIds(past)|, e);
    assert IsOrderOf(NewOrder(id, e), id, e, []) by { NewOrderIs(id, e); }
    hide OrderId, AssignedId, BookIds, NewOrder, IsOrderOf, OpenedBy, FillsSince;
    forall k ensures OpenedBy(past + [e], k) == (if k == id then Some(e) else OpenedBy(past, k)) {
      OrderOpens(past, e, k);
    }
    forall k ensures FillsSince(past + [e], k) == (if k == id then [] else FillsSince(past, k)) {
      OrderOpens(past, e, k);
    }
    OrderOpens(past, e, id);
  }

  lemma FillStepBook(orders: Dict<Order>, past: seq<Event>, e: Event)
    requires IsBookOf(orders, past) && e.FillEvent? && e.orderId in orders.entries
    ensures IsBookOf(orders.Put(e.orderId, WithFill(orders.entries[e.orderId], Fill(e.quantity, e.price, e.fee))),
                     past + [e])
  {
    hide AssignedId, Sum;
    var events := past + [e];
    assert events[..|past|] == past;
    forall k ensures OpenedBy(events, k) == OpenedBy(past, k) {}
    assert BookIds(events) == BookIds(past);
  }

  lemma OtherStepBook(orders: Dict<Order>, past: seq<Event>, e: Event)
    requires IsBookOf(orders, past) && !e.OrderEvent? && !(e.FillEvent? && e.orderId in orders.entries)
    ensures IsBookOf(orders, past + [e])
  {
    hide AssignedId;
    var events := past + [e];
    assert events[..|past|] == past;
    forall k ensures OpenedBy(events, k) == OpenedBy(past, k) {}
    assert BookIds(events) == BookIds(past);
    assert e.FillEvent? ==> OpenedBy(past, e.orderId).None?;
    hide OpenedBy, BookIds, IsOrderOf;
    forall k ensures FillsSince(events, k) == FillsSince(past, k) {}
  }

  lemma StepOrders(l: Ledger, e: Event)
    ensures Step(l, e).orders ==
      match e
      case OrderEvent(_, _, _, _, _) => l.orders.Put(OrderId(l.orders, e), NewOrder(OrderId(l.orders, e), e))
      case FillEvent(id, _, _, _, _, _, _) =>
        if id !in l.orders.entries then l.orders
        else l.orders.Put(id, WithFill(l.orders.entries[id], Fill(e.quantity, e.price, e.fee)))
      case _ => l.orders
  {
    hide WithFill, AveragePrice, SlippageOf, Total, NewOrder, OrderId, SymbolOf, Signed, Dict.GetOr;
  }

  /** The order book of a replay, from the events alone: under each id stands the last order event assigned that id,
      with the fills since. */
  lemma {:induction false} ReplayBook(events: seq<Event>)
    ensures IsBookOf(Replay(events).orders, events)
  {
    if events == [] {
      assert EMPTY.orders == Dict([], map[]);
    } else {
      var past, e := events[..|events| - 1], events[|events| - 1];
      var l := Replay(past);
      ReplayBook(past);
      assert events == past + [e] && Replay(events) == Step(l, e);
      StepOrders(l, e);
      hide Step, IsBookOf, Replay, WithFill, NewOrder, OrderId;
      if e.OrderEvent? {
        OrderStepBook(l.orders, past, e);
      } else if e.FillEvent? && e.orderId in l.orders.entries {
        FillStepBook(l.orders, past, e);
      } else {
        OtherStepBook(l.orders, past, e);
      }
    }
  }

  // ----- Trades

  /** A fill that was applied, with its symbol, signed quantity and slippage. */
  datatype Trade = Trade(orderId: string, fillId: string, timestamp: string, symbol: string, signed: real, price: real,
                         fee: real, slippage: real)

  /** The fills of orders that are known by then. */
  function Trades(events: seq<Event>): seq<Trade> {
    if events == [] then []
    else
      var n := |events| - 1;
      Trades(events[..n]) + TradeOf(events[..n], events[n])
  }

  /** A fill costs, beside its fee, its absolute quantity times the distance between its price and the limit of the
      order event that opened its order, or nothing when that limit is zero. */
  function TradeOf(past: seq<Event>, e: Event): seq<Trade> {
    if !e.FillEvent? || OpenedBy(past, e.orderId).None? then []
    else
      var o := OpenedBy(past, e.orderId).value;
      [Trade(e.orderId, e.fillId, e.timestamp,
             if o.symbol != "" then o.symbol else if e.symbol != "" then e.symbol else "UNKNOWN",
             if o.isBuy then e.quantity else -e.quantity, e.price, e.fee,
             if o.price == 0.0 then 0.0 else Abs(e.quantity) * Abs(e.price - o.price))]
  }

  function Fee(t: Trade): real {
    t.fee
  }

  function Slip(t: Trade): real {
    t.slippage
  }

  function Outlay(t: Trade): real {
    t.signed * t.price + t.fee
  }

  /** What a trade adds to the position of a symbol. */
  function Moved(symbol: string): Trade -> real {
    (t: Trade) => if t.symbol == symbol then t.signed else 0.0
  }

  /** What a trade does to the books: money, */
  ghost predicate Paid(l: Ledger, after: Ledger, t: Trade) {
    && after.cash == l.cash - Outlay(t) && after.fees == l.fees + t.fee && after.slippage == l.slippage + t.slippage
    && after.realized == l.realized - (t.fee + t.slippage)
    && after.decisions == l.decisions
  }

  /** positions, */
  ghost predicate Positioned(l: Ledger, after: Ledger, t: Trade) {
    forall s ::
      var position, average := l.positions.GetOr(s, 0.0), l.avgPrices.GetOr(s, 0.0);
      && after.positions.GetOr(s, 0.0) == position + Moved(s)(t)
      && after.avgPrices.GetOr(s, 0.0) ==
           if s == t.symbol then AveragePrice(position, average, t.signed, t.price) else average
  }

  /** and the two records. */
  ghost predicate Recorded(l: Ledger, after: Ledger, t: Trade) {
    && after.positionEvents == l.positionEvents + [PositionEvent(
         t.symbol, after.positions.GetOr(t.symbol, 0.0), after.avgPrices.GetOr(t.symbol, 0.0),
         t.orderId, t.fillId, t.timestamp)]
    && |after.pnlEvents| == |l.pnlEvents| + 1 && l.pnlEvents == after.pnlEvents[..|l.pnlEvents|]
    && (var p := after.pnlEvents[|l.pnlEvents|];
        && p.cash == after.cash && p.realized == after.realized && p.fees == after.fees && p.slippage == after.slippage
        && p.orderId == t.orderId && p.fillId == t.fillId && p.timestamp == t.timestamp)
  }

  ghost predicate BookedAs(l: Ledger, after: Ledger, t: Trade) {
    Paid(l, after, t) && Positioned(l, after, t) && Recorded(l, after, t)
  }

  lemma TradeIs(l: Ledger, past: seq<Event>, e: Event)
    requires IsBookOf(l.orders, past) && e.FillEvent? && e.orderId in l.orders.entries
    ensures var o := l.orders.entries[e.orderId];
      TradeOf(past, e) == [Trade(e.orderId, e.fillId, e.timestamp, SymbolOf(o, e), Signed(o.isBuy, e.quantity), e.price,
                                 e.fee, SlippageOf(o, e.quantity, e.price))]
  {
    hide OpenedBy, BookIds, FillsSince;
    assert IsOrderOf(l.orders.entries[e.orderId], e.orderId, OpenedBy(past, e.orderId).value,
                     FillsSince(past, e.orderId));
  }

  lemma FillPaid(l: Ledger, e: Event, t: Trade)
    requires e.FillEvent? && e.orderId in l.orders.entries
    requires var o := l.orders.entries[e.orderId];
      && t.signed == Signed(o.isBuy, e.quantity) && t.price == e.price
      && t.fee == e.fee && t.slippage == SlippageOf(o, e.quantity, e.price)
    ensures Paid(l, ApplyFill(l, e), t)
  {
    hide AveragePrice, Total, WithFill, SlippageOf, SymbolOf, Signed, FilledBy, CostOf;
  }

  lemma FillPositioned(l: Ledger, e: Event, t: Trade)
    requires e.FillEvent? && e.orderId in l.orders.entries
    requires var o := l.orders.entries[e.orderId];
      && t.symbol == SymbolOf(o, e) && t.signed == Signed(o.isBuy, e.quantity) && t.price == e.price
    ensures Positioned(l, ApplyFill(l, e), t)
  {
    hide AveragePrice, Total, WithFill, SlippageOf, SymbolOf, Signed, FilledBy, CostOf;
  }

  lemma FillRecorded(l: Ledger, e: Event, t: Trade)
    requires e.FillEvent? && e.orderId in l.orders.entries
    requires t.symbol == SymbolOf(l.orders.entries[e.orderId], e)
    requires t.orderId == e.orderId && t.fillId == e.fillId && t.timestamp == e.timestamp
    ensures Recorded(l, ApplyFill(l, e), t)
  {
    hide AveragePrice, Total, WithFill, SlippageOf, SymbolOf, Signed, FilledBy, CostOf;
  }

  lemma FillIsTrade(l: Ledger, past: seq<Event>, e: Event)
    requires IsBookOf(l.orders, past) && e.FillEvent? && e.orderId in l.orders.entries
    ensures |TradeOf(past, e)| == 1 && BookedAs(l, ApplyFill(l, e), TradeOf(past, e)[0])
  {
    hide IsBookOf, TradeOf, ApplyFill, Paid, Positioned, Recorded, SlippageOf, SymbolOf, Signed;
    TradeIs(l, past, e);
    FillPaid(l, e, TradeOf(past, e)[0]);
    FillPositioned(l, e, TradeOf(past, e)[0]);
    FillRecorded(l, e, TradeOf(past, e)[0]);
  }

  /** What one event does: a trade is booked, and anything else leaves money, positions and records alone. */
  lemma StepTrades(past: seq<Event>, e: Event)
    ensures var l, after := Replay(past), Replay(past + [e]);
      if TradeOf(past, e) == [] then
        && after.positions == l.positions && after.avgPrices == l.avgPrices && after.cash == l.cash
        && after.realized == l.realized && after.fees == l.fees && after.slippage == l.slippage
        && after.positionEvents == l.positionEvents && after.pnlEvents == l.pnlEvents
        && after.decisions == l.decisions + (if e.DecisionEvent? then [e] else [])
      else |TradeOf(past, e)| == 1 && BookedAs(l, after, TradeOf(past, e)[0])
    ensures Trades(past + [e]) == Trades(past) + TradeOf(past, e)
  {
    assert (past + [e])[..|past|] == past;
    ReplayBook(past);
    var l := Replay(past);
    assert Replay(past + [e]) == Step(l, e);
    hide Replay, ApplyFill, NewOrder, OrderId, BookedAs;
    if e.FillEvent? && e.orderId in l.orders.entries {
      FillIsTrade(l, past, e);
    } else {
      assert TradeOf(past, e) == [];
    }
  }
}
