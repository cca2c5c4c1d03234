/** The backtest replay ledger: a fold over decision, order and fill events. */
module BacktestReplay {
  import opened Sums

  datatype Fill = Fill(quantity: real, price: real, fee: real)

  datatype Status = Accepted | Partial | Filled

  datatype Order = Order(
    orderId: string,
    symbol: string,
    isBuy: bool,
    quantity: real,
    limitPrice: real,
    status: Status,
    filledQuantity: real,
    avgFillPrice: real,
    fills: seq<Fill>,
    signedQuantity: real)

  /** An event after the coercions of the source: missing ids and symbols are empty strings, `isBuy` is
      `side.lower() == "buy"`. */
  datatype Event =
    | DecisionEvent(payload: string)
    | OrderEvent(orderId: string, symbol: string, isBuy: bool, quantity: real, price: real)
    | FillEvent(orderId: string, fillId: string, timestamp: string, symbol: string, quantity: real, price: real,
                fee: real)
    | OtherEvent

  datatype PositionEvent = PositionEvent(symbol: string, quantity: real, averagePrice: real,
                                         orderId: string, fillId: string, timestamp: string)

  datatype PnlEvent = PnlEvent(cash: real, realized: real, fees: real, slippage: real, inventoryOk: bool, cashOk: bool,
                               orderId: string, fillId: string, timestamp: string)

  datatype Ledger = Ledger(
    decisions: seq<Event>,
    orders: Dict<Order>,
    positions: Dict<real>,
    avgPrices: Dict<real>,
    cash: real,
    realized: real,
    fees: real,
    slippage: real,
    positionEvents: seq<PositionEvent>,
    pnlEvents: seq<PnlEvent>)

  const TOLERANCE := 0.000000001       // 1e-9
  const DUST := 0.000000000001         // 1e-12

  const EMPTY := Ledger([], Dict([], map[]), Dict([], map[]), Dict([], map[]), 0.0, 0.0, 0.0, 0.0, [], [])

  function Digits(n: nat): string {
    if n < 10 then ["0123456789"[n]] else Digits(n / 10) + ["0123456789"[n % 10]]
  }

  function OrderId(orders: Dict<Order>, e: Event): string
    requires e.OrderEvent?
  {
    if e.orderId != "" then e.orderId else "order-" + Digits(|orders.keys| + 1)
  }

  function NewOrder(id: string, e: Event): Order
    requires e.OrderEvent?
  {
    Order(id, e.symbol, e.isBuy, e.quantity, e.price, Accepted, 0.0, 0.0, [], Signed(e.isBuy, e.quantity))
  }

  function Signed(isBuy: bool, quantity: real): real {
    if isBuy then quantity else -quantity
  }

  function SymbolOf(order: Order, e: Event): string
    requires e.FillEvent?
  {
    if order.symbol != "" then order.symbol else if e.symbol != "" then e.symbol else "UNKNOWN"
  }

  // ----- What an order's fills add up to

  function Quantity(f: Fill): real {
    f.quantity
  }

  function Notional(f: Fill): real {
    f.quantity * f.price
  }

  function FillFee(f: Fill): real {
    f.fee
  }

  /** The inventory that an order's recorded fills account for. */
  function FilledBy(o: Order): real {
    Signed(o.isBuy, Sum(Quantity, o.fills))
  }

  /** The cash that an order's recorded fills cost. */
  function CostOf(o: Order): real {
    Signed(o.isBuy, Sum(Notional, o.fills)) + Sum(FillFee, o.fills)
  }

  function Id(x: real): real {
    x
  }

  // ----- One step

  function WithFill(order: Order, f: Fill): Order {
    var filled := order.filledQuantity + f.quantity;
    var fills := order.fills + [f];
    order.(
      filledQuantity := filled,
      fills := fills,
      avgFillPrice := if filled > 0.0 then Sum(Notional, fills) / filled else order.avgFillPrice,
      status := if Abs(filled - order.quantity) < TOLERANCE then Filled else Partial)
  }

  function AveragePrice(position: real, average: real, signedQuantity: real, price: real): real {
    if Abs(position + signedQuantity) < DUST then 0.0
    else if position == 0.0 || (position > 0.0) == (signedQuantity > 0.0) then
      (Abs(position) * average + Abs(signedQuantity) * price) / (Abs(position) + Abs(signedQuantity))
    else average
  }

  function SlippageOf(order: Order, quantity: real, price: real): real {
    var expected := if order.limitPrice == 0.0 then price else order.limitPrice;
    Abs(quantity) * Abs(price - expected)
  }

  /** The books after a fill: order, position, average price, cash and costs. */
  function Booked(l: Ledger, e: Event): Ledger
    requires e.FillEvent? && e.orderId in l.orders.entries
  {
    var order := l.orders.entries[e.orderId];
    var symbol, signed := SymbolOf(order, e), Signed(order.isBuy, e.quantity);
    var prior, average := l.positions.GetOr(symbol, 0.0), l.avgPrices.GetOr(symbol, 0.0);
    var slip := SlippageOf(order, e.quantity, e.price);
    l.(orders := l.orders.Put(e.orderId, WithFill(order, Fill(e.quantity, e.price, e.fee))),
       positions := l.positions.Put(symbol, prior + signed),
       avgPrices := l.avgPrices.Put(symbol, AveragePrice(prior, average, signed, e.price)),
       cash := l.cash - signed * e.price - e.fee,
       realized := l.realized - (e.fee + slip),
       fees := l.fees + e.fee,
       slippage := l.slippage + slip)
  }

  /** The two records that a booked fill emits. */
  function Emitted(l: Ledger, e: Event, symbol: string, inventoryOk: bool, cashOk: bool): Ledger
    requires e.FillEvent? && symbol in l.positions.entries && symbol in l.avgPrices.entries
  {
    var position := PositionEvent(symbol, l.positions.entries[symbol], l.avgPrices.entries[symbol],
                                  e.orderId, e.fillId, e.timestamp);
    var pnl := PnlEvent(l.cash, l.realized, l.fees, l.slippage, inventoryOk, cashOk, e.orderId, e.fillId, e.timestamp);
    l.(positionEvents := l.positionEvents + [position], pnlEvents := l.pnlEvents + [pnl])
  }

  function ApplyFill(l: Ledger, e: Event): Ledger
    requires e.FillEvent? && e.orderId in l.orders.entries
  {
    var b := Booked(l, e);
    Emitted(b, e, SymbolOf(l.orders.entries[e.orderId], e),
            Abs(Total(Id, b.positions) - Total(FilledBy, b.orders)) < TOLERANCE,
            Abs(b.cash - -Total(CostOf, b.orders)) < TOLERANCE)
  }

  function Step(l: Ledger, e: Event): Ledger {
    match e
    case DecisionEvent(_) => l.(decisions := l.decisions + [e])
    case OrderEvent(_, _, _, _, _) => var id := OrderId(l.orders, e); l.(orders := l.orders.Put(id, NewOrder(id, e)))
    case FillEvent(id, _, _, _, _, _, _) => if id in l.orders.entries then ApplyFill(l, e) else l
    case OtherEvent => l
  }

  function Replay(events: seq<Event>): Ledger {
    if events == [] then EMPTY else Step(Replay(events[..|events| - 1]), events[|events| - 1])
  }

  // ----- The loop

  method SumPositions(positions: Dict<real>) returns (total: real)
    requires positions.Valid()
    ensures total == Total(Id, positions)
  {
    total := 0.0;
    ghost var f := Terms(Id, positions.entries);
    for i := 0 to |positions.keys|
      invariant total == Sum(f, positions.keys[..i])
    {
      var k := positions.keys[i];
      assert k in positions.keys && positions.keys[..i + 1] == positions.keys[..i] + [k];
      SumAppend(f, positions.keys[..i], k);
      total := total + positions.entries[k];
    }
    assert positions.keys[..|positions.keys|] == positions.keys;
  }

  /** One order's share of `filled_inventory` and of `expected_cash`. */
  method SumFills(order: Order) returns (filled: real, cost: real)
    ensures filled == FilledBy(order) && cost == CostOf(order)
  {
    filled, cost := 0.0, 0.0;
    for i := 0 to |order.fills|
      invariant filled == Signed(order.isBuy, Sum(Quantity, order.fills[..i]))
      invariant cost == Signed(order.isBuy, Sum(Notional, order.fills[..i])) + Sum(FillFee, order.fills[..i])
    {
      var f := order.fills[i];
      assert order.fills[..i + 1] == order.fills[..i] + [f];
      SumAppend(Quantity, order.fills[..i], f);
      SumAppend(Notional, order.fills[..i], f);
      SumAppend(FillFee, order.fills[..i], f);
      SignedTimes(order.isBuy, f.quantity, f.price);
      filled := filled + Signed(order.isBuy, f.quantity);
      cost := cost + (Signed(order.isBuy, f.quantity) * f.price + f.fee);
    }
    assert order.fills[..|order.fills|] == order.fills;
  }

  lemma SignedTimes(isBuy: bool, x: real, y: real)
    ensures Signed(isBuy, x) * y == Signed(isBuy, x * y)
  {
  }

  method SumOrders(orders: Dict<Order>) returns (filled: real, cost: real)
    requires orders.Valid()
    ensures filled == Total(FilledBy, orders) && cost == Total(CostOf, orders)
  {
    filled, cost := 0.0, 0.0;
    ghost var f, g := Terms(FilledBy, orders.entries), Terms(CostOf, orders.entries);
    for i := 0 to |orders.keys|
      invariant filled == Sum(f, orders.keys[..i]) && cost == Sum(g, orders.keys[..i])
    {
      hide FilledBy, CostOf;
      var k := orders.keys[i];
      assert k in orders.keys && orders.keys[..i + 1] == orders.keys[..i] + [k];
      SumAppend(f, orders.keys[..i], k);
      SumAppend(g, orders.keys[..i], k);
      var p, q := SumFills(orders.entries[k]);
      filled, cost := filled + p, cost + q;
    }
    assert orders.keys[..|orders.keys|] == orders.keys;
  }

  ghost predicate WellKeyed(l: Ledger) {
    l.orders.Valid() && l.positions.Valid() && l.avgPrices.Valid()
  }

  lemma {:induction false} ReplayWellKeyed(events: seq<Event>)
    ensures WellKeyed(Replay(events))
  {
    hide AveragePrice, WithFill, SlippageOf, Total;
    if events != [] { ReplayWellKeyed(events[..|events| - 1]); }
  }

  lemma ReplayNext(events: seq<Event>, i: nat)
    requires i < |events|
    ensures Replay(events[..i + 1]) == Step(Replay(events[..i]), events[i])
    ensures WellKeyed(Replay(events[..i])) && WellKeyed(Replay(events[..i + 1]))
  {
    hide Step;
    assert events[..i + 1][..i] == events[..i];
    ReplayWellKeyed(events[..i]);
    ReplayWellKeyed(events[..i + 1]);
  }

  /** The body of the loop for a fill whose order is known: both flags are recomputed from the books. */
  method ReplayFill(l: Ledger, event: Event) returns (r: Ledger)
    requires WellKeyed(l) && event.FillEvent? && event.orderId in l.orders.entries
    ensures r == ApplyFill(l, event)
  {
    hide AveragePrice, WithFill, SlippageOf, Total, FilledBy, CostOf, Signed, SymbolOf, Dict.GetOr, Emitted;
    var booked := Booked(l, event);
    var inventory := SumPositions(booked.positions);
    var filled, cost := SumOrders(booked.orders);
    r := Emitted(booked, event, SymbolOf(l.orders.entries[event.orderId], event),
                 Abs(inventory - filled) < TOLERANCE, Abs(booked.cash - -cost) < TOLERANCE);
  }

  /** The loop of `replay_backtest`; `l` holds its dictionaries, lists and running totals. */
  method ReplayBacktest(events: seq<Event>) returns (l: Ledger)
    ensures l == Replay(events)
  {
    l := EMPTY;
    for i := 0 to |events|
      invariant l == Replay(events[..i])
    {
      hide Replay, ApplyFill, NewOrder, OrderId;
      ReplayNext(events, i);
      var event := events[i];
      match event {
        case DecisionEvent(_) =>
          l := l.(decisions := l.decisions + [event]);
        case OrderEvent(_, _, _, _, _) =>
          var id := OrderId(l.orders, event);
          l := l.(orders := l.orders.Put(id, NewOrder(id, event)));
        case FillEvent(id, _, _, _, _, _, _) =>
          if id in l.orders.entries {
            l := ReplayFill(l, event);
          }
        case OtherEvent =>
      }
    }
    assert events[..|events|] == events;
  }
}
