/** What the replay ledger conserves, and exactly when it does not. */
module BacktestLaws {
  import opened Sums
  import opened BacktestReplay
  import opened BacktestTrades

  // ----- Conservation: the two reconciliation flags

  /** An order event under an id that is already in use discards the fills recorded under it. */
  function LostOrder(l: Ledger, e: Event): (r: seq<Order>) {
    if e.OrderEvent? && OrderId(l.orders, e) in l.orders.entries then [l.orders.entries[OrderId(l.orders, e)]] else []
  }

  /** The orders overwritten in the course of a replay, as they stood then. */
  function Lost(events: seq<Event>): seq<Order> {
    if events == [] then []
    else
      var n := |events| - 1;
      Lost(events[..n]) + LostOrder(Replay(events[..n]), events[n])
  }

  lemma NoFillsNothing(o: Order)
    requires o.fills == []
    ensures FilledBy(o) == 0.0 && CostOf(o) == 0.0
  {
  }

  lemma FilledAdds(order: Order, f: Fill)
    ensures FilledBy(WithFill(order, f)) == FilledBy(order) + Signed(order.isBuy, f.quantity)
    ensures CostOf(WithFill(order, f)) == CostOf(order) + Signed(order.isBuy, f.quantity) * f.price + f.fee
  {
    var after := WithFill(order, f);
    assert after.fills == order.fills + [f] && after.isBuy == order.isBuy;
    SumAppend(Quantity, order.fills, f);
    CostAdds(order, f, after);
    hide WithFill, Sum, CostOf;
  }

  lemma CostAdds(order: Order, f: Fill, after: Order)
    requires after.fills == order.fills + [f] && after.isBuy == order.isBuy
    ensures CostOf(after) == CostOf(order) + Signed(order.isBuy, f.quantity) * f.price + f.fee
  {
    hide Sum;
    SumAppend(Notional, order.fills, f);
    SumAppend(FillFee, order.fills, f);
    SignedTimes(order.isBuy, f.quantity, f.price);
  }

  lemma SumOne<T>(f: T -> real, x: T)
    ensures Sum(f, [x]) == f(x)
  {
    assert [x][..0] == [];
  }

  /** Positions less recorded fills, and cash less recomputed cash, are exactly what the overwritten orders
      had been filled for. */
  ghost predicate Balanced(l: Ledger, lost: seq<Order>) {
    && Total(Id, l.positions) - Total(FilledBy, l.orders) == Sum(FilledBy, lost)
    && l.cash + Total(CostOf, l.orders) == -Sum(CostOf, lost)
  }

  lemma OrderStepBalanced(l: Ledger, lost: seq<Order>, e: Event)
    requires WellKeyed(l) && Balanced(l, lost) && e.OrderEvent?
    ensures Balanced(Step(l, e), lost + LostOrder(l, e))
  {
    hide FilledBy, CostOf, Sum;
    var id := OrderId(l.orders, e);
    var o := NewOrder(id, e);
    NoFillsNothing(o);
    TotalPut(FilledBy, l.orders, id, o);
    TotalPut(CostOf, l.orders, id, o);
    if id in l.orders.entries {
      SumAppend(FilledBy, lost, l.orders.entries[id]);
      SumAppend(CostOf, lost, l.orders.entries[id]);
    } else {
      assert lost + [] == lost;
    }
  }

  lemma FillStepBalanced(l: Ledger, lost: seq<Order>, e: Event)
    requires WellKeyed(l) && Balanced(l, lost) && e.FillEvent? && e.orderId in l.orders.entries
    ensures Balanced(ApplyFill(l, e), lost)
  {
    hide FilledBy, CostOf, Sum, AveragePrice, SlippageOf, WithFill, Total, Terms, Dict.Put, SymbolOf, Signed;
    var order := l.orders.entries[e.orderId];
    var f := Fill(e.quantity, e.price, e.fee);
    FilledAdds(order, f);
    TotalPut(FilledBy, l.orders, e.orderId, WithFill(order, f));
    TotalPut(CostOf, l.orders, e.orderId, WithFill(order, f));
    var symbol := SymbolOf(order, e);
    TotalPut(Id, l.positions, symbol, l.positions.GetOr(symbol, 0.0) + Signed(order.isBuy, e.quantity));
    TermAt(FilledBy, l.orders.entries, e.orderId);
    TermAt(CostOf, l.orders.entries, e.orderId);
    TermAt(Id, l.positions.entries, symbol);
  }

  lemma {:induction false} ReplayBalanced(events: seq<Event>)
    ensures Balanced(Replay(events), Lost(events))
  {
    if events != [] {
      var n := |events| - 1;
      var l, e := Replay(events[..n]), events[n];
      ReplayBalanced(events[..n]);
      ReplayWellKeyed(events[..n]);
      hide Balanced, ApplyFill, WellKeyed;
      LostSplit(events);
      assert Replay(events) == Step(l, e);
      hide Replay, Lost;
      assert Lost(events[..n]) + [] == Lost(events[..n]);
      match e {
        case OrderEvent(_, _, _, _, _) => OrderStepBalanced(l, Lost(events[..n]), e);
        case FillEvent(id, _, _, _, _, _, _) => if id in l.orders.entries { FillStepBalanced(l, Lost(events[..n]), e); }
        case DecisionEvent(_) => SameBalance(l, Step(l, e), Lost(events[..n]));
        case OtherEvent =>
      }
    }
  }

  lemma SameBalance(l: Ledger, l': Ledger, lost: seq<Order>)
    requires Balanced(l, lost) && l'.orders == l.orders && l'.positions == l.positions && l'.cash == l.cash
    ensures Balanced(l', lost)
  {
  }

  /** The two flags of a fill report exactly whether what was lost so far is below the tolerance. */
  lemma FlagsReportLosses(events: seq<Event>, e: Event)
    requires e.FillEvent? && e.orderId in Replay(events).orders.entries
    ensures var l := Replay(events + [e]);
      && l.pnlEvents != []
      && (var p := l.pnlEvents[|l.pnlEvents| - 1];
          && (p.inventoryOk <==> -0.000000001 < Sum(FilledBy, Lost(events)) < 0.000000001)
          && (p.cashOk <==> -0.000000001 < Sum(CostOf, Lost(events)) < 0.000000001))
  {
    assert (events + [e])[..|events|] == events;
    ReplayBalanced(events + [e]);
    assert Lost(events + [e]) == Lost(events) + [] == Lost(events);
    hide AveragePrice, SlippageOf, WithFill, Total, FilledBy, CostOf, Sum, Lost;
  }

  /** No order event takes an id under which fills are recorded. */
  ghost predicate NoFilledIdReused(events: seq<Event>) {
    forall o :: o in Lost(events) ==> o.fills == []
  }

  lemma {:induction false} NothingLost(lost: seq<Order>)
    requires forall o :: o in lost ==> o.fills == []
    ensures Sum(FilledBy, lost) == 0.0 && Sum(CostOf, lost) == 0.0
  {
    if lost != [] {
      NothingLost(lost[..|lost| - 1]);
      NoFillsNothing(lost[|lost| - 1]);
    }
  }

  /** Both flags hold at every fill of a replay in which no filled order id is reused. */
  lemma {:induction false} FlagsHoldWithoutReuse(events: seq<Event>)
    requires NoFilledIdReused(events)
    ensures forall p :: p in Replay(events).pnlEvents ==> p.inventoryOk && p.cashOk
  {
    hide ApplyFill, NewOrder, FilledBy, CostOf, Sum, Lost;
    if events != [] {
      var n := |events| - 1;
      var l, e := Replay(events[..n]), events[n];
      LostSplit(events);
      FlagsHoldWithoutReuse(events[..n]);
      NothingLost(Lost(events[..n]));
      assert events == events[..n] + [e];
      if e.FillEvent? && e.orderId in l.orders.entries {
        FlagsReportLosses(events[..n], e);
        PnlAppended(l, e);
      }
    }
  }

  lemma PnlAppended(l: Ledger, e: Event)
    requires e.FillEvent? && e.orderId in l.orders.entries
    ensures var after := ApplyFill(l, e).pnlEvents; after != [] && after[..|after| - 1] == l.pnlEvents
  {
    hide WithFill, AveragePrice, SlippageOf, Total, Signed, SymbolOf;
  }

  lemma LostSplit(events: seq<Event>)
    requires events != []
    ensures var n := |events| - 1; Lost(events) == Lost(events[..n]) + LostOrder(Replay(events[..n]), events[n])
  {
  }

  // ----- When ids are reused

  lemma {:induction false} DigitsInjective(m: nat, n: nat)
    requires Digits(m) == Digits(n)
    ensures m == n
  {
    var x, y := Digits(m), Digits(n);
    assert x[|x| - 1] == y[|y| - 1];
    assert m % 10 == n % 10;
    if m >= 10 || n >= 10 {
      assert m >= 10 ==> x[..|x| - 1] == Digits(m / 10) && |Digits(m / 10)| >= 1;
      assert n >= 10 ==> y[..|y| - 1] == Digits(n / 10) && |Digits(n / 10)| >= 1;
      assert m >= 10 && n >= 10;
      DigitsInjective(m / 10, n / 10);
    }
  }

  lemma GeneratedInjective(i: nat, j: nat)
    requires Generated(i) == Generated(j)
    ensures i == j
  {
    assert Generated(i)[6..] == Digits(i) && Generated(j)[6..] == Digits(j);
    DigitsInjective(i, j);
  }

  /** Every order in the book has an id that some event gave it, or one generated so far. */
  ghost predicate KnownIds(orders: Dict<Order>, events: seq<Event>) {
    forall k :: k in orders.entries ==> GivenId(events, k) || GeneratedUpTo(k, |orders.keys|)
  }

  ghost predicate GivenId(events: seq<Event>, k: string) {
    exists i :: 0 <= i < |events| && events[i].OrderEvent? && events[i].orderId == k
  }

  ghost predicate GeneratedUpTo(k: string, n: nat) {
    exists j :: 1 <= j <= n && k == Generated(j)
  }

  /** Given ids are used once, and none looks like a generated one. */
  ghost predicate DistinctIds(events: seq<Event>) {
    && (forall i :: 0 <= i < |events| && events[i].OrderEvent? ==> !("order-" <= events[i].orderId))
    && (forall i, j :: 0 <= i < j < |events| && events[i].OrderEvent? && events[j].OrderEvent? ==>
          events[i].orderId != "" ==> events[i].orderId != events[j].orderId)
  }

  lemma GeneratedPrefix(j: nat)
    ensures "order-" <= Generated(j)
  {
  }

  /** The id of a new order is neither given before nor generated before. */
  lemma IdIsNew(orders: Dict<Order>, events: seq<Event>, e: Event)
    requires e.OrderEvent? && DistinctIds(events + [e])
    ensures !GivenId(events, OrderId(orders, e)) && !GeneratedUpTo(OrderId(orders, e), |orders.keys|)
  {
    hide Generated;
    var all, id, n := events + [e], OrderId(orders, e), |orders.keys|;
    assert all[|events|] == e;
    assert e.orderId == "" ==> id == Generated(n + 1) by { GeneratedIs(n + 1); }
    GeneratedPrefix(n + 1);
    forall i | 0 <= i < |events| && events[i].OrderEvent?
      ensures events[i].orderId != id
    {
      assert all[i] == events[i];
    }
    forall j | 1 <= j <= n ensures id != Generated(j) {
      GeneratedPrefix(j);
      if Generated(n + 1) == Generated(j) { GeneratedInjective(n + 1, j); }
    }
  }

  lemma GeneratedIs(j: nat)
    ensures Generated(j) == "order-" + Digits(j)
  {
  }

  lemma OrderKeepsKnownIds(orders: Dict<Order>, events: seq<Event>, e: Event)
    requires orders.Valid() && e.OrderEvent? && DistinctIds(events + [e])
    requires KnownIds(orders, events)
    ensures OrderId(orders, e) !in orders.entries
    ensures KnownIds(orders.Put(OrderId(orders, e), NewOrder(OrderId(orders, e), e)), events + [e])
  {
    hide DistinctIds, NewOrder, Digits;
    var all, id, n := events + [e], OrderId(orders, e), |orders.keys|;
    assert all[|events|] == e;
    IdIsNew(orders, events, e);
    var after := orders.Put(id, NewOrder(id, e));
    assert GivenId(all, id) || GeneratedUpTo(id, n + 1) by { assert e.orderId == "" ==> id == Generated(n + 1); }
    forall k | GivenId(events, k) ensures GivenId(all, k) {
      var i :| 0 <= i < |events| && events[i].OrderEvent? && events[i].orderId == k;
      assert all[i] == events[i];
    }
  }

  lemma LaterKeepsKnownIds(orders: Dict<Order>, after: Dict<Order>, events: seq<Event>, e: Event)
    requires KnownIds(orders, events) && after.keys == orders.keys
    requires forall k :: k in after.entries <==> k in orders.entries
    ensures KnownIds(after, events + [e])
  {
    var all := events + [e];
    forall k | k in after.entries && GivenId(events, k) ensures GivenId(all, k) {
      var i :| 0 <= i < |events| && events[i].OrderEvent? && events[i].orderId == k;
      assert all[i] == events[i];
    }
  }

  /** With ids given at most once, and none of the form order-N, nothing is ever lost: the generated ids are
      new each time. */
  lemma {:induction false} DistinctIdsLoseNothing(events: seq<Event>)
    requires DistinctIds(events)
    ensures Lost(events) == [] && KnownIds(Replay(events).orders, events)
  {
    hide OrderId, NewOrder, Generated, KnownIds, WithFill, AveragePrice, Total, SlippageOf;
    if events == [] {
      NoOrdersKnown();
    } else {
      var n := |events| - 1;
      var past, e := events[..n], events[n];
      assert events == past + [e];
      assert DistinctIds(past);
      hide DistinctIds;
      DistinctIdsLoseNothing(past);
      ReplayWellKeyed(past);
      var l := Replay(past);
      if e.OrderEvent? {
        OrderKeepsKnownIds(l.orders, past, e);
      } else {
        LaterKeepsKnownIds(l.orders, Step(l, e).orders, past, e);
      }
    }
  }

  lemma NoOrdersKnown()
    ensures KnownIds(EMPTY.orders, [])
  {
  }

  /** The ids of the order events, in order: the given one, or `order-` and one more than the orders before. */
  function AssignedIds(events: seq<Event>): seq<string> {
    if events == [] then []
    else
      var n := |events| - 1;
      var before := AssignedIds(events[..n]);
      if !events[n].OrderEvent? then before
      else before + [if events[n].orderId != "" then events[n].orderId else Generated(|before| + 1)]
  }

  /** Nothing is lost in a replay exactly when no two orders are assigned the same id. */
  lemma {:induction false} NothingLostExactly(events: seq<Event>)
    ensures Lost(events) == [] <==> Distinct(AssignedIds(events))
    ensures Lost(events) == [] ==> Replay(events).orders.keys == AssignedIds(events)
  {
    if events != [] {
      var n := |events| - 1;
      var past, e := events[..n], events[n];
      NothingLostExactly(past);
      ReplayWellKeyed(past);
      LostSplit(events);
      OrderKeys(Replay(past), e);
      assert Replay(events) == Step(Replay(past), e);
      hide Replay, Step, Lost, Generated;
      var before, ids := AssignedIds(past), AssignedIds(events);
      if e.OrderEvent? {
        assert Lost(past) == [] ==> ids == before + [OrderId(Replay(past).orders, e)] by { GeneratedIs(|before| + 1); }
        assert before == ids[..|before|];
        DistinctGrows(before, ids[|before|]);
      }
    }
  }

  /** What one event does to the ids in the book. */
  lemma OrderKeys(l: Ledger, e: Event)
    requires WellKeyed(l)
    ensures var keys := Step(l, e).orders.keys;
      if e.OrderEvent? && OrderId(l.orders, e) !in l.orders.keys then keys == l.orders.keys + [OrderId(l.orders, e)]
      else keys == l.orders.keys
  {
    hide WithFill, AveragePrice, SlippageOf, Total, Signed, SymbolOf;
  }

  lemma DistinctGrows(s: seq<string>, x: string)
    ensures Distinct(s + [x]) <==> Distinct(s) && x !in s
  {
    var t := s + [x];
    if Distinct(t) {
      forall i, j | 0 <= i < j < |s| ensures s[i] != s[j] { assert t[i] != t[j]; }
      forall i | 0 <= i < |s| ensures s[i] != x { assert t[i] != t[|s|]; }
    }
  }

  /** The failing family: a missing id is filled in with the number of orders plus one, which an earlier
      event may have given explicitly; if that order had been filled, the next fill reports a broken
      inventory although every position is right. */
  lemma GeneratedIdCollides(events: seq<Event>, e: Event, f: Event)
    requires e.OrderEvent? && e.orderId == "" && f.FillEvent?
    requires var l := Replay(events); var id := Generated(|l.orders.keys| + 1);
      && f.orderId == id && id in l.orders.entries && Lost(events) == []
      && Abs(FilledBy(l.orders.entries[id])) >= TOLERANCE
    ensures var l := Replay(events + [e] + [f]);
      l.pnlEvents != [] && !l.pnlEvents[|l.pnlEvents| - 1].inventoryOk
  {
    hide FilledBy, Sum;
    var l, all := Replay(events), events + [e];
    assert all[..|events|] == events;
    assert Replay(all) == Step(l, e);
    SumOne(FilledBy, l.orders.entries[f.orderId]);
    assert Lost(all) == [l.orders.entries[f.orderId]];
    FlagsReportLosses(all, f);
  }

  /** It happens: an explicit order-2 as the first order of a backtest, then an order without an id. */
  lemma CollisionIsReachable()
    ensures var events := [OrderEvent("order-2", "AAPL", true, 5.0, 10.0),
                           FillEvent("order-2", "f1", "t1", "AAPL", 5.0, 10.0, 0.0)];
      var l := Replay(events);
      && Generated(|l.orders.keys| + 1) == "order-2" && "order-2" in l.orders.entries && Lost(events) == []
      && Abs(FilledBy(l.orders.entries["order-2"])) >= TOLERANCE
  {
    var o := OrderEvent("order-2", "AAPL", true, 5.0, 10.0);
    var f := FillEvent("order-2", "f1", "t1", "AAPL", 5.0, 10.0, 0.0);
    var order := NewOrder("order-2", o);
    hide Replay, Lost, WithFill, FilledBy, CostOf, Digits, Dict.Put;
    OrderThenFill(o, f, "order-2");
    assert Abs(FilledBy(WithFill(order, Fill(5.0, 10.0, 0.0)))) == 5.0 by { FilledOnce(order, Fill(5.0, 10.0, 0.0)); }
    TwoIsTwo();
  }

  lemma FilledOnce(order: Order, f: Fill)
    requires order.fills == []
    ensures FilledBy(WithFill(order, f)) == Signed(order.isBuy, f.quantity)
  {
    hide WithFill, FilledBy, CostOf;
    FilledAdds(order, f);
    NoFillsNothing(order);
  }

  /** An order with an id of its own, and a fill of it. */
  lemma OrderThenFill(o: Event, f: Event, id: string)
    requires o.OrderEvent? && f.FillEvent? && o.orderId == id == f.orderId && id != ""
    ensures Lost([o, f]) == []
    ensures Replay([o, f]).orders == Dict([id], map[id := WithFill(NewOrder(id, o), Fill(f.quantity, f.price, f.fee))])
  {
    hide ApplyFill, WithFill, NewOrder;
    OneOrder(o, id);
    assert [o, f][..1] == [o];
    ApplyFillOrders(Replay([o]), f);
  }

  lemma ApplyFillOrders(l: Ledger, e: Event)
    requires e.FillEvent? && e.orderId in l.orders.entries
    ensures ApplyFill(l, e).orders
         == l.orders.Put(e.orderId, WithFill(l.orders.entries[e.orderId], Fill(e.quantity, e.price, e.fee)))
  {
  }

  lemma TwoIsTwo()
    ensures Generated(2) == "order-2"
  {
    assert Digits(2) == "2";
  }

  lemma OneOrder(o: Event, id: string)
    requires o.OrderEvent? && o.orderId == id != ""
    ensures Replay([o]) == EMPTY.(orders := Dict([id], map[id := NewOrder(id, o)])) && Lost([o]) == []
  {
    assert [o][..0] == [];
    assert Replay([]) == EMPTY && Lost([]) == [];
  }

  // ----- Each order's own figures

  /** The average price when the filled quantity was last positive. */
  function AverageFill(fills: seq<Fill>): real {
    if fills == [] then 0.0
    else if Sum(Quantity, fills) > 0.0 then Sum(Notional, fills) / Sum(Quantity, fills)
    else AverageFill(fills[..|fills| - 1])
  }

  ghost predicate OrderFigures(o: Order) {
    && o.filledQuantity == Sum(Quantity, o.fills)
    && o.avgFillPrice == AverageFill(o.fills)
    && (o.filledQuantity > 0.0 ==> o.avgFillPrice * o.filledQuantity == Sum(Notional, o.fills))
    && o.status == if o.fills == [] then Accepted
                   else if -0.000000001 < o.filledQuantity - o.quantity < 0.000000001 then Filled else Partial
  }

  lemma FillKeepsFigures(o: Order, f: Fill)
    requires OrderFigures(o)
    ensures OrderFigures(WithFill(o, f))
  {
    assert (o.fills + [f])[..|o.fills|] == o.fills;
    SumAppend(Quantity, o.fills, f);
    SumAppend(Notional, o.fills, f);
    var total, filled := Sum(Notional, o.fills + [f]), o.filledQuantity + f.quantity;
    if filled > 0.0 { assert (total / filled) * filled == total; }
  }

  /** At any point of any replay: every order's filled quantity, average fill price and status follow from
      its recorded fills, and realized PnL is the costs paid. */
  lemma {:induction false} LedgerFigures(events: seq<Event>)
    ensures var l := Replay(events);
      && (forall id :: id in l.orders.entries ==> OrderFigures(l.orders.entries[id]))
      && l.realized == -(l.fees + l.slippage)
  {
    hide OrderFigures, WithFill, AveragePrice, SlippageOf, Total, FilledBy, CostOf;
    if events != [] {
      var n := |events| - 1;
      LedgerFigures(events[..n]);
      var l, e := Replay(events[..n]), events[n];
      if e.OrderEvent? { NewOrderFigures(OrderId(l.orders, e), e); }
      if e.FillEvent? && e.orderId in l.orders.entries {
        FillKeepsFigures(l.orders.entries[e.orderId], Fill(e.quantity, e.price, e.fee));
      }
    }
  }

  lemma NewOrderFigures(id: string, e: Event)
    requires e.OrderEvent?
    ensures OrderFigures(NewOrder(id, e))
  {
  }

  /** The average price after the trades of a symbol, one after the other. */
  function AverageAfter(symbol: string, trades: seq<Trade>): real {
    if trades == [] then 0.0
    else
      var before, t := trades[..|trades| - 1], trades[|trades| - 1];
      if t.symbol != symbol then AverageAfter(symbol, before)
      else AveragePrice(Sum(Moved(symbol), before), AverageAfter(symbol, before), t.signed, t.price)
  }

  /** The books that some trades make: the totals are sums over them. */
  ghost predicate BooksOf(l: Ledger, trades: seq<Trade>) {
    && l.fees == Sum(Fee, trades) && l.slippage == Sum(Slip, trades) && l.cash == -Sum(Outlay, trades)
    && l.realized == -Sum(Fee, trades) - Sum(Slip, trades)
    && (forall s :: l.positions.GetOr(s, 0.0) == Sum(Moved(s), trades))
    && (forall s :: l.avgPrices.GetOr(s, 0.0) == AverageAfter(s, trades))
  }

  lemma TradeAdds(l: Ledger, after: Ledger, trades: seq<Trade>, t: Trade)
    requires BooksOf(l, trades) && Paid(l, after, t) && Positioned(l, after, t)
    ensures BooksOf(after, trades + [t])
  {
    hide Sum, Outlay, Moved, AveragePrice;
    SumAppend(Fee, trades, t);
    SumAppend(Slip, trades, t);
    SumAppend(Outlay, trades, t);
    assert (trades + [t])[..|trades|] == trades;
    forall s ensures after.positions.GetOr(s, 0.0) == Sum(Moved(s), trades + [t]) { SumAppend(Moved(s), trades, t); }
    assert forall s :: s != t.symbol ==> Moved(s)(t) == 0.0 by { MovedElsewhere(t); }
  }

  lemma MovedElsewhere(t: Trade)
    ensures forall s :: s != t.symbol ==> Moved(s)(t) == 0.0
  {
  }

  /** The totals, positions and average prices of a replay are those of the fills that were applied. */
  lemma {:induction false} LedgerTotals(events: seq<Event>)
    ensures BooksOf(Replay(events), Trades(events))
  {
    hide Sum, AverageAfter, BooksOf, Paid, Positioned, Recorded;
    if events == [] {
      NoTrades();
    } else {
      var n := |events| - 1;
      assert events == events[..n] + [events[n]];
      LedgerTotals(events[..n]);
      StepTrades(events[..n], events[n]);
      hide Replay, Trades, TradeOf;
      var l, trade := Replay(events[..n]), TradeOf(events[..n], events[n]);
      if trade == [] {
        assert Trades(events) == Trades(events[..n]);
        SameBooks(l, Replay(events), Trades(events));
      } else {
        assert trade == [trade[0]];
        TradeAdds(l, Replay(events), Trades(events[..n]), trade[0]);
      }
    }
  }

  lemma SameBooks(l: Ledger, after: Ledger, trades: seq<Trade>)
    requires BooksOf(l, trades) && after.positions == l.positions && after.avgPrices == l.avgPrices
    requires after.cash == l.cash && after.realized == l.realized
    requires after.fees == l.fees && after.slippage == l.slippage
    ensures BooksOf(after, trades)
  {
  }

  lemma NoTrades()
    ensures BooksOf(EMPTY, [])
  {
  }

  /** The two records that the last of some trades emits. */
  ghost predicate Tells(p: PositionEvent, q: PnlEvent, trades: seq<Trade>)
    requires trades != []
  {
    var t := trades[|trades| - 1];
    && p == PositionEvent(t.symbol, Sum(Moved(t.symbol), trades), AverageAfter(t.symbol, trades), t.orderId, t.fillId,
                          t.timestamp)
    && q.cash == -Sum(Outlay, trades) && q.fees == Sum(Fee, trades) && q.slippage == Sum(Slip, trades)
    && q.realized == -Sum(Fee, trades) - Sum(Slip, trades)
    && q.orderId == t.orderId && q.fillId == t.fillId && q.timestamp == t.timestamp
  }

  lemma {:induction false} RecordCount(events: seq<Event>)
    ensures var l := Replay(events); |l.positionEvents| == |l.pnlEvents| == |Trades(events)|
  {
    if events != [] {
      var n := |events| - 1;
      assert events == events[..n] + [events[n]];
      RecordCount(events[..n]);
      StepTrades(events[..n], events[n]);
      hide Replay, Paid, Positioned, TradeOf;
    }
  }

  /** Each trade emits one position event and one PnL event, which show the books as they are at that point. */
  lemma {:induction false} RecordsTellTrades(events: seq<Event>, k: nat)
    requires k < |Trades(events)|
    ensures var l, trades := Replay(events), Trades(events);
      && |l.positionEvents| == |l.pnlEvents| == |trades|
      && Tells(l.positionEvents[k], l.pnlEvents[k], trades[..k + 1])
  {
    hide Replay, Trades, Tells, BooksOf, Sum, AverageAfter;
    RecordCount(events);
    var n := |events| - 1;
    assert n >= 0 by { NoEventsNoTrades(); }
    RecordsGrow(events);
    var trades, before := Trades(events), Trades(events[..n]);
    if k < |before| {
      RecordsTellTrades(events[..n], k);
      assert trades[..k + 1] == before[..k + 1];
    } else {
      assert trades[..k + 1] == trades;
      LastTells(events);
    }
  }

  lemma NoEventsNoTrades()
    ensures Trades([]) == []
  {
  }

  lemma RecordsGrow(events: seq<Event>)
    requires events != []
    ensures var n := |events| - 1;
      var l, after, before, trades := Replay(events[..n]), Replay(events), Trades(events[..n]), Trades(events);
      && |before| <= |trades| <= |before| + 1 && before == trades[..|before|]
      && |l.positionEvents| == |l.pnlEvents| == |before|
      && |after.positionEvents| >= |before| && after.positionEvents[..|before|] == l.positionEvents
      && |after.pnlEvents| >= |before| && after.pnlEvents[..|before|] == l.pnlEvents
  {
    var n := |events| - 1;
    assert events == events[..n] + [events[n]];
    RecordCount(events[..n]);
    StepTrades(events[..n], events[n]);
    hide Replay, Trades, TradeOf, Paid, Positioned;
  }

  lemma LastTells(events: seq<Event>)
    requires events != [] && |Trades(events)| > |Trades(events[..|events| - 1])|
    ensures var l, trades := Replay(events), Trades(events); var m := |trades|;
      && |l.positionEvents| == |l.pnlEvents| == m
      && Tells(l.positionEvents[m - 1], l.pnlEvents[m - 1], trades)
  {
    hide Tells, BooksOf, Recorded, Replay, Trades, TradeOf, Paid, Positioned, Sum, AverageAfter;
    var n := |events| - 1;
    assert events == events[..n] + [events[n]];
    RecordCount(events);
    RecordCount(events[..n]);
    StepTrades(events[..n], events[n]);
    LedgerTotals(events);
    RecordedTells(Replay(events[..n]), Replay(events), Trades(events));
  }

  lemma RecordedTells(l: Ledger, after: Ledger, trades: seq<Trade>)
    requires trades != [] && Recorded(l, after, trades[|trades| - 1]) && BooksOf(after, trades)
    requires |l.positionEvents| == |l.pnlEvents| == |trades| - 1
    ensures |after.positionEvents| == |after.pnlEvents| == |trades|
    ensures Tells(after.positionEvents[|trades| - 1], after.pnlEvents[|trades| - 1], trades)
  {
    hide Sum, AverageAfter;
  }

  /** The decisions of a backtest are listed in order. */
  lemma {:induction false} DecisionsListed(events: seq<Event>)
    ensures Replay(events).decisions == Decisions(events)
  {
    if events != [] {
      var n := |events| - 1;
      assert events == events[..n] + [events[n]];
      DecisionsListed(events[..n]);
      StepTrades(events[..n], events[n]);
      hide Replay, Recorded, Positioned;
    }
  }

  function Decisions(events: seq<Event>): seq<Event> {
    if events == [] then []
    else
      var n := |events| - 1;
      Decisions(events[..n]) + (if events[n].DecisionEvent? then [events[n]] else [])
  }

  /** Slippage is never negative and never falls. */
  lemma {:induction false} SlippageNeverFalls(events: seq<Event>, k: nat)
    requires k <= |events|
    ensures 0.0 <= Replay(events[..k]).slippage <= Replay(events).slippage
  {
    if events == [] {
      assert events[..k] == [];
    } else {
      var n := |events| - 1;
      assert events == events[..n] + [events[n]];
      StepTrades(events[..n], events[n]);
      SlippageNotNegative(events[..n], events[n]);
      hide Replay, Recorded, Positioned, TradeOf;
      if k == |events| {
        assert events[..k] == events;
        SlippageNeverFalls(events[..n], n);
        assert events[..n][..n] == events[..n];
      } else {
        assert events[..n][..k] == events[..k];
        SlippageNeverFalls(events[..n], k);
      }
    }
  }

  lemma SlippageNotNegative(past: seq<Event>, e: Event)
    ensures TradeOf(past, e) != [] ==> TradeOf(past, e)[0].slippage >= 0.0
  {
    if TradeOf(past, e) != [] {
      var o := OpenedBy(past, e.orderId).value;
      NonNegativeProduct(Abs(e.quantity), Abs(e.price - o.price));
    }
  }

  lemma NonNegativeProduct(x: real, y: real)
    requires x >= 0.0 && y >= 0.0
    ensures x * y >= 0.0
  {
  }

  // ----- Positions and average prices

  /** The fills applied to a symbol, with signed quantities. */
  function FillsOn(events: seq<Event>, symbol: string): seq<Fill> {
    if events == [] then []
    else
      var n := |events| - 1;
      FillsOn(events[..n], symbol) + Applied(events[..n], events[n], symbol)
  }

  function Applied(past: seq<Event>, e: Event, symbol: string): (r: seq<Fill>)
    ensures |r| <= 1
  {
    var trade := TradeOf(past, e);
    if trade != [] && trade[0].symbol == symbol then [Fill(trade[0].signed, trade[0].price, trade[0].fee)] else []
  }

  function Lot(lot: real, k: int): real {
    k as real * lot
  }

  ghost predicate Lots(lot: real, x: real) {
    exists k :: x == Lot(lot, k)
  }

  lemma LotsAdd(lot: real, x: real, y: real)
    requires Lots(lot, x) && Lots(lot, y)
    ensures Lots(lot, x + y)
  {
    var i :| x == Lot(lot, i);
    var j :| y == Lot(lot, j);
    assert x + y == Lot(lot, i + j);
  }

  lemma LotsAreNotDust(lot: real, x: real)
    requires lot >= DUST && Lots(lot, x) && x != 0.0
    ensures Abs(x) >= DUST
  {
    var k :| x == Lot(lot, k);
    if k >= 1 { assert (k - 1) as real * lot >= 0.0; }
    if k <= -1 { assert (-k - 1) as real * lot >= 0.0; }
  }

  lemma WeightedAverage(p: real, a: real, q: real, x: real, lo: real, hi: real)
    requires p >= 0.0 && q >= 0.0 && p + q > 0.0 && lo <= x <= hi && (p > 0.0 ==> lo <= a <= hi)
    ensures lo <= (p * a + q * x) / (p + q) <= hi
  {
    hide Product;
    ScaledBetween(p, a, lo, hi);
    ScaledBetween(q, x, lo, hi);
    Distribute(p, q, lo);
    Distribute(p, q, hi);
    QuotientOfSum(p, a, q, x, lo, hi);
  }

  /** Multiplication under a name, to keep it apart from linear reasoning. */
  function Product(x: real, y: real): real {
    x * y
  }

  lemma QuotientOfSum(p: real, a: real, q: real, x: real, lo: real, hi: real)
    requires p + q > 0.0
    requires Product(p + q, lo) <= Product(p, a) + Product(q, x) <= Product(p + q, hi)
    ensures lo <= (p * a + q * x) / (p + q) <= hi
  {
    QuotientBetween(Product(p, a) + Product(q, x), p + q, lo, hi);
  }

  lemma ScaledBetween(p: real, a: real, lo: real, hi: real)
    requires p >= 0.0 && (p > 0.0 ==> lo <= a <= hi)
    ensures Product(p, lo) <= Product(p, a) <= Product(p, hi)
  {
  }

  lemma Distribute(p: real, q: real, x: real)
    ensures Product(p + q, x) == Product(p, x) + Product(q, x)
  {
  }

  lemma QuotientBetween(s: real, w: real, lo: real, hi: real)
    requires w > 0.0 && Product(w, lo) <= s <= Product(w, hi)
    ensures lo <= s / w <= hi
  {
    var q := s / w;
    assert q * w == s;
    NonNegativeFactor(q - lo, w);
    NonNegativeFactor(hi - q, w);
  }

  lemma NonNegativeFactor(d: real, w: real)
    requires w > 0.0 && d * w >= 0.0
    ensures d >= 0.0
  {
  }

  ghost predicate PricedBetween(l: Ledger, symbol: string, lo: real, hi: real) {
    l.positions.GetOr(symbol, 0.0) != 0.0 ==> lo <= l.avgPrices.GetOr(symbol, 0.0) <= hi
  }

  lemma AveragePriceBetween(position: real, average: real, signed: real, price: real, lo: real, hi: real)
    requires lo <= price <= hi && (position != 0.0 ==> lo <= average <= hi)
    ensures Abs(position + signed) >= DUST ==> lo <= AveragePrice(position, average, signed, price) <= hi
  {
    if Abs(position + signed) >= DUST {
      if position == 0.0 || (position > 0.0) == (signed > 0.0) {
        WeightedAverage(Abs(position), average, Abs(signed), price, lo, hi);
      }
    }
  }

  /** A position that is not flat and yet smaller than the code's 1e-12. */
  predicate Dust(position: real) {
    position != 0.0 && Abs(position) < DUST
  }

  ghost predicate NeverDust(events: seq<Event>, symbol: string) {
    forall k :: 0 <= k <= |events| ==> !Dust(Replay(events[..k]).positions.GetOr(symbol, 0.0))
  }

  ghost predicate AlwaysPricedBetween(events: seq<Event>, symbol: string, lo: real, hi: real) {
    forall k :: 0 <= k <= |events| ==> PricedBetween(Replay(events[..k]), symbol, lo, hi)
  }

  ghost predicate FilledBetween(events: seq<Event>, symbol: string, lo: real, hi: real) {
    forall f :: f in FillsOn(events, symbol) ==> lo <= f.price <= hi
  }

  lemma FillsOnPrefix(events: seq<Event>, symbol: string)
    requires events != []
    ensures var n := |events| - 1;
      && FillsOn(events, symbol) == FillsOn(events[..n], symbol) + Applied(events[..n], events[n], symbol)
      && Replay(events) == Step(Replay(events[..n]), events[n])
  {
  }

  /** In every replay a dust position has the average price zero. */
  lemma {:induction false} DustIsUnpriced(events: seq<Event>, symbol: string)
    requires Dust(Replay(events).positions.GetOr(symbol, 0.0))
    ensures Replay(events).avgPrices.GetOr(symbol, 0.0) == 0.0
  {
    if events != [] {
      hide Step, Replay, AveragePrice;
      var n := |events| - 1;
      FillsOnPrefix(events, symbol);
      TradePosition(events[..n], events[n], symbol);
      var applied := Applied(events[..n], events[n], symbol);
      if applied == [] {
        DustIsUnpriced(events[..n], symbol);
      } else {
        DustReset(Replay(events[..n]).positions.GetOr(symbol, 0.0), Replay(events[..n]).avgPrices.GetOr(symbol, 0.0),
                  applied[0]);
      }
    }
  }

  lemma DustReset(position: real, average: real, f: Fill)
    requires Abs(position + f.quantity) < DUST
    ensures AveragePrice(position, average, f.quantity, f.price) == 0.0
  {
  }

  lemma {:induction false} PricedWithoutDust(events: seq<Event>, symbol: string, lo: real, hi: real)
    requires NeverDust(events, symbol) && FilledBetween(events, symbol, lo, hi)
    ensures PricedBetween(Replay(events), symbol, lo, hi)
  {
    if events != [] {
      hide Step, Replay, AveragePrice;
      var n := |events| - 1;
      var l := Replay(events[..n]);
      FillsOnPrefix(events, symbol);
      NeverDustPrefix(events, symbol, n);
      PricedWithoutDust(events[..n], symbol, lo, hi);
      TradePosition(events[..n], events[n], symbol);
      var applied := Applied(events[..n], events[n], symbol);
      if applied != [] {
        assert applied[0] in FillsOn(events, symbol);
        assert events[..|events|] == events;
        AveragePriceBetween(l.positions.GetOr(symbol, 0.0), l.avgPrices.GetOr(symbol, 0.0), applied[0].quantity,
                            applied[0].price, lo, hi);
      }
    } else {
      assert EMPTY.positions.GetOr(symbol, 0.0) == 0.0;
    }
  }

  lemma NeverDustPrefix(events: seq<Event>, symbol: string, n: nat)
    requires NeverDust(events, symbol) && n <= |events|
    ensures NeverDust(events[..n], symbol)
  {
    forall k | 0 <= k <= n ensures !Dust(Replay(events[..n][..k]).positions.GetOr(symbol, 0.0)) {
      assert events[..n][..k] == events[..k];
    }
  }

  lemma {:induction false} FilledBetweenPrefix(events: seq<Event>, symbol: string, lo: real, hi: real, k: nat)
    requires FilledBetween(events, symbol, lo, hi) && k <= |events|
    ensures FilledBetween(events[..k], symbol, lo, hi)
  {
    if k == |events| {
      assert events[..k] == events;
    } else {
      hide Replay, Applied;
      var n := |events| - 1;
      FillsOnPrefix(events, symbol);
      assert events[..n][..k] == events[..k];
      FilledBetweenPrefix(events[..n], symbol, lo, hi, k);
    }
  }

  /** Through additions, reductions and flips: at every point of a replay the average price of a position that
      is not flat lies between the bounds on the fill prices, if and only if the position is never dust. */
  lemma AverageBetweenExactlyWithoutDust(events: seq<Event>, symbol: string, lo: real, hi: real)
    requires 0.0 < lo && FilledBetween(events, symbol, lo, hi)
    ensures AlwaysPricedBetween(events, symbol, lo, hi) <==> NeverDust(events, symbol)
  {
    hide Replay, FillsOn;
    if NeverDust(events, symbol) {
      forall k | 0 <= k <= |events| ensures PricedBetween(Replay(events[..k]), symbol, lo, hi) {
        NeverDustPrefix(events, symbol, k);
        FilledBetweenPrefix(events, symbol, lo, hi, k);
        PricedWithoutDust(events[..k], symbol, lo, hi);
      }
    }
    if AlwaysPricedBetween(events, symbol, lo, hi) {
      forall k | 0 <= k <= |events| ensures !Dust(Replay(events[..k]).positions.GetOr(symbol, 0.0)) {
        assert PricedBetween(Replay(events[..k]), symbol, lo, hi);
        if Dust(Replay(events[..k]).positions.GetOr(symbol, 0.0)) { DustIsUnpriced(events[..k], symbol); }
      }
    }
  }

  /** A position is the sum of its signed fills, and a number of lots if they all are. */
  lemma {:induction false} PositionIsSumOfFills(events: seq<Event>, symbol: string, lot: real)
    ensures Replay(events).positions.GetOr(symbol, 0.0) == Sum(Quantity, FillsOn(events, symbol))
    ensures (forall f :: f in FillsOn(events, symbol) ==> Lots(lot, f.quantity)) ==>
              Lots(lot, Replay(events).positions.GetOr(symbol, 0.0))
  {
    if events == [] {
      NoLots(lot);
    } else {
      hide Step, Replay, Lots, Sum, Quantity, AveragePrice;
      var n := |events| - 1;
      var past, l := events[..n], Replay(events[..n]);
      FillsOnPrefix(events, symbol);
      PositionIsSumOfFills(past, symbol, lot);
      TradePosition(events[..n], events[n], symbol);
      var applied := Applied(events[..n], events[n], symbol);
      if applied == [] {
        assert FillsOn(events, symbol) == FillsOn(past, symbol);
      } else {
        var f := applied[0];
        assert applied == [f] && f in FillsOn(events, symbol);
        SumAppend(Quantity, FillsOn(past, symbol), f);
        QuantityAndCost(f);
        if forall g :: g in FillsOn(events, symbol) ==> Lots(lot, g.quantity) {
          LotsAdd(lot, l.positions.GetOr(symbol, 0.0), f.quantity);
        }
      }
    }
  }

  /** When a symbol's quantities come in lots no smaller than 1e-12, dust cannot arise. */
  lemma AverageBetweenFillPrices(events: seq<Event>, symbol: string, lot: real, lo: real, hi: real)
    requires lot >= DUST && FilledBetween(events, symbol, lo, hi)
    requires forall f :: f in FillsOn(events, symbol) ==> Lots(lot, f.quantity)
    ensures NeverDust(events, symbol) && AlwaysPricedBetween(events, symbol, lo, hi)
  {
    hide Replay, FillsOn, Lots;
    forall k | 0 <= k <= |events| ensures !Dust(Replay(events[..k]).positions.GetOr(symbol, 0.0)) {
      LotsPrefix(events, symbol, lot, k);
      PositionIsSumOfFills(events[..k], symbol, lot);
      var position := Replay(events[..k]).positions.GetOr(symbol, 0.0);
      if position != 0.0 { LotsAreNotDust(lot, position); }
    }
    forall k | 0 <= k <= |events| ensures PricedBetween(Replay(events[..k]), symbol, lo, hi) {
      NeverDustPrefix(events, symbol, k);
      FilledBetweenPrefix(events, symbol, lo, hi, k);
      PricedWithoutDust(events[..k], symbol, lo, hi);
    }
  }

  lemma {:induction false} LotsPrefix(events: seq<Event>, symbol: string, lot: real, k: nat)
    requires k <= |events| && forall f :: f in FillsOn(events, symbol) ==> Lots(lot, f.quantity)
    ensures forall f :: f in FillsOn(events[..k], symbol) ==> Lots(lot, f.quantity)
  {
    if k == |events| {
      assert events[..k] == events;
    } else {
      hide Replay, Applied, Lots;
      var n := |events| - 1;
      FillsOnPrefix(events, symbol);
      assert events[..n][..k] == events[..k];
      LotsPrefix(events[..n], symbol, lot, k);
    }
  }

  function Cost(f: Fill): real {
    f.quantity * f.price
  }

  /** The position and the price that fills of one direction build up. */
  ghost predicate BuiltUp(fills: seq<Fill>, isLong: bool, position: real, average: real) {
    && position == Sum(Quantity, fills)
    && (if fills == [] then position == 0.0 else if isLong then position > 0.0 else position < 0.0)
    && IsRatio(average, Sum(Cost, fills), position)
  }

  lemma BuildUp(fills: seq<Fill>, isLong: bool, position: real, average: real, f: Fill)
    requires BuiltUp(fills, isLong, position, average) && !Dust(position + f.quantity)
    requires if isLong then f.quantity > 0.0 else f.quantity < 0.0
    ensures BuiltUp(fills + [f], isLong, position + f.quantity, AveragePrice(position, average, f.quantity, f.price))
  {
    hide AveragePrice, Sum, IsRatio;
    SumAppend(Quantity, fills, f);
    SumAppend(Cost, fills, f);
    SameSideAverage(position, average, f, Sum(Cost, fills));
  }

  /** A position built up by fills of one direction only, and never dust, is priced at exactly their weighted
      average. */
  lemma {:induction false} OneSidedAverage(events: seq<Event>, symbol: string, isLong: bool)
    requires NeverDust(events, symbol)
    requires forall f :: f in FillsOn(events, symbol) ==> if isLong then f.quantity > 0.0 else f.quantity < 0.0
    ensures var l := Replay(events);
      BuiltUp(FillsOn(events, symbol), isLong, l.positions.GetOr(symbol, 0.0), l.avgPrices.GetOr(symbol, 0.0))
  {
    if events == [] {
      NoLots(DUST);
      NoCost();
    } else {
      hide Step, Replay, AveragePrice, BuiltUp, Dust, Sum, TradeOf, FillsOn, Dict.GetOr, Applied;
      var n := |events| - 1;
      var past, l := events[..n], Replay(events[..n]);
      FillsOnPrefix(events, symbol);
      NeverDustPrefix(events, symbol, n);
      OneSidedAverage(past, symbol, isLong);
      TradePosition(events[..n], events[n], symbol);
      var applied, position := Applied(events[..n], events[n], symbol), l.positions.GetOr(symbol, 0.0);
      if applied == [] {
        assert FillsOn(events, symbol) == FillsOn(past, symbol);
      } else {
        var f := applied[0];
        assert applied == [f] && f in FillsOn(events, symbol);
        assert !Dust(position + f.quantity) by { assert events[..|events|] == events; }
        BuildUp(FillsOn(past, symbol), isLong, position, l.avgPrices.GetOr(symbol, 0.0), f);
      }
    }
  }

  lemma QuantityAndCost(f: Fill)
    ensures Quantity(f) == f.quantity && Cost(f) == f.quantity * f.price
  {
  }

  /** What one event does to a symbol's position and average price. */
  lemma TradePosition(past: seq<Event>, e: Event, symbol: string)
    ensures var l, after, applied := Replay(past), Replay(past + [e]), Applied(past, e, symbol);
      var position, average := l.positions.GetOr(symbol, 0.0), l.avgPrices.GetOr(symbol, 0.0);
      if applied == [] then
        after.positions.GetOr(symbol, 0.0) == position && after.avgPrices.GetOr(symbol, 0.0) == average
      else
        && after.positions.GetOr(symbol, 0.0) == position + applied[0].quantity
        && after.avgPrices.GetOr(symbol, 0.0) == AveragePrice(position, average, applied[0].quantity, applied[0].price)
  {
    hide AveragePrice, Replay, Paid, Recorded, TradeOf;
    StepTrades(past, e);
    MovedElsewhere(if TradeOf(past, e) == [] then Trade("", "", "", "", 0.0, 0.0, 0.0, 0.0) else TradeOf(past, e)[0]);
  }

  lemma QuotientOfProduct(x: real, y: real)
    requires x > 0.0
    ensures (x * y) / x == y
  {
  }

  /** The average price, case by case: below 1e-12 it is zero, on the same side it becomes the weighted average, and
      a fill against the position leaves it, even when it turns the position round. */
  lemma AveragePriceMeans(position: real, average: real, signed: real, price: real)
    ensures var a, after := AveragePrice(position, average, signed, price), position + signed;
      && (-0.000000000001 < after < 0.000000000001 ==> a == 0.0)
      && (after <= -0.000000000001 || after >= 0.000000000001 ==>
            && ((position >= 0.0 && signed > 0.0) || (position <= 0.0 && signed < 0.0) ==>
                  IsRatio(a, position * average + signed * price, after))
            && ((position > 0.0 && signed <= 0.0) || (position < 0.0 && signed >= 0.0) ==> a == average))
  {
    if Abs(position + signed) >= DUST {
      if (position >= 0.0 && signed > 0.0) || (position <= 0.0 && signed < 0.0) {
        hide AveragePrice;
        SameSideAverage(position, average, Fill(signed, price, 0.0), position * average);
      } else if position < 0.0 && signed == 0.0 {
        QuotientOfProduct(-position, average);
      }
    }
  }

  lemma SameSideAverage(p: real, a: real, f: Fill, cost: real)
    requires (p >= 0.0 && f.quantity > 0.0) || (p <= 0.0 && f.quantity < 0.0)
    requires Abs(p + f.quantity) >= DUST && IsRatio(a, cost, p)
    ensures IsRatio(AveragePrice(p, a, f.quantity, f.price), cost + Cost(f), p + f.quantity)
  {
    var q, x := f.quantity, f.price;
    var s, w := Abs(p) * a + Abs(q) * x, Abs(p) + Abs(q);
    assert AveragePrice(p, a, q, x) == s / w;
    assert (s / w) * w == s;
    if q < 0.0 {
      NegatedFactor(s / w, w);
      NegatedFactor(a, p);
      NegatedFactor(x, q);
    }
  }

  lemma NegatedFactor(x: real, y: real)
    ensures x * -y == -(x * y)
  {
  }

  lemma NoCost()
    ensures IsRatio(0.0, Sum(Cost, []), 0.0)
  {
  }

  lemma NoLots(lot: real)
    ensures Lots(lot, 0.0) && Sum(Quantity, []) == 0.0
  {
    assert 0.0 == Lot(lot, 0);
  }

  /** It happens: buy less than 1e-12, say 5e-13 at price 10. The position is not flat, and priced at zero. */
  lemma DustIsReachable(quantity: real, price: real)
    requires 0.0 < quantity < DUST && 0.0 < price
    ensures var events := [OrderEvent("o", "X", true, quantity, price),
                           FillEvent("o", "f", "t", "X", quantity, price, 0.0)];
      var l := Replay(events);
      && l.positions.GetOr("X", 0.0) == quantity && l.avgPrices.GetOr("X", 0.0) == 0.0
      && FilledBetween(events, "X", price, price)
      && !NeverDust(events, "X") && !AlwaysPricedBetween(events, "X", price, price)
  {
    hide Replay, FillsOn, AveragePrice, AlwaysPricedBetween, NeverDust, Applied, Dict.GetOr;
    var o, f := OrderEvent("o", "X", true, quantity, price), FillEvent("o", "f", "t", "X", quantity, price, 0.0);
    var events := [o, f];
    FirstFill(o, f, "o", "X");
    assert events[..2] == events;
    DustReset(0.0, 0.0, Fill(quantity, price, 0.0));
    assert !NeverDust(events, "X") by { DustSeen(events, "X", 2); }
    AverageBetweenExactlyWithoutDust(events, "X", price, price);
  }

  lemma DustSeen(events: seq<Event>, symbol: string, k: nat)
    requires k <= |events| && Dust(Replay(events[..k]).positions.GetOr(symbol, 0.0))
    ensures !NeverDust(events, symbol)
  {
  }

  /** The position after a buy order and its fill as the first two events. */
  lemma FirstFill(o: Event, f: Event, id: string, symbol: string)
    requires o.OrderEvent? && f.FillEvent? && o.orderId == id == f.orderId && id != ""
    requires o.symbol == symbol != "" && o.isBuy
    ensures var l := Replay([o, f]);
      && FillsOn([o, f], symbol) == [Fill(f.quantity, f.price, f.fee)]
      && l.positions.GetOr(symbol, 0.0) == f.quantity
      && l.avgPrices.GetOr(symbol, 0.0) == AveragePrice(0.0, 0.0, f.quantity, f.price)
  {
    hide Step, AveragePrice;
    var events := [o, f];
    OneOrder(o, id);
    assert events[..1] == [o] && [o][..0] == [];
    FillsOnPrefix([o], symbol);
    FillsOnPrefix(events, symbol);
    assert FillsOn([o], symbol) == [] by { assert Applied([o][..0], o, symbol) == []; }
    assert Applied([o], f, symbol) == [Fill(f.quantity, f.price, f.fee)];
    TradePosition([o], f, symbol);
  }

  // ----- Events that do not matter, and prefixes

  /** Order events, and fills of an order known by then. */
  function Relevant(events: seq<Event>): seq<Event> {
    if events == [] then []
    else
      var n := |events| - 1;
      var e := events[n];
      Relevant(events[..n])
      + (if e.OrderEvent? || (e.FillEvent? && OpenedBy(events[..n], e.orderId).Some?) then [e] else [])
  }

  lemma StepIgnoresDecisions(l: Ledger, l': Ledger, e: Event)
    requires l' == l.(decisions := []) && (e.OrderEvent? || e.FillEvent?)
    ensures Step(l', e) == Step(l, e).(decisions := [])
  {
    hide ApplyFill, NewOrder;
    if e.FillEvent? && e.orderId in l.orders.entries { FillIgnoresDecisions(l, e); }
  }

  lemma FillIgnoresDecisions(l: Ledger, e: Event)
    requires e.FillEvent? && e.orderId in l.orders.entries
    ensures ApplyFill(l.(decisions := []), e) == ApplyFill(l, e).(decisions := [])
  {
    hide AveragePrice, WithFill, SlippageOf, Total, Signed, SymbolOf, Dict.GetOr;
    var x, y := ApplyFill(l.(decisions := []), e), ApplyFill(l, e);
    assert x.orders == y.orders && x.positions == y.positions && x.avgPrices == y.avgPrices && x.cash == y.cash;
    assert x.realized == y.realized && x.fees == y.fees && x.slippage == y.slippage;
    assert x.positionEvents == y.positionEvents && x.pnlEvents == y.pnlEvents;
  }

  /** Deleting all decisions and all unmatched fills changes nothing but the list of decisions. */
  lemma {:induction false} OnlyRelevantEventsMatter(events: seq<Event>)
    ensures Replay(Relevant(events)) == Replay(events).(decisions := [])
  {
    if events != [] {
      var n := |events| - 1;
      var past, e := events[..n], events[n];
      OnlyRelevantEventsMatter(past);
      ReplayBook(past);
      hide ApplyFill, IsOrderOf;
      if Relevant(events) != Relevant(past) {
        assert Relevant(events)[..|Relevant(past)|] == Relevant(past);
        StepIgnoresDecisions(Replay(past), Replay(Relevant(past)), e);
      }
    }
  }

  /** Replaying a prefix of the events yields prefixes of the emitted lists. */
  lemma {:induction false} PrefixesAgree(events: seq<Event>, k: nat)
    requires k <= |events|
    ensures var l, m := Replay(events[..k]), Replay(events);
      l.decisions <= m.decisions && l.positionEvents <= m.positionEvents && l.pnlEvents <= m.pnlEvents
  {
    hide AveragePrice, WithFill, SlippageOf, Total;
    if k == |events| {
      assert events[..k] == events;
    } else {
      var n := |events| - 1;
      assert events[..n][..k] == events[..k];
      PrefixesAgree(events[..n], k);
    }
  }
}
