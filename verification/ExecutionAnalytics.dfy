/** Incremental execution analytics against their closed forms, the full reconciliation, and drawdown. */
module ExecutionAnalytics {
  import opened Sorting
  import opened Sums

  /** `isBuy` is `side.lower() == "buy"`; latencies and labels do not enter the aggregates. */
  datatype Event = Event(
    eventId: string,
    ts: int,
    symbol: string,
    isBuy: bool,
    qty: real,
    price: real,
    markPrice: real,
    realizedEdge: real,
    confidence: real,
    fees: real,
    slippage: real)

  // ----- What one event contributes

  /** Multiplication by the direction of a trade, 1 for a buy and -1 for anything else. */
  function Directed(isBuy: bool, x: real): real {
    if isBuy then x else -x
  }

  function SignedNotional(e: Event): real {
    Directed(e.isBuy, e.qty * e.price)
  }

  function Notional(e: Event): real {
    Abs(e.qty * e.price)
  }

  function Fees(e: Event): real {
    e.fees
  }

  function Slippage(e: Event): real {
    e.slippage
  }

  function TradePnl(e: Event): real {
    e.realizedEdge * e.qty - e.fees - e.slippage
  }

  function Win(e: Event): real {
    if TradePnl(e) >= 0.0 then 1.0 else 0.0
  }

  function Loss(e: Event): real {
    1.0 - Win(e)
  }

  function ConfidenceError(e: Event): real {
    (e.confidence - Win(e)) * (e.confidence - Win(e))
  }

  function Excursion(e: Event): real {
    Directed(e.isBuy, e.markPrice - e.price)
  }

  function Adverse(e: Event): real {
    if Excursion(e) < 0.0 then Excursion(e) else 0.0
  }

  function Favorable(e: Event): real {
    if Excursion(e) > 0.0 then Excursion(e) else 0.0
  }

  function OnSymbol(symbol: string): Event -> real {
    (e: Event) => if e.symbol == symbol then SignedNotional(e) else 0.0
  }

  // ----- The aggregates in closed form

  datatype Point = Point(ts: int, equity: real)

  /** The plain running sums of the store. */
  datatype Tally = Tally(
    notional: real,
    net: real,
    fees: real,
    slippage: real,
    pnl: real,
    wins: real,
    losses: real,
    confidenceError: real,
    mae: real,
    mfe: real)

  const NOTHING := Tally(0.0, 0.0, 0.0, 0.0, 0.0, 0.0, 0.0, 0.0, 0.0, 0.0)

  /** Each running sum is the sum of what the events contribute to it. */
  function TallyOf(events: seq<Event>): Tally {
    Tally(
      Sum(Notional, events),
      Sum(SignedNotional, events),
      Sum(Fees, events),
      Sum(Slippage, events),
      Sum(TradePnl, events),
      Sum(Win, events),
      Sum(Loss, events),
      Sum(ConfidenceError, events),
      Sum(Adverse, events),
      Sum(Favorable, events))
  }

  function Updated(t: Tally, e: Event): Tally {
    Tally(t.notional + Notional(e), t.net + SignedNotional(e), t.fees + e.fees, t.slippage + e.slippage,
          t.pnl + TradePnl(e), t.wins + Win(e), t.losses + Loss(e),
          t.confidenceError + ConfidenceError(e), t.mae + Adverse(e), t.mfe + Favorable(e))
  }

  /** The symbols in the order of their first event. */
  function Symbols(events: seq<Event>): seq<string> {
    if events == [] then []
    else
      var n := |events| - 1;
      var before := Symbols(events[..n]);
      if events[n].symbol in before then before else before + [events[n].symbol]
  }

  function Exposure(events: seq<Event>): string -> real {
    (s: string) => Sum(OnSymbol(s), events)
  }

  function AbsExposure(events: seq<Event>): string -> real {
    (s: string) => Abs(Sum(OnSymbol(s), events))
  }

  function GrossOf(events: seq<Event>): real {
    Sum(AbsExposure(events), Symbols(events))
  }

  /** The PnL after each event. */
  function EquityCurve(events: seq<Event>): (r: seq<Point>)
    ensures |r| == |events|
  {
    if events == [] then []
    else EquityCurve(events[..|events| - 1]) + [Point(events[|events| - 1].ts, TallyOf(events).pnl)]
  }

  function ByTime(a: Event, b: Event): bool {
    a.ts <= b.ts
  }

  /** The dictionary of exposures holds each symbol seen, with its signed notionals. */
  ghost predicate Books(exposure: Dict<real>, events: seq<Event>) {
    && exposure.Valid() && exposure.keys == Symbols(events)
    && forall s :: s in exposure.entries ==> exposure.entries[s] == Sum(OnSymbol(s), events)
  }

  /** What the fields of a store say about its events. */
  ghost predicate Consistent(events: seq<Event>, tally: Tally, exposure: Dict<real>, gross: real, curve: seq<Point>) {
    tally == TallyOf(events) && Books(exposure, events) && gross == GrossOf(events) && curve == EquityCurve(events)
  }

  /** What a snapshot reports, apart from labels, latencies, attributions and the root of a mean square. */
  datatype Snapshot = Snapshot(
    drawdown: real,
    gross: real,
    net: real,
    concentration: real,
    turnover: real,
    hitRate: real,
    expectancy: real,
    maeAvg: real,
    mfeAvg: real)

  function AtLeastOne(x: real): (r: real)
    ensures r >= x && r >= 1.0 && (r == x || r == 1.0)
  {
    if x > 1.0 then x else 1.0
  }

  /** Every ratio is what its name says, and lies in its range. */
  ghost predicate DescribesExposure(s: Snapshot, events: seq<Event>, exposure: Dict<real>) {
    && s.gross == GrossOf(events) && s.net == TallyOf(events).net && Abs(s.net) <= s.gross
    && 0.0 <= s.concentration <= 1.0
    && (exists largest :: IsLargest(largest, exposure) && IsRatio(s.concentration, largest, AtLeastOne(s.gross)))
    && IsRatio(s.turnover, TallyOf(events).notional, AtLeastOne(s.gross)) && (s.gross >= 1.0 ==> s.turnover >= 1.0)
  }

  ghost predicate DescribesDecisions(s: Snapshot, events: seq<Event>) {
    var t, n := TallyOf(events), AtLeastOne(|events| as real);
    && IsRatio(s.hitRate, t.wins, n) && 0.0 <= s.hitRate <= 1.0
    && IsRatio(s.expectancy, t.pnl, n)
    && IsRatio(s.maeAvg, t.mae, n) && IsRatio(s.mfeAvg, t.mfe, n) && s.maeAvg <= 0.0 <= s.mfeAvg
  }

  lemma ExposureRatios(s: Snapshot, events: seq<Event>, exposure: Dict<real>, largest: real)
    requires Books(exposure, events) && IsLargest(largest, exposure)
    requires s.gross == GrossOf(events) && s.net == TallyOf(events).net
    requires s.concentration == largest / AtLeastOne(s.gross)
    requires s.turnover == TallyOf(events).notional / AtLeastOne(s.gross)
    ensures DescribesExposure(s, events, exposure)
  {
    hide TallyOf, GrossOf, IsLargest, Books, IsRatio;
    TotalsLaws(events);
    GrossWithinNotional(events);
    LargestWithinGross(largest, exposure, events);
    Ratio(largest, AtLeastOne(s.gross));
    Ratio(TallyOf(events).notional, AtLeastOne(s.gross));
  }

  lemma DecisionRatios(s: Snapshot, events: seq<Event>)
    requires var t, n := TallyOf(events), AtLeastOne(|events| as real);
      s.hitRate == t.wins / n && s.expectancy == t.pnl / n && s.maeAvg == t.mae / n && s.mfeAvg == t.mfe / n
    ensures DescribesDecisions(s, events)
  {
    hide TallyOf, GrossOf, IsRatio;
    var t, n := TallyOf(events), AtLeastOne(|events| as real);
    TotalsLaws(events);
    Ratio(t.wins, n);
    Ratio(t.pnl, n);
    Ratio(t.mae, n);
    Ratio(t.mfe, n);
  }

  // ----- The store

  class Store {
    var events: seq<Event>
    /** The numeric fields `notional_traded`, `net_exposure`, `total_fees`, ... `mfe_sum`. */
    var tally: Tally
    var symbolExposure: Dict<real>
    var grossExposure: real
    var equityCurve: seq<Point>

    ghost predicate Valid()
      reads this
    {
      Consistent(events, tally, symbolExposure, grossExposure, equityCurve)
    }

    constructor ()
      ensures Valid() && events == []
    {
      events, tally, symbolExposure, grossExposure, equityCurve := [], NOTHING, Dict([], map[]), 0.0, [];
      new;
      NoEvents();
    }

    method Reset()
      modifies this
      ensures Valid() && events == []
    {
      hide Consistent;
      events, tally, symbolExposure, grossExposure, equityCurve := [], NOTHING, Dict([], map[]), 0.0, [];
      NoEvents();
    }

    method UpdateIncremental(event: Event)
      requires Valid()
      modifies this
      ensures Valid() && events == old(events) + [event]
    {
      hide Consistent, Books, GrossOf, TallyOf, Directed, Abs;
      hide Notional, SignedNotional, TradePnl, ConfidenceError, Adverse, Favorable, Win, Loss;
      UpdateKeepsConsistent(events, event, tally, symbolExposure, grossExposure, equityCurve);
      events := events + [event];
      var direction := if event.isBuy then 1.0 else -1.0;
      Contributions(event, direction);
      var signedNotional := direction * event.qty * event.price;
      var notional := tally.notional + Abs(event.qty * event.price);
      symbolExposure := symbolExposure.Put(event.symbol, symbolExposure.GetOr(event.symbol, 0.0) + signedNotional);
      var gross, net := SumValues(symbolExposure, events);
      grossExposure := gross;
      var fees, slippage := tally.fees + event.fees, tally.slippage + event.slippage;
      var tradePnl := event.realizedEdge * event.qty - event.fees - event.slippage;
      var pnl, wins, losses := tally.pnl + tradePnl, tally.wins, tally.losses;
      if tradePnl >= 0.0 {
        wins := wins + 1.0;
      } else {
        losses := losses + 1.0;
      }
      var outcome := if tradePnl >= 0.0 then 1.0 else 0.0;
      var confidenceError := tally.confidenceError + (event.confidence - outcome) * (event.confidence - outcome);
      var excursion := (event.markPrice - event.price) * direction;
      var mae := tally.mae + (if excursion < 0.0 then excursion else 0.0);
      var mfe := tally.mfe + (if excursion > 0.0 then excursion else 0.0);
      tally := Tally(notional, net, fees, slippage, pnl, wins, losses, confidenceError, mae, mfe);
      equityCurve := equityCurve + [Point(event.ts, pnl)];
    }

    /** Forget everything and replay the events in time order. */
    method ReconcileFull()
      requires Valid()
      modifies this
      ensures Valid() && events == StableSort(ByTime, old(events))
      ensures tally == old(tally) && grossExposure == old(grossExposure)
      ensures forall s :: symbolExposure.GetOr(s, 0.0) == old(symbolExposure.GetOr(s, 0.0))
    {
      hide TallyOf, GrossOf;
      var all := events;
      ghost var exposure := symbolExposure;
      var sorted := StableSort(ByTime, all);
      Reset();
      ReplayAll(sorted);
      TotalsIgnoreOrder(all, sorted);
      HeldOnSymbol(exposure, all);
      HeldOnSymbol(symbolExposure, sorted);
    }

    method MetricsSnapshot() returns (s: Snapshot)
      requires Valid()
      ensures IsMaxDrawdown(equityCurve, s.drawdown)
      ensures DescribesExposure(s, events, symbolExposure)
      ensures DescribesDecisions(s, events)
    {
      hide TallyOf, GrossOf, IsMaxDrawdown, IsLargest, DescribesExposure, DescribesDecisions;
      EveryEventCounted(events);
      var depth := Drawdown(equityCurve);
      var largest := LargestExposure(symbolExposure);
      var g, n := AtLeastOne(grossExposure), AtLeastOne(tally.wins + tally.losses);
      s := Snapshot(depth, grossExposure, tally.net, largest / g, tally.notional / g, tally.wins / n, tally.pnl / n,
                    tally.mae / n, tally.mfe / n);
      ExposureRatios(s, events, symbolExposure, largest);
      DecisionRatios(s, events);
    }

    /** The loop of `reconcile_full`. */
    method ReplayAll(sorted: seq<Event>)
      requires Valid() && events == []
      modifies this
      ensures Valid() && events == sorted
    {
      hide Consistent;
      for i := 0 to |sorted|
        invariant Valid() && events == sorted[..i]
      {
        assert sorted[..i + 1] == sorted[..i] + [sorted[i]];
        UpdateIncremental(sorted[i]);
      }
      assert sorted[..|sorted|] == sorted;
    }
  }

  /** `max(abs(v) for v in values)`, zero when there is none. */
  ghost predicate IsLargest(m: real, exposure: Dict<real>) {
    && (forall s :: s in exposure.entries ==> Abs(exposure.entries[s]) <= m)
    && (if exposure.entries == map[] then m == 0.0
        else exists s :: s in exposure.entries && Abs(exposure.entries[s]) == m)
  }

  method LargestExposure(exposure: Dict<real>) returns (m: real)
    requires exposure.Valid()
    ensures IsLargest(m, exposure)
  {
    m := 0.0;
    for i := 0 to |exposure.keys|
      invariant forall k :: k in exposure.keys[..i] ==> Abs(exposure.entries[k]) <= m
      invariant if i == 0 then m == 0.0 else exists k :: k in exposure.keys[..i] && Abs(exposure.entries[k]) == m
    {
      var k := exposure.keys[i];
      assert exposure.keys[..i + 1] == exposure.keys[..i] + [k];
      assert k in exposure.keys && k in exposure.keys[..i + 1];
      if i == 0 || Abs(exposure.entries[k]) > m {
        m := Abs(exposure.entries[k]);
      }
    }
    assert exposure.keys[..|exposure.keys|] == exposure.keys;
    if |exposure.keys| > 0 { assert exposure.keys[0] in exposure.keys; }
  }

  /** `sum(abs(v) for v in values)` and `sum(values)`, in insertion order. */
  method SumValues(exposure: Dict<real>, ghost events: seq<Event>) returns (gross: real, net: real)
    requires Books(exposure, events)
    ensures gross == GrossOf(events) && net == TallyOf(events).net
  {
    gross, net := 0.0, 0.0;
    ghost var f, g := AbsExposure(events), Exposure(events);
    for i := 0 to |exposure.keys|
      invariant gross == Sum(f, exposure.keys[..i]) && net == Sum(g, exposure.keys[..i])
    {
      var k := exposure.keys[i];
      assert k in exposure.keys;
      SumAppend(f, exposure.keys[..i], k);
      SumAppend(g, exposure.keys[..i], k);
      assert exposure.keys[..i + 1] == exposure.keys[..i] + [k];
      gross := gross + Abs(exposure.entries[k]);
      net := net + exposure.entries[k];
    }
    assert exposure.keys[..|exposure.keys|] == exposure.keys;
    NetIsSumOfExposures(events);
  }

  // ----- Appending an event

  /** What an event contributes, in the terms of its fields. */
  lemma Contributions(e: Event, direction: real)
    requires direction == if e.isBuy then 1.0 else -1.0
    ensures SignedNotional(e) == direction * e.qty * e.price && Notional(e) == Abs(e.qty * e.price)
    ensures var pnl := e.realizedEdge * e.qty - e.fees - e.slippage;
      && TradePnl(e) == pnl
      && Win(e) == (if pnl >= 0.0 then 1.0 else 0.0) && Loss(e) == (if pnl >= 0.0 then 0.0 else 1.0)
      && ConfidenceError(e) == (e.confidence - Win(e)) * (e.confidence - Win(e))
    ensures var excursion := (e.markPrice - e.price) * direction;
      && Adverse(e) == (if excursion < 0.0 then excursion else 0.0)
      && Favorable(e) == (if excursion > 0.0 then excursion else 0.0)
  {
    assert direction * e.qty * e.price == direction * (e.qty * e.price);
    Negated(e.qty * e.price);
    Negated(e.markPrice - e.price);
  }

  lemma Negated(x: real)
    ensures -1.0 * x == -x && x * -1.0 == -x
  {
  }

  function Edge(e: Event): real {
    e.realizedEdge * e.qty
  }

  /** The PnL is the realized edges less fees and slippage. */
  lemma {:induction false} PnlIsEdgeLessCosts(events: seq<Event>)
    ensures var t := TallyOf(events); t.pnl == Sum(Edge, events) - t.fees - t.slippage
  {
    if events != [] { PnlIsEdgeLessCosts(events[..|events| - 1]); }
  }

  lemma NoEvents()
    ensures Consistent([], NOTHING, Dict([], map[]), 0.0, [])
  {
  }

  lemma {:induction false} SymbolsOnce(events: seq<Event>)
    ensures Distinct(Symbols(events))
    ensures forall s :: s in Symbols(events) <==> exists i :: 0 <= i < |events| && events[i].symbol == s
  {
    if events != [] {
      var n := |events| - 1;
      SymbolsOnce(events[..n]);
      assert events == events[..n] + [events[n]];
    }
  }

  lemma {:induction false} NothingOnSymbol(s: string, events: seq<Event>)
    requires s !in Symbols(events)
    ensures Sum(OnSymbol(s), events) == 0.0
  {
    if events != [] { NothingOnSymbol(s, events[..|events| - 1]); }
  }

  lemma OnSymbolAppend(s: string, past: seq<Event>, e: Event)
    ensures Sum(OnSymbol(s), past + [e])
         == Sum(OnSymbol(s), past) + (if e.symbol == s then SignedNotional(e) else 0.0)
  {
    SumAppend(OnSymbol(s), past, e);
  }

  lemma BooksAppend(exposure: Dict<real>, past: seq<Event>, e: Event)
    requires Books(exposure, past)
    ensures Books(exposure.Put(e.symbol, exposure.GetOr(e.symbol, 0.0) + SignedNotional(e)), past + [e])
  {
    var r := exposure.Put(e.symbol, exposure.GetOr(e.symbol, 0.0) + SignedNotional(e));
    assert (past + [e])[..|past|] == past;
    if e.symbol !in Symbols(past) { NothingOnSymbol(e.symbol, past); }
    forall s | s in r.entries ensures r.entries[s] == Sum(OnSymbol(s), past + [e]) {
      OnSymbolAppend(s, past, e);
    }
  }

  lemma HeldOnSymbol(exposure: Dict<real>, events: seq<Event>)
    requires Books(exposure, events)
    ensures forall s :: exposure.GetOr(s, 0.0) == Exposure(events)(s)
  {
    forall s ensures exposure.GetOr(s, 0.0) == Exposure(events)(s) {
      if s !in exposure.entries { NothingOnSymbol(s, events); }
    }
  }

  /** Summed over the symbols, the exposures are all the signed notionals. */
  lemma {:induction false} NetIsSumOfExposures(events: seq<Event>)
    ensures Sum(Exposure(events), Symbols(events)) == TallyOf(events).net
  {
    if events != [] {
      var n := |events| - 1;
      assert events == events[..n] + [events[n]];
      NetIsSumOfExposures(events[..n]);
      hide Exposure, SignedNotional;
      NetGrows(events[..n], events[n]);
      SumAppend(SignedNotional, events[..n], events[n]);
    }
  }

  lemma NetGrows(past: seq<Event>, e: Event)
    ensures Sum(Exposure(past + [e]), Symbols(past + [e])) == Sum(Exposure(past), Symbols(past)) + SignedNotional(e)
  {
    hide Sum, SignedNotional;
    var events, f, g := past + [e], Exposure(past), Exposure(past + [e]);
    assert events[..|past|] == past;
    SymbolsOnce(events);
    // Over the larger key list the old exposures sum to the same, since a new symbol held nothing.
    assert Sum(f, Symbols(events)) == Sum(f, Symbols(past)) by {
      if e.symbol !in Symbols(past) {
        NothingOnSymbol(e.symbol, past);
        SumAppend(f, Symbols(past), e.symbol);
      }
    }
    forall s ensures g(s) == f(s) + (if e.symbol == s then SignedNotional(e) else 0.0) { OnSymbolAppend(s, past, e); }
    SumChangeOne(f, g, Symbols(events), e.symbol);
  }

  lemma {:induction false} EveryEventCounted(events: seq<Event>)
    ensures var t := TallyOf(events);
      && t.wins + t.losses == |events| as real && t.wins >= 0.0 && t.losses >= 0.0
      && t.mae <= 0.0 <= t.mfe
  {
    if events != [] { EveryEventCounted(events[..|events| - 1]); }
  }

  lemma TallyAppend(past: seq<Event>, e: Event)
    ensures TallyOf(past + [e]) == Updated(TallyOf(past), e)
  {
    SumAppend(Notional, past, e);
    SumAppend(SignedNotional, past, e);
    SumAppend(Fees, past, e);
    SumAppend(Slippage, past, e);
    SumAppend(TradePnl, past, e);
    SumAppend(Win, past, e);
    SumAppend(Loss, past, e);
    SumAppend(ConfidenceError, past, e);
    SumAppend(Adverse, past, e);
    SumAppend(Favorable, past, e);
  }

  lemma CurveAppend(past: seq<Event>, e: Event)
    ensures EquityCurve(past + [e]) == EquityCurve(past) + [Point(e.ts, TallyOf(past + [e]).pnl)]
  {
    hide TallyOf;
    assert (past + [e])[..|past|] == past;
  }

  lemma UpdateKeepsConsistent(past: seq<Event>, e: Event, t: Tally, exposure: Dict<real>, gross: real,
                              curve: seq<Point>)
    requires Consistent(past, t, exposure, gross, curve)
    ensures Consistent(past + [e], Updated(t, e),
                       exposure.Put(e.symbol, exposure.GetOr(e.symbol, 0.0) + SignedNotional(e)),
                       GrossOf(past + [e]), curve + [Point(e.ts, t.pnl + TradePnl(e))])
    ensures Books(exposure.Put(e.symbol, exposure.GetOr(e.symbol, 0.0) + SignedNotional(e)), past + [e])
    ensures TallyOf(past + [e]).net == t.net + SignedNotional(e)
  {
    hide Sum, TallyOf, EquityCurve, GrossOf, Symbols, OnSymbol, SignedNotional, TradePnl;
    BooksAppend(exposure, past, e);
    TallyAppend(past, e);
    CurveAppend(past, e);
  }

  /** The equity after each event is the PnL of the events so far. */
  lemma {:induction false} EquityAt(events: seq<Event>, i: nat)
    requires i < |events|
    ensures EquityCurve(events)[i] == Point(events[i].ts, TallyOf(events[..i + 1]).pnl)
  {
    var n := |events| - 1;
    if i < n {
      EquityAt(events[..n], i);
      assert events[..n][..i + 1] == events[..i + 1];
    } else {
      assert events[..n + 1] == events;
    }
  }

  /** No symbol's exposure exceeds the gross exposure, */
  lemma LargestWithinGross(m: real, exposure: Dict<real>, events: seq<Event>)
    requires Books(exposure, events) && IsLargest(m, exposure)
    ensures 0.0 <= m <= GrossOf(events)
  {
    SumBoundsTerm(AbsExposure(events), Symbols(events), "");
    if exposure.entries != map[] {
      var s :| s in exposure.entries && Abs(exposure.entries[s]) == m;
      SumBoundsTerm(AbsExposure(events), Symbols(events), s);
    }
  }

  /** and the gross exposure does not exceed what was traded. */
  lemma {:induction false} GrossWithinNotional(events: seq<Event>)
    ensures 0.0 <= GrossOf(events) <= TallyOf(events).notional
  {
    if events != [] {
      var n := |events| - 1;
      assert events == events[..n] + [events[n]];
      GrossWithinNotional(events[..n]);
      SumBoundsTerm(AbsExposure(events), Symbols(events), "");
      hide GrossOf, Notional;
      GrossGrows(events[..n], events[n]);
      SumAppend(Notional, events[..n], events[n]);
    }
  }

  lemma GrossGrows(past: seq<Event>, e: Event)
    ensures GrossOf(past + [e]) <= GrossOf(past) + Notional(e)
  {
    hide Sum, SignedNotional, Notional;
    var events, f, g := past + [e], AbsExposure(past), AbsExposure(past + [e]);
    SymbolsOnce(events);
    assert events[..|past|] == past;
    assert Sum(f, Symbols(events)) == Sum(f, Symbols(past)) by {
      if e.symbol !in Symbols(past) {
        NothingOnSymbol(e.symbol, past);
        SumAppend(f, Symbols(past), e.symbol);
      }
    }
    forall s | s != e.symbol ensures f(s) == g(s) { OnSymbolAppend(s, past, e); }
    OnSymbolAppend(e.symbol, past, e);
    SumChangeOne(f, g, Symbols(events), e.symbol);
    NotionalIsSize(e);
  }

  lemma NotionalIsSize(e: Event)
    ensures Abs(SignedNotional(e)) == Notional(e)
  {
  }

  // ----- Laws of the totals

  lemma SymbolsIgnoreOrder(a: seq<Event>, b: seq<Event>)
    requires multiset(a) == multiset(b)
    ensures forall s :: s in Symbols(a) ==> s in Symbols(b)
  {
    SymbolsOnce(a);
    SymbolsOnce(b);
    forall s | s in Symbols(a) ensures s in Symbols(b) {
      var i :| 0 <= i < |a| && a[i].symbol == s;
      assert a[i] in multiset(b);
      assert a[i] in b;
    }
  }

  /** The totals do not depend on the order in which the events came. */
  lemma TotalsIgnoreOrder(a: seq<Event>, b: seq<Event>)
    requires multiset(a) == multiset(b)
    ensures TallyOf(a) == TallyOf(b) && GrossOf(a) == GrossOf(b)
    ensures forall s :: Exposure(a)(s) == Exposure(b)(s) && (s in Symbols(a) <==> s in Symbols(b))
  {
    SymbolsIgnoreOrder(a, b);
    SymbolsIgnoreOrder(b, a);
    SymbolsOnce(a);
    SymbolsOnce(b);
    forall s ensures Sum(OnSymbol(s), a) == Sum(OnSymbol(s), b) { SumPermutation(OnSymbol(s), a, b); }
    DistinctSameElements(Symbols(a), Symbols(b));
    SumPermutation(AbsExposure(a), Symbols(a), Symbols(b));
    SumCongruence(AbsExposure(a), AbsExposure(b), Symbols(b));
    SumPermutation(Notional, a, b);
    SumPermutation(SignedNotional, a, b);
    SumPermutation(Fees, a, b);
    SumPermutation(Slippage, a, b);
    SumPermutation(TradePnl, a, b);
    SumPermutation(Win, a, b);
    SumPermutation(Loss, a, b);
    SumPermutation(ConfidenceError, a, b);
    SumPermutation(Adverse, a, b);
    SumPermutation(Favorable, a, b);
  }

  /** For any history: every event is a win or a loss, net exposure is what the symbols hold together and
      gross exposure bounds it, the running PnL is edge minus costs, and mae and mfe bracket zero. */
  lemma TotalsLaws(events: seq<Event>)
    ensures var t := TallyOf(events);
      && t.wins + t.losses == |events| as real && t.wins >= 0.0 && t.losses >= 0.0
      && t.net == Sum(Exposure(events), Symbols(events))
      && Abs(t.net) <= GrossOf(events)
      && t.mae <= 0.0 <= t.mfe
      && (events != [] ==> EquityCurve(events)[|events| - 1].equity == t.pnl)
  {
    EveryEventCounted(events);
    NetIsSumOfExposures(events);
    SumAbsBound(Exposure(events), AbsExposure(events), Symbols(events));
  }

  lemma ByTimeIsPreorder()
    ensures TotalPreorder(ByTime)
  {
  }

  /** Reconciling sorts stably by timestamp, is idempotent, keeps all totals, and changes nothing at all
      exactly when the events were already in time order. */
  lemma ReconcileLaws(events: seq<Event>)
    ensures var sorted := StableSort(ByTime, events);
      && IsStableSortOf(ByTime, sorted, events)
      && StableSort(ByTime, sorted) == sorted
      && TallyOf(sorted) == TallyOf(events) && GrossOf(sorted) == GrossOf(events)
      && (sorted == events <==> SortedBy(ByTime, events))
  {
    hide TallyOf, GrossOf, SortedBy, TotalPreorder;
    ByTimeIsPreorder();
    StableSortCorrect(ByTime, events);
    SortedIsFixpoint(ByTime, StableSort(ByTime, events));
    SortedIsFixpoint(ByTime, events);
    TotalsIgnoreOrder(events, StableSort(ByTime, events));
  }

  lemma EquityEnd(events: seq<Event>)
    requires events != []
    ensures EquityCurve(events)[|events| - 1].equity == TallyOf(events).pnl
  {
    hide TallyOf;
  }

  lemma CurveTimes(a: seq<Event>, b: seq<Event>)
    requires |a| == |b| && EquityCurve(a) == EquityCurve(b)
    ensures forall i :: 0 <= i < |a| ==> a[i].ts == b[i].ts
  {
    hide TallyOf, EquityCurve;
    forall i | 0 <= i < |a| ensures a[i].ts == b[i].ts {
      EquityAt(a, i);
      EquityAt(b, i);
    }
  }

  /** Reconciling moves the equity curve, unless the events were in time order, but not its end. */
  lemma ReconcileMovesTheCurve(events: seq<Event>)
    requires events != []
    ensures var sorted := StableSort(ByTime, events);
      && EquityCurve(sorted)[|events| - 1].equity == EquityCurve(events)[|events| - 1].equity
      && (EquityCurve(sorted) == EquityCurve(events) <==> SortedBy(ByTime, events))
  {
    hide TallyOf, StableSort, EquityCurve, GrossOf, TotalPreorder, Ties;
    var sorted := StableSort(ByTime, events);
    ReconcileLaws(events);
    EquityEnd(events);
    EquityEnd(sorted);
    if EquityCurve(sorted) == EquityCurve(events) {
      CurveTimes(sorted, events);
      SortedByTimes(sorted, events);
    }
  }

  lemma SortedByTimes(a: seq<Event>, b: seq<Event>)
    requires SortedBy(ByTime, a) && |a| == |b| && forall i :: 0 <= i < |a| ==> a[i].ts == b[i].ts
    ensures SortedBy(ByTime, b)
  {
    forall i, j | 0 <= i < j < |b| ensures ByTime(b[i], b[j]) { assert ByTime(a[i], a[j]); }
  }

  // ----- Drawdown

  /** `depth` is the largest fall from an earlier (or the same) point of the curve. */
  ghost predicate IsMaxDrawdown(curve: seq<Point>, depth: real) {
    && (forall i, j :: 0 <= i <= j < |curve| ==> curve[i].equity - curve[j].equity <= depth)
    && (if curve == [] then depth == 0.0
        else exists i, j :: 0 <= i <= j < |curve| && curve[i].equity - curve[j].equity == depth)
  }

  method Drawdown(curve: seq<Point>) returns (depth: real)
    ensures IsMaxDrawdown(curve, depth)
    ensures depth == 0.0 <==> forall i, j :: 0 <= i <= j < |curve| ==> curve[i].equity <= curve[j].equity
  {
    depth := 0.0;
    var peak := 0.0;  // stands for minus infinity until the first point
    ghost var top, from, to := 0, 0, 0;
    for i := 0 to |curve|
      invariant i > 0 ==> 0 <= top < i && peak == curve[top].equity && 0 <= from <= to < i
      invariant forall k :: 0 <= k < i ==> curve[k].equity <= peak
      invariant forall k, l :: 0 <= k <= l < i ==> curve[k].equity - curve[l].equity <= depth
      invariant i > 0 ==> curve[from].equity - curve[to].equity == depth
      invariant depth >= 0.0 && (i == 0 ==> depth == 0.0)
    {
      var value := curve[i].equity;
      if i == 0 || value > peak {
        peak, top := value, i;
      }
      var dd := peak - value;
      if i == 0 { from, to := 0, 0; }
      if dd > depth {
        depth, from, to := dd, top, i;
      }
    }
  }

  /** Drawdown, unlike the totals, does depend on the order of the events. */
  lemma DrawdownDependsOnOrder(late: Event, early: Event)
    requires early.ts < late.ts && TradePnl(early) < 0.0 < TradePnl(late)
    ensures IsMaxDrawdown(EquityCurve([late, early]), -TradePnl(early))
    ensures IsMaxDrawdown(EquityCurve(StableSort(ByTime, [late, early])), 0.0)
  {
    hide TradePnl, EquityCurve, StableSort, IsMaxDrawdown;
    assert StableSort(ByTime, [late, early]) == [early, late] by { SortPair(late, early); }
    TwoPointCurve(late, early);
    TwoPointCurve(early, late);
    TwoPointDrawdown(EquityCurve([late, early]));
    TwoPointDrawdown(EquityCurve([early, late]));
  }

  lemma SortPair(late: Event, early: Event)
    requires early.ts < late.ts
    ensures StableSort(ByTime, [late, early]) == [early, late]
  {
    var a := [late, early];
    assert a[1..] == [early] && [early][1..] == [];
    assert StableSort(ByTime, []) == [];
    assert StableSort(ByTime, [early]) == Insert(ByTime, early, []) == [early];
    assert Insert(ByTime, late, [early]) == [early] + Insert(ByTime, late, []);
  }

  lemma TwoPointDrawdown(curve: seq<Point>)
    requires |curve| == 2
    ensures var fall := curve[0].equity - curve[1].equity;
      IsMaxDrawdown(curve, if fall > 0.0 then fall else 0.0)
  {
    assert curve[0].equity - curve[0].equity == 0.0;
    assert curve[0].equity - curve[1].equity == curve[0].equity - curve[1].equity;
  }

  lemma TwoPointCurve(a: Event, b: Event)
    ensures EquityCurve([a, b]) == [Point(a.ts, TradePnl(a)), Point(b.ts, TradePnl(a) + TradePnl(b))]
  {
    hide TradePnl, EquityCurve, Sum;
    assert [] + [a] == [a] && [a] + [b] == [a, b];
    assert EquityCurve([]) == [] && TallyOf([]).pnl == 0.0 by { NoEvents(); }
    CurveAppend([], a);
    CurveAppend([a], b);
    SumAppend(TradePnl, [], a);
    SumAppend(TradePnl, [a], b);
  }
}
