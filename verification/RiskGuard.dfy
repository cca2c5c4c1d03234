/** The runtime risk guard and its override of the authority's decision, over whole runs of intents. */
module RiskGuard {
  import opened Options
  import opened Sums

  datatype Limits = Limits(maxDrawdown: real, maxConcentration: real, maxTurnover: real, maxSlippageBps: real)

  datatype GuardState = GuardState(turnover: real, slippageBps: real, orders: nat, active: bool)

  const FRESH := GuardState(0.0, 0.0, 0, true)

  datatype Rule = MaxDrawdown | MaxConcentration | MaxTurnover | MaxSlippage

  datatype Action = NoAction | BlockNewOrders | DeRisk

  datatype Decision = Decision(action: Action, breached: seq<Rule>)

  /** `authorized` is the decision of the execution authority. */
  datatype Intent = Intent(strategyKey: Option<string>, quantity: real, drawdown: real, concentration: real,
                           slippageBps: real, authorized: bool)

  function Key(i: Intent): string {
    if i.strategyKey.Some? && i.strategyKey.value != "" then i.strategyKey.value else "unknown"
  }

  function Charged(s: GuardState, turnoverDelta: real, slippageBps: real): GuardState {
    s.(turnover := s.turnover + (if turnoverDelta > 0.0 then turnoverDelta else 0.0),
       slippageBps := s.slippageBps + Abs(slippageBps),
       orders := s.orders + 1)
  }

  function Breaches(l: Limits, s: GuardState, drawdown: real, concentration: real): seq<Rule>
    requires s.orders > 0
  {
    (if drawdown > l.maxDrawdown then [MaxDrawdown] else [])
    + (if concentration > l.maxConcentration then [MaxConcentration] else [])
    + (if s.turnover > l.maxTurnover then [MaxTurnover] else [])
    + (if s.slippageBps / s.orders as real > l.maxSlippageBps then [MaxSlippage] else [])
  }

  function Decide(breaches: seq<Rule>): Decision {
    if breaches == [] then Decision(NoAction, [])
    else if MaxDrawdown in breaches then Decision(DeRisk, breaches)
    else Decision(BlockNewOrders, breaches)
  }

  class RuntimeRiskGuard {
    const limits: map<string, Limits>
    var states: map<string, GuardState>

    constructor (limits: map<string, Limits>)
      ensures this.limits == limits && states == map[]
    {
      this.limits, states := limits, map[];
    }

    method Evaluate(key: string, drawdown: real, concentration: real, turnoverDelta: real, slippageBps: real)
        returns (d: Decision)
      modifies this
      ensures (states, d) == Evaluated(limits, old(states), key, drawdown, concentration, turnoverDelta, slippageBps)
    {
      if key !in limits {
        return Decision(NoAction, []);
      }
      var state := if key in states then states[key] else GuardState(0.0, 0.0, 0, true);
      state := state.(turnover := state.turnover + (if turnoverDelta > 0.0 then turnoverDelta else 0.0),
                      slippageBps := state.slippageBps + Abs(slippageBps),
                      orders := state.orders + 1);
      assert state == Charged(if key in states then states[key] else FRESH, turnoverDelta, slippageBps);
      hide Charged, Breaches;
      states := states[key := state];
      var breaches := BreachedRules(limits[key], state, drawdown, concentration);
      if breaches == [] {
        return Decision(NoAction, []);
      }
      if MaxDrawdown in breaches {
        assert old(states)[key := state][key := state.(active := false)] == old(states)[key := state.(active := false)];
        states := states[key := state.(active := false)];
        return Decision(DeRisk, breaches);
      }
      return Decision(BlockNewOrders, breaches);
    }
  }

  /** The four checks of `evaluate`. */
  method BreachedRules(l: Limits, state: GuardState, drawdown: real, concentration: real) returns (breaches: seq<Rule>)
    requires state.orders > 0
    ensures breaches == Breaches(l, state, drawdown, concentration)
  {
    breaches := [];
    if drawdown > l.maxDrawdown {
      breaches := breaches + [MaxDrawdown];
    }
    if concentration > l.maxConcentration {
      breaches := breaches + [MaxConcentration];
    }
    if state.turnover > l.maxTurnover {
      breaches := breaches + [MaxTurnover];
    }
    if state.slippageBps / state.orders as real > l.maxSlippageBps {
      breaches := breaches + [MaxSlippage];
    }
  }

  function Evaluated(limits: map<string, Limits>, states: map<string, GuardState>, key: string, drawdown: real,
                     concentration: real, turnoverDelta: real, slippageBps: real): (map<string, GuardState>, Decision)
  {
    if key !in limits then (states, Decision(NoAction, []))
    else
      var state := Charged(if key in states then states[key] else FRESH, turnoverDelta, slippageBps);
      var d := Decide(Breaches(limits[key], state, drawdown, concentration));
      (states[key := if d.action == DeRisk then state.(active := false) else state], d)
  }

  // ----- A run of the consumer

  /** `_consume_intent_payload`: any guard action overrides an approval. */
  function Consume(limits: map<string, Limits>, states: map<string, GuardState>, i: Intent)
      : (map<string, GuardState>, bool)
  {
    var (after, d) := Evaluated(limits, states, Key(i), i.drawdown, i.concentration, Abs(i.quantity), i.slippageBps);
    (after, i.authorized && d.action == NoAction)
  }

  /** The counters of the service. */
  class Service {
    const guard: RuntimeRiskGuard
    var processedIntents: nat
    var approvedDecisions: nat
    var blockedByRuntimeGuard: nat
    var deriskEvents: nat

    constructor (guard: RuntimeRiskGuard)
      ensures this.guard == guard
      ensures processedIntents == approvedDecisions == blockedByRuntimeGuard == deriskEvents == 0
    {
      this.guard := guard;
      processedIntents, approvedDecisions, blockedByRuntimeGuard, deriskEvents := 0, 0, 0, 0;
    }

    /** The approval counter is bumped before the guard may take the approval back; the guard's own counters move
        for every intent that it acts on, authorized or not. */
    method ConsumeIntent(i: Intent) returns (approved: bool)
      modifies this, guard
      ensures (guard.states, approved) == Consume(guard.limits, old(guard.states), i)
      ensures processedIntents == old(processedIntents) + 1
      ensures approvedDecisions == old(approvedDecisions) + (if i.authorized then 1 else 0)
      ensures var d := Evaluated(guard.limits, old(guard.states), Key(i), i.drawdown, i.concentration, Abs(i.quantity),
                                 i.slippageBps).1;
        && blockedByRuntimeGuard == old(blockedByRuntimeGuard) + (if d.action == BlockNewOrders then 1 else 0)
        && deriskEvents == old(deriskEvents) + (if d.action == DeRisk then 1 else 0)
    {
      hide Evaluated;
      approved := i.authorized;
      processedIntents := processedIntents + 1;
      if approved {
        approvedDecisions := approvedDecisions + 1;
      }
      var key := if i.strategyKey == None || i.strategyKey == Some("") then "unknown" else i.strategyKey.value;
      var d := guard.Evaluate(key, i.drawdown, i.concentration, Abs(i.quantity), i.slippageBps);
      if d.action != NoAction {
        approved := false;
        if d.action == BlockNewOrders {
          blockedByRuntimeGuard := blockedByRuntimeGuard + 1;
        }
        if d.action == DeRisk {
          deriskEvents := deriskEvents + 1;
        }
      }
    }
  }

  function Run(limits: map<string, Limits>, intents: seq<Intent>): (map<string, GuardState>, seq<bool>) {
    if intents == [] then (map[], [])
    else
      var n := |intents| - 1;
      var (states, approved) := Run(limits, intents[..n]);
      var (after, ok) := Consume(limits, states, intents[n]);
      (after, approved + [ok])
  }

  /** The absolute quantity of a strategy's intents, and of its intents published as approved. */
  function Requested(intents: seq<Intent>, key: string): real {
    if intents == [] then 0.0
    else
      var n := |intents| - 1;
      Requested(intents[..n], key) + (if Key(intents[n]) == key then Abs(intents[n].quantity) else 0.0)
  }

  function Approved(intents: seq<Intent>, approved: seq<bool>, key: string): real
    requires |intents| == |approved|
  {
    if intents == [] then 0.0
    else
      var n := |intents| - 1;
      Approved(intents[..n], approved[..n], key)
      + (if Key(intents[n]) == key && approved[n] then Abs(intents[n].quantity) else 0.0)
  }

  function StateOf(states: map<string, GuardState>, key: string): GuardState {
    if key in states then states[key] else FRESH
  }

  lemma {:induction false} RunLength(limits: map<string, Limits>, intents: seq<Intent>)
    ensures |Run(limits, intents).1| == |intents|
  {
    if intents != [] { RunLength(limits, intents[..|intents| - 1]); }
  }

  /** What one intent does to a strategy with limits. */
  lemma ConsumeEffect(limits: map<string, Limits>, states: map<string, GuardState>, i: Intent, key: string)
    requires key in limits
    ensures var (after, ok) := Consume(limits, states, i);
      && (Key(i) != key ==> StateOf(after, key) == StateOf(states, key))
      && (Key(i) == key ==>
            && StateOf(after, key).turnover == StateOf(states, key).turnover + Abs(i.quantity)
            && StateOf(after, key).orders == StateOf(states, key).orders + 1
            && (ok ==> StateOf(after, key).turnover <= limits[key].maxTurnover))
  {
    if Key(i) == key {
      var state := Charged(StateOf(states, key), Abs(i.quantity), i.slippageBps);
      var breaches := Breaches(limits[key], state, i.drawdown, i.concentration);
      if state.turnover > limits[key].maxTurnover { assert MaxTurnover in breaches; }
    }
  }

  /** Over any run, for each strategy with limits: the guard has counted everything requested, and what was
      approved is within the turnover limit. */
  lemma {:induction false} ApprovedStaysWithinTurnover(limits: map<string, Limits>, intents: seq<Intent>, key: string)
    requires key in limits
    ensures var (states, approved) := Run(limits, intents);
      && |approved| == |intents|
      && StateOf(states, key).turnover == Requested(intents, key)
      && Approved(intents, approved, key) <= Requested(intents, key)
      && 0.0 <= Approved(intents, approved, key) <= (if limits[key].maxTurnover > 0.0 then limits[key].maxTurnover
                                                          else 0.0)
      && (Approved(intents, approved, key) <= limits[key].maxTurnover <==> limits[key].maxTurnover >= 0.0)
  {
    RunLength(limits, intents);
    if intents != [] {
      var n := |intents| - 1;
      var (states, approved) := Run(limits, intents[..n]);
      ApprovedStaysWithinTurnover(limits, intents[..n], key);
      ConsumeEffect(limits, states, intents[n], key);
      assert Run(limits, intents).1[..n] == approved;
    }
  }

  function Slipped(intents: seq<Intent>, key: string): real {
    if intents == [] then 0.0
    else
      var n := |intents| - 1;
      Slipped(intents[..n], key) + (if Key(intents[n]) == key then Abs(intents[n].slippageBps) else 0.0)
  }

  function Orders(intents: seq<Intent>, key: string): nat {
    if intents == [] then 0
    else
      var n := |intents| - 1;
      Orders(intents[..n], key) + (if Key(intents[n]) == key then 1 else 0)
  }

  /** What the guard has counted for a strategy with limits, at any point of any run. */
  lemma {:induction false} GuardCounts(limits: map<string, Limits>, intents: seq<Intent>, key: string)
    requires key in limits
    ensures var s := StateOf(Run(limits, intents).0, key);
      && s.turnover == Requested(intents, key)
      && s.slippageBps == Slipped(intents, key)
      && s.orders == Orders(intents, key)
  {
    hide Breaches, Decide;
    if intents != [] { GuardCounts(limits, intents[..|intents| - 1], key); }
  }

  predicate WithinLimits(l: Limits, turnover: real, slippageBps: real, orders: nat, drawdown: real,
                         concentration: real) {
    && drawdown <= l.maxDrawdown && concentration <= l.maxConcentration && turnover <= l.maxTurnover
    && orders > 0 && slippageBps / orders as real <= l.maxSlippageBps
  }

  /** The answer to every intent of every run: approved exactly when the authority approved it and, if its
      strategy has limits, it is within them counting everything the strategy asked for so far. */
  lemma ApprovedExactlyWithinLimits(limits: map<string, Limits>, intents: seq<Intent>, k: nat)
    requires k < |intents|
    ensures |Run(limits, intents).1| == |intents|
    ensures var i, key, upTo := intents[k], Key(intents[k]), intents[..k + 1];
      Run(limits, intents).1[k] <==>
        && i.authorized
        && (key in limits ==>
              WithinLimits(limits[key], Requested(upTo, key), Slipped(upTo, key), Orders(upTo, key), i.drawdown,
                           i.concentration))
  {
    hide WithinLimits, Breaches, Decide;
    AnswersOfPrefix(limits, intents, k);
    var i, key := intents[k], Key(intents[k]);
    if key in limits {
      var before, upTo := Run(limits, intents[..k]).0, intents[..k + 1];
      assert upTo[..k] == intents[..k];
      GuardCounts(limits, intents[..k], key);
      var s := Charged(StateOf(before, key), Abs(i.quantity), i.slippageBps);
      NoBreachMeans(limits[key], s, i.drawdown, i.concentration);
      assert s.turnover == Requested(upTo, key) && s.slippageBps == Slipped(upTo, key) && s.orders == Orders(upTo, key);
    }
  }

  lemma NoBreachMeans(l: Limits, s: GuardState, drawdown: real, concentration: real)
    requires s.orders > 0
    ensures Decide(Breaches(l, s, drawdown, concentration)).action == NoAction <==>
              WithinLimits(l, s.turnover, s.slippageBps, s.orders, drawdown, concentration)
    ensures Decide(Breaches(l, s, drawdown, concentration)).action == DeRisk <==> drawdown > l.maxDrawdown
  {
    var b := Breaches(l, s, drawdown, concentration);
    assert drawdown > l.maxDrawdown ==> b[0] == MaxDrawdown;
  }

  lemma {:induction false} RequestedGrows(intents: seq<Intent>, key: string, k: nat)
    requires k <= |intents|
    ensures Requested(intents[..k], key) <= Requested(intents, key)
  {
    if k == |intents| {
      assert intents[..k] == intents;
    } else {
      var n := |intents| - 1;
      assert intents[..n][..k] == intents[..k];
      RequestedGrows(intents[..n], key, k);
    }
  }

  /** The answers of a run are those of its prefixes. */
  lemma {:induction false} AnswersOfPrefix(limits: map<string, Limits>, intents: seq<Intent>, k: nat)
    requires k < |intents|
    ensures |Run(limits, intents).1| == |intents|
    ensures Run(limits, intents).1[k] == Consume(limits, Run(limits, intents[..k]).0, intents[k]).1
  {
    RunLength(limits, intents);
    var n := |intents| - 1;
    RunLength(limits, intents[..n]);
    if k < n {
      assert intents[..n][..k] == intents[..k];
      AnswersOfPrefix(limits, intents[..n], k);
    }
  }

  /** Once a strategy has asked for more than its turnover limit, each of its intents is refused. */
  lemma BreachedTurnoverRefusesAll(limits: map<string, Limits>, intents: seq<Intent>, key: string, j: nat, k: nat)
    requires key in limits && j <= k < |intents| && Key(intents[k]) == key
    requires Requested(intents[..j + 1], key) > limits[key].maxTurnover
    ensures |Run(limits, intents).1| == |intents| && !Run(limits, intents).1[k]
  {
    AnswersOfPrefix(limits, intents, k);
    var prefix := intents[..k + 1];
    assert prefix[..j + 1] == intents[..j + 1] && prefix[..k] == intents[..k];
    RequestedGrows(prefix, key, j + 1);
    ApprovedStaysWithinTurnover(limits, prefix, key);
    assert Run(limits, prefix).0 == Consume(limits, Run(limits, intents[..k]).0, intents[k]).0;
    ConsumeEffect(limits, Run(limits, intents[..k]).0, intents[k], key);
  }

  function OwnIntents(intents: seq<Intent>, key: string): seq<Intent> {
    if intents == [] then []
    else
      var n := |intents| - 1;
      OwnIntents(intents[..n], key) + (if Key(intents[n]) == key then [intents[n]] else [])
  }

  /** What an intent does to its strategy depends on that strategy's state only. */
  lemma ConsumeOwn(limits: map<string, Limits>, a: map<string, GuardState>, b: map<string, GuardState>, i: Intent,
                   key: string)
    requires StateOf(a, key) == StateOf(b, key)
    ensures Key(i) == key ==>
      && StateOf(Consume(limits, a, i).0, key) == StateOf(Consume(limits, b, i).0, key)
      && Consume(limits, a, i).1 == Consume(limits, b, i).1
    ensures Key(i) != key ==> StateOf(Consume(limits, a, i).0, key) == StateOf(a, key)
  {
    hide Breaches, Decide, Charged;
  }

  function OwnAnswers(intents: seq<Intent>, approved: seq<bool>, key: string): seq<bool>
    requires |intents| == |approved|
  {
    if intents == [] then []
    else
      var n := |intents| - 1;
      OwnAnswers(intents[..n], approved[..n], key) + (if Key(intents[n]) == key then [approved[n]] else [])
  }

  /** A strategy's guard state, and the answers to its intents, are those of a run of its own intents only. */
  lemma {:induction false} StrategiesAreIndependent(limits: map<string, Limits>, intents: seq<Intent>, key: string)
    ensures StateOf(Run(limits, intents).0, key) == StateOf(Run(limits, OwnIntents(intents, key)).0, key)
    ensures |Run(limits, intents).1| == |intents|
    ensures OwnAnswers(intents, Run(limits, intents).1, key) == Run(limits, OwnIntents(intents, key)).1
  {
    RunLength(limits, intents);
    if intents != [] {
      var n := |intents| - 1;
      StrategiesAreIndependent(limits, intents[..n], key);
      assert Run(limits, intents).1[..n] == Run(limits, intents[..n]).1;
      var before, own := Run(limits, intents[..n]).0, OwnIntents(intents[..n], key);
      ConsumeOwn(limits, before, Run(limits, own).0, intents[n], key);
      if Key(intents[n]) == key {
        assert (own + [intents[n]])[..|own|] == own;
      } else {
        assert own + [] == own;
      }
    }
  }

  /** De-risking marks a strategy inactive, but the mark is never consulted: the next intent is decided as
      if it were not there. */
  lemma InactiveChangesNothing(limits: map<string, Limits>, states: map<string, GuardState>, i: Intent)
    requires Key(i) in states
    ensures var s := states[Key(i)];
      Consume(limits, states[Key(i) := s.(active := false)], i).1
      == Consume(limits, states[Key(i) := s.(active := true)], i).1
  {
    var s := states[Key(i)];
    if Key(i) in limits {
      var a := Charged(s.(active := false), Abs(i.quantity), i.slippageBps);
      var b := Charged(s.(active := true), Abs(i.quantity), i.slippageBps);
      assert Breaches(limits[Key(i)], a, i.drawdown, i.concentration)
          == Breaches(limits[Key(i)], b, i.drawdown, i.concentration);
    }
  }
}
