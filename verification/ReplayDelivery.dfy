/** One socket's first subscribe-then-replay, interleaved in every possible way with publications and with
    the sends they start. Each action is one stretch between `await`s of the manager or the endpoint. */
module ReplayDelivery {
  import opened ReplayLog

  datatype Phase =
    | Idle                          // connected, nothing subscribed
    | Subscribed                    // subscribed, replay not yet computed
    | Replaying(rest: seq<Event>)   // replay computed, `rest` still to be sent
    | Refused                       // the cursor was too old
    | Streaming                     // no replay pending

  datatype Session = Session(
    window: nat,
    log: seq<Event>,
    audible: seq<bool>,             // for each log entry: was the socket subscribed to it when it was published
    topics: set<string>,            // the current subscriptions
    phase: Phase,
    cursor: nat,                    // the `last_seq` of the connection
    requested: set<string>,         // the subscriptions that the replay was asked for
    subscribedAt: nat,              // how long the log was at the subscribe
    snapshotAt: nat,                // and when the replay was computed
    narrowed: bool,                 // did the socket ever leave a requested topic
    pending: multiset<Event>,       // live sends started and not finished, in any order
    outbox: seq<Event>)             // event frames sent to the socket

  datatype Action =
    | Publish(topic: string, payload: string)
    | Subscribe(topics: set<string>)
    | Snapshot
    | ReplaySend
    | ReplayDone
    | LiveSend(event: Event)
    | Widen(topics: set<string>)
    | Narrow(topics: set<string>)

  function Connected(window: nat, log: seq<Event>, cursor: nat): Session {
    Session(window, log, seq(|log|, _ => false), {}, Idle, cursor, {}, 0, 0, false, multiset{}, [])
  }

  /** An action that is not enabled in a state leaves it unchanged. */
  function Step(s: Session, a: Action): Session {
    match a
    case Publish(topic, payload) =>
      var e := NextEvent(s.log, topic, payload);
      var heard := topic in s.topics;
      s.(log := s.log + [e], audible := s.audible + [heard],
         pending := if heard then s.pending + multiset{e} else s.pending)
    case Subscribe(topics) =>
      if s.phase != Idle then s
      else s.(topics := s.topics + topics, requested := s.topics + topics, phase := Subscribed, subscribedAt := |s.log|)
    case Snapshot =>
      if s.phase != Subscribed then s
      else s.(snapshotAt := |s.log|,
              phase := if Resumable(s.log, s.window, s.cursor)
                       then Replaying(Matching(Tail(s.log, s.window), s.cursor, s.requested)) else Refused)
    case ReplaySend =>
      if !s.phase.Replaying? || s.phase.rest == [] then s
      else s.(outbox := s.outbox + [s.phase.rest[0]], phase := Replaying(s.phase.rest[1..]))
    case ReplayDone =>
      if s.phase != Replaying([]) then s else s.(phase := Streaming)
    case LiveSend(e) =>
      if e !in s.pending then s
      else s.(pending := s.pending - multiset{e}, outbox := s.outbox + [e])
    case Widen(topics) =>
      if s.phase != Streaming && s.phase != Refused then s else s.(topics := s.topics + topics)
    case Narrow(topics) =>
      if s.phase != Streaming && s.phase != Refused then s
      else s.(topics := s.topics - topics, narrowed := s.narrowed || topics * s.requested != {})
  }

  function Run(s: Session, actions: seq<Action>): Session {
    if actions == [] then s else Step(Run(s, actions[..|actions| - 1]), actions[|actions| - 1])
  }

  /** The entries of the log that were audible when they were published. */
  function Heard(log: seq<Event>, audible: seq<bool>): seq<Event>
    requires |log| == |audible|
  {
    if log == [] then []
    else
      var n := |log| - 1;
      Heard(log[..n], audible[..n]) + (if audible[n] then [log[n]] else [])
  }

  /** What the replay sends: nothing before it is computed, nothing when it is refused. */
  ghost function Replayed(s: Session): seq<Event>
    requires s.snapshotAt <= |s.log|
  {
    if s.phase.Replaying? || s.phase.Streaming? then Matching(s.log[..s.snapshotAt], s.cursor, s.requested) else []
  }

  ghost function Rest(s: Session): seq<Event> {
    if s.phase.Replaying? then s.phase.rest else []
  }

  ghost predicate WellSized(s: Session) {
    && s.window >= 1 && Numbered(s.log) && |s.audible| == |s.log|
    && s.subscribedAt <= |s.log| && s.snapshotAt <= |s.log|
  }

  /** Conservation: sent, in flight and still to be replayed make up exactly the live and the replayed share. */
  ghost predicate Conserved(s: Session)
    requires WellSized(s)
  {
    multiset(s.outbox) + s.pending + multiset(Rest(s)) == multiset(Heard(s.log, s.audible)) + multiset(Replayed(s))
  }

  /** Which log entries were audible, by the phase of the socket. */
  ghost predicate AudibleByPhase(s: Session)
    requires WellSized(s)
  {
    match s.phase
    case Idle => s.topics == {} && !s.narrowed && forall i :: 0 <= i < |s.log| ==> !s.audible[i]
    case Subscribed =>
      && s.topics == s.requested && !s.narrowed
      && (forall i :: 0 <= i < s.subscribedAt ==> !s.audible[i])
      && (forall i :: s.subscribedAt <= i < |s.log| ==> (s.audible[i] <==> s.log[i].topic in s.requested))
    case _ =>
      && s.subscribedAt <= s.snapshotAt
      && (s.phase.Replaying? ==> !s.narrowed)
      && (forall i :: 0 <= i < s.subscribedAt ==> !s.audible[i])
      && (forall i :: s.subscribedAt <= i < s.snapshotAt ==> (s.audible[i] <==> s.log[i].topic in s.requested))
      && (!s.narrowed ==> s.requested <= s.topics)
      && (!s.narrowed ==> forall i :: s.snapshotAt <= i < |s.log| && s.log[i].topic in s.requested ==> s.audible[i])
  }

  ghost predicate RefusedByWindow(s: Session)
    requires WellSized(s)
  {
    s.phase != Idle && s.phase != Subscribed ==>
      (s.phase == Refused <==> !Resumable(s.log[..s.snapshotAt], s.window, s.cursor))
  }

  ghost predicate Invariant(s: Session) {
    WellSized(s) && Conserved(s) && AudibleByPhase(s) && RefusedByWindow(s)
  }

  lemma HeardAppend(log: seq<Event>, audible: seq<bool>, e: Event, heard: bool)
    requires |log| == |audible|
    ensures Heard(log + [e], audible + [heard]) == Heard(log, audible) + (if heard then [e] else [])
  {
    assert (log + [e])[..|log|] == log && (audible + [heard])[..|log|] == audible;
  }

  lemma AddToBoth(a: multiset<Event>, b: multiset<Event>, c: multiset<Event>, d: multiset<Event>, f: multiset<Event>,
                  added: multiset<Event>)
    requires a + b + c == d + f
    ensures a + (b + added) + c == (d + added) + f
  {
    assert a + (b + added) + c == (a + b + c) + added;
  }

  lemma PublishConserves(s: Session, topic: string, payload: string)
    requires WellSized(s) && Conserved(s)
    ensures var t := Step(s, Publish(topic, payload)); WellSized(t) && Conserved(t)
  {
    hide Heard, Matching, Resumable;
    var t := Step(s, Publish(topic, payload));
    var e, heard := NextEvent(s.log, topic, payload), topic in s.topics;
    HeardAppend(s.log, s.audible, e, heard);
    var added := if heard then multiset{e} else multiset{};
    assert multiset(Heard(t.log, t.audible)) == multiset(Heard(s.log, s.audible)) + added;
    assert t.pending == s.pending + added;
    AddToBoth(multiset(s.outbox), s.pending, multiset(Rest(s)), multiset(Heard(s.log, s.audible)),
              multiset(Replayed(s)), added);
    assert t.log[..s.snapshotAt] == s.log[..s.snapshotAt];
    assert Replayed(t) == Replayed(s) && Rest(t) == Rest(s);
  }

  lemma SnapshotConserves(s: Session)
    requires WellSized(s) && Conserved(s)
    ensures var t := Step(s, Snapshot); WellSized(t) && Conserved(t)
  {
    hide Heard, Matching, Numbered, Resumable;
    if s.phase == Subscribed {
      var t := Step(s, Snapshot);
      assert Rest(s) == [] && Replayed(s) == [];
      assert multiset(s.outbox) + s.pending == multiset(Heard(s.log, s.audible)) by {
        assert multiset(s.outbox) + s.pending + multiset{} == multiset(s.outbox) + s.pending;
      }
      assert Rest(t) == Replayed(t) by {
        assert s.log[..|s.log|] == s.log;
        if Resumable(s.log, s.window, s.cursor) { TailMatches(s.log, s.window, s.cursor, s.requested); }
      }
      assert t.outbox == s.outbox && t.pending == s.pending && t.log == s.log && t.audible == s.audible;
    }
  }

  lemma ReplaySendConserves(s: Session)
    requires WellSized(s) && Conserved(s)
    ensures var t := Step(s, ReplaySend); WellSized(t) && Conserved(t)
  {
    hide Heard, Matching, Numbered, Resumable;
    if s.phase.Replaying? && s.phase.rest != [] {
      var t := Step(s, ReplaySend);
      assert s.phase.rest == [s.phase.rest[0]] + t.phase.rest;
      assert Replayed(t) == Replayed(s);
    }
  }

  lemma LiveSendConserves(s: Session, e: Event)
    requires WellSized(s) && Conserved(s)
    ensures var t := Step(s, LiveSend(e)); WellSized(t) && Conserved(t)
  {
    hide Heard, Matching, Numbered, Resumable;
    var t := Step(s, LiveSend(e));
    assert Replayed(t) == Replayed(s) && Rest(t) == Rest(s);
    if e in s.pending {
      assert multiset(t.outbox) + t.pending == multiset(s.outbox) + s.pending;
    }
  }

  lemma SubscriptionConserves(s: Session, a: Action)
    requires WellSized(s) && Conserved(s)
    requires a.Subscribe? || a.Widen? || a.Narrow? || a.ReplayDone?
    ensures var t := Step(s, a); WellSized(t) && Conserved(t)
  {
    hide Heard, Matching, Numbered, Resumable;
    var t := Step(s, a);
    assert Replayed(t) == Replayed(s) && Rest(t) == Rest(s);
  }

  lemma StepConserves(s: Session, a: Action)
    requires WellSized(s) && Conserved(s)
    ensures WellSized(Step(s, a)) && Conserved(Step(s, a))
  {
    match a {
      case Publish(topic, payload) => PublishConserves(s, topic, payload);
      case Snapshot => SnapshotConserves(s);
      case ReplaySend => ReplaySendConserves(s);
      case LiveSend(e) => LiveSendConserves(s, e);
      case Subscribe(_) => SubscriptionConserves(s, a);
      case ReplayDone => SubscriptionConserves(s, a);
      case Widen(_) => SubscriptionConserves(s, a);
      case Narrow(_) => SubscriptionConserves(s, a);
    }
  }

  lemma PublishKeepsAudible(s: Session, topic: string, payload: string)
    requires WellSized(s) && AudibleByPhase(s)
    ensures var t := Step(s, Publish(topic, payload)); WellSized(t) && AudibleByPhase(t)
  {
    hide Resumable;
    var t := Step(s, Publish(topic, payload));
    forall i | 0 <= i < |s.log| ensures t.audible[i] == s.audible[i] && t.log[i] == s.log[i] {}
    assert t.audible[|s.log|] == (topic in s.topics) && t.log[|s.log|].topic == topic;
  }

  lemma NarrowKeepsAudible(s: Session, topics: set<string>)
    requires WellSized(s) && AudibleByPhase(s)
    ensures var t := Step(s, Narrow(topics)); WellSized(t) && AudibleByPhase(t)
  {
    if topics * s.requested == {} {
      forall t | t in s.requested ensures t !in topics { assert t in topics ==> t in topics * s.requested; }
    }
  }

  lemma StepKeepsAudible(s: Session, a: Action)
    requires WellSized(s) && AudibleByPhase(s)
    ensures WellSized(Step(s, a)) && AudibleByPhase(Step(s, a))
  {
    match a {
      case Publish(topic, payload) => PublishKeepsAudible(s, topic, payload);
      case Narrow(topics) => NarrowKeepsAudible(s, topics);
      case _ =>
    }
  }

  lemma StepKeepsRefused(s: Session, a: Action)
    requires WellSized(s) && RefusedByWindow(s) && WellSized(Step(s, a))
    ensures RefusedByWindow(Step(s, a))
  {
    assert a.Publish? ==> Step(s, a).log[..s.snapshotAt] == s.log[..s.snapshotAt];
    assert s.log[..|s.log|] == s.log;
  }

  lemma StepKeepsInvariant(s: Session, a: Action)
    requires Invariant(s)
    ensures var t := Step(s, a);
      Invariant(t) && t.cursor == s.cursor && t.window == s.window && s.log <= t.log
  {
    StepConserves(s, a);
    StepKeepsAudible(s, a);
    StepKeepsRefused(s, a);
  }

  lemma {:induction false} RunKeepsInvariant(s: Session, actions: seq<Action>)
    requires Invariant(s)
    ensures var t := Run(s, actions);
      Invariant(t) && t.cursor == s.cursor && t.window == s.window && s.log <= t.log
  {
    if actions != [] {
      var n := |actions| - 1;
      RunKeepsInvariant(s, actions[..n]);
      StepKeepsInvariant(Run(s, actions[..n]), actions[n]);
    }
  }

  lemma {:induction false} NothingHeard(log: seq<Event>, audible: seq<bool>)
    requires |log| == |audible| && forall i :: 0 <= i < |audible| ==> !audible[i]
    ensures Heard(log, audible) == []
  {
    if log != [] { NothingHeard(log[..|log| - 1], audible[..|log| - 1]); }
  }

  lemma ConnectedInvariant(window: nat, log: seq<Event>, cursor: nat)
    requires window >= 1 && Numbered(log)
    ensures Invariant(Connected(window, log, cursor))
  {
    NothingHeard(log, seq(|log|, _ => false));
  }

  // ----- Counting the copies of one event

  lemma {:induction false} HeardCount(log: seq<Event>, audible: seq<bool>, i: nat)
    requires Numbered(log) && |log| == |audible| && i < |log|
    ensures multiset(Heard(log, audible))[log[i]] == if audible[i] then 1 else 0
  {
    hide Heard;
    var n := |log| - 1;
    var front := Heard(log[..n], audible[..n]);
    assert log == log[..n] + [log[n]] && audible == audible[..n] + [audible[n]];
    HeardAppend(log[..n], audible[..n], log[n], audible[n]);
    if i < n {
      HeardCount(log[..n], audible[..n], i);
    } else {
      HeardMember(log[..n], audible[..n], log[n]);
    }
  }

  lemma {:induction false} HeardMember(log: seq<Event>, audible: seq<bool>, e: Event)
    requires |log| == |audible| && e !in log
    ensures e !in Heard(log, audible)
  {
    if log != [] { HeardMember(log[..|log| - 1], audible[..|log| - 1], e); }
  }

  lemma {:induction false} AscendingCount(s: seq<Event>, e: Event)
    requires Ascending(s)
    ensures multiset(s)[e] == if e in s then 1 else 0
  {
    if s != [] {
      var n := |s| - 1;
      AscendingCount(s[..n], e);
      assert s == s[..n] + [s[n]];
    }
  }

  /** How many frames of a log entry a socket is owed, from its live subscription and from its replay. */
  ghost function Owed(s: Session, i: nat): nat
    requires i < |s.log| && |s.audible| == |s.log|
  {
    var e := s.log[i];
    (if s.audible[i] then 1 else 0)
    + (if (s.phase.Replaying? || s.phase.Streaming?) && i < s.snapshotAt && i >= s.cursor && e.topic in s.requested
       then 1 else 0)
  }

  lemma CopiesAreOwed(s: Session, i: nat)
    requires Invariant(s) && i < |s.log|
    ensures (multiset(s.outbox) + s.pending + multiset(Rest(s)))[s.log[i]] == Owed(s, i)
  {
    hide Matching, Heard, Resumable, AudibleByPhase, RefusedByWindow;
    var e := s.log[i];
    HeardCount(s.log, s.audible, i);
    if s.phase.Replaying? || s.phase.Streaming? {
      var past := s.log[..s.snapshotAt];
      MatchingAscending(past, s.cursor, s.requested);
      AscendingCount(Matching(past, s.cursor, s.requested), e);
      MatchingMember(past, s.cursor, s.requested, e);
      assert e in past <==> i < s.snapshotAt by {
        if i < s.snapshotAt { assert past[i] == e; }
      }
    }
  }

  // ----- A run told by its actions alone

  /** The log after the actions: every publication, numbered from 1. */
  function Published(log: seq<Event>, actions: seq<Action>): seq<Event> {
    if actions == [] then log
    else
      var before := Published(log, actions[..|actions| - 1]);
      match actions[|actions| - 1]
      case Publish(topic, payload) => before + [Event(|before| + 1, topic, payload)]
      case _ => before
  }

  /** The index of the first subscribe, or the number of actions. */
  function FirstSubscribe(actions: seq<Action>): (k: nat)
    ensures k <= |actions|
    ensures forall i :: 0 <= i < k ==> !actions[i].Subscribe?
    ensures k < |actions| ==> actions[k].Subscribe?
  {
    if actions == [] then 0
    else
      var n := |actions| - 1;
      var k := FirstSubscribe(actions[..n]);
      if k < n || actions[n].Subscribe? then k else n + 1
  }

  /** The index of the first snapshot after that, or the number of actions. */
  function FirstSnapshot(actions: seq<Action>): (m: nat)
    ensures m <= |actions|
    ensures forall i :: FirstSubscribe(actions) < i < m ==> !actions[i].Snapshot?
    ensures m < |actions| ==> FirstSubscribe(actions) < m && actions[m].Snapshot?
  {
    if actions == [] then 0
    else
      var n := |actions| - 1;
      var m := FirstSnapshot(actions[..n]);
      if m < n || (actions[n].Snapshot? && FirstSubscribe(actions[..n]) < n) then m else n + 1
  }

  /** The subscriptions: those of the first subscribe, and from when its replay is over or refused also of later
      subscribes, less those of unsubscribes. */
  function TopicsAfter(s: Session, actions: seq<Action>): set<string> {
    if actions == [] then {}
    else
      var past, a := actions[..|actions| - 1], actions[|actions| - 1];
      var before, phase := TopicsAfter(s, past), Run(s, past).phase;
      match a
      case Subscribe(topics) => if phase.Idle? then before + topics else before
      case Widen(topics) => if phase.Streaming? || phase.Refused? then before + topics else before
      case Narrow(topics) => if phase.Streaming? || phase.Refused? then before - topics else before
      case _ => before
  }

  /** Whether a log entry was published while its topic was subscribed to. */
  ghost predicate PublishedHeard(s: Session, log: seq<Event>, actions: seq<Action>, i: nat) {
    exists p :: 0 <= p < |actions| && actions[p].Publish? && |Published(log, actions[..p])| == i
                && actions[p].topic in TopicsAfter(s, actions[..p])
  }

  /** Whether an unsubscribe that took effect named one of these topics. */
  ghost predicate LeftOneOf(s: Session, actions: seq<Action>, topics: set<string>) {
    exists p :: 0 <= p < |actions| && actions[p].Narrow? && actions[p].topics * topics != {}
                && (Run(s, actions[..p]).phase.Streaming? || Run(s, actions[..p]).phase.Refused?)
  }

  lemma {:induction false} RunLog(s: Session, actions: seq<Action>)
    ensures Run(s, actions).log == Published(s.log, actions)
  {
    if actions != [] { RunLog(s, actions[..|actions| - 1]); }
  }

  /** What the subscribe recorded, */
  ghost predicate ToldSubscribe(log: seq<Event>, actions: seq<Action>, s: Session) {
    var k := FirstSubscribe(actions);
    && (s.phase.Idle? <==> k == |actions|)
    && (s.phase.Idle? ==> s.topics == {})
    && (k < |actions| ==> s.requested == actions[k].topics && s.subscribedAt == |Published(log, actions[..k])|)
  }

  /** and the snapshot. */
  ghost predicate ToldSnapshot(log: seq<Event>, actions: seq<Action>, s: Session) {
    var m := FirstSnapshot(actions);
    && (s.phase.Idle? || s.phase.Subscribed? <==> m == |actions|)
    && (m < |actions| ==> s.snapshotAt == |Published(log, actions[..m])|)
  }

  lemma IndicesStep(past: seq<Action>, a: Action)
    ensures var k, m := FirstSubscribe(past), FirstSnapshot(past);
      && k <= |past| && m <= |past| && (m < |past| ==> k < m)
      && FirstSubscribe(past + [a]) == (if k < |past| || a.Subscribe? then k else |past| + 1)
      && FirstSnapshot(past + [a]) == (if m < |past| || (a.Snapshot? && k < |past|) then m else |past| + 1)
  {
    assert (past + [a])[..|past|] == past;
  }

  lemma SubscribeStep(log: seq<Event>, past: seq<Action>, a: Action, s: Session)
    requires ToldSubscribe(log, past, s) && s.log == Published(log, past)
    ensures ToldSubscribe(log, past + [a], Step(s, a))
  {
    hide Matching, Tail, Resumable, Published, FirstSubscribe, FirstSnapshot;
    IndicesStep(past, a);
    var actions, k := past + [a], FirstSubscribe(past);
    assert actions[..k] == past[..k];
    assert k < |past| ==> actions[k] == past[k];
  }

  lemma SnapshotStep(log: seq<Event>, past: seq<Action>, a: Action, s: Session)
    requires ToldSubscribe(log, past, s) && ToldSnapshot(log, past, s) && s.log == Published(log, past)
    ensures ToldSnapshot(log, past + [a], Step(s, a))
  {
    hide Matching, Tail, Resumable, Published, FirstSubscribe, FirstSnapshot;
    IndicesStep(past, a);
    assert (past + [a])[..FirstSnapshot(past)] == past[..FirstSnapshot(past)];
  }

  lemma {:induction false} RunTopics(start: Session, actions: seq<Action>)
    requires start.topics == {}
    ensures Run(start, actions).topics == TopicsAfter(start, actions)
  {
    hide Matching, Tail, Resumable;
    if actions != [] { RunTopics(start, actions[..|actions| - 1]); }
  }

  lemma {:induction false} RunTold(window: nat, log: seq<Event>, cursor: nat, actions: seq<Action>)
    ensures var s := Run(Connected(window, log, cursor), actions);
      s.log == Published(log, actions) && ToldSubscribe(log, actions, s) && ToldSnapshot(log, actions, s)
  {
    var start := Connected(window, log, cursor);
    RunLog(start, actions);
    if actions == [] {
      assert FirstSubscribe(actions) == FirstSnapshot(actions) == 0;
    } else {
      var n := |actions| - 1;
      RunTold(window, log, cursor, actions[..n]);
      assert actions == actions[..n] + [actions[n]];
      assert Run(start, actions) == Step(Run(start, actions[..n]), actions[n]);
      hide ToldSubscribe, ToldSnapshot, Step, Run, Published, Connected;
      SubscribeStep(log, actions[..n], actions[n], Run(start, actions[..n]));
      SnapshotStep(log, actions[..n], actions[n], Run(start, actions[..n]));
    }
  }

  lemma {:induction false} PublishedGrows(log: seq<Event>, actions: seq<Action>, p: nat)
    requires p <= |actions|
    ensures |Published(log, actions[..p])| <= |Published(log, actions)|
    ensures p < |actions| && actions[p].Publish? ==> |Published(log, actions[..p])| < |Published(log, actions)|
  {
    if p == |actions| {
      assert actions[..p] == actions;
    } else {
      var n := |actions| - 1;
      assert actions[..n][..p] == actions[..p];
      PublishedGrows(log, actions[..n], p);
    }
  }

  lemma HeardShift(start: Session, log: seq<Event>, past: seq<Action>, a: Action, i: nat)
    ensures i < |Published(log, past)| ==>
              (PublishedHeard(start, log, past + [a], i) <==> PublishedHeard(start, log, past, i))
    ensures a.Publish? && i == |Published(log, past)| ==>
              (PublishedHeard(start, log, past + [a], i) <==> a.topic in TopicsAfter(start, past))
  {
    hide Published, TopicsAfter;
    var actions := past + [a];
    assert actions[..|past|] == past;
    forall p | 0 <= p < |past|
      ensures actions[..p] == past[..p] && actions[p] == past[p]
      ensures actions[p].Publish? ==> |Published(log, actions[..p])| < |Published(log, past)|
    {
      assert actions[..p] == past[..p];
      PublishedGrows(log, past, p);
    }
    assert actions[|past|] == a;
  }

  lemma HearingStep(s: Session, a: Action)
    ensures var t := Step(s, a);
      && t.audible == (if a.Publish? then s.audible + [a.topic in s.topics] else s.audible)
      && |t.log| == (if a.Publish? then |s.log| + 1 else |s.log|)
  {
    hide Matching, Tail, Resumable;
  }

  /** Who heard what. */
  lemma {:induction false} RunHeard(start: Session, actions: seq<Action>, i: nat)
    requires start.topics == {} && |start.audible| == |start.log|
    requires forall j :: 0 <= j < |start.log| ==> !start.audible[j]
    requires i < |Published(start.log, actions)|
    ensures var s := Run(start, actions);
      && |s.audible| == |s.log| == |Published(start.log, actions)|
      && (s.audible[i] <==> PublishedHeard(start, start.log, actions, i))
  {
    RunLog(start, actions);
    if actions != [] {
      var n := |actions| - 1;
      var past, a := actions[..n], actions[n];
      assert actions == past + [a];
      assert Run(start, actions) == Step(Run(start, past), a);
      RunLog(start, past);
      RunTopics(start, past);
      hide PublishedHeard, TopicsAfter, Run, Step, Published;
      HearingStep(Run(start, past), a);
      HeardShift(start, start.log, past, a, i);
      HeardLength(start, past);
      if i < |Published(start.log, past)| { RunHeard(start, past, i); }
    }
  }

  lemma {:induction false} HeardLength(start: Session, actions: seq<Action>)
    requires |start.audible| == |start.log|
    ensures |Run(start, actions).audible| == |Run(start, actions).log|
  {
    if actions != [] {
      hide Step;
      HeardLength(start, actions[..|actions| - 1]);
      HearingStep(Run(start, actions[..|actions| - 1]), actions[|actions| - 1]);
    }
  }

  lemma NarrowingStep(s: Session, a: Action)
    ensures var t := Step(s, a);
      && (t.narrowed <==> || s.narrowed
                          || (a.Narrow? && a.topics * s.requested != {} && (s.phase.Streaming? || s.phase.Refused?)))
      && (!s.phase.Idle? ==> t.requested == s.requested && !t.phase.Idle?)
      && (t.phase.Idle? ==> s.phase.Idle?)
  {
    hide Matching, Tail, Resumable;
  }

  lemma LeftShift(start: Session, past: seq<Action>, a: Action, topics: set<string>)
    ensures LeftOneOf(start, past + [a], topics) <==>
      || LeftOneOf(start, past, topics)
      || (a.Narrow? && a.topics * topics != {}
          && (Run(start, past).phase.Streaming? || Run(start, past).phase.Refused?))
  {
    hide Run;
    var actions := past + [a];
    assert forall p :: 0 <= p < |past| ==> actions[..p] == past[..p] && actions[p] == past[p];
    assert actions[..|past|] == past && actions[|past|] == a;
  }

  /** Whether a requested topic was left. */
  lemma {:induction false} RunNarrowed(start: Session, actions: seq<Action>)
    requires !start.narrowed
    ensures var s := Run(start, actions);
      s.narrowed ==> !s.phase.Idle?
    ensures var s := Run(start, actions);
      !s.phase.Idle? && start.phase.Idle? ==> (s.narrowed <==> LeftOneOf(start, actions, s.requested))
  {
    if actions != [] {
      var n := |actions| - 1;
      var past, a := actions[..n], actions[n];
      assert actions == past + [a];
      RunNarrowed(start, past);
      assert Run(start, actions) == Step(Run(start, past), a);
      var s, t := Run(start, past), Run(start, actions);
      NarrowingStep(s, a);
      LeftShift(start, past, a, t.requested);
      if s.phase.Idle? { NeverLeftIdle(start, past, t.requested); }
      hide Step, Run, LeftOneOf;
    }
  }

  lemma {:induction false} StillIdle(start: Session, actions: seq<Action>, p: nat)
    requires p <= |actions| && Run(start, actions).phase.Idle?
    ensures Run(start, actions[..p]).phase.Idle?
  {
    if p == |actions| {
      assert actions[..p] == actions;
    } else {
      var n := |actions| - 1;
      assert actions[..n][..p] == actions[..p];
      assert Run(start, actions) == Step(Run(start, actions[..n]), actions[n]);
      NarrowingStep(Run(start, actions[..n]), actions[n]);
      hide Step;
      StillIdle(start, actions[..n], p);
    }
  }

  lemma NeverLeftIdle(start: Session, actions: seq<Action>, topics: set<string>)
    requires Run(start, actions).phase.Idle?
    ensures !LeftOneOf(start, actions, topics)
  {
    hide Run;
    forall p | 0 <= p <= |actions| ensures Run(start, actions[..p]).phase.Idle? { StillIdle(start, actions, p); }
  }

  /** Every interleaving, exactly, and told by the actions: once its sends have finished, a socket whose replay was
      accepted has been sent an event twice if it has one of the topics of the first subscribe, lies past the cursor
      and was published between that subscribe and the snapshot, and otherwise at most once; every event of those
      topics past the cursor at least once, as long as none of them was left; and nothing else. */
  lemma EveryEventDelivered(window: nat, log: seq<Event>, cursor: nat, actions: seq<Action>, i: nat)
    requires window >= 1 && Numbered(log) && i < |Published(log, actions)|
    requires var s := Run(Connected(window, log, cursor), actions); s.phase == Streaming && s.pending == multiset{}
    ensures var start := Connected(window, log, cursor);
      var k, m := FirstSubscribe(actions), FirstSnapshot(actions);
      && k < m < |actions|
      && (var topics, from, to := actions[k].topics, |Published(log, actions[..k])|, |Published(log, actions[..m])|;
          var e := Published(log, actions)[i];
          var copies := multiset(Run(start, actions).outbox)[e];
          && e.num == i + 1 && copies <= 2
          && (copies == 2 <==> from <= i < to && i >= cursor && e.topic in topics)
          && (!LeftOneOf(start, actions, topics) && e.topic in topics && i >= cursor ==> copies >= 1)
          && (i < from ==> (copies == 1 <==> e.topic in topics && i >= cursor))
          && (i >= to ==> (copies == 1 <==> PublishedHeard(start, log, actions, i))))
  {
    var start := Connected(window, log, cursor);
    ConnectedInvariant(window, log, cursor);
    RunKeepsInvariant(start, actions);
    RunTold(window, log, cursor, actions);
    RunHeard(start, actions, i);
    RunNarrowed(start, actions);
    hide Run, Published, FirstSubscribe, FirstSnapshot, PublishedHeard, LeftOneOf, Matching, Heard, Resumable;
    CopiesAreOwed(Run(start, actions), i);
  }

  /** Nothing is sent that was not published. */
  lemma OnlyPublishedDelivered(window: nat, log: seq<Event>, cursor: nat, actions: seq<Action>, e: Event)
    requires window >= 1 && Numbered(log) && e in Run(Connected(window, log, cursor), actions).outbox
    ensures e in Published(log, actions)
  {
    var start := Connected(window, log, cursor);
    ConnectedInvariant(window, log, cursor);
    RunKeepsInvariant(start, actions);
    RunLog(start, actions);
    var s := Run(start, actions);
    hide Run, Published;
    HeardOnly(s.log, s.audible);
    hide Heard;
    assert forall x :: x in Replayed(s) ==> x in s.log by {
      forall x | x in Replayed(s) ensures x in s.log {
        MatchingMember(s.log[..s.snapshotAt], s.cursor, s.requested, x);
      }
    }
    assert multiset(s.outbox) <= multiset(Heard(s.log, s.audible)) + multiset(Replayed(s));
    assert e in multiset(s.outbox);
    assert e in multiset(Heard(s.log, s.audible)) + multiset(Replayed(s));
  }

  lemma HeardOnly(log: seq<Event>, audible: seq<bool>)
    requires |log| == |audible|
    ensures forall x :: x in Heard(log, audible) ==> x in log
  {
    forall x | x in Heard(log, audible) ensures x in log {
      if x !in log { HeardMember(log, audible, x); }
    }
  }

  /** A replay is refused exactly when, at the snapshot, more than the window has been published past the cursor, so
      that an event past it had left the buffer; even then each event of the first subscribe's topics published
      since is sent once. */
  lemma RefusedOnlyWhenEvicted(window: nat, log: seq<Event>, cursor: nat, actions: seq<Action>)
    requires window >= 1 && Numbered(log) && FirstSnapshot(actions) < |actions|
    ensures var start := Connected(window, log, cursor);
      var s, k, m := Run(start, actions), FirstSubscribe(actions), FirstSnapshot(actions);
      && (s.phase == Refused <==> |Published(log, actions[..m])| > window + cursor)
      && (s.phase == Refused && !LeftOneOf(start, actions, actions[k].topics) ==>
            forall i :: |Published(log, actions[..k])| <= i < |s.log| && s.log[i].topic in actions[k].topics ==>
              (multiset(s.outbox) + s.pending)[s.log[i]] == 1)
  {
    var start := Connected(window, log, cursor);
    ConnectedInvariant(window, log, cursor);
    RunKeepsInvariant(start, actions);
    RunTold(window, log, cursor, actions);
    RunNarrowed(start, actions);
    hide Run, Published, FirstSubscribe, FirstSnapshot, LeftOneOf;
    var s := Run(start, actions);
    if s.phase == Refused {
      forall i | s.subscribedAt <= i < |s.log| && s.log[i].topic in s.requested && !s.narrowed
        ensures (multiset(s.outbox) + s.pending)[s.log[i]] == 1
      {
        CopiesAreOwed(s, i);
      }
    }
  }

  // ----- Every replay can be finished

  /** The sends that are still to come, one after the other. */
  function Sends(pending: seq<Event>, rest: seq<Event>): seq<Action> {
    if pending != [] then Sends(pending[..|pending| - 1], rest) + [LiveSend(pending[|pending| - 1])]
    else seq(|rest|, _ => ReplaySend) + [ReplayDone]
  }

  lemma {:induction false} ReplaySends(s: Session, count: nat)
    requires s.phase.Replaying? && count <= |s.phase.rest|
    ensures Run(s, seq(count, _ => ReplaySend)) ==
              s.(outbox := s.outbox + s.phase.rest[..count], phase := Replaying(s.phase.rest[count..]))
  {
    if count > 0 {
      ReplaySends(s, count - 1);
      assert seq(count, _ => ReplaySend)[..count - 1] == seq(count - 1, _ => ReplaySend);
      assert s.phase.rest[..count] == s.phase.rest[..count - 1] + [s.phase.rest[count - 1]];
    }
  }

  lemma ReplayEnds(s: Session)
    requires s.phase.Replaying?
    ensures Run(s, Sends([], s.phase.rest)) == s.(outbox := s.outbox + s.phase.rest, phase := Streaming)
  {
    hide Step;
    var rest, sends := s.phase.rest, Sends([], s.phase.rest);
    ReplaySends(s, |rest|);
    assert sends[..|rest|] == seq(|rest|, _ => ReplaySend) && |sends| == |rest| + 1;
    var t := Run(s, sends[..|rest|]);
    assert rest[..|rest|] == rest && rest[|rest|..] == [];
    assert Run(s, sends) == Step(t, ReplayDone);
    assert Step(t, ReplayDone) == t.(phase := Streaming) by { DoneStep(t); }
  }

  lemma DoneStep(s: Session)
    requires s.phase == Replaying([])
    ensures Step(s, ReplayDone) == s.(phase := Streaming)
  {
    hide Matching, Tail, Resumable;
  }

  lemma LiveSendStep(s: Session, e: Event)
    requires e in s.pending
    ensures Step(s, LiveSend(e)) == s.(outbox := s.outbox + [e], pending := s.pending - multiset{e})
  {
    hide Matching, Tail, Resumable;
  }

  /** An accepted replay ends, with its frames sent in order, then the live sends as they finish. */
  lemma {:induction false} ReplayFinishes(s: Session, pending: seq<Event>)
    requires s.phase.Replaying? && multiset(pending) <= s.pending
    ensures Run(s, Sends(pending, s.phase.rest)) ==
      s.(outbox := s.outbox + s.phase.rest + pending, pending := s.pending - multiset(pending), phase := Streaming)
  {
    hide Step;
    var rest := s.phase.rest;
    if pending == [] {
      ReplayEnds(s);
      assert s.outbox + rest + pending == s.outbox + rest && s.pending - multiset(pending) == s.pending;
    } else {
      var n := |pending| - 1;
      assert pending == pending[..n] + [pending[n]];
      assert multiset(pending) == multiset(pending[..n]) + multiset{pending[n]};
      ReplayFinishes(s, pending[..n]);
      var t := Run(s, Sends(pending[..n], rest));
      assert Sends(pending, rest)[..|Sends(pending, rest)| - 1] == Sends(pending[..n], rest);
      assert pending[n] in t.pending;
      LiveSendStep(t, pending[n]);
      assert s.outbox + rest + pending == s.outbox + rest + pending[..n] + [pending[n]];
      assert s.pending - multiset(pending) == s.pending - multiset(pending[..n]) - multiset{pending[n]};
    }
  }
}
