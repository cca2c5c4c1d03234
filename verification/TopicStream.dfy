/** The resumable single-topic client and its whole life: connecting, streaming, dropping and resuming from
    its cursor, against the server's log. Frames reach the client in the order they were sent. */
module TopicStream {
  import opened Options
  import opened ReplayLog

  // ----- The hook's callbacks

  /** The newest `max` parsed payloads, newest first. */
  function Newest<T>(items: seq<T>, max: nat): seq<T> {
    if |items| <= max then items else items[..max]
  }

  /** All parsed payloads of the topic, newest first, on top of what was there before. */
  function Shown<T>(parse: string -> Option<T>, topic: string, events: seq<Event>, base: seq<T>): seq<T> {
    if events == [] then base
    else
      var n := |events| - 1;
      var before := Shown(parse, topic, events[..n], base);
      if events[n].topic == topic && parse(events[n].payload).Some?
      then [parse(events[n].payload).value] + before else before
  }

  /** What an event does to the cursor and to the events handled so far. */
  function CursorAfter(topic: string, cursor: Option<nat>, event: Event): Option<nat> {
    if event.topic == topic then Some(event.num) else cursor
  }

  function HandledAfter(topic: string, handled: seq<Event>, event: Event): seq<Event> {
    if event.topic == topic then handled + [event] else handled
  }

  class Stream<T> {
    const topic: string
    const maxItems: nat
    const parse: string -> Option<T>
    var lastSeq: Option<nat>
    var items: seq<T>
    var gapsReported: nat
    /** What the list held at the last resync, and the events handled since. */
    ghost var base: seq<T>
    ghost var handled: seq<Event>

    ghost predicate Valid()
      reads this
    {
      && items == Newest(Shown(parse, topic, handled, base), maxItems)
      && |base| <= maxItems
    }

    constructor (topic: string, maxItems: nat, parse: string -> Option<T>)
      ensures Valid() && lastSeq == None && items == [] && gapsReported == 0
      ensures this.topic == topic && this.maxItems == maxItems && this.parse == parse
    {
      this.topic, this.maxItems, this.parse := topic, maxItems, parse;
      lastSeq, items, gapsReported, base, handled := None, [], 0, [], [];
    }

    /** `onReplayMiss`: forget the cursor at once; the poll it starts answers later, see `OnPolled`. */
    method OnReplayMiss()
      requires Valid()
      modifies this`lastSeq
      ensures Valid() && lastSeq == None
    {
      lastSeq := None;
    }

    /** A fallback poll answers that a replay miss or a gap started. */
    method OnPolled(polled: seq<T>)
      requires Valid()
      modifies this`items, this`base, this`handled
      ensures Valid() && base == items && handled == []
      ensures |items| == (if |polled| < maxItems then |polled| else maxItems)
      ensures forall i :: 0 <= i < |items| ==> items[i] == polled[i]
    {
      items := Newest(polled, maxItems);
      base, handled := items, [];
    }

    /** The poll timer's poll answers: an empty answer is ignored. */
    method OnTimerPolled(polled: seq<T>)
      requires Valid()
      modifies this`items, this`base, this`handled
      ensures Valid()
      ensures polled == [] ==> items == old(items) && base == old(base) && handled == old(handled)
      ensures polled != [] ==> base == items && handled == []
      ensures polled != [] ==>
                && |items| == (if |polled| < maxItems then |polled| else maxItems)
                && forall i :: 0 <= i < |items| ==> items[i] == polled[i]
    {
      if |polled| == 0 {
        return;
      }
      OnPolled(polled);
    }

    /** `onEvent`: the cursor always becomes the event's number, even when that moves it backwards. */
    method OnEvent(event: Event)
      requires Valid()
      modifies this
      ensures Valid() && base == old(base)
      ensures lastSeq == (if event.topic == topic then Some(event.num) else old(lastSeq))
      ensures handled == (if event.topic == topic then old(handled) + [event] else old(handled))
      ensures lastSeq == CursorAfter(topic, old(lastSeq), event) && handled == HandledAfter(topic, old(handled), event)
      ensures gapsReported == old(gapsReported)
           + (if event.topic == topic && old(lastSeq).Some? && event.num > old(lastSeq).value + 1 then 1 else 0)
      ensures event.topic != topic || parse(event.payload).None? ==> items == old(items)
      ensures event.topic == topic && parse(event.payload).Some? ==>
                && |items| == (if |old(items)| + 1 < maxItems then |old(items)| + 1 else maxItems)
                && (maxItems > 0 ==> items[0] == parse(event.payload).value)
                && forall i :: 1 <= i < |items| ==> items[i] == old(items)[i - 1]
    {
      if event.topic != topic {
        return;
      }
      if lastSeq.Some? && event.num > lastSeq.value + 1 {
        gapsReported := gapsReported + 1;
      }
      lastSeq := Some(event.num);
      assert (handled + [event])[..|handled|] == handled;
      handled := handled + [event];
      var parsed := parse(event.payload);
      if parsed.None? {
        return;
      }
      items := Newest([parsed.value] + items, maxItems);
    }
  }

  predicate ReportsGap(cursor: Option<nat>, event: Event) {
    cursor.Some? && event.num > cursor.value + 1
  }

  // ----- One client's life

  datatype Message = EventMessage(event: Event) | ReplayRequiredMessage

  datatype Link =
    | Offline
    | Opening(resume: Option<nat>)   // socket requested with this `last_seq`
    | Subscribed(last: nat)          // subscribed, replay from `last` not yet computed
    | Replaying(rest: seq<Event>)    // replay computed, `rest` still to be sent
    | Streaming

  datatype World = World(
    window: nat,
    topic: string,
    log: seq<Event>,
    link: Link,
    pipe: seq<Message>,       // sent and not yet received
    cursor: Option<nat>,      // the client's `lastSeqRef`
    received: seq<Event>,     // events received since the last resync
    start: int,               // the log position just before the first of them
    joinedAt: nat)            // how long the log was when streaming without a cursor began

  datatype Action =
    | Publish(topic: string, payload: string)
    | Open
    | Subscribe
    | Snapshot
    | ReplaySend
    | ReplayDone
    | Deliver
    | Drop

  function Fresh(window: nat, topic: string, log: seq<Event>): World {
    World(window, topic, log, Offline, [], None, [], 0, 0)
  }

  /** `subscribe` comes before the replay is computed, so live events are sent from then on. */
  predicate Hears(w: World) {
    w.link.Subscribed? || w.link.Replaying? || w.link.Streaming?
  }

  function Receive(w: World, message: Message): World {
    match message
    case EventMessage(e) =>
      w.(cursor := CursorAfter(w.topic, w.cursor, e), received := HandledAfter(w.topic, w.received, e),
         start := if e.topic == w.topic && w.received == [] then e.num - 1 else w.start)
    case ReplayRequiredMessage => w.(cursor := None, received := [])
  }

  /** An action that is not enabled in a state leaves it unchanged. */
  function Step(w: World, a: Action): World {
    match a
    case Publish(topic, payload) =>
      var e := NextEvent(w.log, topic, payload);
      w.(log := w.log + [e], pipe := if Hears(w) && topic == w.topic then w.pipe + [EventMessage(e)] else w.pipe)
    case Open =>
      if w.link != Offline then w else w.(link := Opening(w.cursor))
    case Subscribe =>
      if !w.link.Opening? then w
      else if w.link.resume.Some? then w.(link := Subscribed(w.link.resume.value))
      else w.(link := Streaming, joinedAt := |w.log|)
    case Snapshot =>
      if !w.link.Subscribed? then w
      else if Resumable(w.log, w.window, w.link.last) then
        w.(link := Replaying(Matching(Tail(w.log, w.window), w.link.last, {w.topic})))
      else w.(link := Streaming, pipe := w.pipe + [ReplayRequiredMessage], joinedAt := |w.log|)
    case ReplaySend =>
      if !w.link.Replaying? || w.link.rest == [] then w
      else w.(pipe := w.pipe + [EventMessage(w.link.rest[0])], link := Replaying(w.link.rest[1..]))
    case ReplayDone =>
      if w.link != Replaying([]) then w else w.(link := Streaming)
    case Deliver =>
      if w.pipe == [] then w else Receive(w.(pipe := w.pipe[1..]), w.pipe[0])
    case Drop =>
      w.(link := Offline, pipe := [])
  }

  function Run(w: World, actions: seq<Action>): World {
    if actions == [] then w else Step(Run(w, actions[..|actions| - 1]), actions[|actions| - 1])
  }

  /** No event of the client's topic is published between its subscribe and the end of its replay. */
  predicate Quiet(w: World, a: Action) {
    a.Publish? && a.topic == w.topic ==> !w.link.Subscribed? && !(w.link.Replaying? && w.link.rest != [])
  }

  predicate QuietRun(w: World, actions: seq<Action>) {
    actions == []
    || (var n := |actions| - 1; QuietRun(w, actions[..n]) && Quiet(Run(w, actions[..n]), actions[n]))
  }

  function Messages(events: seq<Event>): seq<Message> {
    seq(|events|, i requires 0 <= i < |events| => EventMessage(events[i]))
  }

  /** What the client has is exactly the topic's part of the log from its start up to its cursor. */
  ghost predicate InStep(w: World) {
    match w.cursor
    case None => w.received == []
    case Some(c) =>
      && w.start < c <= |w.log|
      && w.received == Matching(w.log[..c], w.start, {w.topic}) && w.received != []
  }

  /** Where in the log the client stands. */
  function Position(w: World): nat {
    if w.cursor.Some? then w.cursor.value else w.joinedAt
  }

  /** What is still on its way continues it without a hole. */
  ghost predicate OnTheWay(w: World) {
    match w.link
    case Offline => w.pipe == []
    case Opening(resume) => w.pipe == [] && resume == w.cursor
    case Subscribed(last) => w.pipe == [] && w.cursor == Some(last)
    case Replaying(rest) =>
      w.cursor.Some? && w.pipe + Messages(rest) == Messages(Matching(w.log, w.cursor.value, {w.topic}))
    case Streaming =>
      || w.pipe == Messages(Matching(w.log, Position(w), {w.topic}))
      || w.pipe == [ReplayRequiredMessage] + Messages(Matching(w.log, w.joinedAt, {w.topic}))
  }

  ghost predicate Invariant(w: World) {
    w.window >= 1 && Numbered(w.log) && w.joinedAt <= |w.log| && InStep(w) && OnTheWay(w)
  }

  lemma MatchingGrows(log: seq<Event>, e: Event, last: nat, topic: string)
    ensures Matching(log + [e], last, {topic})
         == Matching(log, last, {topic}) + (if e.num > last && e.topic == topic then [e] else [])
  {
    MatchingAppend(log, e, last, {topic});
  }

  lemma NothingPastTheEnd(log: seq<Event>, topic: string)
    requires Numbered(log)
    ensures Matching(log, |log|, {topic}) == []
  {
    MatchingNone(log, |log|, {topic});
  }

  lemma MessagesAppend(events: seq<Event>, e: Event)
    ensures Messages(events + [e]) == Messages(events) + [EventMessage(e)]
  {
  }

  lemma PublishKeepsOnTheWay(w: World, topic: string, payload: string)
    requires Invariant(w) && Quiet(w, Publish(topic, payload))
    ensures OnTheWay(Step(w, Publish(topic, payload)))
  {
    var e := NextEvent(w.log, topic, payload);
    var t := Step(w, Publish(topic, payload));
    if w.link.Replaying? || w.link.Streaming? {
      var m, j := Matching(w.log, Position(w), {w.topic}), Matching(w.log, w.joinedAt, {w.topic});
      MatchingGrows(w.log, e, Position(w), w.topic);
      MatchingGrows(w.log, e, w.joinedAt, w.topic);
      MessagesAppend(m, e);
      MessagesAppend(j, e);
      if w.link.Replaying? && topic == w.topic {
        assert w.pipe + [] == w.pipe;
        assert t.pipe + Messages([]) == t.pipe;
      }
    }
  }

  lemma PublishKeepsInvariant(w: World, topic: string, payload: string)
    requires Invariant(w) && Quiet(w, Publish(topic, payload))
    ensures Invariant(Step(w, Publish(topic, payload)))
  {
    PublishKeepsOnTheWay(w, topic, payload);
    var t := Step(w, Publish(topic, payload));
    if w.cursor.Some? { assert t.log[..w.cursor.value] == w.log[..w.cursor.value]; }
  }

  lemma SnapshotKeepsInvariant(w: World)
    requires Invariant(w)
    ensures Invariant(Step(w, Snapshot))
  {
    hide Matching, Tail, Resumable;
    if w.link.Subscribed? {
      NothingPastTheEnd(w.log, w.topic);
      if Resumable(w.log, w.window, w.link.last) { TailMatches(w.log, w.window, w.link.last, {w.topic}); }
    }
  }

  lemma ReplaySendKeepsInvariant(w: World)
    requires Invariant(w)
    ensures Invariant(Step(w, ReplaySend))
  {
    if w.link.Replaying? && w.link.rest != [] {
      var rest := w.link.rest;
      assert Messages(rest) == [EventMessage(rest[0])] + Messages(rest[1..]);
      assert w.pipe + Messages(rest) == w.pipe + [EventMessage(rest[0])] + Messages(rest[1..]);
    }
  }

  /** Receiving the first event past `last` extends what was received up to `last` by exactly that event. */
  lemma ReceiveExtends(log: seq<Event>, start: int, last: nat, topic: string)
    requires Numbered(log) && start <= last <= |log| && Matching(log, last, {topic}) != []
    ensures var e := Matching(log, last, {topic})[0];
      && last < e.num <= |log| && e.topic == topic
      && Matching(log[..e.num], start, {topic}) == Matching(log[..last], start, {topic}) + [e]
      && Matching(log, e.num, {topic}) == Matching(log, last, {topic})[1..]
  {
    MatchingHead(log, last, {topic});
    var e := Matching(log, last, {topic})[0];
    var upTo := log[..e.num];
    var between := upTo[last..];
    assert upTo == log[..last] + between;
    MatchingConcat(log[..last], between, start, {topic});
    MatchingConcat(log[..last], between, last, {topic});
    MatchingNone(log[..last], last, {topic});
    MatchingAll(between, start, last, {topic});
  }

  lemma PipeHead(w: World)
    requires Invariant(w) && w.pipe != [] && w.pipe[0].EventMessage?
    ensures var m := Matching(w.log, Position(w), {w.topic});
      m != [] && w.pipe[0].event == m[0]
  {
    var m := Matching(w.log, Position(w), {w.topic});
    if w.link.Replaying? {
      assert (w.pipe + Messages(w.link.rest))[0] == w.pipe[0];
      assert |Messages(m)| == |m| && Messages(m)[0] == w.pipe[0];
    } else {
      assert w.pipe == Messages(m);
    }
  }

  lemma FirstReceived(log: seq<Event>, last: nat, topic: string)
    requires Numbered(log) && Matching(log, last, {topic}) != []
    ensures var e := Matching(log, last, {topic})[0];
      && last < e.num <= |log| && e.topic == topic
      && Matching(log[..e.num], e.num - 1, {topic}) == [e]
      && Matching(log, e.num, {topic}) == Matching(log, last, {topic})[1..]
  {
    MatchingHead(log, last, {topic});
    var e := Matching(log, last, {topic})[0];
    var before := log[..e.num - 1];
    assert log[..e.num] == before + [e];
    MatchingGrows(before, e, e.num - 1, topic);
    MatchingNone(before, e.num - 1, {topic});
  }

  lemma ReceiveKeepsInStep(w: World)
    requires Invariant(w) && w.pipe != [] && w.pipe[0].EventMessage?
    ensures InStep(Step(w, Deliver))
    ensures var t := Step(w, Deliver); var m := Matching(w.log, Position(w), {w.topic});
      m != [] && t.cursor == Some(m[0].num) && Matching(w.log, m[0].num, {w.topic}) == m[1..]
  {
    PipeHead(w);
    if w.cursor.Some? {
      ReceiveExtends(w.log, w.start, w.cursor.value, w.topic);
    } else {
      FirstReceived(w.log, w.joinedAt, w.topic);
    }
  }

  lemma ReplayingSendsEvents(w: World)
    requires Invariant(w) && w.link.Replaying?
    ensures forall i :: 0 <= i < |w.pipe| ==> w.pipe[i].EventMessage?
  {
    var all := w.pipe + Messages(w.link.rest);
    assert forall i :: 0 <= i < |all| ==> all[i].EventMessage?;
    assert forall i :: 0 <= i < |w.pipe| ==> w.pipe[i] == all[i];
  }

  lemma DeliverKeepsInvariant(w: World)
    requires Invariant(w)
    ensures Invariant(Step(w, Deliver))
  {
    if w.link.Replaying? { ReplayingSendsEvents(w); }
    if w.pipe != [] && w.pipe[0].EventMessage? {
      ReceiveKeepsInStep(w);
      var m := Matching(w.log, Position(w), {w.topic});
      assert Messages(m)[1..] == Messages(m[1..]);
      if w.link.Replaying? {
        assert (w.pipe + Messages(w.link.rest))[1..] == w.pipe[1..] + Messages(w.link.rest);
      }
    } else if w.pipe != [] {
      MissDelivered(w);
    }
  }

  lemma MissDelivered(w: World)
    requires Invariant(w) && w.pipe != [] && w.pipe[0].ReplayRequiredMessage?
    ensures w.link.Streaming? && w.pipe[1..] == Messages(Matching(w.log, w.joinedAt, {w.topic}))
  {
    hide Matching;
    if w.link.Replaying? { ReplayingSendsEvents(w); }
    var events := Messages(Matching(w.log, Position(w), {w.topic}));
    var missed := Messages(Matching(w.log, w.joinedAt, {w.topic}));
    assert events != [] ==> events[0].EventMessage?;
    assert ([ReplayRequiredMessage] + missed)[1..] == missed;
  }

  lemma StepKeepsInvariant(w: World, a: Action)
    requires Invariant(w) && Quiet(w, a)
    ensures Invariant(Step(w, a))
  {
    match a {
      case Publish(topic, payload) => PublishKeepsInvariant(w, topic, payload);
      case Snapshot => SnapshotKeepsInvariant(w);
      case ReplaySend => ReplaySendKeepsInvariant(w);
      case Deliver => DeliverKeepsInvariant(w);
      case Subscribe => NothingPastTheEnd(w.log, w.topic);
      case _ =>
    }
  }

  /** Over every quiet run of publications, drops and reconnects: since its last resync the client has
      received exactly the topic's events between its start and its cursor, each once, in log order. */
  lemma {:induction false} ClientNeverMissesAnEvent(window: nat, topic: string, log: seq<Event>, actions: seq<Action>)
    requires window >= 1 && Numbered(log) && QuietRun(Fresh(window, topic, log), actions)
    ensures Invariant(Run(Fresh(window, topic, log), actions))
    ensures InStep(Run(Fresh(window, topic, log), actions))
  {
    if actions != [] {
      var n := |actions| - 1;
      ClientNeverMissesAnEvent(window, topic, log, actions[..n]);
      StepKeepsInvariant(Run(Fresh(window, topic, log), actions[..n]), actions[n]);
    }
  }

  // ----- Gap reports

  /** In a quiet run no gap report is a loss: the hook reports a gap exactly when an event of some other
      topic was published in between, because `seq` counts all topics. */
  lemma GapReportsAreSpurious(w: World)
    requires Invariant(w) && w.cursor.Some? && w.pipe != [] && w.pipe[0].EventMessage?
    ensures var e := w.pipe[0].event; var c := w.cursor.value;
      && c < e.num <= |w.log|
      && (forall i :: c <= i < e.num - 1 ==> w.log[i].topic != w.topic)
      && (ReportsGap(w.cursor, e) <==> exists i :: c <= i < e.num - 1 && w.log[i].topic != w.topic)
  {
    hide Matching;
    var c := w.cursor.value;
    var m := Matching(w.log, c, {w.topic});
    PipeHead(w);
    var e := m[0];
    MatchingHead(w.log, c, {w.topic});
    forall i | c <= i < e.num - 1 ensures w.log[i].topic != w.topic {
      MatchingMember(w.log[..e.num - 1], c, {w.topic}, w.log[i]);
      assert w.log[..e.num - 1][i] == w.log[i];
    }
    if ReportsGap(w.cursor, e) { assert w.log[c].topic != w.topic; }
  }

  // ----- Publications during a replay

  function Events(pipe: seq<Message>): seq<Event> {
    if pipe == [] then []
    else Events(pipe[..|pipe| - 1])
         + (if pipe[|pipe| - 1].EventMessage? then [pipe[|pipe| - 1].event] else [])
  }

  /** The events that the client will receive if its session ends without a drop or a further publication. */
  ghost function Coming(w: World): seq<Event> {
    Events(w.pipe) + match w.link
                     case Subscribed(last) =>
                       if Resumable(w.log, w.window, last) then Matching(w.log, last, {w.topic}) else []
                     case Replaying(rest) => rest
                     case _ => []
  }

  lemma {:induction false} EventsOfMessages(events: seq<Event>)
    ensures Events(Messages(events)) == events
  {
    if events != [] {
      var n := |events| - 1;
      assert Messages(events)[..n] == Messages(events[..n]);
      EventsOfMessages(events[..n]);
    }
  }

  lemma {:induction false} EventsConcat(a: seq<Message>, b: seq<Message>)
    ensures Events(a + b) == Events(a) + Events(b)
  {
    if b == [] {
      assert a + b == a;
    } else {
      var n := |b| - 1;
      assert (a + b)[..|a + b| - 1] == a + b[..n];
      EventsConcat(a, b[..n]);
    }
  }

  lemma EventsSnoc(pipe: seq<Message>, e: Event)
    ensures Events(pipe + [EventMessage(e)]) == Events(pipe) + [e]
  {
    assert (pipe + [EventMessage(e)])[..|pipe|] == pipe;
  }

  /** A new event put anywhere but at the end of the matches breaks their order. */
  lemma InsertedTooEarly(m: seq<Event>, k: nat, e: Event)
    requires Ascending(m) && k <= |m| && forall x :: x in m ==> x.num < e.num
    ensures Ascending(m[..k] + [e] + m[k..]) <==> k == |m|
  {
    var r := m[..k] + [e] + m[k..];
    if k < |m| {
      assert r[k] == e && r[k + 1] == m[k] && m[k] in m;
    } else {
      assert r == m + [e];
    }
  }

  // ----- The rest of a session that goes undisturbed

  function Repeat(w: World, a: Action, n: nat): World {
    if n == 0 then w else Step(Repeat(w, a, n - 1), a)
  }

  function Rest(w: World): seq<Event> {
    if w.link.Replaying? then w.link.rest else []
  }

  /** The replay is computed and sent, then everything on its way is received. */
  function Sent(w: World): World {
    var s := Step(w, Snapshot);
    Step(Repeat(s, ReplaySend, |Rest(s)|), ReplayDone)
  }

  function Drained(w: World): World {
    Repeat(Sent(w), Deliver, |Sent(w).pipe|)
  }

  lemma {:induction false} RepeatFirst(w: World, a: Action, n: nat)
    ensures Repeat(w, a, n + 1) == Repeat(Step(w, a), a, n)
  {
    hide Step;
    if n > 0 { RepeatFirst(w, a, n - 1); }
  }

  lemma {:induction false} AllReplayed(w: World)
    requires w.link.Replaying?
    ensures Repeat(w, ReplaySend, |w.link.rest|) == w.(pipe := w.pipe + Messages(w.link.rest), link := Replaying([]))
    decreases |w.link.rest|
  {
    var rest := w.link.rest;
    if rest == [] {
      assert w.pipe + Messages(rest) == w.pipe;
    } else {
      RepeatFirst(w, ReplaySend, |rest| - 1);
      var t := Step(w, ReplaySend);
      AllReplayed(t);
      assert t.pipe + Messages(rest[1..]) == w.pipe + Messages(rest);
    }
  }

  /** Only events of the client's topic are on the way. */
  ghost predicate OnlyEvents(w: World) {
    forall m :: m in w.pipe ==> m.EventMessage? && m.event.topic == w.topic
  }

  lemma DeliverOne(w: World)
    requires OnlyEvents(w) && w.pipe != []
    ensures var t := Step(w, Deliver);
      && t.log == w.log && t.topic == w.topic && t.pipe == w.pipe[1..] && OnlyEvents(t)
      && w.received + Events(w.pipe) == t.received + Events(t.pipe)
  {
    hide Events;
    var t, e := Step(w, Deliver), w.pipe[0].event;
    assert w.pipe[0] in w.pipe;
    assert t.received == w.received + [e];
    assert w.pipe == [EventMessage(e)] + t.pipe;
    EventsConcat([EventMessage(e)], t.pipe);
    OneEvent(e);
  }

  /** Receiving events appends them to what was received. */
  lemma {:induction false} AllDelivered(w: World)
    requires OnlyEvents(w)
    ensures var t := Repeat(w, Deliver, |w.pipe|);
      t.log == w.log && t.topic == w.topic && t.pipe == [] && t.received == w.received + Events(w.pipe)
    decreases |w.pipe|
  {
    hide Step, OnlyEvents;
    if w.pipe == [] {
      assert w.received + Events([]) == w.received;
    } else {
      DeliverOne(w);
      RepeatFirst(w, Deliver, |w.pipe| - 1);
      AllDelivered(Step(w, Deliver));
    }
  }

  ghost predicate RefusedNext(w: World) {
    w.link.Subscribed? && !Resumable(w.log, w.window, w.link.last)
  }

  lemma MatchesOfTopic(log: seq<Event>, last: int, topic: string)
    ensures forall e :: e in Matching(log, last, {topic}) ==> e.topic == topic
  {
    forall e | e in Matching(log, last, {topic}) ensures e.topic == topic { MatchingMember(log, last, {topic}, e); }
  }

  lemma MessagesOfTopic(events: seq<Event>, topic: string)
    requires forall e :: e in events ==> e.topic == topic
    ensures forall m :: m in Messages(events) ==> m.EventMessage? && m.event.topic == topic
  {
    forall m | m in Messages(events) ensures m.EventMessage? && m.event.topic == topic {
      var i :| 0 <= i < |events| && Messages(events)[i] == m;
      assert events[i] in events;
    }
  }

  /** What is sent of an accepted replay. */
  lemma SentComing(w: World)
    requires w.window >= 1 && Numbered(w.log) && OnlyEvents(w) && !RefusedNext(w)
    requires w.link.Subscribed? || (w.link.Replaying? && forall e :: e in w.link.rest ==> e.topic == w.topic)
    ensures var t := Sent(w);
      && t.log == w.log && t.topic == w.topic && t.received == w.received && t.cursor == w.cursor
      && OnlyEvents(t) && Events(t.pipe) == Coming(w)
  {
    hide Matching, Resumable, Tail, Events, Numbered;
    var s := Step(w, Snapshot);
    if w.link.Subscribed? {
      TailMatches(w.log, w.window, w.link.last, {w.topic});
      MatchesOfTopic(w.log, w.link.last, w.topic);
    }
    var rest := Rest(s);
    AllReplayed(s);
    MessagesOfTopic(rest, w.topic);
    EventsConcat(s.pipe, Messages(rest));
    EventsOfMessages(rest);
  }

  /** `Coming` is what the client receives: an undisturbed session appends exactly that to what it has. */
  lemma DrainedReceivesComing(w: World)
    requires w.window >= 1 && Numbered(w.log) && OnlyEvents(w) && !RefusedNext(w)
    requires w.link.Subscribed? || (w.link.Replaying? && forall e :: e in w.link.rest ==> e.topic == w.topic)
    ensures var t := Drained(w); t.log == w.log && t.topic == w.topic && t.received == w.received + Coming(w)
  {
    hide Coming, Step, Events;
    SentComing(w);
    AllDelivered(Sent(w));
  }

  lemma {:induction false} RepeatKeepsInvariant(w: World, a: Action, n: nat)
    requires Invariant(w) && !a.Publish?
    ensures Invariant(Repeat(w, a, n))
  {
    hide Step, Invariant;
    if n > 0 {
      RepeatKeepsInvariant(w, a, n - 1);
      StepKeepsInvariant(Repeat(w, a, n - 1), a);
    }
  }

  lemma DrainedKeepsInvariant(w: World)
    requires Invariant(w)
    ensures Invariant(Drained(w))
  {
    hide Step, Invariant;
    var s := Step(w, Snapshot);
    StepKeepsInvariant(w, Snapshot);
    RepeatKeepsInvariant(s, ReplaySend, |Rest(s)|);
    StepKeepsInvariant(Repeat(s, ReplaySend, |Rest(s)|), ReplayDone);
    RepeatKeepsInvariant(Sent(w), Deliver, |Sent(w).pipe|);
  }

  /** The session resuming from a cursor, right after a publication of its topic. */
  lemma PublishedOnTheWay(w: World, payload: string)
    requires Invariant(w) && (w.link.Subscribed? || w.link.Replaying?)
    ensures var t := Step(w, Publish(w.topic, payload));
      && t.window == w.window >= 1 && Numbered(t.log) && OnlyEvents(t) && t.link == w.link
      && (t.link.Replaying? ==> forall e :: e in t.link.rest ==> e.topic == t.topic)
  {
    hide Matching;
    var m := if w.link.Replaying? then Matching(w.log, w.cursor.value, {w.topic}) else [];
    if w.link.Replaying? {
      MatchesOfTopic(w.log, w.cursor.value, w.topic);
      MessagesOfTopic(m, w.topic);
      var all := w.pipe + Messages(w.link.rest);
      assert forall x :: x in w.pipe ==> x in all;
      QueuedAreMatches(w);
      assert forall e :: e in w.link.rest ==> e in Events(w.pipe) + w.link.rest;
    }
  }

  lemma NotAscendingSuffix(a: seq<Event>, b: seq<Event>)
    requires Ascending(a + b)
    ensures Ascending(b)
  {
    forall i, j | 0 <= i < j < |b| ensures b[i].num < b[j].num {
      assert (a + b)[|a| + i] == b[i] && (a + b)[|a| + j] == b[j];
    }
  }

  /** In step, what was received is in log order. */
  lemma InStepAscends(w: World)
    requires InStep(w) && Numbered(w.log)
    ensures Ascending(w.received)
  {
    if w.cursor.Some? { MatchingAscending(w.log[..w.cursor.value], w.start, {w.topic}); }
  }

  /** For a session resuming from a cursor, quiet is exactly the right condition. If it goes undisturbed after a
      publication of its topic, the client ends in step with the log if and only if the publication was a quiet
      one, or pushed the cursor out of the window so that the replay is refused. */
  lemma QuietIsExact(w: World, payload: string)
    requires Invariant(w) && (w.link.Subscribed? || w.link.Replaying?)
    ensures var t := Step(w, Publish(w.topic, payload));
      InStep(Drained(t)) <==> Quiet(w, Publish(w.topic, payload)) || RefusedNext(t)
  {
    hide Step, Drained, InStep, Coming;
    var t := Step(w, Publish(w.topic, payload));
    PublishedOnTheWay(w, payload);
    if Quiet(w, Publish(w.topic, payload)) {
      StepKeepsInvariant(w, Publish(w.topic, payload));
      DrainedKeepsInvariant(t);
    } else if RefusedNext(t) {
      RefusedResyncs(w, payload);
    } else {
      DrainedReceivesComing(t);
      PublishedLog(w, payload);
      if w.link.Subscribed? {
        NoisyBeforeReplay(w, payload);
      } else {
        NoisyDuringReplay(w, payload, Matching(w.log, w.cursor.value, {w.topic}));
      }
      if InStep(Drained(t)) {
        InStepAscends(Drained(t));
        NotAscendingSuffix(w.received, Coming(t));
      }
    }
  }

  lemma PublishedLog(w: World, payload: string)
    ensures var t := Step(w, Publish(w.topic, payload));
      t.log == w.log + [NextEvent(w.log, w.topic, payload)] && t.received == w.received
  {
  }

  /** A publication that pushes the cursor out of the window: the client receives the event, is told that a
      replay is required, and starts over without a cursor, streaming from there. */
  lemma RefusedResyncs(w: World, payload: string)
    requires Invariant(w) && w.link.Subscribed? && RefusedNext(Step(w, Publish(w.topic, payload)))
    ensures var d := Drained(Step(w, Publish(w.topic, payload)));
      && d.link == Streaming && d.cursor == None && d.received == [] && d.pipe == []
      && d.joinedAt == |d.log| == |w.log| + 1 && InStep(d)
  {
    hide Matching, Resumable;
    var e := NextEvent(w.log, w.topic, payload);
    var t := Step(w, Publish(w.topic, payload));
    var s := Step(t, Snapshot);
    assert s.pipe == [EventMessage(e), ReplayRequiredMessage] && s.link == Streaming;
    assert Repeat(s, ReplaySend, 0) == s && Step(s, ReplayDone) == s;
    var d1 := Step(s, Deliver);
    assert d1.pipe == [ReplayRequiredMessage];
    var d2 := Step(d1, Deliver);
    assert Repeat(s, Deliver, 1) == d1 && Repeat(s, Deliver, 2) == d2 by { assert Repeat(s, Deliver, 0) == s; }
  }

  lemma NoisyBeforeReplay(w: World, payload: string)
    requires Invariant(w) && w.link.Subscribed?
    requires Resumable(w.log + [NextEvent(w.log, w.topic, payload)], w.window, w.link.last)
    ensures !Ascending(Coming(Step(w, Publish(w.topic, payload))))
  {
    hide Matching, Events, Ascending;
    var e := NextEvent(w.log, w.topic, payload);
    var t := Step(w, Publish(w.topic, payload));
    assert t.pipe == [EventMessage(e)] && t.link == w.link && t.log == w.log + [e] && t.window == w.window;
    assert Events(t.pipe) == [e] by { OneEvent(e); }
    MatchingGrows(w.log, e, w.link.last, w.topic);
    RepeatedIsNotAscending(e, Matching(w.log, w.link.last, {w.topic}));
  }

  lemma OneEvent(e: Event)
    ensures Events([EventMessage(e)]) == [e]
  {
    assert [EventMessage(e)][..0] == [];
  }

  lemma RepeatedIsNotAscending(e: Event, between: seq<Event>)
    ensures !Ascending([e] + (between + [e]))
  {
    var s := [e] + (between + [e]);
    assert s[0] == s[|s| - 1];
  }

  lemma NoisyDuringReplay(w: World, payload: string, m: seq<Event>)
    requires Invariant(w) && w.link.Replaying? && m == Matching(w.log, w.cursor.value, {w.topic})
    ensures Ascending(Coming(Step(w, Publish(w.topic, payload)))) <==> w.link.rest == []
  {
    var e := NextEvent(w.log, w.topic, payload);
    EventsSnoc(w.pipe, e);
    QueuedAreMatches(w);
    var queued := Events(w.pipe);
    assert queued == m[..|queued|] && w.link.rest == m[|queued|..];
    assert Coming(Step(w, Publish(w.topic, payload))) == m[..|queued|] + [e] + m[|queued|..];
    MatchingAscending(w.log, w.cursor.value, {w.topic});
    forall x | x in m ensures x.num < e.num { MatchingMember(w.log, w.cursor.value, {w.topic}, x); }
    InsertedTooEarly(m, |queued|, e);
  }

  lemma QueuedAreMatches(w: World)
    requires Invariant(w) && w.link.Replaying?
    ensures Events(w.pipe) + w.link.rest == Matching(w.log, w.cursor.value, {w.topic})
  {
    EventsConcat(w.pipe, Messages(w.link.rest));
    EventsOfMessages(Matching(w.log, w.cursor.value, {w.topic}));
    EventsOfMessages(w.link.rest);
  }

  /** The failing family, from any point of any run: whenever there is something to replay, a live event of
      the topic that reaches the client before the replay moves the cursor past it, and if the connection
      then drops, the skipped events are never received nor asked for again. */
  lemma OvertakenReplayLosesEvents(w: World, payload: string)
    requires Invariant(w) && w.link == Offline && w.cursor.Some?
    requires Matching(w.log, w.cursor.value, {w.topic}) != []
    ensures var t := Step(Step(Step(Step(Step(w, Open), Subscribe), Publish(w.topic, payload)), Deliver), Drop);
      var lost := Matching(w.log, w.cursor.value, {w.topic})[0];
      && Step(t, Open).link == Opening(Some(|w.log| + 1))
      && Matching(t.log, |w.log| + 1, {w.topic}) == []
      && lost in t.log && lost.topic == w.topic && t.start < lost.num < t.cursor.value
      && lost !in t.received && !InStep(t)
  {
    hide Step, Matching, Numbered, Resumable;
    var e := NextEvent(w.log, w.topic, payload);
    var c := w.cursor.value;
    var lost := Matching(w.log, c, {w.topic})[0];
    MatchingHead(w.log, c, {w.topic});
    var t := w.(log := w.log + [e], cursor := Some(e.num), received := w.received + [e]);
    assert w.pipe == [] && w.received != [];
    OvertakingSteps(w, payload);
    assert lost == w.log[lost.num - 1] == t.log[lost.num - 1];
    assert lost !in w.received by {
      MatchingMember(w.log[..c], w.start, {w.topic}, lost);
      BeforeCursor(w.log, c, lost);
    }
    assert forall x :: x in t.log ==> x.num <= e.num by { NumbersBounded(w.log); }
    MatchingNone(t.log, e.num, {w.topic});
    assert t.log[..e.num] == t.log;
    MatchingMember(t.log, t.start, {w.topic}, lost);
  }

  lemma QuietNext(w: World, actions: seq<Action>, a: Action)
    requires QuietRun(w, actions) && Quiet(Run(w, actions), a)
    ensures QuietRun(w, actions + [a]) && Run(w, actions + [a]) == Step(Run(w, actions), a)
  {
    hide Step, Quiet;
    assert (actions + [a])[..|actions|] == actions;
  }

  /** Such a world is reached by a quiet run: one event received, one missed while the connection is down. */
  lemma OvertakingIsReachable(window: nat, topic: string)
    requires window >= 1
    ensures var actions := [Open, Subscribe, Publish(topic, "1"), Deliver, Drop, Publish(topic, "2")];
      var w := Run(Fresh(window, topic, []), actions);
      && QuietRun(Fresh(window, topic, []), actions) && Invariant(w)
      && w.link == Offline && w.cursor == Some(1) && Matching(w.log, 1, {topic}) != []
  {
    hide Run, QuietRun, Matching, Invariant;
    var w := Fresh(window, topic, []);
    var history := [Open, Subscribe, Publish(topic, "1"), Deliver, Drop, Publish(topic, "2")];
    assert Run(w, []) == w && QuietRun(w, []) by { NoActions(w); }
    QuietNext(w, [], Open);
    assert [] + [history[0]] == history[..1];
    QuietNext(w, history[..1], Subscribe);
    assert history[..1] + [history[1]] == history[..2];
    QuietNext(w, history[..2], Publish(topic, "1"));
    assert history[..2] + [history[2]] == history[..3];
    assert Run(w, history[..3]).pipe == [EventMessage(Event(1, topic, "1"))];
    QuietNext(w, history[..3], Deliver);
    assert history[..3] + [history[3]] == history[..4];
    QuietNext(w, history[..4], Drop);
    assert history[..4] + [history[4]] == history[..5];
    assert Run(w, history[..5]).log == [Event(1, topic, "1")];
    QuietNext(w, history[..5], Publish(topic, "2"));
    assert history[..5] + [history[5]] == history;
    ClientNeverMissesAnEvent(window, topic, [], history);
    MatchingAppend([Event(1, topic, "1")], Event(2, topic, "2"), 1, {topic});
  }

  lemma NoActions(w: World)
    ensures Run(w, []) == w && QuietRun(w, [])
  {
  }

  lemma OvertakingSteps(w: World, payload: string)
    requires w.link == Offline && w.cursor.Some? && w.pipe == [] && w.received != []
    ensures var e := NextEvent(w.log, w.topic, payload);
      var t := Step(Step(Step(Step(Step(w, Open), Subscribe), Publish(w.topic, payload)), Deliver), Drop);
      && t == w.(log := w.log + [e], cursor := Some(e.num), received := w.received + [e])
      && Step(t, Open).link == Opening(t.cursor)
  {
    hide Matching, Resumable;
    var e := NextEvent(w.log, w.topic, payload);
    var w1 := Step(w, Open);
    var w2 := Step(w1, Subscribe);
    var w3 := Step(w2, Publish(w.topic, payload));
    assert w3 == w.(log := w.log + [e], link := Subscribed(w.cursor.value), pipe := [EventMessage(e)]);
    var w4 := Step(w3, Deliver);
    assert w4.pipe == [];
  }

  lemma NumbersBounded(log: seq<Event>)
    requires Numbered(log)
    ensures forall x :: x in log ==> x.num <= |log|
  {
  }

  lemma BeforeCursor(log: seq<Event>, c: nat, e: Event)
    requires Numbered(log) && c <= |log| && e.num > c
    ensures e !in log[..c]
  {
  }
}
