/** The WebSocket connection manager and endpoint. A method here is one stretch of the source between two
    `await`s; what the manager hands to a socket is returned, and sent by the caller. */
module ConnectionManager {
  import opened Options
  import opened ReplayLog
  import opened Sorting

  type Socket = nat

  class Manager {
    var connections: set<Socket>
    var subscriptions: map<Socket, set<string>>
    var num: nat
    const replayWindow: nat
    var buffer: seq<Event>
    /** Every event ever published. */
    ghost var log: seq<Event>

    ghost predicate Valid()
      reads this
    {
      && replayWindow >= 1
      && Numbered(log) && num == |log|
      && buffer == Tail(log, replayWindow)
    }

    constructor (window: int)
      ensures Valid() && log == [] && connections == {} && subscriptions == map[]
      ensures replayWindow == if window < 1 then 1 else window
    {
      connections, subscriptions, num, buffer, log := {}, map[], 0, [], [];
      replayWindow := if window < 1 then 1 else window;
    }

    ghost function Topics(ws: Socket): set<string>
      reads this
    {
      if ws in subscriptions then subscriptions[ws] else {}
    }

    /** The sockets a live event of a topic goes to. */
    ghost predicate Hears(ws: Socket, topic: string)
      reads this
    {
      ws in connections && topic in Topics(ws)
    }

    method Connect(ws: Socket)
      requires Valid()
      modifies this
      ensures Valid() && log == old(log)
      ensures connections == old(connections) + {ws} && Topics(ws) == {}
      ensures forall s :: s != ws ==> Topics(s) == old(Topics(s))
    {
      connections := connections + {ws};
      subscriptions := subscriptions[ws := {}];
    }

    method Disconnect(ws: Socket)
      requires Valid()
      modifies this
      ensures Valid() && log == old(log)
      ensures connections == old(connections) - {ws} && Topics(ws) == {}
      ensures forall s :: s != ws ==> Topics(s) == old(Topics(s))
    {
      connections := connections - {ws};
      subscriptions := subscriptions - {ws};
    }

    method Subscribe(ws: Socket, topics: set<string>) returns (r: seq<string>)
      requires Valid()
      modifies this
      ensures Valid() && log == old(log) && connections == old(connections)
      ensures Topics(ws) == old(Topics(ws)) + topics
      ensures forall s :: s != ws ==> Topics(s) == old(Topics(s))
      ensures r == SortedSet(Topics(ws))
    {
      hide SortedSet, StrictlyAscending, StringLeq, Numbered, Tail;
      var current := if ws in subscriptions then subscriptions[ws] else {};
      subscriptions := subscriptions[ws := current + topics];
      r := SortedSet(current + topics);
    }

    method Unsubscribe(ws: Socket, topics: set<string>) returns (r: seq<string>)
      requires Valid()
      modifies this
      ensures Valid() && log == old(log) && connections == old(connections)
      ensures Topics(ws) == old(Topics(ws)) - topics
      ensures forall s :: s != ws ==> Topics(s) == old(Topics(s))
      ensures r == SortedSet(Topics(ws))
    {
      hide SortedSet, StrictlyAscending, StringLeq, Numbered, Tail;
      var current := if ws in subscriptions then subscriptions[ws] else {};
      subscriptions := subscriptions[ws := current - topics];
      r := SortedSet(current - topics);
    }

    /** `publish_topic` up to its sends: number the event, buffer it, and pick the sockets to send it to. */
    method Publish(topic: string, payload: string) returns (event: Event, sockets: set<Socket>)
      requires Valid()
      modifies this
      ensures Valid() && event == Event(|old(log)| + 1, topic, payload) && log == old(log) + [event]
      ensures connections == old(connections) && subscriptions == old(subscriptions)
      ensures forall ws :: ws in sockets <==> Hears(ws, topic)
    {
      num := num + 1;
      event := Event(num, topic, payload);
      PushIsTail(log, event, replayWindow);
      buffer := Push(buffer, event, replayWindow);
      log := log + [event];
      sockets := set ws | ws in connections && ws in subscriptions && topic in subscriptions[ws];
    }

    /** The end of `_send_many`: sockets whose send failed are dropped. */
    method DropFailed(sockets: seq<Socket>, failed: set<Socket>)
      requires Valid()
      modifies this
      ensures Valid() && log == old(log)
      ensures connections == old(connections) - (set ws | ws in sockets && ws in failed)
      ensures forall ws :: Topics(ws) == if ws in sockets && ws in failed then {} else old(Topics(ws))
    {
      for i := 0 to |sockets|
        invariant Valid() && log == old(log)
        invariant connections == old(connections) - (set ws | ws in sockets[..i] && ws in failed)
        invariant forall ws :: Topics(ws) == if ws in sockets[..i] && ws in failed then {} else old(Topics(ws))
      {
        assert sockets[..i + 1] == sockets[..i] + [sockets[i]];
        if sockets[i] in failed {
          Disconnect(sockets[i]);
        }
      }
      assert sockets[..|sockets|] == sockets;
    }

    method ReplaySince(last: int, topics: set<string>) returns (result: ReplayResult, replayed: seq<Event>)
      requires Valid()
      ensures ReplayAnswers(log, |log| - |buffer|, last, topics, result, replayed)
      ensures result.TooOld? <==> last >= 0 && !Resumable(log, replayWindow, last)
    {
      result, replayed := Replay(buffer, last, topics, log, replayWindow);
      if last >= 0 { ResumableMeans(log, replayWindow, last); }
    }
  }

  // ----- The endpoint: one receive loop per socket

  datatype Frame =
    | Subscribed(topics: seq<string>)
    | Unsubscribed(topics: seq<string>)
    | EventFrame(event: Event)
    | ReplayRequired(requested: nat, oldest: nat, latest: nat)
    | ReplayComplete(count: nat, newest: Option<nat>)
    | ReplayCursorInvalid
    | ReplayDisabled

  const VALID_TOPICS: set<string> :=
    {"jobs", "alerts", "logs", "portfolio", "risk", "strategy", "models", "backtests"}

  function EventFrames(events: seq<Event>): (r: seq<Frame>)
    ensures |r| == |events| && forall i :: 0 <= i < |r| ==> r[i] == EventFrame(events[i])
  {
    seq(|events|, i requires 0 <= i < |events| => EventFrame(events[i]))
  }

  class Endpoint {
    const manager: Manager
    const socket: Socket
    const replayEnabled: bool
    var lastSeq: Option<nat>
    var outbox: seq<Frame>

    /** Accepting a connection: `cursor` is the parsed `last_seq` query parameter; a malformed one is
        reported and then treated as absent. */
    constructor (manager: Manager, socket: Socket, replayEnabled: bool, cursor: Option<nat>, malformed: bool)
      requires manager.Valid() && (malformed ==> cursor == None)
      modifies manager
      ensures this.manager == manager && this.socket == socket && this.replayEnabled == replayEnabled
      ensures manager.Valid() && manager.log == old(manager.log)
      ensures socket in manager.connections && manager.Topics(socket) == {}
      ensures lastSeq == cursor && outbox == if malformed then [ReplayCursorInvalid] else []
    {
      this.manager, this.socket, this.replayEnabled := manager, socket, replayEnabled;
      lastSeq := cursor;
      outbox := if malformed then [ReplayCursorInvalid] else [];
      new;
      manager.Connect(socket);
    }

    /** The first stretch of a subscribe message. */
    method HandleSubscribe(topics: set<string>) returns (subscriptions: seq<string>)
      requires manager.Valid()
      modifies this, manager
      ensures manager.Valid() && manager.log == old(manager.log)
      ensures manager.Topics(socket) == old(manager.Topics(socket)) +
        (topics * {"jobs", "alerts", "logs", "portfolio", "risk", "strategy", "models", "backtests"})
      ensures forall s :: s != socket ==> manager.Topics(s) == old(manager.Topics(s))
      ensures subscriptions == SortedSet(manager.Topics(socket)) && outbox == old(outbox) + [Subscribed(subscriptions)]
      ensures lastSeq == old(lastSeq)
    {
      subscriptions := manager.Subscribe(socket, topics * VALID_TOPICS);
      outbox := outbox + [Subscribed(subscriptions)];
    }

    /** The stretch that follows: replay once, for the first subscribe only, on the subscriptions that the first
        stretch reported. */
    method HandleReplay(subscriptions: seq<string>)
      requires manager.Valid()
      modifies this
      ensures lastSeq == None
      ensures old(lastSeq) == None ==> outbox == old(outbox)
      ensures old(lastSeq).Some? && !replayEnabled ==> outbox == old(outbox) + [ReplayDisabled]
      ensures old(lastSeq).Some? && replayEnabled ==>
        var last := old(lastSeq).value;
        var log, topics := manager.log, set t | t in subscriptions;
        outbox == old(outbox) +
          if Resumable(log, manager.replayWindow, last) then
            EventFrames(Matching(log, last, topics))
              + [ReplayComplete(|Matching(log, last, topics)|, if log == [] then None else Some(|log|))]
          else [ReplayRequired(last, |log| - manager.replayWindow + 1, |log|)]
    {
      if lastSeq.Some? && replayEnabled {
        var last, topics := lastSeq.value, set t | t in subscriptions;
        var result, replayed := manager.ReplaySince(last, topics);
        outbox := outbox + EventFrames(replayed);
        match result {
          case TooOld(oldest, latest) =>
            assert outbox == old(outbox);
            outbox := outbox + [ReplayRequired(last, oldest, latest)];
          case Ok(count, bounds) =>
            outbox := outbox + [ReplayComplete(count, if bounds == None then None else Some(bounds.value.1))];
            assert outbox == old(outbox) + (EventFrames(replayed) + [outbox[|outbox| - 1]]);
          case Invalid =>
            assert false;
        }
        lastSeq := None;
      } else if lastSeq.Some? {
        outbox := outbox + [ReplayDisabled];
        lastSeq := None;
      }
    }

    method HandleUnsubscribe(topics: set<string>)
      requires manager.Valid()
      modifies this, manager
      ensures manager.Valid() && manager.log == old(manager.log) && lastSeq == old(lastSeq)
      ensures manager.Topics(socket) == old(manager.Topics(socket)) -
        (topics * {"jobs", "alerts", "logs", "portfolio", "risk", "strategy", "models", "backtests"})
      ensures forall s :: s != socket ==> manager.Topics(s) == old(manager.Topics(s))
      ensures outbox == old(outbox) + [Unsubscribed(SortedSet(manager.Topics(socket)))]
    {
      var subscriptions := manager.Unsubscribe(socket, topics * VALID_TOPICS);
      outbox := outbox + [Unsubscribed(subscriptions)];
    }
  }
}
