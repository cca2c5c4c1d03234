/** The bounded replay buffer of the WebSocket manager against the unbounded log of everything that was
    ever published. */
module ReplayLog {
  import opened Options

  datatype Event = Event(num: nat, topic: string, payload: string)

  /** `num` is the source's `seq`: the global publication number, counted from 1. */
  ghost predicate Numbered(log: seq<Event>) {
    forall i :: 0 <= i < |log| ==> log[i].num == i + 1
  }

  function NextEvent(log: seq<Event>, topic: string, payload: string): Event {
    Event(|log| + 1, topic, payload)
  }

  /** The last `window` entries of the log, or all of them. */
  function Tail(log: seq<Event>, window: nat): seq<Event> {
    if |log| <= window then log else log[|log| - window..]
  }

  /** `deque(maxlen=window).append(event)` */
  function Push(buffer: seq<Event>, event: Event, window: nat): seq<Event> {
    var grown := buffer + [event];
    if |grown| > window then grown[1..] else grown
  }

  lemma PushIsTail(log: seq<Event>, event: Event, window: nat)
    requires window >= 1
    ensures Push(Tail(log, window), event, window) == Tail(log + [event], window)
  {
  }

  /** The events past the cursor on the given topics, in log order. */
  function Matching(s: seq<Event>, last: int, topics: set<string>): seq<Event> {
    if s == [] then []
    else
      var n := |s| - 1;
      Matching(s[..n], last, topics) + (if s[n].num > last && s[n].topic in topics then [s[n]] else [])
  }

  lemma MatchingAppend(s: seq<Event>, e: Event, last: int, topics: set<string>)
    ensures Matching(s + [e], last, topics)
         == Matching(s, last, topics) + (if e.num > last && e.topic in topics then [e] else [])
  {
    assert (s + [e])[..|s|] == s;
  }

  lemma {:induction false} MatchingConcat(a: seq<Event>, b: seq<Event>, last: int, topics: set<string>)
    ensures Matching(a + b, last, topics) == Matching(a, last, topics) + Matching(b, last, topics)
  {
    if b == [] {
      assert a + b == a;
    } else {
      var n := |b| - 1;
      assert a + b == (a + b[..n]) + [b[n]];
      MatchingAppend(a + b[..n], b[n], last, topics);
      MatchingConcat(a, b[..n], last, topics);
    }
  }

  lemma {:induction false} MatchingMember(s: seq<Event>, last: int, topics: set<string>, e: Event)
    ensures e in Matching(s, last, topics) <==> e in s && e.num > last && e.topic in topics
  {
    if s != [] {
      var n := |s| - 1;
      MatchingMember(s[..n], last, topics, e);
      assert s == s[..n] + [s[n]];
    }
  }

  lemma {:induction false} MatchingNone(s: seq<Event>, last: int, topics: set<string>)
    requires forall e :: e in s ==> e.num <= last
    ensures Matching(s, last, topics) == []
  {
    if s != [] { MatchingNone(s[..|s| - 1], last, topics); }
  }

  lemma {:induction false} MatchingAll(s: seq<Event>, last: int, last': int, topics: set<string>)
    requires forall e :: e in s ==> e.num > last && e.num > last'
    ensures Matching(s, last, topics) == Matching(s, last', topics)
  {
    if s != [] { MatchingAll(s[..|s| - 1], last, last', topics); }
  }

  ghost predicate Ascending(s: seq<Event>) {
    forall i, j :: 0 <= i < j < |s| ==> s[i].num < s[j].num
  }

  lemma {:induction false} MatchingAscending(log: seq<Event>, last: int, topics: set<string>)
    requires Numbered(log)
    ensures Ascending(Matching(log, last, topics))
  {
    if log != [] {
      var n := |log| - 1;
      MatchingAscending(log[..n], last, topics);
      var front := Matching(log[..n], last, topics);
      forall i | 0 <= i < |front| ensures front[i].num <= n {
        MatchingMember(log[..n], last, topics, front[i]);
      }
    }
  }

  /** The first event past the cursor splits the log: nothing matches before it, and the rest of the
      matches are those past it. */
  lemma {:induction false} MatchingHead(log: seq<Event>, last: nat, topics: set<string>)
    requires Numbered(log) && Matching(log, last, topics) != []
    ensures var m := Matching(log, last, topics);
            var e := m[0];
            && last < e.num <= |log| && log[e.num - 1] == e && e.topic in topics
            && Matching(log[..e.num - 1], last, topics) == []
            && Matching(log[..e.num], last, topics) == [e]
            && Matching(log, e.num, topics) == m[1..]
  {
    hide Matching;
    assert log != [] by { if log == [] { MatchingNone([], last, topics); } }
    var n := |log| - 1;
    var front := log[..n];
    assert log == front + [log[n]];
    MatchingAppend(front, log[n], last, topics);
    var e := Matching(log, last, topics)[0];
    if Matching(front, last, topics) == [] {
      assert e == log[n];
      MatchingNone(log, e.num, topics);
      assert log[..e.num] == log && log[..e.num - 1] == front;
    } else {
      MatchingHead(front, last, topics);
      MatchingAppend(front, log[n], e.num, topics);
      assert front[..e.num] == log[..e.num] && front[..e.num - 1] == log[..e.num - 1];
    }
  }

  // ----- Replaying from the buffer

  datatype ReplayResult =
    | Invalid
    | TooOld(oldest: nat, latest: nat)
    | Ok(count: nat, bounds: Option<(nat, nat)>)

  /** The outcome promised for a replay, in terms of the full log: `evicted` is how much of it has left
      the buffer. */
  ghost predicate ReplayAnswers(log: seq<Event>, evicted: nat, last: int, topics: set<string>,
                                result: ReplayResult, replayed: seq<Event>)
    requires evicted <= |log|
  {
    && (result.Invalid? <==> last < 0)
    && (result.TooOld? <==> last >= 0 && exists i :: 0 <= i < evicted && log[i].num > last)
    && (result.TooOld? ==> result.oldest == evicted + 1 && result.latest == |log|)
    && (result.Ok? ==> result.count == |replayed| && replayed == Matching(log, last, topics))
    && (result.Ok? ==> result.bounds == if log == [] then None else Some((evicted + 1, |log|)))
    && (!result.Ok? ==> replayed == [])
  }

  /** The list comprehension over the buffer. */
  method Collect(buffer: seq<Event>, last: int, topics: set<string>) returns (replayed: seq<Event>)
    ensures replayed == Matching(buffer, last, topics)
  {
    replayed := [];
    for i := 0 to |buffer|
      invariant replayed == Matching(buffer[..i], last, topics)
    {
      assert buffer[..i + 1] == buffer[..i] + [buffer[i]];
      MatchingAppend(buffer[..i], buffer[i], last, topics);
      if buffer[i].num > last && buffer[i].topic in topics {
        replayed := replayed + [buffer[i]];
      }
    }
    assert buffer[..|buffer|] == buffer;
  }

  lemma BufferHasAll(log: seq<Event>, evicted: nat, last: int, topics: set<string>)
    requires Numbered(log) && evicted <= |log| && evicted <= last
    ensures Matching(log, last, topics) == Matching(log[evicted..], last, topics)
    ensures forall i :: 0 <= i < evicted ==> log[i].num <= last
  {
    assert log == log[..evicted] + log[evicted..];
    MatchingConcat(log[..evicted], log[evicted..], last, topics);
    MatchingNone(log[..evicted], last, topics);
  }

  /** The bounded buffer answers as the full log would, except for evicted events. */
  method Replay(buffer: seq<Event>, last: int, topics: set<string>, ghost log: seq<Event>, ghost window: nat)
      returns (result: ReplayResult, replayed: seq<Event>)
    requires Numbered(log) && window >= 1 && buffer == Tail(log, window)
    ensures ReplayAnswers(log, |log| - |buffer|, last, topics, result, replayed)
  {
    hide Matching;
    assert Matching([], last, topics) == [] by { MatchingNone([], last, topics); }
    replayed := [];
    if last < 0 {
      return Invalid, [];
    }
    if buffer == [] {
      return Ok(0, None), [];
    }
    var oldest, latest := buffer[0].num, buffer[|buffer| - 1].num;
    ghost var evicted := |log| - |buffer|;
    assert buffer == log[evicted..];
    assert buffer[0] == log[evicted] && buffer[|buffer| - 1] == log[|log| - 1];
    if last < oldest - 1 {
      assert log[evicted - 1].num > last;
      return TooOld(oldest, latest), [];
    }
    assert last >= evicted;
    replayed := Collect(buffer, last, topics);
    BufferHasAll(log, evicted, last, topics);
    result := Ok(|replayed|, Some((oldest, latest)));
  }

  /** Whether a cursor is still inside the window, for a buffer holding the last `window` entries. */
  predicate Resumable(log: seq<Event>, window: nat, last: nat) {
    |log| <= window || last >= |log| - window
  }

  lemma ResumableMeans(log: seq<Event>, window: nat, last: nat)
    requires Numbered(log) && window >= 1
    ensures Resumable(log, window, last)
       <==> !exists i :: 0 <= i < |log| - |Tail(log, window)| && log[i].num > last
  {
    if |log| > window && last < |log| - window {
      assert log[|log| - window - 1].num > last;
    }
  }

  /** Inside the window the buffer has every match. */
  lemma TailMatches(log: seq<Event>, window: nat, last: nat, topics: set<string>)
    requires Numbered(log) && Resumable(log, window, last)
    ensures Matching(Tail(log, window), last, topics) == Matching(log, last, topics)
  {
    if |log| > window {
      var k := |log| - window;
      assert log == log[..k] + log[k..];
      MatchingConcat(log[..k], log[k..], last, topics);
      MatchingNone(log[..k], last, topics);
    }
  }
}
