/** The job queue shared by the training and the research worker, in every interleaving of their loops. */
module WorkerQueue {

  datatype Worker = Training | Research

  /** A queue payload: `Malformed` fails validation. */
  datatype Payload = Envelope(id: string, jobType: string) | Malformed(text: string)

  function JobType(w: Worker): string {
    if w == Training then "training" else "backtest"
  }

  predicate Matches(w: Worker, p: Payload) {
    p.Envelope? && p.jobType == JobType(w)
  }

  datatype Handled = Handled(worker: Worker, payload: Payload)

  datatype State = State(
    queue: seq<Payload>,
    hands: map<Worker, Payload>,  // what a worker has popped and not yet dealt with
    handled: seq<Handled>,
    dropped: seq<Payload>,
    enqueued: multiset<Payload>)  // everything ever put on the queue by the control plane

  datatype Action = Enqueue(payload: Payload) | Pop(worker: Worker) | Settle(worker: Worker)

  const START := State([], map[], [], [], multiset{})

  /** What a worker does with what it holds. An action that is not enabled changes nothing. */
  function Step(s: State, a: Action): State {
    match a
    case Enqueue(p) => s.(queue := s.queue + [p], enqueued := s.enqueued + multiset{p})
    case Pop(w) =>
      if w in s.hands || s.queue == [] then s
      else s.(queue := s.queue[1..], hands := s.hands[w := s.queue[0]])
    case Settle(w) =>
      if w !in s.hands then s
      else
        var p := s.hands[w];
        var released := s.(hands := s.hands - {w});
        if p.Malformed? then released.(dropped := s.dropped + [p])
        else if !Matches(w, p) then released.(queue := s.queue + [p])
        else released.(handled := s.handled + [Handled(w, p)])
  }

  function Run(actions: seq<Action>): State {
    if actions == [] then START else Step(Run(actions[..|actions| - 1]), actions[|actions| - 1])
  }

  function Held(hands: map<Worker, Payload>): multiset<Payload> {
    (if Training in hands then multiset{hands[Training]} else multiset{})
    + (if Research in hands then multiset{hands[Research]} else multiset{})
  }

  lemma HeldTake(hands: map<Worker, Payload>, w: Worker, p: Payload)
    requires w !in hands
    ensures Held(hands[w := p]) == Held(hands) + multiset{p}
  {
    if w == Training {
      assert Research in hands[w := p] <==> Research in hands;
    } else {
      assert w == Research;
      assert Training in hands[w := p] <==> Training in hands;
    }
  }

  lemma HeldGive(hands: map<Worker, Payload>, w: Worker)
    requires w in hands
    ensures Held(hands) == Held(hands - {w}) + multiset{hands[w]}
  {
    HeldTake(hands - {w}, w, hands[w]);
    assert (hands - {w})[w := hands[w]] == hands;
  }

  function Payloads(handled: seq<Handled>): multiset<Payload> {
    if handled == [] then multiset{}
    else Payloads(handled[..|handled| - 1]) + multiset{handled[|handled| - 1].payload}
  }

  /** Everything enqueued is in exactly one place. */
  ghost predicate Conserved(s: State) {
    multiset(s.queue) + Held(s.hands) + Payloads(s.handled) + multiset(s.dropped) == s.enqueued
  }

  lemma StepConserves(s: State, a: Action)
    requires Conserved(s)
    ensures Conserved(Step(s, a))
  {
    var t := Step(s, a);
    match a {
      case Enqueue(p) =>
      case Pop(w) => PopConserves(s, w);
      case Settle(w) => SettleConserves(s, w);
    }
  }

  lemma PopConserves(s: State, w: Worker)
    requires Conserved(s)
    ensures Conserved(Step(s, Pop(w)))
  {
    hide Payloads, Held;
    var t := Step(s, Pop(w));
    if w !in s.hands && s.queue != [] {
      assert s.queue == [s.queue[0]] + t.queue;
      assert multiset(s.queue) == multiset{s.queue[0]} + multiset(t.queue);
      HeldTake(s.hands, w, s.queue[0]);
    }
  }

  /** What leaves a hand may go on any of the three piles. */
  lemma Regroup<T>(queue: multiset<T>, held: multiset<T>, handled: multiset<T>, dropped: multiset<T>, x: multiset<T>)
    ensures queue + (held + x) + handled + dropped == queue + x + held + handled + dropped
    ensures queue + (held + x) + handled + dropped == queue + held + (handled + x) + dropped
    ensures queue + (held + x) + handled + dropped == queue + held + handled + (dropped + x)
  {
  }

  lemma SettleConserves(s: State, w: Worker)
    requires Conserved(s)
    ensures Conserved(Step(s, Settle(w)))
  {
    hide Held;
    if w in s.hands {
      var p, rest := s.hands[w], s.hands - {w};
      HeldGive(s.hands, w);
      Regroup(multiset(s.queue), Held(rest), Payloads(s.handled), multiset(s.dropped), multiset{p});
      var t := Step(s, Settle(w));
      if p.Malformed? {
        assert t == s.(hands := rest, dropped := s.dropped + [p]);
        assert multiset(t.dropped) == multiset(s.dropped) + multiset{p};
      } else if Matches(w, p) {
        assert t == s.(hands := rest, handled := s.handled + [Handled(w, p)]);
        assert t.handled[..|s.handled|] == s.handled;
      } else {
        assert t == s.(hands := rest, queue := s.queue + [p]);
        assert multiset(t.queue) == multiset(s.queue) + multiset{p};
      }
    }
  }

  lemma NothingLost()
    ensures Conserved(START)
  {
  }

  lemma StepSortsRightly(s: State, a: Action)
    requires forall h :: h in s.handled ==> Matches(h.worker, h.payload)
    requires forall p :: p in s.dropped ==> p.Malformed?
    ensures forall h :: h in Step(s, a).handled ==> Matches(h.worker, h.payload)
    ensures forall p :: p in Step(s, a).dropped ==> p.Malformed?
  {
  }

  /** Everything that the control plane put on the queue. */
  function Enqueued(actions: seq<Action>): multiset<Payload> {
    if actions == [] then multiset{}
    else
      var n := |actions| - 1;
      Enqueued(actions[..n]) + (if actions[n].Enqueue? then multiset{actions[n].payload} else multiset{})
  }

  lemma {:induction false} RunEnqueued(actions: seq<Action>)
    ensures Run(actions).enqueued == Enqueued(actions)
  {
    hide Matches;
    if actions != [] { RunEnqueued(actions[..|actions| - 1]); }
  }

  /** In every interleaving each payload put on the queue is in exactly one place, only the worker of its type handles
      it, and only malformed payloads are dropped. */
  lemma {:induction false} EveryPayloadInOnePlace(actions: seq<Action>)
    ensures var s := Run(actions);
      && multiset(s.queue) + Held(s.hands) + Payloads(s.handled) + multiset(s.dropped) == Enqueued(actions)
      && (forall h :: h in s.handled ==>
            && h.payload.Envelope?
            && h.payload.jobType == match h.worker case Training => "training" case Research => "backtest")
      && (forall p :: p in s.dropped ==> p.Malformed?)
  {
    hide Payloads, Step, Held;
    RunConserves(actions);
    RunEnqueued(actions);
  }

  lemma {:induction false} RunConserves(actions: seq<Action>)
    ensures var s := Run(actions);
      && Conserved(s)
      && (forall h :: h in s.handled ==> Matches(h.worker, h.payload))
      && (forall p :: p in s.dropped ==> p.Malformed?)
  {
    hide Conserved, Matches, Payloads, Step;
    if actions != [] {
      var n := |actions| - 1;
      RunConserves(actions[..n]);
      StepConserves(Run(actions[..n]), actions[n]);
      StepSortsRightly(Run(actions[..n]), actions[n]);
    } else {
      NothingLost();
    }
  }

  // ----- One worker alone

  /** A pop and the settling of what was popped. */
  function Turn(s: State, w: Worker): State {
    Step(Step(s, Pop(w)), Settle(w))
  }

  function Turns(s: State, w: Worker, k: nat): State {
    if k == 0 then s else Turn(Turns(s, w, k - 1), w)
  }

  function PushedBack(queue: seq<Payload>): seq<Payload> {
    if queue == [] then []
    else
      var n := |queue| - 1;
      PushedBack(queue[..n]) + (if queue[n].Malformed? then [] else [queue[n]])
  }

  /** After as many turns as nothing in front matches, what was in front has gone to the back, in order. */
  lemma {:induction false} SkippedGoToTheBack(s: State, w: Worker, k: nat)
    requires w !in s.hands && k <= |s.queue| && forall i :: 0 <= i < k ==> !Matches(w, s.queue[i])
    ensures var t := Turns(s, w, k);
      && t.queue == s.queue[k..] + PushedBack(s.queue[..k])
      && t.hands == s.hands && t.handled == s.handled && t.enqueued == s.enqueued
  {
    hide Step, Matches;
    if k == 0 {
      assert s.queue[0..] + [] == s.queue;
    } else {
      SkippedGoToTheBack(s, w, k - 1);
      var mid, p := Turns(s, w, k - 1), s.queue[k - 1];
      var back := PushedBack(s.queue[..k - 1]);
      assert mid.queue == [p] + (s.queue[k..] + back);
      assert mid.queue[1..] == s.queue[k..] + back;
      assert PushedBack(s.queue[..k]) == back + (if p.Malformed? then [] else [p]) by {
        assert s.queue[..k][..k - 1] == s.queue[..k - 1];
      }
      SkipTurn(mid, w);
    }
  }

  /** A turn on a payload that is not the worker's. */
  lemma SkipTurn(s: State, w: Worker)
    requires w !in s.hands && s.queue != [] && !Matches(w, s.queue[0])
    ensures var t := Turn(s, w);
      && t.queue == s.queue[1..] + (if s.queue[0].Malformed? then [] else [s.queue[0]])
      && t.dropped == s.dropped + (if s.queue[0].Malformed? then [s.queue[0]] else [])
      && t.hands == s.hands && t.handled == s.handled && t.enqueued == s.enqueued
  {
    assert s.hands[w := s.queue[0]] - {w} == s.hands;
  }

  /** As many are pushed back as there were, exactly when none is malformed. */
  lemma {:induction false} PushedBackCount(queue: seq<Payload>)
    ensures |PushedBack(queue)| <= |queue|
    ensures |PushedBack(queue)| == |queue| <==> forall i :: 0 <= i < |queue| ==> queue[i].Envelope?
  {
    if queue != [] { PushedBackCount(queue[..|queue| - 1]); }
  }

  lemma InFrontPushedBack(queue: seq<Payload>, i: nat)
    requires i <= |queue|
    ensures |PushedBack(queue[..i])| == i <==> forall j :: 0 <= j < i ==> queue[j].Envelope?
  {
    hide PushedBack;
    PushedBackCount(queue[..i]);
    assert forall j :: 0 <= j < i ==> queue[..i][j] == queue[j];
  }

  lemma {:induction false} WellFormedAllPushedBack(queue: seq<Payload>)
    requires forall i :: 0 <= i < |queue| ==> queue[i].Envelope?
    ensures PushedBack(queue) == queue
  {
    if queue != [] {
      var n := |queue| - 1;
      WellFormedAllPushedBack(queue[..n]);
      assert queue == queue[..n] + [queue[n]];
    }
  }

  /** Alone, a worker handles its first matching envelope after skipping exactly those in front of it. They are
      all pushed back, as many as the envelope's index, exactly when none of them is malformed. */
  lemma FirstMatchIsReached(s: State, w: Worker, i: nat)
    requires w !in s.hands && i < |s.queue| && Matches(w, s.queue[i])
    requires forall j :: 0 <= j < i ==> !Matches(w, s.queue[j])
    ensures Turns(s, w, i).handled == s.handled
    ensures Turns(s, w, i + 1).handled == s.handled + [Handled(w, s.queue[i])]
    ensures Turns(s, w, i + 1).queue == s.queue[i + 1..] + PushedBack(s.queue[..i])
    ensures |PushedBack(s.queue[..i])| == i <==> forall j :: 0 <= j < i ==> s.queue[j].Envelope?
  {
    hide PushedBack;
    SkippedGoToTheBack(s, w, i);
    InFrontPushedBack(s.queue, i);
    var t := Turns(s, w, i);
    assert t.queue[0] == s.queue[i];
    assert t.queue[1..] == s.queue[i + 1..] + PushedBack(s.queue[..i]);
  }

  // ----- The loop of `run_worker`

  class WorkerLoop {
    const worker: Worker
    var queue: seq<Payload>
    var handled: seq<Handled>
    var dropped: seq<Payload>

    constructor (worker: Worker, queue: seq<Payload>)
      ensures this.worker == worker && this.queue == queue && handled == [] && dropped == []
    {
      this.worker, this.queue, handled, dropped := worker, queue, [], [];
    }

    ghost function View(): State
      reads this
    {
      State(queue, map[], handled, dropped, multiset(queue))
    }

    /** While nobody else touches the queue. */
    method RunWorker(turns: nat)
      modifies this
      ensures var t := Turns(old(View()), worker, turns);
        queue == t.queue && handled == t.handled && dropped == t.dropped
    {
      hide Turn;
      for k := 0 to turns
        invariant var t := Turns(old(View()), worker, k);
          queue == t.queue && handled == t.handled && dropped == t.dropped && t.hands == map[]
      {
        ghost var t := Turns(old(View()), worker, k);
        TurnAlone(t, worker);
        assert Turns(old(View()), worker, k + 1) == Turn(t, worker);
        if queue == [] {
          continue;
        }
        var popped := queue[0];
        queue := queue[1..];
        if popped.Malformed? {
          dropped := dropped + [popped];
          continue;
        }
        if popped.jobType != (match worker case Training => "training" case Research => "backtest") {
          queue := queue + [popped];
          continue;
        }
        handled := handled + [Handled(worker, popped)];
      }
    }
  }

  lemma TurnAlone(s: State, w: Worker)
    requires s.hands == map[]
    ensures Turn(s, w).hands == map[]
    ensures s.queue == [] ==> Turn(s, w) == s
    ensures s.queue != [] ==>
      var t, p := Turn(s, w), s.queue[0];
      && t.dropped == (if p.Malformed? then s.dropped + [p] else s.dropped)
      && t.handled == (if Matches(w, p) then s.handled + [Handled(w, p)] else s.handled)
      && t.queue == (if p.Malformed? || Matches(w, p) then s.queue[1..] else s.queue[1..] + [p])
  {
    if s.queue != [] {
      assert map[w := s.queue[0]] - {w} == map[];
    }
  }
}
