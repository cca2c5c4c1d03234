/** The bounded neighbourhood search of the topology graph: a breadth-first search over an undirected
    adjacency map, cut off at a depth, followed by a type filter and an induced-edge selection. */
module Neighborhood {
  import opened Options
  import opened Sorting

  type Id = string

  datatype NodeType = Strategy | Model | DataSource | RiskRule | ExecutionAdapter | Job

  datatype Node = Node(id: Id, typ: NodeType, labelText: string, group: Option<string>)

  datatype Edge = Edge(id: Id, source: Id, target: Id, labelText: Option<string>)

  datatype Request = Request(seed: Id, depth: nat, includeTypes: seq<NodeType>)

  /** `UnknownNode` is the KeyError of looking up an edge endpoint that is no node, `MixedLabels` the
      TypeError of comparing a missing label with a string while sorting the edges. */
  datatype Response = SeedNotFound | UnknownNode | MixedLabels | Found(nodes: seq<Node>, edges: seq<Edge>)

  // ----- Walks: the meaning of "at most `depth` edges away"

  ghost predicate Linked(edges: seq<Edge>, u: Id, v: Id) {
    exists e :: e in edges && ((e.source == u && e.target == v) || (e.source == v && e.target == u))
  }

  ghost predicate IsWalk(edges: seq<Edge>, p: seq<Id>, u: Id, v: Id) {
    && p != [] && p[0] == u && p[|p| - 1] == v
    && forall i :: 0 <= i < |p| - 1 ==> Linked(edges, p[i], p[i + 1])
  }

  /** `v` is joined to `u` by an undirected walk of at most `d` edges. */
  ghost predicate Within(edges: seq<Edge>, u: Id, v: Id, d: int) {
    exists p :: IsWalk(edges, p, u, v) && |p| - 1 <= d
  }

  ghost predicate IsDistance(edges: seq<Edge>, u: Id, v: Id, d: int) {
    Within(edges, u, v, d) && !Within(edges, u, v, d - 1)
  }

  lemma WithinSelf(edges: seq<Edge>, u: Id)
    ensures Within(edges, u, u, 0)
  {
    assert IsWalk(edges, [u], u, u);
  }

  lemma WithinStep(edges: seq<Edge>, u: Id, v: Id, w: Id, d: int)
    requires Within(edges, u, v, d) && Linked(edges, v, w)
    ensures Within(edges, u, w, d + 1)
  {
    var p :| IsWalk(edges, p, u, v) && |p| - 1 <= d;
    assert IsWalk(edges, p + [w], u, w);
  }

  lemma {:induction false} ReverseWalk(edges: seq<Edge>, p: seq<Id>, u: Id, v: Id)
    requires IsWalk(edges, p, u, v)
    ensures exists q :: IsWalk(edges, q, v, u) && |q| == |p|
  {
    var q := seq(|p|, i requires 0 <= i < |p| => p[|p| - 1 - i]);
    forall i | 0 <= i < |q| - 1 ensures Linked(edges, q[i], q[i + 1]) {
      assert Linked(edges, p[|p| - 2 - i], p[|p| - 2 - i + 1]);
    }
    assert IsWalk(edges, q, v, u);
  }

  /** Being within `d` edges does not depend on which of the two nodes is the seed. */
  lemma WithinSymmetric(edges: seq<Edge>, u: Id, v: Id, d: int)
    ensures Within(edges, u, v, d) <==> Within(edges, v, u, d)
  {
    if Within(edges, u, v, d) {
      var p :| IsWalk(edges, p, u, v) && |p| - 1 <= d;
      ReverseWalk(edges, p, u, v);
    }
    if Within(edges, v, u, d) {
      var p :| IsWalk(edges, p, v, u) && |p| - 1 <= d;
      ReverseWalk(edges, p, v, u);
    }
  }

  lemma WithinSameEdges(a: seq<Edge>, b: seq<Edge>, u: Id, v: Id, d: int)
    requires forall e :: e in a <==> e in b
    ensures Within(a, u, v, d) <==> Within(b, u, v, d)
  {
    forall p ensures IsWalk(a, p, u, v) <==> IsWalk(b, p, u, v) {}
  }

  // ----- The search

  ghost function Neighbors(adjacency: map<Id, set<Id>>, u: Id): set<Id> {
    if u in adjacency then adjacency[u] else {}
  }

  ghost predicate Represents(adjacency: map<Id, set<Id>>, edges: seq<Edge>) {
    forall u, v :: v in Neighbors(adjacency, u) <==> Linked(edges, u, v)
  }

  function AddNeighbor(adjacency: map<Id, set<Id>>, u: Id, v: Id): (r: map<Id, set<Id>>)
    ensures forall x, y :: y in Neighbors(r, x) <==> y in Neighbors(adjacency, x) || (x == u && y == v)
  {
    adjacency[u := (if u in adjacency then adjacency[u] else {}) + {v}]
  }

  method BuildAdjacency(edges: seq<Edge>) returns (adjacency: map<Id, set<Id>>)
    ensures Represents(adjacency, edges)
  {
    adjacency := map[];
    for i := 0 to |edges|
      invariant Represents(adjacency, edges[..i])
    {
      var edge := edges[i];
      assert edges[..i + 1] == edges[..i] + [edge];
      ghost var before := adjacency;
      adjacency := AddNeighbor(adjacency, edge.source, edge.target);
      adjacency := AddNeighbor(adjacency, edge.target, edge.source);
      forall u, v ensures v in Neighbors(adjacency, u) <==> Linked(edges[..i + 1], u, v) {
        assert v in Neighbors(before, u) <==> Linked(edges[..i], u, v);
      }
    }
    assert edges[..|edges|] == edges;
  }

  /** The queue is ordered by distance, and nothing lies more than one step beyond its head. */
  ghost predicate QueueOrdered(queue: seq<Id>, distances: map<Id, nat>) {
    && (forall i :: 0 <= i < |queue| ==> queue[i] in distances)
    && (forall i, j :: 0 <= i < j < |queue| ==> distances[queue[i]] <= distances[queue[j]])
    && (queue != [] ==> forall n :: n in distances ==> distances[n] <= distances[queue[0]] + 1)
  }

  /** Every discovered node is as close as recorded. */
  ghost predicate Sound(edges: seq<Edge>, seed: Id, depth: nat, distances: map<Id, nat>) {
    forall n :: n in distances ==> distances[n] <= depth && Within(edges, seed, n, distances[n])
  }

  ghost predicate Settled(edges: seq<Edge>, distances: map<Id, nat>, u: Id) {
    u in distances && forall v :: Linked(edges, u, v) ==> v in distances && distances[v] <= distances[u] + 1
  }

  /** Nodes that have left the queue, and are not on the rim, have all their neighbours discovered. */
  ghost predicate Explored(edges: seq<Edge>, depth: nat, distances: map<Id, nat>, queue: seq<Id>) {
    forall u :: u in distances && u !in queue && distances[u] < depth ==> Settled(edges, distances, u)
  }

  /** The inner loop: discover the neighbours of a node at depth `d`. */
  method Discover(neighbors: seq<Id>, d: nat, visited0: set<Id>, distances0: map<Id, nat>, queue0: seq<Id>)
      returns (visited: set<Id>, distances: map<Id, nat>, queue: seq<Id>, ghost added: seq<Id>)
    requires visited0 == distances0.Keys
    ensures visited == distances.Keys == distances0.Keys + (set n | n in neighbors)
    ensures forall n :: n in distances ==> distances[n] == if n in distances0 then distances0[n] else d + 1
    ensures queue == queue0 + added
    ensures forall n :: n in added <==> n in distances && n !in distances0
  {
    visited, distances, queue, added := visited0, distances0, queue0, [];
    for i := 0 to |neighbors|
      invariant visited == distances.Keys == distances0.Keys + (set n | n in neighbors[..i])
      invariant forall n :: n in distances ==> distances[n] == if n in distances0 then distances0[n] else d + 1
      invariant queue == queue0 + added
      invariant forall n :: n in added <==> n in distances && n !in distances0
    {
      var neighbor := neighbors[i];
      assert neighbors[..i + 1] == neighbors[..i] + [neighbor];
      if neighbor in visited {
        continue;
      }
      visited := visited + {neighbor};
      distances := distances[neighbor := d + 1];
      queue := queue + [neighbor];
      added := added + [neighbor];
    }
    assert neighbors[..|neighbors|] == neighbors;
  }

  /** What one expansion of `u` does to the discovered nodes. */
  ghost predicate Expanded(edges: seq<Edge>, u: Id, before: map<Id, nat>, after: map<Id, nat>, added: seq<Id>) {
    && u in before
    && (forall v :: v in after <==> v in before || Linked(edges, u, v))
    && (forall n :: n in after ==> after[n] == if n in before then before[n] else before[u] + 1)
    && (forall n :: n in added <==> n in after && n !in before)
  }

  lemma ExpandKeepsOrder(edges: seq<Edge>, queue: seq<Id>, before: map<Id, nat>, after: map<Id, nat>, added: seq<Id>)
    requires queue != [] && QueueOrdered(queue, before) && Expanded(edges, queue[0], before, after, added)
    ensures QueueOrdered(queue[1..] + added, after)
  {
    var u, next := queue[0], queue[1..] + added;
    forall i | 0 <= i < |next|
      ensures next[i] in after && before[u] <= after[next[i]] <= before[u] + 1
      ensures i >= |queue| - 1 ==> after[next[i]] == before[u] + 1
    {
      if i < |queue| - 1 {
        assert next[i] == queue[i + 1];
      } else {
        assert next[i] in added;
      }
    }
    forall i, j | 0 <= i < j < |next| ensures after[next[i]] <= after[next[j]] {
      if j < |queue| - 1 { assert next[i] == queue[i + 1] && next[j] == queue[j + 1]; }
    }
  }

  lemma ExpandKeepsSound(edges: seq<Edge>, seed: Id, depth: nat, u: Id, before: map<Id, nat>, after: map<Id, nat>,
                         added: seq<Id>)
    requires Sound(edges, seed, depth, before) && Expanded(edges, u, before, after, added) && before[u] < depth
    ensures Sound(edges, seed, depth, after)
  {
    forall n | n in after ensures after[n] <= depth && Within(edges, seed, n, after[n]) {
      if n !in before { WithinStep(edges, seed, u, n, before[u]); }
    }
  }

  lemma ExpandKeepsExplored(edges: seq<Edge>, depth: nat, queue: seq<Id>, before: map<Id, nat>, after: map<Id, nat>,
                            added: seq<Id>)
    requires queue != [] && QueueOrdered(queue, before) && Explored(edges, depth, before, queue)
    requires Expanded(edges, queue[0], before, after, added)
    ensures Explored(edges, depth, after, queue[1..] + added)
  {
    forall v | v in after && v !in queue[1..] + added && after[v] < depth ensures Settled(edges, after, v) {
      assert v !in added;
      if v != queue[0] {
        assert v !in queue;
        assert Settled(edges, before, v);
      }
    }
  }

  /** On leaving the loop, walks from the seed stay inside the discovered set and are not beaten. */
  lemma {:induction false} ExploredCoversWalks(edges: seq<Edge>, seed: Id, depth: nat, distances: map<Id, nat>,
                                               p: seq<Id>, v: Id)
    requires seed in distances && distances[seed] == 0 && Explored(edges, depth, distances, [])
    requires IsWalk(edges, p, seed, v) && |p| - 1 <= depth
    ensures v in distances && distances[v] <= |p| - 1
  {
    if |p| > 1 {
      var n := |p| - 1;
      assert IsWalk(edges, p[..n], seed, p[n - 1]);
      ExploredCoversWalks(edges, seed, depth, distances, p[..n], p[n - 1]);
      assert Settled(edges, distances, p[n - 1]);
      assert Linked(edges, p[n - 1], p[n - 1 + 1]);
    }
  }

  lemma DistancesExact(edges: seq<Edge>, seed: Id, depth: nat, distances: map<Id, nat>)
    requires seed in distances && distances[seed] == 0 && Explored(edges, depth, distances, [])
    requires Sound(edges, seed, depth, distances)
    ensures forall n :: n in distances <==> Within(edges, seed, n, depth)
    ensures forall n :: n in distances ==> IsDistance(edges, seed, n, distances[n])
  {
    forall n, d: int | Within(edges, seed, n, d) && d <= depth ensures n in distances && distances[n] <= d {
      var p :| IsWalk(edges, p, seed, n) && |p| - 1 <= d;
      ExploredCoversWalks(edges, seed, depth, distances, p, n);
    }
    forall n | n in distances ensures Within(edges, seed, n, depth) {
      var p :| IsWalk(edges, p, seed, n) && |p| - 1 <= distances[n];
    }
  }

  ghost predicate SearchInvariant(edges: seq<Edge>, seed: Id, depth: nat, distances: map<Id, nat>, queue: seq<Id>) {
    && seed in distances && distances[seed] == 0
    && QueueOrdered(queue, distances)
    && Sound(edges, seed, depth, distances)
    && Explored(edges, depth, distances, queue)
  }

  lemma StartInvariant(edges: seq<Edge>, seed: Id, depth: nat)
    ensures SearchInvariant(edges, seed, depth, map[seed := 0], [seed])
  {
    WithinSelf(edges, seed);
  }

  lemma PopKeepsInvariant(edges: seq<Edge>, seed: Id, depth: nat, distances: map<Id, nat>, queue: seq<Id>)
    requires queue != [] && SearchInvariant(edges, seed, depth, distances, queue)
    requires distances[queue[0]] >= depth
    ensures SearchInvariant(edges, seed, depth, distances, queue[1..])
  {
    forall u | u in distances && u !in queue[1..] && distances[u] < depth ensures Settled(edges, distances, u) {
      assert u !in queue;
    }
  }

  lemma ExpandKeepsInvariant(edges: seq<Edge>, seed: Id, depth: nat, queue: seq<Id>, before: map<Id, nat>,
                             after: map<Id, nat>, added: seq<Id>)
    requires queue != [] && SearchInvariant(edges, seed, depth, before, queue) && before[queue[0]] < depth
    requires Expanded(edges, queue[0], before, after, added)
    ensures SearchInvariant(edges, seed, depth, after, queue[1..] + added)
  {
    ExpandKeepsOrder(edges, queue, before, after, added);
    ExpandKeepsSound(edges, seed, depth, queue[0], before, after, added);
    ExpandKeepsExplored(edges, depth, queue, before, after, added);
  }

  lemma NeighborsInUniverse(edges: seq<Edge>, adjacency: map<Id, set<Id>>, u: Id)
    requires Represents(adjacency, edges)
    ensures Neighbors(adjacency, u) <= adjacency.Keys
  {
    forall v | v in Neighbors(adjacency, u) ensures v in adjacency {
      assert Linked(edges, u, v);
      assert Linked(edges, v, u);
      assert u in Neighbors(adjacency, v);
    }
  }

  /** Pop the head of the queue and discover its neighbours. */
  method Expand(ghost edges: seq<Edge>, adjacency: map<Id, set<Id>>, visited0: set<Id>, distances0: map<Id, nat>,
                queue0: seq<Id>)
      returns (visited: set<Id>, distances: map<Id, nat>, queue: seq<Id>, ghost added: seq<Id>)
    requires Represents(adjacency, edges) && visited0 == distances0.Keys
    requires queue0 != [] && queue0[0] in distances0
    ensures visited == distances.Keys && visited0 <= visited <= visited0 + adjacency.Keys
    ensures queue == queue0[1..] + added
    ensures Expanded(edges, queue0[0], distances0, distances, added)
    ensures added == [] ==> visited == visited0
  {
    var nodeId := queue0[0];
    var neighbors := SortedSet(if nodeId in adjacency then adjacency[nodeId] else {});
    visited, distances, queue, added := Discover(neighbors, distances0[nodeId], visited0, distances0, queue0[1..]);
    NeighborsInUniverse(edges, adjacency, nodeId);
    assert forall v :: v in neighbors <==> v in Neighbors(adjacency, nodeId);
  }

  /** The search visits exactly the ball around the seed and records true shortest distances. */
  method Search(ghost edges: seq<Edge>, adjacency: map<Id, set<Id>>, seed: Id, depth: nat)
      returns (visited: set<Id>, distances: map<Id, nat>)
    requires Represents(adjacency, edges)
    ensures forall n :: n in visited <==> Within(edges, seed, n, depth)
    ensures distances.Keys == visited
    ensures forall n :: n in distances ==> IsDistance(edges, seed, n, distances[n])
  {
    hide Sound, Explored, Within, Linked, IsDistance, Represents;
    visited := {seed};
    distances := map[seed := 0];
    var queue := [seed];
    StartInvariant(edges, seed, depth);
    ghost var universe := adjacency.Keys + {seed};
    while queue != []
      invariant visited == distances.Keys && visited <= universe
      invariant SearchInvariant(edges, seed, depth, distances, queue)
      decreases universe - visited, |queue|
    {
      var nodeId := queue[0];
      var currentDepth := distances[nodeId];
      if currentDepth >= depth {
        PopKeepsInvariant(edges, seed, depth, distances, queue);
        queue := queue[1..];
        continue;
      }
      ghost var before, queue0, added := distances, queue, [];
      visited, distances, queue, added := Expand(edges, adjacency, visited, distances, queue);
      ExpandKeepsInvariant(edges, seed, depth, queue0, before, distances, added);
      if added != [] { assert added[0] in universe - before.Keys; }
    }
    DistancesExact(edges, seed, depth, distances);
  }

  // ----- Selection

  /** `{node.id: node for node in nodes}`: the last node of an id wins. */
  function ById(nodes: seq<Node>): (m: map<Id, Node>)
    ensures forall n :: n in m ==> m[n] in nodes && m[n].id == n
    ensures forall x :: x in nodes ==> x.id in m
  {
    if nodes == [] then map[]
    else
      var last := |nodes| - 1;
      assert nodes == nodes[..last] + [nodes[last]];
      ById(nodes[..last])[nodes[last].id := nodes[last]]
  }

  /** Of several nodes of an id the last one counts. */
  lemma {:induction false} ByIdLast(nodes: seq<Node>, i: nat)
    requires i < |nodes| && forall j :: i < j < |nodes| ==> nodes[j].id != nodes[i].id
    ensures nodes[i].id in ById(nodes) && ById(nodes)[nodes[i].id] == nodes[i]
  {
    if i < |nodes| - 1 { ByIdLast(nodes[..|nodes| - 1], i); }
  }

  predicate LabelLeq(a: Option<string>, b: Option<string>) {
    a == None || (b.Some? && StringLeq(a.value, b.value))
  }

  /** The sort key is (source, target, label, id), compared lexicographically. */
  predicate EdgeLeq(a: Edge, b: Edge) {
    if a.source != b.source then StringLeq(a.source, b.source)
    else if a.target != b.target then StringLeq(a.target, b.target)
    else if a.labelText != b.labelText then LabelLeq(a.labelText, b.labelText)
    else StringLeq(a.id, b.id)
  }

  lemma EdgeOrder()
    ensures TotalPreorder(EdgeLeq) && AntiSymmetric(EdgeLeq)
  {
    StringOrder();
  }

  predicate Clash(a: Edge, b: Edge) {
    a.source == b.source && a.target == b.target && a.labelText == None && b.labelText != None
  }

  predicate HasClash(edges: seq<Edge>) {
    exists a, b :: a in edges && b in edges && Clash(a, b)
  }

  ghost predicate Selected(nodes: seq<Node>, edges: seq<Edge>, request: Request, n: Id) {
    && Within(edges, request.seed, n, request.depth)
    && (request.includeTypes == [] || n == request.seed
        || (n in ById(nodes) && ById(nodes)[n].typ in request.includeTypes))
  }

  ghost predicate Induced(nodes: seq<Node>, edges: seq<Edge>, request: Request, e: Edge) {
    Selected(nodes, edges, request, e.source) && Selected(nodes, edges, request, e.target)
  }

  ghost predicate ReachesUnknown(nodes: seq<Node>, edges: seq<Edge>, request: Request) {
    exists n :: Within(edges, request.seed, n, request.depth) && n !in ById(nodes)
  }

  ghost predicate SelectsClash(nodes: seq<Node>, edges: seq<Edge>, request: Request) {
    exists a, b :: a in edges && b in edges && Clash(a, b)
      && Induced(nodes, edges, request, a) && Induced(nodes, edges, request, b)
  }

  ghost predicate NodesAnswer(nodes: seq<Node>, edges: seq<Edge>, request: Request, found: seq<Node>) {
    && StrictlyAscending(Ids(found))
    && (forall n :: n in Ids(found) <==> Selected(nodes, edges, request, n))
    && (forall x :: x in found ==> x.id in ById(nodes) && x == ById(nodes)[x.id])
  }

  ghost predicate EdgesAnswer(nodes: seq<Node>, edges: seq<Edge>, request: Request, found: seq<Edge>) {
    SortedBy(EdgeLeq, found) && Keeps(nodes, edges, request, found)
  }

  /** The answer promised for a request, independent of how it is computed. */
  ghost predicate Answers(nodes: seq<Node>, edges: seq<Edge>, request: Request, r: Response) {
    match r
    case SeedNotFound => request.seed !in ById(nodes)
    case UnknownNode => request.seed in ById(nodes) && ReachesUnknown(nodes, edges, request)
    case MixedLabels =>
      && request.seed in ById(nodes) && !ReachesUnknown(nodes, edges, request)
      && SelectsClash(nodes, edges, request)
    case Found(foundNodes, foundEdges) =>
      && request.seed in ById(nodes) && !ReachesUnknown(nodes, edges, request)
      && !SelectsClash(nodes, edges, request)
      && NodesAnswer(nodes, edges, request, foundNodes) && EdgesAnswer(nodes, edges, request, foundEdges)
  }

  ghost function Ids(nodes: seq<Node>): seq<Id> {
    seq(|nodes|, i requires 0 <= i < |nodes| => nodes[i].id)
  }

  method SelectEdges(edges: seq<Edge>, selected: set<Id>) returns (r: seq<Edge>)
    ensures forall e :: multiset(r)[e] == if e.source in selected && e.target in selected then multiset(edges)[e] else 0
  {
    r := [];
    for i := 0 to |edges|
      invariant forall e ::
        multiset(r)[e] == if e.source in selected && e.target in selected then multiset(edges[..i])[e] else 0
    {
      assert edges[..i + 1] == edges[..i] + [edges[i]];
      if edges[i].source in selected && edges[i].target in selected {
        r := r + [edges[i]];
      }
    }
    assert edges[..|edges|] == edges;
  }

  method LookUp(byId: map<Id, Node>, ids: seq<Id>) returns (nodes: seq<Node>)
    requires forall n :: n in ids ==> n in byId && byId[n].id == n
    ensures Ids(nodes) == ids
    ensures forall x :: x in nodes ==> x.id in byId && x == byId[x.id]
  {
    nodes := [];
    for i := 0 to |ids|
      invariant |nodes| == i
      invariant forall k :: 0 <= k < i ==> nodes[k].id == ids[k] && nodes[k] == byId[ids[k]]
    {
      nodes := nodes + [byId[ids[i]]];
    }
  }

  /** The selection that follows the search. */
  method Select(ghost nodes: seq<Node>, edges: seq<Edge>, request: Request, byId: map<Id, Node>, visited: set<Id>)
      returns (r: Response)
    requires byId == ById(nodes) && request.seed in byId
    requires forall n :: n in visited <==> Within(edges, request.seed, n, request.depth)
    ensures Answers(nodes, edges, request, r)
  {
    hide Within, ReachesUnknown, Answers;
    ReachMeans(nodes, edges, request, visited);
    // Selecting by type looks every visited node up, and so does listing the selected nodes.
    if exists n :: n in visited && n !in byId {
      UnknownAnswers(nodes, edges, request);
      return UnknownNode;
    }
    var selected := set n | n in visited
      && (request.includeTypes == [] || byId[n].typ in request.includeTypes || n == request.seed);
    assert forall n :: n in selected <==> Selected(nodes, edges, request, n);
    r := Assemble(nodes, edges, request, byId, selected);
  }

  lemma UnknownAnswers(nodes: seq<Node>, edges: seq<Edge>, request: Request)
    requires request.seed in ById(nodes) && ReachesUnknown(nodes, edges, request)
    ensures Answers(nodes, edges, request, UnknownNode)
  {
  }

  /** The response for a set of selected ids. */
  method Assemble(ghost nodes: seq<Node>, edges: seq<Edge>, ghost request: Request, byId: map<Id, Node>,
                  selected: set<Id>)
      returns (r: Response)
    requires byId == ById(nodes) && request.seed in byId && !ReachesUnknown(nodes, edges, request)
    requires forall n :: n in selected <==> Selected(nodes, edges, request, n)
    requires forall n :: n in selected ==> n in byId
    ensures Answers(nodes, edges, request, r)
  {
    hide StringLeq, EdgeLeq, NodesAnswer, EdgesAnswer, SelectsClash, StrictlyAscending, ReachesUnknown, Selected;
    hide Keeps, Answers, HasClash, SortedBy, ById, SortedSet;
    var foundNodes := LookUp(byId, SortedSet(selected));
    var induced := SelectEdges(edges, selected);
    KeepsInduced(nodes, edges, request, selected, induced);
    SelectionAnswers(nodes, edges, request, selected, foundNodes, induced);
    if HasClash(induced) {
      return MixedLabels;
    }
    r := Found(foundNodes, StableSort(EdgeLeq, induced));
  }

  lemma SelectionAnswers(nodes: seq<Node>, edges: seq<Edge>, request: Request, selected: set<Id>,
                         foundNodes: seq<Node>, induced: seq<Edge>)
    requires request.seed in ById(nodes) && !ReachesUnknown(nodes, edges, request)
    requires forall n :: n in selected <==> Selected(nodes, edges, request, n)
    requires Ids(foundNodes) == SortedSet(selected)
    requires forall x :: x in foundNodes ==> x.id in ById(nodes) && x == ById(nodes)[x.id]
    requires Keeps(nodes, edges, request, induced)
    ensures Answers(nodes, edges, request,
                    if HasClash(induced) then MixedLabels else Found(foundNodes, StableSort(EdgeLeq, induced)))
  {
    hide StringLeq, EdgeLeq, NodesAnswer, EdgesAnswer, SelectsClash, StrictlyAscending, ReachesUnknown, Selected;
    hide Keeps, HasClash, ById, SortedSet, StableSort, Ids;
    InducedEdges(nodes, edges, request, induced);
    SortedAnswers(nodes, edges, request, induced);
    SelectedNodes(nodes, edges, request, selected, foundNodes);
  }

  method GetNeighborhood(nodes: seq<Node>, edges: seq<Edge>, request: Request) returns (r: Response)
    ensures Answers(nodes, edges, request, r)
  {
    hide Within, Represents, IsDistance;
    var byId := ById(nodes);
    if request.seed !in byId {
      return SeedNotFound;
    }
    var adjacency := BuildAdjacency(edges);
    var visited, distances := Search(edges, adjacency, request.seed, request.depth);
    r := Select(nodes, edges, request, byId, visited);
  }

  ghost predicate Keeps(nodes: seq<Node>, edges: seq<Edge>, request: Request, found: seq<Edge>) {
    forall e :: multiset(found)[e] == if Induced(nodes, edges, request, e) then multiset(edges)[e] else 0
  }

  lemma ReachMeans(nodes: seq<Node>, edges: seq<Edge>, request: Request, visited: set<Id>)
    requires forall n :: n in visited <==> Within(edges, request.seed, n, request.depth)
    ensures ReachesUnknown(nodes, edges, request) <==> exists n :: n in visited && n !in ById(nodes)
  {
  }

  lemma SelectedNodes(nodes: seq<Node>, edges: seq<Edge>, request: Request, selected: set<Id>, found: seq<Node>)
    requires forall n :: n in selected <==> Selected(nodes, edges, request, n)
    requires Ids(found) == SortedSet(selected)
    requires forall x :: x in found ==> x.id in ById(nodes) && x == ById(nodes)[x.id]
    ensures NodesAnswer(nodes, edges, request, found)
  {
    hide Selected, StrictlyAscending, ById;
  }

  lemma KeepsInduced(nodes: seq<Node>, edges: seq<Edge>, request: Request, selected: set<Id>, induced: seq<Edge>)
    requires forall n :: n in selected <==> Selected(nodes, edges, request, n)
    requires forall e ::
      multiset(induced)[e] == if e.source in selected && e.target in selected then multiset(edges)[e] else 0
    ensures Keeps(nodes, edges, request, induced)
  {
    hide Selected;
  }

  lemma InducedEdges(nodes: seq<Node>, edges: seq<Edge>, request: Request, induced: seq<Edge>)
    requires Keeps(nodes, edges, request, induced)
    ensures HasClash(induced) <==> SelectsClash(nodes, edges, request)
  {
    hide Induced;
    forall e ensures e in induced <==> e in edges && Induced(nodes, edges, request, e) {
      assert e in induced <==> multiset(induced)[e] > 0;
      assert e in edges <==> multiset(edges)[e] > 0;
    }
  }

  lemma SortedAnswers(nodes: seq<Node>, edges: seq<Edge>, request: Request, induced: seq<Edge>)
    requires Keeps(nodes, edges, request, induced)
    ensures EdgesAnswer(nodes, edges, request, StableSort(EdgeLeq, induced))
  {
    hide Induced, EdgeLeq;
    EdgeOrder();
    StableSortCorrect(EdgeLeq, induced);
  }

  /** One edge may stand before another: by source, then target, then label, then id. */
  ghost predicate Before(a: Edge, b: Edge) {
    && StringLeq(a.source, b.source)
    && (a.source == b.source ==> StringLeq(a.target, b.target))
    && (a.source == b.source && a.target == b.target ==>
          match (a.labelText, b.labelText)
          case (None, None) => StringLeq(a.id, b.id)
          case (Some(l), Some(m)) => StringLeq(l, m) && (l == m ==> StringLeq(a.id, b.id))
          case _ => false)
  }

  lemma EdgeBefore(a: Edge, b: Edge)
    requires EdgeLeq(a, b) && !Clash(a, b) && !Clash(b, a)
    ensures Before(a, b)
  {
    hide StringLeq;
    StringLeqTotal(a.source, a.source);
    StringLeqTotal(a.target, a.target);
    if a.labelText.Some? { StringLeqTotal(a.labelText.value, a.labelText.value); }
  }

  /** The edges of an answer come by source, target, label and id; parallel edges have all a label or none. */
  lemma EdgesInOrder(nodes: seq<Node>, edges: seq<Edge>, request: Request, r: Response)
    requires Answers(nodes, edges, request, r) && r.Found?
    ensures forall i, j :: 0 <= i < j < |r.edges| ==> Before(r.edges[i], r.edges[j])
  {
    hide Induced, EdgeLeq, Before, NodesAnswer, ReachesUnknown, ById;
    forall i, j | 0 <= i < j < |r.edges| ensures Before(r.edges[i], r.edges[j]) {
      var a, b := r.edges[i], r.edges[j];
      assert multiset(r.edges)[a] > 0 && multiset(r.edges)[b] > 0;
      assert multiset(edges)[a] > 0 && multiset(edges)[b] > 0;
      EdgeBefore(a, b);
    }
  }

  ghost predicate IsMixed(a: Edge, b: Edge) {
    a.source == b.source && a.target == b.target && a.labelText.None? && b.labelText.Some?
  }

  /** Mixed labels are the answer exactly when two selected parallel edges, one with a label and one without,
      meet. */
  lemma MixedLabelsMeans(nodes: seq<Node>, edges: seq<Edge>, request: Request, r: Response)
    requires Answers(nodes, edges, request, r) && (r.Found? || r.MixedLabels?)
    ensures r.MixedLabels? <==> exists a, b ::
      && a in edges && b in edges && IsMixed(a, b)
      && Induced(nodes, edges, request, a) && Induced(nodes, edges, request, b)
  {
    hide Induced, NodesAnswer, EdgesAnswer, ReachesUnknown, ById;
    forall a, b ensures IsMixed(a, b) <==> Clash(a, b) {}
  }

  // ----- What the answer does and does not depend on

  ghost predicate UniqueIds(nodes: seq<Node>) {
    forall i, j :: 0 <= i < j < |nodes| ==> nodes[i].id != nodes[j].id
  }

  lemma SameElements<T>(a: seq<T>, b: seq<T>)
    requires multiset(a) == multiset(b)
    ensures forall x :: x in a <==> x in b
  {
    forall x ensures x in a <==> x in b {
      assert x in a <==> x in multiset(a);
      assert x in b <==> x in multiset(b);
    }
  }

  lemma ByIdSame(a: seq<Node>, b: seq<Node>)
    requires UniqueIds(a) && UniqueIds(b) && (forall x :: x in a <==> x in b)
    ensures ById(a) == ById(b)
  {
    hide UniqueIds;
    var ma, mb := ById(a), ById(b);
    hide ById;
    forall n | n in ma ensures n in mb && mb[n] == ma[n] {
      assert ma[n] in b;
      assert mb[n] in b;
      SameIdSameNode(b, ma[n], mb[n]);
    }
    forall n | n in mb ensures n in ma {
      assert mb[n] in a;
    }
  }

  lemma SameIdSameNode(nodes: seq<Node>, x: Node, y: Node)
    requires UniqueIds(nodes) && x in nodes && y in nodes && x.id == y.id
    ensures x == y
  {
  }

  lemma SelectionIgnoresOrder(nodes: seq<Node>, nodes': seq<Node>, edges: seq<Edge>, edges': seq<Edge>,
                              request: Request)
    requires ById(nodes) == ById(nodes') && forall e :: e in edges <==> e in edges'
    ensures forall n :: Selected(nodes, edges, request, n) <==> Selected(nodes', edges', request, n)
    ensures ReachesUnknown(nodes, edges, request) <==> ReachesUnknown(nodes', edges', request)
    ensures SelectsClash(nodes, edges, request) <==> SelectsClash(nodes', edges', request)
  {
    forall n ensures Within(edges, request.seed, n, request.depth) <==> Within(edges', request.seed, n, request.depth) {
      WithinSameEdges(edges, edges', request.seed, n, request.depth);
    }
    assert forall e :: Induced(nodes, edges, request, e) <==> Induced(nodes', edges', request, e);
  }

  lemma NodesAnswerUnique(nodes: seq<Node>, edges: seq<Edge>, request: Request, a: seq<Node>, b: seq<Node>)
    requires NodesAnswer(nodes, edges, request, a) && NodesAnswer(nodes, edges, request, b)
    ensures a == b
  {
    AscendingUnique(Ids(a), Ids(b));
    assert |a| == |Ids(a)| == |Ids(b)| == |b|;
    forall i | 0 <= i < |a| ensures a[i] == b[i] {
      assert Ids(a)[i] == Ids(b)[i];
      assert a[i] in a && b[i] in b;
    }
  }

  /** The response is a function of the stored nodes and edges: storage order never shows. */
  lemma AnswerIgnoresOrder(nodes: seq<Node>, nodes': seq<Node>, edges: seq<Edge>, edges': seq<Edge>,
                           request: Request, r: Response, r': Response)
    requires UniqueIds(nodes) && UniqueIds(nodes') && multiset(nodes) == multiset(nodes')
    requires multiset(edges) == multiset(edges')
    requires Answers(nodes, edges, request, r) && Answers(nodes', edges', request, r')
    ensures r == r'
  {
    SameElements(nodes, nodes');
    SameElements(edges, edges');
    ByIdSame(nodes, nodes');
    SelectionIgnoresOrder(nodes, nodes', edges, edges', request);
    if r.Found? && r'.Found? {
      assert NodesAnswer(nodes, edges, request, r'.nodes);
      NodesAnswerUnique(nodes, edges, request, r.nodes, r'.nodes);
      forall e ensures multiset(r.edges)[e] == multiset(r'.edges)[e] {
        assert Induced(nodes, edges, request, e) <==> Induced(nodes', edges', request, e);
      }
      EdgeOrder();
      SortedPermutationsEqual(EdgeLeq, r.edges, r'.edges);
    }
  }

  /** A deeper request returns every node and every edge of a shallower one. */
  lemma DeeperContainsShallower(nodes: seq<Node>, edges: seq<Edge>, request: Request, deeper: Request,
                                r: Response, r': Response)
    requires deeper.seed == request.seed && deeper.includeTypes == request.includeTypes && request.depth <= deeper.depth
    requires Answers(nodes, edges, request, r) && Answers(nodes, edges, deeper, r') && r.Found? && r'.Found?
    ensures forall x :: x in r.nodes ==> x in r'.nodes
    ensures multiset(r.edges) <= multiset(r'.edges)
  {
    forall n | Selected(nodes, edges, request, n) ensures Selected(nodes, edges, deeper, n) {
      var p :| IsWalk(edges, p, request.seed, n) && |p| - 1 <= request.depth;
    }
    forall x | x in r.nodes ensures x in r'.nodes {
      var i :| 0 <= i < |r.nodes| && r.nodes[i] == x;
      assert Ids(r.nodes)[i] == x.id;
      assert x.id in Ids(r'.nodes);
      var j :| 0 <= j < |r'.nodes| && Ids(r'.nodes)[j] == x.id;
      assert r'.nodes[j] in r'.nodes;
    }
    forall e ensures multiset(r.edges)[e] <= multiset(r'.edges)[e] {
      assert Induced(nodes, edges, request, e) ==> Induced(nodes, edges, deeper, e);
    }
  }

  /** Without a type filter, `v` is in the neighbourhood of `u` exactly when `u` is in that of `v`. */
  lemma NeighborhoodSymmetric(nodes: seq<Node>, edges: seq<Edge>, u: Id, v: Id, depth: nat, r: Response, r': Response)
    requires Answers(nodes, edges, Request(u, depth, []), r) && r.Found?
    requires Answers(nodes, edges, Request(v, depth, []), r') && r'.Found?
    ensures v in Ids(r.nodes) <==> u in Ids(r'.nodes)
  {
    WithinSymmetric(edges, u, v, depth);
    assert Selected(nodes, edges, Request(u, depth, []), v) <==> Selected(nodes, edges, Request(v, depth, []), u);
  }
}
