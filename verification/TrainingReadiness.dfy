/** The data readiness of a training run: finding the chunks the cache does not cover and requesting them. */
module TrainingReadiness {
  import opened Options
  import opened Sorting
  import opened Sums
  import opened MarketData

  datatype Chunk = Chunk(symbol: string, resolution: string)

  // ----- Finding the missing chunks

  method BuildMissingChunks(partitions: seq<Partition>, symbols: seq<string>, resolutions: seq<string>,
                            start: Date, end: Date) returns (missing: seq<Chunk>)
    ensures forall c :: c in missing <==>
      c.symbol in symbols && c.resolution in resolutions && !Covered(partitions, c.symbol, c.resolution, start, end)
  {
    hide Covered, IsHull;
    missing := [];
    for i := 0 to |symbols|
      invariant forall c :: c in missing <==>
        && c.symbol in symbols[..i] && c.resolution in resolutions
        && !Covered(partitions, c.symbol, c.resolution, start, end)
    {
      var symbol := symbols[i];
      ghost var before := missing;
      assert symbols[..i + 1] == symbols[..i] + [symbol];
      for j := 0 to |resolutions|
        invariant forall c :: c in missing <==>
          c in before || (c.symbol == symbol && c.resolution in resolutions[..j]
                          && !Covered(partitions, c.symbol, c.resolution, start, end))
      {
        var resolution := resolutions[j];
        assert resolutions[..j + 1] == resolutions[..j] + [resolution];
        var hull := CacheCoverage(partitions, symbol, resolution);
        HullDecidesCoverage(partitions, symbol, resolution, hull, start, end);
        if hull.None? || hull.value.0 > start || hull.value.1 < end {
          missing := missing + [Chunk(symbol, resolution)];
        }
      }
      assert resolutions[..|resolutions|] == resolutions;
    }
    assert symbols[..|symbols|] == symbols;
  }

  // ----- Requesting them, one request a resolution

  /** `by_resolution.setdefault(resolution, set()).add(symbol)` */
  function Group(chunks: seq<Chunk>): Dict<set<string>> {
    if chunks == [] then Dict([], map[])
    else
      var n := |chunks| - 1;
      var groups := Group(chunks[..n]);
      groups.Put(chunks[n].resolution, groups.GetOr(chunks[n].resolution, {}) + {chunks[n].symbol})
  }

  ghost predicate HoldsChunks(g: Dict<set<string>>, chunks: seq<Chunk>) {
    && g.Valid()
    && (forall r, s :: r in g.entries && s in g.entries[r] <==> Chunk(s, r) in chunks)
    && (forall r :: r in g.entries ==> g.entries[r] != {})
  }

  lemma GroupStep(g: Dict<set<string>>, chunks: seq<Chunk>, c: Chunk)
    requires HoldsChunks(g, chunks)
    ensures HoldsChunks(g.Put(c.resolution, g.GetOr(c.resolution, {}) + {c.symbol}), chunks + [c])
  {
    var after := g.Put(c.resolution, g.GetOr(c.resolution, {}) + {c.symbol});
    forall r, s ensures r in after.entries && s in after.entries[r] <==> Chunk(s, r) in chunks + [c] {
      assert r in g.entries && s in g.entries[r] <==> Chunk(s, r) in chunks;
      assert Chunk(s, r) in chunks + [c] <==> Chunk(s, r) in chunks || Chunk(s, r) == c;
    }
    assert c.symbol in after.entries[c.resolution];
  }

  lemma {:induction false} GroupsHoldChunks(chunks: seq<Chunk>)
    ensures HoldsChunks(Group(chunks), chunks)
  {
    if chunks == [] {
      assert Group(chunks) == Dict([], map[]);
    } else {
      hide HoldsChunks;
      var n := |chunks| - 1;
      GroupsHoldChunks(chunks[..n]);
      GroupStep(Group(chunks[..n]), chunks[..n], chunks[n]);
      assert chunks == chunks[..n] + [chunks[n]];
    }
  }

  /** The dataset's own fields, from which a request for missing data is made up. */
  datatype Dataset = Dataset(provider: string, assetClass: string, featureRecipe: string, labelRecipe: string)

  function ChunkRequest(d: Dataset, resolution: string, symbols: set<string>, start: Date, end: Date): Request {
    Request(None, d.provider, d.assetClass, SortedSet(symbols), [resolution], d.featureRecipe, d.labelRecipe,
            Some(start), Some(end), None, [], None)
  }

  function RequestsFor(d: Dataset, groups: Dict<set<string>>, start: Date, end: Date): (r: seq<Request>)
    requires forall k :: k in groups.keys ==> k in groups.entries
    ensures |r| == |groups.keys|
    ensures forall i :: 0 <= i < |r| ==>
                r[i] == ChunkRequest(d, groups.keys[i], groups.entries[groups.keys[i]], start, end)
  {
    seq(|groups.keys|, i requires 0 <= i < |groups.keys| =>
      ChunkRequest(d, groups.keys[i], groups.entries[groups.keys[i]], start, end))
  }

  function IngestAll(hash: Spec -> string, store: Store, requests: seq<Request>): (Store, seq<Response>) {
    if requests == [] then (store, [])
    else
      var n := |requests| - 1;
      var (before, responses) := IngestAll(hash, store, requests[..n]);
      var (after, response) := Ingest(hash, before, requests[n]);
      (after, responses + [response])
  }

  /** The first loop: the missing symbols, by resolution. */
  method GroupChunks(missing: seq<Chunk>) returns (byResolution: Dict<set<string>>)
    ensures byResolution == Group(missing)
  {
    byResolution := Dict([], map[]);
    for i := 0 to |missing|
      invariant byResolution == Group(missing[..i])
    {
      assert missing[..i + 1][..i] == missing[..i];
      var chunk := missing[i];
      byResolution := byResolution.Put(chunk.resolution, byResolution.GetOr(chunk.resolution, {}) + {chunk.symbol});
    }
    assert missing[..|missing|] == missing;
  }

  /** The second loop: one ingestion request a resolution. */
  method RequestMissing(repository: Repository, d: Dataset, missing: seq<Chunk>, start: Date, end: Date)
      returns (responses: seq<Response>)
    modifies repository
    ensures Group(missing).Valid()
    ensures (repository.View(), responses)
         == IngestAll(repository.hash, old(repository.View()), RequestsFor(d, Group(missing), start, end))
  {
    hide Ingest, ChunkRequest, IngestAll, Group, BuildSpec;
    var byResolution := GroupChunks(missing);
    GroupsHoldChunks(missing);
    ghost var requests := RequestsFor(d, byResolution, start, end);
    ghost var hash, before := repository.hash, repository.View();
    responses := [];
    NothingIngested(hash, before);
    for i := 0 to |byResolution.keys|
      invariant (repository.View(), responses) == IngestAll(hash, before, requests[..i])
    {
      var resolution := byResolution.keys[i];
      assert resolution in byResolution.keys;
      var response := repository.RequestIngestion(
        ChunkRequest(d, resolution, byResolution.entries[resolution], start, end));
      responses := responses + [response];
      OneMoreIngested(hash, before, requests, i);
    }
    assert requests[..|byResolution.keys|] == requests;
  }

  lemma NothingIngested(hash: Spec -> string, store: Store)
    ensures IngestAll(hash, store, []) == (store, [])
  {
  }

  lemma OneMoreIngested(hash: Spec -> string, store: Store, requests: seq<Request>, i: nat)
    requires i < |requests|
    ensures var (before, responses) := IngestAll(hash, store, requests[..i]);
      var (after, response) := Ingest(hash, before, requests[i]);
      IngestAll(hash, store, requests[..i + 1]) == (after, responses + [response])
  {
    hide Ingest;
    assert requests[..i + 1][..i] == requests[..i];
  }

  // ----- One request for missing data

  lemma ChunkSpec(d: Dataset, resolution: string, symbols: set<string>, start: Date, end: Date)
    requires symbols != {}
    ensures var r := ChunkRequest(d, resolution, symbols, start, end);
      && Dated(r) && RecordedSymbols(r) == SortedSet(symbols) && RecordedTimeframe(r) == resolution
      && BuildSpec(r) == Spec(d.provider, d.assetClass, SortedSet(symbols), start, end, [resolution],
                              d.featureRecipe, d.labelRecipe)
  {
    hide StrictlyAscending;
    var members := SortedSet(symbols);
    assert ToSet(members) == symbols;
    assert ToSet([resolution]) == {resolution};
    SingletonSorted(resolution);
  }

  lemma SingletonSorted(x: string)
    ensures SortedSet({x}) == [x]
  {
    hide StrictlyAscending;
    var s := SortedSet({x});
    assert |s| == 1 && s[0] in s;
  }

  /** A request for missing data is accepted unless its id is taken, and then covers exactly its chunks. */
  lemma ChunkIngested(hash: Spec -> string, store: Store, d: Dataset, resolution: string, symbols: set<string>,
                      start: Date, end: Date)
    requires symbols != {}
    ensures var r := ChunkRequest(d, resolution, symbols, start, end);
      var (after, response) := Ingest(hash, store, r);
      && Dated(r)
      && (var id := hash(BuildSpec(r));
      && response == (if id in store.catalog then AlreadyExists(id, id) else Accepted(id, id))
      && after.catalog.Keys == store.catalog.Keys + {id}
      && (forall p :: p in after.partitions <==>
            p in store.partitions
            || (id !in store.catalog && p.symbol in symbols && p == Partition(id, p.symbol, resolution, start, end))))
  {
    ChunkSpec(d, resolution, symbols, start, end);
    hide BuildSpec, RecordedSymbols, RecordedTimeframe, StrictlyAscending, Normalize;
    var r := ChunkRequest(d, resolution, symbols, start, end);
    var id := hash(BuildSpec(r));
    var members := SortedSet(symbols);
    NewPartitionsMembers(id, symbols, resolution, start, end);
  }

  lemma NewPartitionsMembers(id: string, symbols: set<string>, timeframe: string, start: Date, end: Date)
    ensures var added := NewPartitions(id, SortedSet(symbols), timeframe, start, end);
      forall p :: p in added <==> p.symbol in symbols && p == Partition(id, p.symbol, timeframe, start, end)
  {
    hide StrictlyAscending;
    var members := SortedSet(symbols);
    var added := NewPartitions(id, members, timeframe, start, end);
    forall p: Partition | p.symbol in symbols && p == Partition(id, p.symbol, timeframe, start, end)
      ensures p in added
    {
      assert p.symbol in members;
      var i :| 0 <= i < |members| && members[i] == p.symbol;
      assert added[i] == p;
    }
  }

  // ----- The whole loop

  /** After k requests: which were accepted, */
  ghost predicate Answered(hash: Spec -> string, store: Store, d: Dataset, groups: Dict<set<string>>, start: Date,
                           end: Date, k: nat, responses: seq<Response>)
    requires groups.Valid() && k <= |groups.keys|
  {
    && |responses| == k
    && forall i :: 0 <= i < k ==>
         (responses[i].Accepted? <==> !Taken(hash, store, d, groups, start, end, i))
  }

  /** which ids are taken, */
  ghost predicate Catalogued(hash: Spec -> string, store: Store, d: Dataset, groups: Dict<set<string>>, start: Date,
                             end: Date, k: nat, after: Store)
    requires groups.Valid() && k <= |groups.keys|
  {
    forall x :: x in after.catalog <==>
      x in store.catalog || exists i :: 0 <= i < k && x == ChunkId(hash, d, groups, start, end, i)
  }

  /** and which partitions there are. */
  ghost predicate Partitioned(hash: Spec -> string, store: Store, d: Dataset, groups: Dict<set<string>>, start: Date,
                              end: Date, k: nat, after: Store)
    requires groups.Valid() && k <= |groups.keys|
  {
    && (forall p :: p in store.partitions ==> p in after.partitions)
    && (forall p :: p in after.partitions && p !in store.partitions ==>
          exists i :: 0 <= i < k && p.timeframe == groups.keys[i] && !Taken(hash, store, d, groups, start, end, i))
    && (forall i, s ::
          0 <= i < k && !Taken(hash, store, d, groups, start, end, i) && s in groups.entries[groups.keys[i]] ==>
          Partition(ChunkId(hash, d, groups, start, end, i), s, groups.keys[i], start, end) in after.partitions)
  }

  ghost predicate After(hash: Spec -> string, store: Store, d: Dataset, groups: Dict<set<string>>, start: Date,
                        end: Date, k: nat, after: Store, responses: seq<Response>)
    requires groups.Valid() && k <= |groups.keys|
  {
    && Answered(hash, store, d, groups, start, end, k, responses)
    && Catalogued(hash, store, d, groups, start, end, k, after)
    && Partitioned(hash, store, d, groups, start, end, k, after)
  }

  function ChunkId(hash: Spec -> string, d: Dataset, groups: Dict<set<string>>, start: Date, end: Date, i: nat): string
    requires groups.Valid() && i < |groups.keys|
  {
    hash(BuildSpec(ChunkRequest(d, groups.keys[i], groups.entries[groups.keys[i]], start, end)))
  }

  predicate Taken(hash: Spec -> string, store: Store, d: Dataset, groups: Dict<set<string>>, start: Date, end: Date,
                  i: nat)
    requires groups.Valid() && i < |groups.keys|
  {
    ChunkId(hash, d, groups, start, end, i) in store.catalog
  }

  lemma ChunkIdsDiffer(hash: Spec -> string, d: Dataset, groups: Dict<set<string>>, start: Date, end: Date, i: nat,
                       j: nat)
    requires Injective(hash) && groups.Valid() && i < j < |groups.keys|
    requires forall k :: k in groups.entries ==> groups.entries[k] != {}
    ensures ChunkId(hash, d, groups, start, end, i) != ChunkId(hash, d, groups, start, end, j)
  {
    assert groups.keys[i] in groups.keys && groups.keys[j] in groups.keys;
    ChunkSpec(d, groups.keys[i], groups.entries[groups.keys[i]], start, end);
    ChunkSpec(d, groups.keys[j], groups.entries[groups.keys[j]], start, end);
    hide BuildSpec;
    assert [groups.keys[i]][0] != [groups.keys[j]][0];
  }

  lemma {:induction false} LoopInvariant(hash: Spec -> string, store: Store, d: Dataset, groups: Dict<set<string>>,
                                         start: Date, end: Date, k: nat)
    requires Injective(hash) && groups.Valid() && k <= |groups.keys|
    requires forall r :: r in groups.entries ==> groups.entries[r] != {}
    ensures var (after, responses) := IngestAll(hash, store, RequestsFor(d, groups, start, end)[..k]);
      After(hash, store, d, groups, start, end, k, after, responses)
  {
    hide BuildSpec, Ingest, ChunkRequest, After;
    var requests := RequestsFor(d, groups, start, end);
    if k == 0 {
      assert requests[..0] == [];
      NothingYet(hash, store, d, groups, start, end);
    } else {
      var n := k - 1;
      assert requests[..k][..n] == requests[..n];
      LoopInvariant(hash, store, d, groups, start, end, n);
      var (before, responses) := IngestAll(hash, store, requests[..n]);
      LoopStep(hash, store, d, groups, start, end, n, before, responses);
    }
  }

  lemma NothingYet(hash: Spec -> string, store: Store, d: Dataset, groups: Dict<set<string>>, start: Date, end: Date)
    requires groups.Valid()
    ensures After(hash, store, d, groups, start, end, 0, store, [])
  {
  }

  lemma LoopStep(hash: Spec -> string, store: Store, d: Dataset, groups: Dict<set<string>>, start: Date, end: Date,
                 n: nat, before: Store, responses: seq<Response>)
    requires Injective(hash) && groups.Valid() && n < |groups.keys|
    requires forall r :: r in groups.entries ==> groups.entries[r] != {}
    requires After(hash, store, d, groups, start, end, n, before, responses)
    ensures var (after, response) := Ingest(hash, before, RequestsFor(d, groups, start, end)[n]);
      After(hash, store, d, groups, start, end, n + 1, after, responses + [response])
  {
    hide BuildSpec, Ingest, ChunkRequest, Catalogued, Partitioned;
    assert groups.keys[n] in groups.keys;
    ChunkIngested(hash, before, d, groups.keys[n], groups.entries[groups.keys[n]], start, end);
    OwnIdDecides(hash, store, d, groups, start, end, n, before);
    var after := Ingest(hash, before, RequestsFor(d, groups, start, end)[n]).0;
    CatalogGrows(hash, store, d, groups, start, end, n, before, after);
    PartitionsGrow(hash, store, d, groups, start, end, n, before, after);
  }

  /** The requests before it do not take a request's id. */
  lemma OwnIdDecides(hash: Spec -> string, store: Store, d: Dataset, groups: Dict<set<string>>, start: Date, end: Date,
                     n: nat, before: Store)
    requires Injective(hash) && groups.Valid() && n < |groups.keys|
    requires forall r :: r in groups.entries ==> groups.entries[r] != {}
    requires Catalogued(hash, store, d, groups, start, end, n, before)
    ensures ChunkId(hash, d, groups, start, end, n) in before.catalog <==> Taken(hash, store, d, groups, start, end, n)
  {
    hide ChunkId, Injective;
    forall i | 0 <= i < n ensures ChunkId(hash, d, groups, start, end, i) != ChunkId(hash, d, groups, start, end, n) {
      ChunkIdsDiffer(hash, d, groups, start, end, i, n);
    }
  }

  lemma CatalogGrows(hash: Spec -> string, store: Store, d: Dataset, groups: Dict<set<string>>, start: Date, end: Date,
                     n: nat, before: Store, after: Store)
    requires groups.Valid() && n < |groups.keys| && Catalogued(hash, store, d, groups, start, end, n, before)
    requires after.catalog.Keys == before.catalog.Keys + {ChunkId(hash, d, groups, start, end, n)}
    ensures Catalogued(hash, store, d, groups, start, end, n + 1, after)
  {
    hide ChunkId;
  }

  lemma PartitionsGrow(hash: Spec -> string, store: Store, d: Dataset, groups: Dict<set<string>>, start: Date,
                       end: Date, n: nat, before: Store, after: Store)
    requires groups.Valid() && n < |groups.keys| && Partitioned(hash, store, d, groups, start, end, n, before)
    requires var id := ChunkId(hash, d, groups, start, end, n);
      forall p :: p in after.partitions <==>
        p in before.partitions
        || (!Taken(hash, store, d, groups, start, end, n) && p.symbol in groups.entries[groups.keys[n]]
            && p == Partition(id, p.symbol, groups.keys[n], start, end))
    ensures Partitioned(hash, store, d, groups, start, end, n + 1, after)
  {
    hide ChunkId, Taken;
  }

  // ----- What the loop achieves

  ghost predicate AllCovered(partitions: seq<Partition>, symbols: seq<string>, resolutions: seq<string>, start: Date,
                             end: Date) {
    forall s, r :: s in symbols && r in resolutions ==> Covered(partitions, s, r, start, end)
  }

  ghost predicate IsMissing(partitions: seq<Partition>, symbols: seq<string>, resolutions: seq<string>, start: Date,
                            end: Date, missing: seq<Chunk>) {
    forall c :: c in missing <==>
      c.symbol in symbols && c.resolution in resolutions && !Covered(partitions, c.symbol, c.resolution, start, end)
  }

  /** Whatever the catalog holds: after the loop nothing covered before is lost, and everything is covered
      exactly if no request was answered `already_exists`, that is, if the catalog held no request's id. */
  lemma LoopFillsGapsUnlessTaken(hash: Spec -> string, store: Store, d: Dataset, symbols: seq<string>,
                                 resolutions: seq<string>, start: Date, end: Date, missing: seq<Chunk>)
    requires Injective(hash) && IsMissing(store.partitions, symbols, resolutions, start, end, missing)
    ensures var g := Group(missing);
      && g.Valid()
      && (var (after, responses) := IngestAll(hash, store, RequestsFor(d, g, start, end));
      && Answered(hash, store, d, g, start, end, |g.keys|, responses)
      && (forall s, r, a, b :: Covered(store.partitions, s, r, a, b) ==> Covered(after.partitions, s, r, a, b))
      && (AllCovered(after.partitions, symbols, resolutions, start, end) <==>
            forall i :: 0 <= i < |responses| ==> responses[i].Accepted?)
      && (AllCovered(after.partitions, symbols, resolutions, start, end) <==>
            forall i :: 0 <= i < |g.keys| ==> !Taken(hash, store, d, g, start, end, i)))
  {
    var g := Group(missing);
    GroupsHoldChunks(missing);
    var requests := RequestsFor(d, g, start, end);
    assert requests[..|g.keys|] == requests;
    LoopInvariant(hash, store, d, g, start, end, |g.keys|);
    hide IngestAll, Group, RequestsFor, Covered, Injective, HoldsChunks, IsMissing, AllCovered, Taken;
    hide Catalogued, Answered, Partitioned;
    var (after, responses) := IngestAll(hash, store, requests);
    CoverageKept(hash, store, d, g, start, end, after);
    AcceptedUnlessTaken(hash, store, d, g, start, end, responses);
    if forall i :: 0 <= i < |g.keys| ==> !Taken(hash, store, d, g, start, end, i) {
      AcceptedCovers(hash, store, d, symbols, resolutions, start, end, missing, g, after, responses);
    } else {
      var i :| 0 <= i < |g.keys| && Taken(hash, store, d, g, start, end, i);
      RefusedLeavesGap(hash, store, d, symbols, resolutions, start, end, missing, g, after, i);
    }
  }

  lemma AcceptedUnlessTaken(hash: Spec -> string, store: Store, d: Dataset, g: Dict<set<string>>, start: Date,
                            end: Date, responses: seq<Response>)
    requires g.Valid() && Answered(hash, store, d, g, start, end, |g.keys|, responses)
    ensures (forall i :: 0 <= i < |responses| ==> responses[i].Accepted?) <==>
              forall i :: 0 <= i < |g.keys| ==> !Taken(hash, store, d, g, start, end, i)
  {
    hide Taken;
    if i :| 0 <= i < |g.keys| && Taken(hash, store, d, g, start, end, i) { assert !responses[i].Accepted?; }
  }

  lemma CoverageKept(hash: Spec -> string, store: Store, d: Dataset, g: Dict<set<string>>, start: Date, end: Date,
                     after: Store)
    requires g.Valid() && Partitioned(hash, store, d, g, start, end, |g.keys|, after)
    ensures forall s, r, a, b :: Covered(store.partitions, s, r, a, b) ==> Covered(after.partitions, s, r, a, b)
  {
    hide Taken, ChunkId, Covered;
    MorePartitionsCoverMore(store.partitions, after.partitions);
  }

  lemma RefusedLeavesGap(hash: Spec -> string, store: Store, d: Dataset, symbols: seq<string>, resolutions: seq<string>,
                         start: Date, end: Date, missing: seq<Chunk>, g: Dict<set<string>>, after: Store, i: nat)
    requires IsMissing(store.partitions, symbols, resolutions, start, end, missing) && HoldsChunks(g, missing)
    requires i < |g.keys| && Partitioned(hash, store, d, g, start, end, |g.keys|, after)
    requires Taken(hash, store, d, g, start, end, i)
    ensures !AllCovered(after.partitions, symbols, resolutions, start, end)
  {
    hide Taken, ChunkId, Partitioned, Covered;
    var r := g.keys[i];
    assert r in g.keys;
    var s :| s in g.entries[r];
    assert Chunk(s, r) in missing;
    StaysMissing(hash, store, d, g, start, end, after, i, s);
  }

  lemma AcceptedCovers(hash: Spec -> string, store: Store, d: Dataset, symbols: seq<string>, resolutions: seq<string>,
                       start: Date, end: Date, missing: seq<Chunk>, g: Dict<set<string>>, after: Store,
                       responses: seq<Response>)
    requires IsMissing(store.partitions, symbols, resolutions, start, end, missing) && HoldsChunks(g, missing)
    requires After(hash, store, d, g, start, end, |g.keys|, after, responses)
    requires forall i :: 0 <= i < |responses| ==> responses[i].Accepted?
    ensures AllCovered(after.partitions, symbols, resolutions, start, end)
  {
    hide Taken, ChunkId, Catalogued, Covered;
    MorePartitionsCoverMore(store.partitions, after.partitions);
    forall s, r | s in symbols && r in resolutions ensures Covered(after.partitions, s, r, start, end) {
      if !Covered(store.partitions, s, r, start, end) {
        assert Chunk(s, r) in missing;
        assert r in g.entries && s in g.entries[r];
        assert r in g.keys;
        var i :| 0 <= i < |g.keys| && g.keys[i] == r;
        assert responses[i].Accepted?;
        PartitionCovers(after.partitions, Partition(ChunkId(hash, d, g, start, end, i), s, r, start, end));
      }
    }
  }

  lemma PartitionCovers(partitions: seq<Partition>, p: Partition)
    requires p in partitions
    ensures Covered(partitions, p.symbol, p.timeframe, p.start, p.end)
  {
  }

  lemma MorePartitionsCoverMore(a: seq<Partition>, b: seq<Partition>)
    requires forall p :: p in a ==> p in b
    ensures forall s, r, x, y :: Covered(a, s, r, x, y) ==> Covered(b, s, r, x, y)
  {
  }

  lemma StaysMissing(hash: Spec -> string, store: Store, d: Dataset, g: Dict<set<string>>, start: Date, end: Date,
                     after: Store, i: nat, s: string)
    requires g.Valid() && i < |g.keys| && Partitioned(hash, store, d, g, start, end, |g.keys|, after)
    requires Taken(hash, store, d, g, start, end, i) && !Covered(store.partitions, s, g.keys[i], start, end)
    ensures !Covered(after.partitions, s, g.keys[i], start, end)
  {
    hide Taken, ChunkId;
    assert forall j :: 0 <= j < |g.keys| && g.keys[j] == g.keys[i] ==> j == i;
    assert forall p :: p in after.partitions && p.timeframe == g.keys[i] ==> p in store.partitions;
  }

  // ----- When ids are not taken

  /** Every catalog entry under a dataset id has its partitions: for some resolution of the spec, all of its
      members over its whole window. */
  ghost predicate Backed(hash: Spec -> string, store: Store) {
    forall spec :: hash(spec) in store.catalog ==> HasPartitions(store.partitions, spec)
  }

  ghost predicate HasPartitions(partitions: seq<Partition>, spec: Spec) {
    exists tf :: tf in spec.resolutions && forall m :: m in spec.members ==>
        HasPartition(partitions, m, tf, spec.start, spec.end)
  }

  ghost predicate HasPartition(partitions: seq<Partition>, symbol: string, timeframe: string, start: Date, end: Date) {
    exists p :: p in partitions && p == Partition(p.datasetId, symbol, timeframe, start, end)
  }

  /** An idempotency key is harmless when it is not the dataset id of other data. */
  ghost predicate HarmlessKey(hash: Spec -> string, r: Request)
    requires Dated(r)
  {
    r.idempotencyKey.Some? ==> forall spec :: hash(spec) == r.idempotencyKey.value ==> spec == BuildSpec(r)
  }

  /** Every ingestion with a harmless key keeps the catalog backed. */
  lemma IngestKeepsBacked(hash: Spec -> string, store: Store, r: Request)
    requires Injective(hash) && Backed(hash, store) && (Dated(r) ==> HarmlessKey(hash, r))
    ensures Backed(hash, Ingest(hash, store, r).0)
  {
    if Dated(r) {
      var (after, response) := Ingest(hash, store, r);
      if response.Accepted? {
        forall spec | hash(spec) in after.catalog ensures HasPartitions(after.partitions, spec) {
          if hash(spec) in store.catalog {
            MorePartitionsBackMore(store.partitions, after.partitions, spec);
          } else {
            assert spec == BuildSpec(r);
            NewSpecBacked(hash, store, r);
          }
        }
      }
    }
  }

  /** Every catalog that ingestions with harmless keys lead to is backed. */
  lemma {:induction false} HistoryBacked(hash: Spec -> string, requests: seq<Request>)
    requires Injective(hash) && forall r :: r in requests && Dated(r) ==> HarmlessKey(hash, r)
    ensures Backed(hash, IngestAll(hash, Store(map[], []), requests).0)
  {
    hide Ingest, HarmlessKey;
    if requests == [] {
      NothingBacked(hash);
    } else {
      hide Backed;
      var n := |requests| - 1;
      HistoryBacked(hash, requests[..n]);
      IngestKeepsBacked(hash, IngestAll(hash, Store(map[], []), requests[..n]).0, requests[n]);
    }
  }

  lemma NothingBacked(hash: Spec -> string)
    ensures Backed(hash, Store(map[], []))
  {
  }

  lemma MorePartitionsBackMore(a: seq<Partition>, b: seq<Partition>, spec: Spec)
    requires HasPartitions(a, spec) && forall p :: p in a ==> p in b
    ensures HasPartitions(b, spec)
  {
    var tf :| tf in spec.resolutions && forall m :: m in spec.members ==> HasPartition(a, m, tf, spec.start, spec.end);
    forall m | m in spec.members ensures HasPartition(b, m, tf, spec.start, spec.end) {
      assert HasPartition(a, m, tf, spec.start, spec.end);
    }
  }

  lemma NewSpecBacked(hash: Spec -> string, store: Store, r: Request)
    requires Dated(r) && Ingest(hash, store, r).1.Accepted?
    ensures HasPartitions(Ingest(hash, store, r).0.partitions, BuildSpec(r))
  {
    var spec, tf, symbols := BuildSpec(r), RecordedTimeframe(r), RecordedSymbols(r);
    var after := Ingest(hash, store, r).0;
    var added := NewPartitions(LookupId(hash, r), symbols, tf, spec.start, spec.end);
    assert tf in ToSet(Normalize(r).resolutions);
    assert tf in spec.resolutions;
    forall m | m in spec.members ensures HasPartition(after.partitions, m, tf, spec.start, spec.end) {
      assert m in ToSet(Normalize(r).universeMembers);
      assert m in symbols;
      var i :| 0 <= i < |symbols| && symbols[i] == m;
      assert added[i] in after.partitions;
      assert added[i] == Partition(added[i].datasetId, m, tf, spec.start, spec.end);
    }
  }

  lemma TakenMeansCovered(hash: Spec -> string, store: Store, d: Dataset, g: Dict<set<string>>, start: Date, end: Date,
                          i: nat)
    requires Backed(hash, store) && g.Valid() && i < |g.keys| && g.keys[i] in g.entries && g.entries[g.keys[i]] != {}
    requires Taken(hash, store, d, g, start, end, i)
    ensures exists s :: s in g.entries[g.keys[i]] && Covered(store.partitions, s, g.keys[i], start, end)
  {
    var r, symbols := g.keys[i], g.entries[g.keys[i]];
    ChunkSpec(d, r, symbols, start, end);
    hide BuildSpec, ChunkRequest, StrictlyAscending;
    var spec := Spec(d.provider, d.assetClass, SortedSet(symbols), start, end, [r], d.featureRecipe, d.labelRecipe);
    assert HasPartitions(store.partitions, spec);
    var s :| s in symbols;
    assert s in spec.members;
    assert HasPartition(store.partitions, s, r, start, end);
  }

  /** With a backed catalog, every request of the loop is accepted, and afterwards nothing is missing. */
  lemma LoopLeavesNothingMissing(hash: Spec -> string, store: Store, d: Dataset, symbols: seq<string>,
                                 resolutions: seq<string>, start: Date, end: Date, missing: seq<Chunk>)
    requires Injective(hash) && Backed(hash, store)
    requires IsMissing(store.partitions, symbols, resolutions, start, end, missing)
    ensures var g := Group(missing);
      && g.Valid()
      && (var (after, responses) := IngestAll(hash, store, RequestsFor(d, g, start, end));
      && (forall i :: 0 <= i < |responses| ==> responses[i].Accepted?)
      && AllCovered(after.partitions, symbols, resolutions, start, end)
      && IsMissing(after.partitions, symbols, resolutions, start, end, []))
  {
    LoopFillsGapsUnlessTaken(hash, store, d, symbols, resolutions, start, end, missing);
    var g := Group(missing);
    GroupsHoldChunks(missing);
    hide Group, IngestAll, Taken, Backed, Covered, RequestsFor, Injective;
    forall i | 0 <= i < |g.keys| ensures !Taken(hash, store, d, g, start, end, i) {
      assert g.keys[i] in g.keys;
      if Taken(hash, store, d, g, start, end, i) { TakenMeansCovered(hash, store, d, g, start, end, i); }
      assert forall s :: s in g.entries[g.keys[i]] ==> Chunk(s, g.keys[i]) in missing;
    }
  }

  /** Whatever was ingested before, with harmless keys: after the loop nothing is missing. */
  lemma HistoryLeavesNothingMissing(hash: Spec -> string, history: seq<Request>, d: Dataset, symbols: seq<string>,
                                    resolutions: seq<string>, start: Date, end: Date, missing: seq<Chunk>)
    requires Injective(hash) && forall r :: r in history && Dated(r) ==> HarmlessKey(hash, r)
    requires IsMissing(IngestAll(hash, Store(map[], []), history).0.partitions, symbols, resolutions, start, end,
                       missing)
    ensures Group(missing).Valid()
    ensures var store := IngestAll(hash, Store(map[], []), history).0;
      var (after, responses) := IngestAll(hash, store, RequestsFor(d, Group(missing), start, end));
      && (forall i :: 0 <= i < |responses| ==> responses[i].Accepted?)
      && IsMissing(after.partitions, symbols, resolutions, start, end, [])
  {
    hide IngestAll, Group, Backed, Injective, IsMissing, AllCovered, HarmlessKey, RequestsFor;
    HistoryBacked(hash, history);
    LoopLeavesNothingMissing(hash, IngestAll(hash, Store(map[], []), history).0, d, symbols, resolutions, start, end,
                             missing);
  }

  /** The failing history: one ingestion of other data under a key equal to the dataset id that the loop will
      ask for. The loop's request is then answered `already_exists`, and the gap stays. */
  lemma KeyOfOtherDataLeavesGap(hash: Spec -> string, d: Dataset, symbol: string, other: string, resolution: string,
                                start: Date, end: Date)
    requires Injective(hash) && symbol != other
    ensures var id := hash(Spec(d.provider, d.assetClass, [symbol], start, end, [resolution], d.featureRecipe,
                                d.labelRecipe));
      var r := KeyedRequest(d, id, other, resolution, start, end);
      var (store, response) := Ingest(hash, Store(map[], []), r);
      var missing := [Chunk(symbol, resolution)];
      && response.Accepted? && !HarmlessKey(hash, r)
      && IsMissing(store.partitions, [symbol], [resolution], start, end, missing) && Group(missing).Valid()
      && !AllCovered(IngestAll(hash, store, RequestsFor(d, Group(missing), start, end)).0.partitions,
                     [symbol], [resolution], start, end)
  {
    var spec := Spec(d.provider, d.assetClass, [symbol], start, end, [resolution], d.featureRecipe, d.labelRecipe);
    var id, r := hash(spec), KeyedRequest(d, hash(spec), other, resolution, start, end);
    KeyedSpec(d, id, other, resolution, start, end);
    var missing := [Chunk(symbol, resolution)];
    var store := Ingest(hash, Store(map[], []), r).0;
    assert store.partitions == [Partition(id, other, resolution, start, end)] && id in store.catalog by {
      hide BuildSpec;
    }
    hide Ingest, BuildSpec;
    OneGroup(missing[0]);
    ChunkSpec(d, resolution, {symbol}, start, end);
    SingletonSorted(symbol);
    assert Taken(hash, store, d, Group(missing), start, end, 0);
    hide Group, IngestAll, RequestsFor, AllCovered, Taken;
    LoopFillsGapsUnlessTaken(hash, store, d, [symbol], [resolution], start, end, missing);
  }

  lemma OneGroup(c: Chunk)
    ensures Group([c]) == Dict([c.resolution], map[c.resolution := {c.symbol}])
  {
    assert [c][..0] == [];
    assert Group([c][..0]) == Dict([], map[]);
    assert {} + {c.symbol} == {c.symbol};
  }

  function KeyedRequest(d: Dataset, key: string, symbol: string, resolution: string, start: Date, end: Date): Request {
    Request(Some(key), d.provider, d.assetClass, [symbol], [resolution], d.featureRecipe, d.labelRecipe,
            Some(start), Some(end), None, [], None)
  }

  lemma KeyedSpec(d: Dataset, key: string, symbol: string, resolution: string, start: Date, end: Date)
    ensures var r := KeyedRequest(d, key, symbol, resolution, start, end);
      && Dated(r) && BuildSpec(r).members == [symbol]
      && RecordedSymbols(r) == [symbol] && RecordedTimeframe(r) == resolution
  {
    hide StrictlyAscending;
    assert ToSet([symbol]) == {symbol};
    SingletonSorted(symbol);
  }

  /** What `create_training_run` does about its data: find the missing chunks and request them. */
  method EnsureData(repository: Repository, d: Dataset, symbols: seq<string>, resolutions: seq<string>, start: Date,
                    end: Date)
      returns (missing: seq<Chunk>, responses: seq<Response>)
    requires Injective(repository.hash)
    modifies repository
    ensures IsMissing(old(repository.partitions), symbols, resolutions, start, end, missing)
    ensures forall s, r, a, b :: Covered(old(repository.partitions), s, r, a, b) ==>
                Covered(repository.partitions, s, r, a, b)
    ensures AllCovered(repository.partitions, symbols, resolutions, start, end) <==>
              forall i :: 0 <= i < |responses| ==> responses[i].Accepted?
    ensures Group(missing).Valid()
    ensures AllCovered(repository.partitions, symbols, resolutions, start, end) <==>
              forall i :: 0 <= i < |Group(missing).keys| ==>
                !Taken(repository.hash, old(repository.View()), d, Group(missing), start, end, i)
    ensures old(Backed(repository.hash, repository.View())) ==>
              IsMissing(repository.partitions, symbols, resolutions, start, end, [])
  {
    hide AllCovered, IngestAll, Group, RequestsFor, Injective, Backed, Answered, Covered;
    ghost var before := repository.View();
    missing := BuildMissingChunks(repository.partitions, symbols, resolutions, start, end);
    responses := [];
    LoopFillsGapsUnlessTaken(repository.hash, before, d, symbols, resolutions, start, end, missing);
    if Backed(repository.hash, before) {
      LoopLeavesNothingMissing(repository.hash, before, d, symbols, resolutions, start, end, missing);
    }
    if missing != [] {
      responses := RequestMissing(repository, d, missing, start, end);
    } else {
      NothingRequested(repository.hash, before, d, start, end);
    }
  }

  lemma NothingRequested(hash: Spec -> string, store: Store, d: Dataset, start: Date, end: Date)
    ensures Group([]).Valid() && RequestsFor(d, Group([]), start, end) == []
    ensures IngestAll(hash, store, RequestsFor(d, Group([]), start, end)) == (store, [])
  {
  }

  /** Coverage is the hull of the partitions: after two ingestions of single days, from the empty tables, a day
      between them that no partition holds counts as covered. */
  lemma HullIgnoresHoles(hash: Spec -> string, d: Dataset, resolution: string, symbol: string, a: Date, b: Date)
    requires Injective(hash) && a + 1 < b
    ensures var requests := [ChunkRequest(d, resolution, {symbol}, a, a), ChunkRequest(d, resolution, {symbol}, b, b)];
      var partitions := IngestAll(hash, Store(map[], []), requests).0.partitions;
      && Covered(partitions, symbol, resolution, a, b)
      && forall p :: p in partitions ==> !(p.start <= a + 1 <= p.end)
  {
    var one, two := ChunkRequest(d, resolution, {symbol}, a, a), ChunkRequest(d, resolution, {symbol}, b, b);
    var empty := Store(map[], []);
    TwoIngested(hash, empty, one, two);
    ChunkIngested(hash, empty, d, resolution, {symbol}, a, a);
    ChunkSpec(d, resolution, {symbol}, a, a);
    ChunkSpec(d, resolution, {symbol}, b, b);
    hide Ingest, IngestAll, ChunkRequest, BuildSpec, Injective;
    var first := Ingest(hash, empty, one).0;
    ChunkIngested(hash, first, d, resolution, {symbol}, b, b);
    assert hash(BuildSpec(one)) != hash(BuildSpec(two)) by { DifferentIds(hash, BuildSpec(one), BuildSpec(two)); }
    var second := Ingest(hash, first, two).0;
    var p := Partition(hash(BuildSpec(one)), symbol, resolution, a, a);
    var q := Partition(hash(BuildSpec(two)), symbol, resolution, b, b);
    assert p in second.partitions && q in second.partitions;
  }

  lemma TwoIngested(hash: Spec -> string, store: Store, one: Request, two: Request)
    ensures IngestAll(hash, store, [one, two]).0 == Ingest(hash, Ingest(hash, store, one).0, two).0
  {
    hide Ingest;
    assert [one, two][..1] == [one] && [one][..0] == [];
    assert IngestAll(hash, store, [one]).0 == Ingest(hash, store, one).0;
  }

  lemma DifferentIds(hash: Spec -> string, s: Spec, t: Spec)
    requires Injective(hash) && s != t
    ensures hash(s) != hash(t)
  {
  }
}
