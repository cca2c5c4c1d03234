/** The market-data catalog: canonical dataset ids, idempotent ingestion and coverage. */
module MarketData {
  import opened Options
  import opened Sorting

  type Date = int

  /** An ingestion request. Its validator fills in the legacy fields, see `Normalize`. */
  datatype Request = Request(
    idempotencyKey: Option<string>,
    provider: string,
    assetClass: string,
    universeMembers: seq<string>,
    resolutions: seq<string>,
    featureRecipe: string,
    labelRecipe: string,
    startDate: Option<Date>,
    endDate: Option<Date>,
    source: Option<string>,
    symbols: seq<string>,
    timeframe: Option<string>)

  datatype Spec = Spec(
    provider: string,
    assetClass: string,
    members: seq<string>,
    start: Date,
    end: Date,
    resolutions: seq<string>,
    featureRecipe: string,
    labelRecipe: string)

  datatype Row = Row(source: string, symbol: string, timeframe: string, symbols: seq<string>, spec: Spec,
                     versionId: string)

  datatype Partition = Partition(datasetId: string, symbol: string, timeframe: string, start: Date, end: Date)

  datatype Store = Store(catalog: map<string, Row>, partitions: seq<Partition>)

  /** `MissingDates` is the AttributeError of formatting a date that was not given. */
  datatype Response =
    | MissingDates
    | Accepted(requestId: string, datasetId: string)
    | AlreadyExists(requestId: string, datasetId: string)

  function ToSet(s: seq<string>): set<string> {
    set x | x in s
  }

  function Normalize(r: Request): (n: Request)
    ensures n.resolutions != []
    ensures r.universeMembers == [] ==> n.universeMembers == r.symbols
  {
    r.(universeMembers := if r.universeMembers == [] then r.symbols else r.universeMembers,
       resolutions := if r.resolutions != [] then r.resolutions
                      else if r.timeframe.Some? then [r.timeframe.value] else ["1d"])
  }

  predicate Dated(r: Request) {
    r.startDate.Some? && r.endDate.Some?
  }

  function BuildSpec(r: Request): Spec
    requires Dated(r)
  {
    var n := Normalize(r);
    Spec(n.provider, n.assetClass, SortedSet(ToSet(n.universeMembers)), n.startDate.value, n.endDate.value,
         SortedSet(ToSet(n.resolutions)), n.featureRecipe, n.labelRecipe)
  }

  /** The symbols that partitions are recorded for, and the one timeframe they are recorded under. */
  function RecordedSymbols(r: Request): seq<string> {
    var n := Normalize(r);
    if n.universeMembers != [] then n.universeMembers else if n.symbols != [] then n.symbols else ["UNKNOWN"]
  }

  function RecordedTimeframe(r: Request): string {
    Normalize(r).resolutions[0]
  }

  /** `hash` stands for serializing the spec, SHA-256 and the `mds_` prefix. */
  ghost predicate Injective(hash: Spec -> string) {
    forall s, t :: hash(s) == hash(t) ==> s == t
  }

  function NewPartitions(id: string, symbols: seq<string>, timeframe: string, start: Date, end: Date)
      : (r: seq<Partition>)
    ensures |r| == |symbols|
    ensures forall i :: 0 <= i < |r| ==> r[i] == Partition(id, symbols[i], timeframe, start, end)
  {
    if symbols == [] then []
    else [Partition(id, symbols[0], timeframe, start, end)] + NewPartitions(id, symbols[1..], timeframe, start, end)
  }

  function LookupId(hash: Spec -> string, r: Request): string
    requires Dated(r)
  {
    if r.idempotencyKey.Some? then r.idempotencyKey.value else hash(BuildSpec(r))
  }

  /** `request_ingestion` as a function of the tables. */
  function Ingest(hash: Spec -> string, store: Store, r: Request): (Store, Response) {
    if !Dated(r) then (store, MissingDates)
    else
      var datasetId, lookupId := hash(BuildSpec(r)), LookupId(hash, r);
      if lookupId in store.catalog then (store, AlreadyExists(lookupId, datasetId))
      else if datasetId in store.catalog then (store, AlreadyExists(datasetId, datasetId))
      else
        var symbols, timeframe := RecordedSymbols(r), RecordedTimeframe(r);
        var source := if r.source.Some? then r.source.value else r.provider;
        var row := Row(source, symbols[0], timeframe, symbols, BuildSpec(r), datasetId);
        (Store(store.catalog[lookupId := row],
               store.partitions + NewPartitions(lookupId, symbols, timeframe, r.startDate.value, r.endDate.value)),
         Accepted(lookupId, datasetId))
  }

  // ----- Coverage

  /** What the catalog calls covered: the hull of the partitions reaches over the window. */
  ghost predicate Covered(partitions: seq<Partition>, symbol: string, timeframe: string, start: Date, end: Date) {
    && (exists p :: p in partitions && p.symbol == symbol && p.timeframe == timeframe && p.start <= start)
    && (exists p :: p in partitions && p.symbol == symbol && p.timeframe == timeframe && p.end >= end)
  }

  ghost predicate IsHull(partitions: seq<Partition>, symbol: string, timeframe: string, hull: Option<(Date, Date)>) {
    match hull
    case None => forall p :: p in partitions ==> !(p.symbol == symbol && p.timeframe == timeframe)
    case Some((lo, hi)) =>
      && (forall p :: p in partitions && p.symbol == symbol && p.timeframe == timeframe ==>
            lo <= p.start && p.end <= hi)
      && (exists p :: p in partitions && p.symbol == symbol && p.timeframe == timeframe && p.start == lo)
      && (exists p :: p in partitions && p.symbol == symbol && p.timeframe == timeframe && p.end == hi)
  }

  /** The least start and the greatest end of a symbol's partitions. */
  method CacheCoverage(partitions: seq<Partition>, symbol: string, timeframe: string)
      returns (hull: Option<(Date, Date)>)
    ensures IsHull(partitions, symbol, timeframe, hull)
  {
    hull := None;
    for i := 0 to |partitions|
      invariant IsHull(partitions[..i], symbol, timeframe, hull)
    {
      var p := partitions[i];
      ghost var before := partitions[..i];
      assert partitions[..i + 1] == before + [p];
      assert forall q :: q in before + [p] <==> q in before || q == p;
      if p.symbol == symbol && p.timeframe == timeframe {
        hull := match hull
          case None => Some((p.start, p.end))
          case Some((lo, hi)) => Some((if p.start < lo then p.start else lo, if p.end > hi then p.end else hi));
        assert p in before + [p];
      }
    }
    assert partitions[..|partitions|] == partitions;
  }

  lemma HullDecidesCoverage(partitions: seq<Partition>, symbol: string, timeframe: string, hull: Option<(Date, Date)>,
                            start: Date, end: Date)
    requires IsHull(partitions, symbol, timeframe, hull)
    ensures Covered(partitions, symbol, timeframe, start, end)
       <==> hull.Some? && hull.value.0 <= start && hull.value.1 >= end
  {
  }

  // ----- The repository

  class Repository {
    const hash: Spec -> string
    var catalog: map<string, Row>
    var partitions: seq<Partition>

    ghost function View(): Store
      reads this
    {
      Store(catalog, partitions)
    }

    constructor (hash: Spec -> string)
      ensures this.hash == hash && View() == Store(map[], [])
    {
      this.hash, catalog, partitions := hash, map[], [];
    }

    method RequestIngestion(r: Request) returns (response: Response)
      modifies this
      ensures (View(), response) == Ingest(hash, old(View()), r)
    {
      hide BuildSpec, Normalize, RecordedSymbols, RecordedTimeframe;
      if !Dated(r) {
        return MissingDates;
      }
      var spec := BuildSpec(r);
      var datasetId := hash(spec);
      var lookupId := if r.idempotencyKey.Some? then r.idempotencyKey.value else datasetId;
      if lookupId in catalog {
        return AlreadyExists(lookupId, datasetId);
      }
      if lookupId != datasetId && datasetId in catalog {
        return AlreadyExists(datasetId, datasetId);
      }
      var symbols, timeframe := RecordedSymbols(r), RecordedTimeframe(r);
      assert symbols != [] by { SomeSymbol(r); }
      var source := if r.source.Some? then r.source.value else r.provider;
      catalog := catalog[lookupId := Row(source, symbols[0], timeframe, symbols, spec, datasetId)];
      ghost var added := NewPartitions(lookupId, symbols, timeframe, r.startDate.value, r.endDate.value);
      ghost var before := partitions;
      for i := 0 to |symbols|
        invariant partitions == before + added[..i]
        invariant catalog == old(catalog)[lookupId := Row(source, symbols[0], timeframe, symbols, spec, datasetId)]
      {
        partitions := partitions + [Partition(lookupId, symbols[i], timeframe, r.startDate.value, r.endDate.value)];
        assert added[..i + 1] == added[..i] + [added[i]];
      }
      assert added[..|symbols|] == added;
      return Accepted(lookupId, datasetId);
    }
  }

  lemma SomeSymbol(r: Request)
    ensures RecordedSymbols(r) != []
  {
  }

  // ----- What an ingestion leaves behind

  /** Every row carries the dataset id of its own spec. */
  ghost predicate Versioned(hash: Spec -> string, store: Store) {
    forall id :: id in store.catalog ==> store.catalog[id].versionId == hash(store.catalog[id].spec)
  }

  /** A request is accepted exactly when neither its key nor its dataset id is taken; nothing already in the
      tables is touched; and an accepted request adds its one row and one partition a symbol. */
  lemma IngestOutcome(hash: Spec -> string, store: Store, r: Request)
    ensures var (after, response) := Ingest(hash, store, r);
      && (response == MissingDates <==> r.startDate.None? || r.endDate.None?)
      && (response.Accepted? <==>
            && r.startDate.Some? && r.endDate.Some? && hash(BuildSpec(r)) !in store.catalog
            && (r.idempotencyKey.Some? ==> r.idempotencyKey.value !in store.catalog))
      && (!response.Accepted? ==> after == store)
      && (response.AlreadyExists? ==> response.requestId in store.catalog && response.datasetId == hash(BuildSpec(r)))
      && (forall id :: id in store.catalog ==> id in after.catalog && after.catalog[id] == store.catalog[id])
      && store.partitions <= after.partitions
      && (response.Accepted? ==>
            && response.requestId == (if r.idempotencyKey.Some? then r.idempotencyKey.value else response.datasetId)
            && response.datasetId == hash(BuildSpec(r))
            && after.catalog.Keys == store.catalog.Keys + {response.requestId}
            && after.catalog[response.requestId].spec == BuildSpec(r)
            && |after.partitions| == |store.partitions| + |RecordedSymbols(r)|)
      && (Versioned(hash, store) ==> Versioned(hash, after))
  {
    hide BuildSpec, RecordedSymbols, RecordedTimeframe;
    if Dated(r) { SomeSymbol(r); }
  }

  /** What an accepted request records: the symbols asked for, the first resolution asked for, and the dates. */
  lemma AcceptedRecords(hash: Spec -> string, store: Store, r: Request)
    requires Ingest(hash, store, r).1.Accepted?
    ensures var (after, response) := Ingest(hash, store, r);
      var symbols := if r.universeMembers != [] then r.universeMembers
                     else if r.symbols != [] then r.symbols else ["UNKNOWN"];
      var timeframe := if r.resolutions != [] then r.resolutions[0]
                       else if r.timeframe.Some? then r.timeframe.value else "1d";
      && response.requestId in after.catalog
      && (var row := after.catalog[response.requestId];
          && row.symbols == symbols && row.symbol == symbols[0] && row.timeframe == timeframe
          && row.source == (if r.source.Some? then r.source.value else r.provider)
          && row.versionId == response.datasetId)
      && |after.partitions| == |store.partitions| + |symbols|
      && forall i :: 0 <= i < |symbols| ==>
           var p := after.partitions[|store.partitions| + i];
           && p.datasetId == response.requestId && p.symbol == symbols[i] && p.timeframe == timeframe
           && Some(p.start) == r.startDate && Some(p.end) == r.endDate
  {
    hide BuildSpec;
    SomeSymbol(r);
  }

  /** The canonical spec of a request: its fields, with members and resolutions sorted and without repetition. */
  lemma SpecMeans(r: Request)
    requires Dated(r)
    ensures var s := BuildSpec(r);
      && s.provider == r.provider && s.assetClass == r.assetClass
      && s.featureRecipe == r.featureRecipe && s.labelRecipe == r.labelRecipe
      && Some(s.start) == r.startDate && Some(s.end) == r.endDate
      && StrictlyAscending(s.members) && StrictlyAscending(s.resolutions)
      && (forall x :: x in s.members <==> x in (if r.universeMembers != [] then r.universeMembers else r.symbols))
      && forall x :: x in s.resolutions <==>
           x in (if r.resolutions != [] then r.resolutions
                 else if r.timeframe.Some? then [r.timeframe.value] else ["1d"])
  {
    hide StrictlyAscending;
  }

  // ----- Canonical ids

  /** Two requests get the same dataset id exactly when they ask for the same data: member and resolution
      order, repetitions, idempotency keys and legacy spellings do not count. */
  lemma SameIdMeansSameData(hash: Spec -> string, r: Request, r': Request)
    requires Injective(hash) && Dated(r) && Dated(r')
    ensures hash(BuildSpec(r)) == hash(BuildSpec(r')) <==>
      var n, n' := Normalize(r), Normalize(r');
      && n.provider == n'.provider && n.assetClass == n'.assetClass
      && ToSet(n.universeMembers) == ToSet(n'.universeMembers) && ToSet(n.resolutions) == ToSet(n'.resolutions)
      && n.startDate == n'.startDate && n.endDate == n'.endDate
      && n.featureRecipe == n'.featureRecipe && n.labelRecipe == n'.labelRecipe
  {
    var n, n' := Normalize(r), Normalize(r');
    hide StrictlyAscending;
    if BuildSpec(r) == BuildSpec(r') {
      SortedSetInjective(ToSet(n.universeMembers), ToSet(n'.universeMembers));
      SortedSetInjective(ToSet(n.resolutions), ToSet(n'.resolutions));
    }
  }

  lemma SortedSetInjective(a: set<string>, b: set<string>)
    requires SortedSet(a) == SortedSet(b)
    ensures a == b
  {
    hide StrictlyAscending;
    forall x ensures x in a <==> x in b {
      assert x in SortedSet(a) <==> x in a;
      assert x in SortedSet(b) <==> x in b;
    }
  }

  /** Asking again for the same data, in whatever spelling, changes nothing. */
  lemma ResubmissionChangesNothing(hash: Spec -> string, store: Store, r: Request, r': Request)
    requires Dated(r) && Dated(r') && BuildSpec(r) == BuildSpec(r')
    requires r.idempotencyKey == None
    ensures var (after, response) := Ingest(hash, store, r);
      Ingest(hash, after, r').0 == after && Ingest(hash, after, r').1.AlreadyExists?
  {
    hide BuildSpec, RecordedSymbols, RecordedTimeframe;
  }

  /** After a request was accepted, what is asked again for the same data is refused exactly when the first one was
      recorded under the dataset id, both use one key, or the second key was taken anyway. Otherwise it is
      accepted, and the same data recorded again. */
  lemma ResubmissionExact(hash: Spec -> string, store: Store, r: Request, r': Request)
    requires Dated(r) && Dated(r') && BuildSpec(r) == BuildSpec(r') && Ingest(hash, store, r).1.Accepted?
    ensures var after := Ingest(hash, store, r).0; var (later, response) := Ingest(hash, after, r');
      && (response.AlreadyExists? <==>
            LookupId(hash, r) == hash(BuildSpec(r)) || LookupId(hash, r') == LookupId(hash, r)
            || LookupId(hash, r') in store.catalog)
      && (response.AlreadyExists? ==> later == after)
      && (!response.AlreadyExists? ==>
            && response.Accepted? && later.catalog.Keys == after.catalog.Keys + {LookupId(hash, r')}
            && |later.partitions| == |after.partitions| + |RecordedSymbols(r')|)
  {
    hide BuildSpec, RecordedSymbols, RecordedTimeframe;
    SomeSymbol(r);
    SomeSymbol(r');
  }

  /** It happens from the empty tables: the same data, first under a key and then without one, is accepted twice. */
  lemma KeyedThenKeyless(hash: Spec -> string, r: Request, key: string)
    requires Dated(r) && r.idempotencyKey == None && key != hash(BuildSpec(r))
    ensures var (first, one) := Ingest(hash, Store(map[], []), r.(idempotencyKey := Some(key)));
      var (second, two) := Ingest(hash, first, r);
      && one.Accepted? && two.Accepted? && one.datasetId == two.datasetId
      && second.catalog.Keys == {key, hash(BuildSpec(r))}
      && second.catalog[key].spec == second.catalog[hash(BuildSpec(r))].spec
  {
    var keyed, empty := r.(idempotencyKey := Some(key)), Store(map[], []);
    assert BuildSpec(keyed) == BuildSpec(r);
    IngestOutcome(hash, empty, keyed);
    IngestOutcome(hash, Ingest(hash, empty, keyed).0, r);
    hide Ingest, BuildSpec;
  }
}
