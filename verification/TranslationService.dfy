// The service itself: load once on the first request, then look runs up
// through a one-entry cache and a binary search.
module TranslationService {
  import opened Common
  import opened ConfigurationText
  import opened TranslationTables
  import opened RunRanges
  import opened RunSpans
  import opened DetectorCatalogs
  import opened RunTables
  import opened DirectLookup
  import ConcurrentLookup

  datatype TableError = LoadFailed(error: ConfigurationError) | NoTableForRun

  // What a completed load was made from.
  datatype Configuration = NoCatalogs | Catalogs(fs: FileSystem, manifests: seq<DetectorManifest>)

  // An explicit directory replaces every catalog; explicit default catalogs
  // replace the registered ones.
  function ChooseProviders(directory: string, defaults: seq<Provider>, registered: seq<Provider>): seq<Provider> {
    if directory != "" then [Provider("TRANSLATION:DIRECTORY", directory)]
    else if defaults != [] then defaults
    else registered
  }

  // The answer without boundaries, sharing, search or cache.
  ghost function Answer(c: Configuration, run: UInt64): Option<Entries> {
    match c
    case NoCatalogs => Some(map[])
    case Catalogs(fs, manifests) =>
      match SelectionOf(fs, manifests)(run)
      case None => None
      case Some(files) => CombinedEntries(fs, files)
  }

  // The published list answers every run as the configuration does.
  ghost predicate Published(c: Configuration, runTables: seq<RunRangeTable>)
    reads Tables(runTables)
  {
    && (forall i :: 0 <= i < |runTables| ==> runTables[i].runMin <= runTables[i].runMax)
    && (forall i, j :: 0 <= i < j < |runTables| ==> runTables[i].runMax < runTables[j].runMin)
    && (forall i, run: UInt64 {:trigger Within(runTables[i], run)} ::
      0 <= i < |runTables| && Within(runTables[i], run) ==>
      runTables[i].table in Tables(runTables) && Answer(c, run) == Some(runTables[i].table.entries))
    && (forall run: UInt64 :: Answer(c, run).Some? ==> Found(runTables, run))
  }

  ghost function Tables(runTables: seq<RunRangeTable>): set<TranslationTable> {
    set i | 0 <= i < |runTables| :: runTables[i].table
  }

  ghost predicate Found(runTables: seq<RunRangeTable>, run: UInt64) {
    exists i :: 0 <= i < |runTables| && Within(runTables[i], run)
  }

  // Two entries share a table exactly when they selected the same files, and
  // abutting entries never do.
  ghost predicate SharedExactly(fs: FileSystem, manifests: seq<DetectorManifest>, runTables: seq<RunRangeTable>) {
    && (forall i, j :: 0 <= i < |runTables| && 0 <= j < |runTables| ==>
      (runTables[i].table == runTables[j].table <==>
       SelectionOf(fs, manifests)(runTables[i].runMin) == SelectionOf(fs, manifests)(runTables[j].runMin)))
    && (forall i :: 0 <= i < |runTables| - 1 && runTables[i].runMax + 1 == runTables[i + 1].runMin ==>
      runTables[i].table != runTables[i + 1].table)
  }

  lemma SweptEntry(fs: FileSystem, manifests: seq<DetectorManifest>, runTables: seq<RunRangeTable>,
                   spans: seq<Span<FileSelection>>, byFiles: map<FileSelection, TranslationTable>, i: nat, run: UInt64)
    requires SweptTo(fs, manifests, MAX_UINT64 + 1, runTables, spans, byFiles)
    requires i < |runTables| && Within(runTables[i], run)
    ensures Answer(Catalogs(fs, manifests), run) == Some(runTables[i].table.entries)
  {
    hide SelectionOf, CombinedEntries, RunLoads;
    assert spans[i].Covers(run);
  }

  lemma SweptRunFound(fs: FileSystem, manifests: seq<DetectorManifest>, runTables: seq<RunRangeTable>,
                      spans: seq<Span<FileSelection>>, byFiles: map<FileSelection, TranslationTable>, run: UInt64)
    requires SweptTo(fs, manifests, MAX_UINT64 + 1, runTables, spans, byFiles)
    requires Answer(Catalogs(fs, manifests), run).Some?
    ensures Found(runTables, run)
  {
    hide SelectionOf, CombinedEntries, RunLoads, TablesValid;
    CoveredIffSelected(SelectionOf(fs, manifests), spans, 0, MAX_UINT64 + 1, run);
    var i :| 0 <= i < |spans| && spans[i].Covers(run);
    assert Within(runTables[i], run);
  }

  lemma SweptInOrder(fs: FileSystem, manifests: seq<DetectorManifest>, runTables: seq<RunRangeTable>,
                     spans: seq<Span<FileSelection>>, byFiles: map<FileSelection, TranslationTable>)
    requires SweptTo(fs, manifests, MAX_UINT64 + 1, runTables, spans, byFiles)
    ensures forall i :: 0 <= i < |runTables| ==> runTables[i].runMin <= runTables[i].runMax
    ensures forall i, j :: 0 <= i < j < |runTables| ==> runTables[i].runMax < runTables[j].runMin
  {
    hide SelectionOf, CombinedEntries, RunLoads, TablesValid;
  }

  lemma SweptIsPublished(fs: FileSystem, manifests: seq<DetectorManifest>, runTables: seq<RunRangeTable>,
                         spans: seq<Span<FileSelection>>, byFiles: map<FileSelection, TranslationTable>)
    requires SweptTo(fs, manifests, MAX_UINT64 + 1, runTables, spans, byFiles)
    ensures Published(Catalogs(fs, manifests), runTables)
    ensures SharedExactly(fs, manifests, runTables)
  {
    SweptIsShared(fs, manifests, runTables, spans, byFiles);
    SweptInOrder(fs, manifests, runTables, spans, byFiles);
    hide SweptTo, SharedExactly, Answer;
    forall i, run: UInt64 | 0 <= i < |runTables| && Within(runTables[i], run)
      ensures runTables[i].table in Tables(runTables)
      ensures Answer(Catalogs(fs, manifests), run) == Some(runTables[i].table.entries)
    {
      SweptEntry(fs, manifests, runTables, spans, byFiles, i, run);
    }
    forall run: UInt64 | Answer(Catalogs(fs, manifests), run).Some? ensures Found(runTables, run) {
      SweptRunFound(fs, manifests, runTables, spans, byFiles, run);
    }
  }

  lemma SweptIsShared(fs: FileSystem, manifests: seq<DetectorManifest>, runTables: seq<RunRangeTable>,
                      spans: seq<Span<FileSelection>>, byFiles: map<FileSelection, TranslationTable>)
    requires SweptTo(fs, manifests, MAX_UINT64 + 1, runTables, spans, byFiles)
    ensures SharedExactly(fs, manifests, runTables)
  {
    hide SelectionOf, CombinedEntries, RunLoads;
    var select := SelectionOf(fs, manifests);
    forall i | 0 <= i < |runTables| ensures select(runTables[i].runMin) == Some(spans[i].files) {
      assert spans[i].Covers(spans[i].runMin);
    }
  }

  // The list consists of the spans of runs that select the same files, each
  // with the combination of these files.
  ghost predicate Realized(fs: FileSystem, runTables: seq<RunRangeTable>, spans: seq<Span<FileSelection>>)
    reads Tables(runTables)
  {
    && |runTables| == |spans|
    && forall i :: 0 <= i < |spans| ==> RealizedAt(fs, runTables[i], spans[i])
  }

  ghost predicate RealizedAt(fs: FileSystem, entry: RunRangeTable, span: Span<FileSelection>)
    reads entry.table
  {
    && entry.runMin == span.runMin && entry.runMax == span.runMax
    && CombinedEntries(fs, span.files) == Some(entry.table.entries)
  }

  // What a load publishes for the catalogs of the providers.
  ghost predicate ListFor(fs: FileSystem, providers: seq<Provider>, runTables: seq<RunRangeTable>)
    reads Tables(runTables)
  {
    exists manifests, spans ::
      && InCatalogOrder(fs, providers, manifests)
      && Canonical(SelectionOf(fs, manifests), spans, 0, MAX_UINT64 + 1)
      && Realized(fs, runTables, spans)
  }

  lemma SweptIsListed(fs: FileSystem, providers: seq<Provider>, manifests: seq<DetectorManifest>,
                      runTables: seq<RunRangeTable>, spans: seq<Span<FileSelection>>,
                      byFiles: map<FileSelection, TranslationTable>)
    requires SweptTo(fs, manifests, MAX_UINT64 + 1, runTables, spans, byFiles)
    requires InCatalogOrder(fs, providers, manifests)
    ensures ListFor(fs, providers, runTables)
  {
    hide Canonical, InCatalogOrder, RunLoads, CombinedEntries;
    assert Realized(fs, runTables, spans);
  }

  // A load can succeed exactly when there is nothing to load, or when every
  // catalog and manifest is readable and every run is sound.
  ghost predicate Loadable(fs: FileSystem, providers: seq<Provider>) {
    providers != [] ==> Readable(fs, providers) && forall run: UInt64 :: SoundRun(fs, providers, run)
  }

  ghost predicate LoadedFrom(fs: FileSystem, providers: seq<Provider>, c: Configuration) {
    if providers == [] then c == NoCatalogs
    else
      && c.Catalogs? && c.fs == fs && AllRunsLoad(fs, c.manifests)
      && ConfigurationOf(fs, providers, c.manifests) && InCatalogOrder(fs, providers, c.manifests)
  }

  lemma LoadableIffAllRunsLoad(fs: FileSystem, providers: seq<Provider>, manifests: seq<DetectorManifest>)
    requires providers != [] && ConfigurationOf(fs, providers, manifests)
    ensures Loadable(fs, providers) <==> AllRunsLoad(fs, manifests)
  {
    forall run: UInt64 ensures RunLoads(fs, manifests, run) <==> SoundRun(fs, providers, run) {
      hide *;
      LoadsIffSound(fs, providers, manifests, run);
    }
    hide RunLoads, SoundRun, AllDeclared, AllContribute, DistinctManifests;
  }

  lemma ManifestsOrdered(fs: FileSystem, providers: seq<Provider>, manifests: seq<DetectorManifest>)
    requires ConfigurationOf(fs, providers, manifests)
    ensures AllOrdered(manifests)
  {
    hide ConfigurationOf, RowsOf;
    forall k | 0 <= k < |manifests| ensures Ordered(manifests[k].ranges) {
      var p, entry := EntryOfManifest(fs, providers, manifests, manifests[k]);
    }
  }

  // Everything that a load promises about the list it builds.
  ghost predicate BuiltFor(fs: FileSystem, providers: seq<Provider>, manifests: seq<DetectorManifest>,
                           runTables: seq<RunRangeTable>)
    reads Tables(runTables)
  {
    && LoadedFrom(fs, providers, Catalogs(fs, manifests))
    && Published(Catalogs(fs, manifests), runTables)
    && SharedExactly(fs, manifests, runTables)
    && ListFor(fs, providers, runTables)
  }

  lemma SweptIsBuilt(fs: FileSystem, providers: seq<Provider>, manifests: seq<DetectorManifest>,
                     runTables: seq<RunRangeTable>, spans: seq<Span<FileSelection>>,
                     byFiles: map<FileSelection, TranslationTable>)
    requires SweptTo(fs, manifests, MAX_UINT64 + 1, runTables, spans, byFiles) && AllRunsLoad(fs, manifests)
    requires providers != [] && ConfigurationOf(fs, providers, manifests) && InCatalogOrder(fs, providers, manifests)
    ensures BuiltFor(fs, providers, manifests, runTables)
  {
    hide ConfigurationOf, InCatalogOrder, Published, ListFor, SharedExactly, AllRunsLoad, SweptTo;
    SweptIsPublished(fs, manifests, runTables, spans, byFiles);
    SweptIsListed(fs, providers, manifests, runTables, spans, byFiles);
  }

  // Reads the configuration and builds the list; nothing is published here.
  method BuildFrom(fs: FileSystem, providers: seq<Provider>)
    returns (r: Result<(seq<RunRangeTable>, seq<DetectorManifest>), ConfigurationError>)
    requires providers != []
    ensures r.Success? <==> Loadable(fs, providers)
    ensures r.Success? ==> BuiltFor(fs, providers, r.value.1, r.value.0)
    ensures r.Success? ==> forall i :: 0 <= i < |r.value.0| ==> fresh(r.value.0[i].table)
  {
    var read := ReadConfiguration(fs, providers);
    if read.Failure? {
      return Failure(read.error);
    }
    var (manifests, boundaries) := read.value;
    ManifestsOrdered(fs, providers, manifests);
    LoadableIffAllRunsLoad(fs, providers, manifests);
    hide ConfigurationOf, InCatalogOrder, Loadable, BuiltFor, AllRunsLoad, SweptTo, AllOrdered, AllCut, Bounds;
    var built, spans, byFiles := BuildRunTables(fs, manifests, boundaries);
    if built.Failure? {
      if AllRunsLoad(fs, manifests) {
        SomeRunCovered(fs, providers, manifests);
      }
      return Failure(built.error);
    }
    SweptIsBuilt(fs, providers, manifests, built.value, spans, byFiles);
    SweptTablesAreBuilt(fs, manifests, built.value, spans, byFiles);
    r := Success((built.value, manifests));
  }

  lemma SweptTablesAreBuilt(fs: FileSystem, manifests: seq<DetectorManifest>, runTables: seq<RunRangeTable>,
                            spans: seq<Span<FileSelection>>, byFiles: map<FileSelection, TranslationTable>)
    requires SweptTo(fs, manifests, MAX_UINT64 + 1, runTables, spans, byFiles)
    ensures forall i :: 0 <= i < |runTables| ==> runTables[i].table in byFiles.Values
  {
    hide Canonical, RunLoads, TablesValid;
    forall i | 0 <= i < |runTables| ensures runTables[i].table in byFiles.Values {
      assert spans[i].files in byFiles;
    }
  }

  class TranslationTableService {
    const directory: string
    const defaultCatalogs: seq<Provider>
    var runTables: seq<RunRangeTable>
    var loaded: bool
    var cached: Option<nat>  // null, or the position of an entry of runTables
    ghost var configuration: Configuration

    ghost predicate Valid()
      reads this, Tables(runTables)
    {
      && (loaded ==> Published(configuration, runTables))
      && (!loaded ==> cached.None?)
      && (cached.Some? ==> cached.value < |runTables|)
    }

    constructor (directory: string, defaultCatalogs: seq<Provider>)
      ensures Valid() && !loaded && this.directory == directory && this.defaultCatalogs == defaultCatalogs
    {
      this.directory, this.defaultCatalogs := directory, defaultCatalogs;
      runTables, loaded, cached, configuration := [], false, None, NoCatalogs;
    }

    // Publishes a complete list or nothing at all.
    method LoadTables(fs: FileSystem, registered: seq<Provider>) returns (r: Result<(), ConfigurationError>)
      requires Valid() && !loaded
      modifies this
      ensures loaded == old(loaded)
      ensures r.Success? <==> Loadable(fs, ChooseProviders(directory, defaultCatalogs, registered))
      ensures r.Failure? ==> runTables == old(runTables) && cached == old(cached) && configuration == old(configuration)
      ensures r.Success? ==>
        LoadedFrom(fs, ChooseProviders(directory, defaultCatalogs, registered), configuration)
      ensures r.Success? ==> Published(configuration, runTables) && cached == None
      ensures r.Success? && configuration.Catalogs? ==>
        BuiltFor(fs, ChooseProviders(directory, defaultCatalogs, registered), configuration.manifests, runTables)
    {
      hide Published, LoadedFrom, Loadable, SharedExactly, ListFor, ChooseProviders;
      var providers := ChooseProviders(directory, defaultCatalogs, registered);
      if providers == [] {
        NothingToLoad(fs);
        var empty := new TranslationTable();
        runTables := [RunRangeTable(0, MAX_UINT64, empty)];
        configuration := NoCatalogs;
        EmptyPublished(empty);
        return Success(());
      }
      var built := BuildFrom(fs, providers);
      if built.Failure? {
        return Failure(built.error);
      }
      assert forall table: object :: table in Tables(built.value.0) ==> table != this;
      runTables := built.value.0;
      cached := None;
      configuration := Catalogs(fs, built.value.1);
      r := Success(());
    }

    // Loading is attempted only before the first success. Afterwards every
    // request is answered from the same list, and the table returned holds
    // exactly the answer for the run, whatever the cache holds.
    method GetTable(fs: FileSystem, registered: seq<Provider>, run: UInt64)
      returns (r: Result<TranslationTable, TableError>)
      requires Valid()
      modifies this
      ensures Valid()
      ensures old(loaded) ==> loaded && runTables == old(runTables) && configuration == old(configuration)
      ensures !old(loaded) ==>
        (loaded <==> Loadable(fs, ChooseProviders(directory, defaultCatalogs, registered)))
      ensures !old(loaded) && loaded ==>
        LoadedFrom(fs, ChooseProviders(directory, defaultCatalogs, registered), configuration)
      ensures !loaded ==> r.Failure? && r.error.LoadFailed?
      ensures !loaded ==> runTables == old(runTables) && cached == old(cached) && configuration == old(configuration)
      ensures loaded ==> (r.Success? <==> Answer(configuration, run).Some?)
      ensures r.Success? ==> Answer(configuration, run) == Some(r.value.entries)
      ensures r.Success? ==>
        exists i :: 0 <= i < |runTables| && Within(runTables[i], run) && runTables[i].table == r.value
      ensures loaded && r.Failure? ==> r.error == NoTableForRun && (old(loaded) ==> cached == old(cached))
    {
      hide Answer, LoadedFrom, Loadable, Published, SharedExactly;
      if !loaded {
        var load := LoadOnce(fs, registered);
        if load.Failure? {
          return Failure(LoadFailed(load.error));
        }
      }
      r := FindTable(run);
    }

    // The call_once body: a failure leaves the service as it was, ready to be
    // asked again.
    method LoadOnce(fs: FileSystem, registered: seq<Provider>) returns (r: Result<(), ConfigurationError>)
      requires Valid() && !loaded
      modifies this
      ensures Valid() && loaded == r.Success?
      ensures r.Success? <==> Loadable(fs, ChooseProviders(directory, defaultCatalogs, registered))
      ensures r.Failure? ==> runTables == old(runTables) && cached == old(cached) && configuration == old(configuration)
      ensures r.Success? ==>
        LoadedFrom(fs, ChooseProviders(directory, defaultCatalogs, registered), configuration)
    {
      hide Answer, LoadedFrom, Loadable, SharedExactly;
      r := LoadTables(fs, registered);
      if r.Success? {
        loaded := true;
      }
    }

    // The part after the load: the cache first, then the binary search. Only
    // the cache can change.
    method FindTable(run: UInt64) returns (r: Result<TranslationTable, TableError>)
      requires Valid() && loaded
      modifies this`cached
      ensures Valid()
      ensures r.Success? <==> Answer(configuration, run).Some?
      ensures r.Success? ==> Answer(configuration, run) == Some(r.value.entries)
      ensures r.Success? ==>
        exists i :: 0 <= i < |runTables| && Within(runTables[i], run) && runTables[i].table == r.value
      ensures r.Failure? ==> r.error == NoTableForRun && cached == old(cached)
    {
      hide Answer;
      if cached.Some? && Within(runTables[cached.value], run) {
        return Success(runTables[cached.value].table);
      }
      var found := SearchTables(runTables, run);
      if found.None? {
        return Failure(NoTableForRun);
      }
      r := Success(runTables[found.value].table);
      cached := found;
    }
  }

  // The binary search over the published list.
  method SearchTables(runTables: seq<RunRangeTable>, run: UInt64) returns (r: Option<nat>)
    requires forall i :: 0 <= i < |runTables| ==> runTables[i].runMin <= runTables[i].runMax
    requires forall i, j :: 0 <= i < j < |runTables| ==> runTables[i].runMax < runTables[j].runMin
    ensures r.Some? ==> r.value < |runTables| && Within(runTables[r.value], run)
    ensures r.Some? <==> Found(runTables, run)
  {
    forall i, j | 0 <= i < j < |runTables| ensures runTables[i].runMin <= runTables[j].runMin {
      assert runTables[i].runMax < runTables[j].runMin;
    }
    var upper := UpperBound(runTables, run, (entry: RunRangeTable) => entry.runMin);
    if upper == 0 {
      return None;
    }
    var entry := runTables[upper - 1];
    if run > entry.runMax {
      forall i | 0 <= i < |runTables| ensures !Within(runTables[i], run) {
        if i < upper - 1 { assert runTables[i].runMax < entry.runMin; }
      }
      return None;
    }
    assert Within(runTables[upper - 1], run);
    r := Some(upper - 1);
  }

  lemma NothingToLoad(fs: FileSystem)
    ensures Loadable(fs, []) && LoadedFrom(fs, [], NoCatalogs)
  {
  }

  lemma EmptyPublished(empty: TranslationTable)
    requires empty.entries == map[]
    ensures Published(NoCatalogs, [RunRangeTable(0, MAX_UINT64, empty)])
  {
    var runTables := [RunRangeTable(0, MAX_UINT64, empty)];
    forall run: UInt64 ensures Found(runTables, run) {
      assert Within(runTables[0], run);
    }
    assert runTables[0].table in Tables(runTables);
  }

  // ----- What a request means -----

  // With no catalogs every run has the empty table; with catalogs a request
  // fails exactly on the runs that no row covers, and otherwise an address is
  // mapped exactly when, and exactly to what, a row that covers the run maps
  // it. Sweep, sharing, coalescing, search and cache are all invisible.
  lemma AnswerIsDirect(fs: FileSystem, providers: seq<Provider>, c: Configuration, run: UInt64,
                       daq: DAQAddress, address: DetectorAddress)
    requires LoadedFrom(fs, providers, c)
    ensures providers == [] ==> Answer(c, run) == Some(map[])
    ensures providers != [] ==> (Answer(c, run).Some? <==> RunCovered(fs, providers, run))
    ensures providers != [] ==>
      (Claimed(Answer(c, run), daq, address) <==> MapsDirectly(fs, providers, run, daq, address))
  {
    if providers != [] {
      assert RunLoads(fs, c.manifests, run);
      var files := SelectedFiles(fs, c.manifests, run).value;
      AnswerOfRun(fs, c.manifests, run);
      SelectionNonEmpty(fs, c.manifests, run);
      CoveredDirectly(fs, providers, c.manifests, run);
      LookupIsDirect(fs, providers, c.manifests, run, daq, address);
      hide MapsDirectly, RunCovered, SelectedFiles, CombinedEntries, ConfigurationOf, Answer, AllRunsLoad;
      if files == [] {
        EmptyCombines(fs);
      }
    }
  }

  lemma AnswerOfRun(fs: FileSystem, manifests: seq<DetectorManifest>, run: UInt64)
    requires RunLoads(fs, manifests, run)
    ensures
      var files := SelectedFiles(fs, manifests, run).value;
      Answer(Catalogs(fs, manifests), run) == if files == [] then None else CombinedEntries(fs, files)
  {
  }

  // A file system and a list of providers determine the published list.
  lemma PublishedListUnique(fs: FileSystem, providers: seq<Provider>, left: seq<RunRangeTable>,
                            right: seq<RunRangeTable>)
    requires ListFor(fs, providers, left) && ListFor(fs, providers, right)
    ensures |left| == |right|
    ensures forall i :: 0 <= i < |left| ==>
      left[i].runMin == right[i].runMin && left[i].runMax == right[i].runMax &&
      left[i].table.entries == right[i].table.entries
  {
    hide Canonical, InCatalogOrder, CombinedEntries;
    var m, a :| InCatalogOrder(fs, providers, m) && Canonical(SelectionOf(fs, m), a, 0, MAX_UINT64 + 1) &&
      Realized(fs, left, a);
    var n, b :| InCatalogOrder(fs, providers, n) && Canonical(SelectionOf(fs, n), b, 0, MAX_UINT64 + 1) &&
      Realized(fs, right, b);
    ManifestsUnique(fs, providers, m, n);
    CanonicalUnique(SelectionOf(fs, m), a, b, 0, MAX_UINT64 + 1);
    forall i | 0 <= i < |left|
      ensures left[i].runMin == right[i].runMin && left[i].runMax == right[i].runMax
      ensures left[i].table.entries == right[i].table.entries
    {
      assert RealizedAt(fs, left[i], a[i]) && RealizedAt(fs, right[i], b[i]);
    }
  }

  // ----- The interleaved steps -----

  // The lists that loads publish are the ones the state machine accepts, and
  // the sequential answer on such a list is the answer of the configuration.
  lemma UncachedIsAnswer(c: Configuration, list: seq<RunRangeTable>, run: UInt64)
    requires Published(c, list)
    ensures ConcurrentLookup.WellBuilt(list)
    ensures ConcurrentLookup.Uncached(list, run).Some? <==> Answer(c, run).Some?
    ensures ConcurrentLookup.Uncached(list, run).Some? ==>
      var table := ConcurrentLookup.Uncached(list, run).value;
      table in Tables(list) && Answer(c, run) == Some(table.entries)
  {
    hide Answer;
    if Answer(c, run).Some? {
      assert Found(list, run);
      var i :| 0 <= i < |list| && Within(list[i], run);
      ConcurrentLookup.AnyCoveringEntryAnswers(list, run, i);
    }
    if ConcurrentLookup.Uncached(list, run).Some? {
      var i := ConcurrentLookup.IndexOf(list, run).value;
      assert Within(list[i], run);
    }
  }

  // However the threads interleave: if every load that completes builds a
  // list that answers as the configuration does, every table that any thread
  // returns holds the configuration's answer for the run it asked about.
  lemma EveryInterleavingAnswers(c: Configuration, steps: seq<ConcurrentLookup.Step>, t: ConcurrentLookup.Thread)
    requires ConcurrentLookup.Run(ConcurrentLookup.INITIAL, steps).Some?
    requires forall step :: step in steps && step.LoadBuilds? ==> Published(c, step.list)
    ensures var position := ConcurrentLookup.Run(ConcurrentLookup.INITIAL, steps).value.At(t);
      position.Returned? ==>
        && (position.result.Some? <==> Answer(c, position.run).Some?)
        && (position.result.Some? ==> Answer(c, position.run) == Some(position.result.value.entries))
  {
    var s := ConcurrentLookup.Run(ConcurrentLookup.INITIAL, steps).value;
    ConcurrentLookup.EveryInterleavingIsSequential(steps, t);
    hide Answer, Published;
    if s.At(t).Returned? {
      var step := ConcurrentLookup.PublishedWasBuilt(steps);
      UncachedIsAnswer(c, step.list, s.At(t).run);
    }
  }
}
