// JEventService_TranslationTable: one immutable table per run interval, built
// once and found again by run number.
module RunTables {
  import opened Common
  import opened ConfigurationText
  import opened DisjointMaps
  import opened TranslationTables
  import opened MappingFileLaws
  import opened RunRanges
  import opened RunSpans
  import opened DetectorCatalogs

  // The mapping files that apply to one run: a detector and a path for each
  // manifest that covers the run, in manifest order.
  type FileSelection = seq<(string, string)>

  // None when some selected reference cannot be resolved.
  function SelectedFiles(fs: FileSystem, manifests: seq<DetectorManifest>, run: UInt64): Option<FileSelection> {
    if manifests == [] then Some([])
    else
      var rest := SelectedFiles(fs, manifests[1..], run);
      match LinearFind(manifests[0].ranges, run)
      case None => rest
      case Some(range) =>
        match fs.ResolveOwned(manifests[0].directory, range.mappingFile)
        case None => None
        case Some(path) => Then([(manifests[0].detector, path)], rest)
  }

  function Sources(fs: FileSystem, files: FileSelection): (sources: seq<MappingSource>)
    ensures |sources| == |files|
  {
    Map((file: (string, string)) => MappingSource(fs.Open(file.1), file.0), files)
  }

  // The entries of the combined table for a selection.
  function CombinedEntries(fs: FileSystem, files: FileSelection): Option<Entries> {
    LoadAll(Sources(fs, files), map[])
  }

  // What the sweep sees of a run: nothing when no detector covers it.
  ghost function SelectionOf(fs: FileSystem, manifests: seq<DetectorManifest>): UInt64 -> Option<FileSelection> {
    (run: UInt64) =>
      var files := SelectedFiles(fs, manifests, run);
      if files.None? || files.value == [] then None else files
  }

  ghost predicate RunLoads(fs: FileSystem, manifests: seq<DetectorManifest>, run: UInt64) {
    var files := SelectedFiles(fs, manifests, run);
    files.Some? && CombinedEntries(fs, files.value).Some?
  }

  lemma {:induction false} SelectionConstantBetween(fs: FileSystem, manifests: seq<DetectorManifest>,
                                                    boundaries: set<UInt64>, low: UInt64, high: UInt64)
    requires AllCut(manifests, boundaries) && low <= high && NoneBetween(boundaries, low, high)
    ensures SelectedFiles(fs, manifests, low) == SelectedFiles(fs, manifests, high)
  {
    if manifests != [] {
      forall i | 0 <= i < |manifests[0].ranges| ensures CutAt(manifests[0].ranges[i], boundaries) {
      }
      FindConstantBetween(manifests[0].ranges, boundaries, low, high);
      assert AllCut(manifests[1..], boundaries);
      SelectionConstantBetween(fs, manifests[1..], boundaries, low, high);
    }
  }

  lemma {:induction false} NothingSelectedBefore(fs: FileSystem, manifests: seq<DetectorManifest>,
                                                 boundaries: set<UInt64>, run: UInt64)
    requires AllCut(manifests, boundaries) && forall b :: b in boundaries ==> run < b
    ensures SelectedFiles(fs, manifests, run) == Some([])
  {
    if manifests != [] {
      forall i | 0 <= i < |manifests[0].ranges| ensures CutAt(manifests[0].ranges[i], boundaries) {
      }
      FindNothingBefore(manifests[0].ranges, boundaries, run);
      assert AllCut(manifests[1..], boundaries);
      NothingSelectedBefore(fs, manifests[1..], boundaries, run);
    }
  }

  // ----- Building the tables -----

  lemma SelectionStep(fs: FileSystem, manifests: seq<DetectorManifest>, k: nat, run: UInt64, files: FileSelection)
    requires k < |manifests|
    ensures Then(files, SelectedFiles(fs, manifests[k..], run)) ==
      (match LinearFind(manifests[k].ranges, run)
       case None => Then(files, SelectedFiles(fs, manifests[k + 1..], run))
       case Some(range) =>
         match fs.ResolveOwned(manifests[k].directory, range.mappingFile)
         case None => None
         case Some(path) =>
           Then(files + [(manifests[k].detector, path)], SelectedFiles(fs, manifests[k + 1..], run)))
  {
    assert manifests[k..][0] == manifests[k] && manifests[k..][1..] == manifests[k + 1..];
    var rest := SelectedFiles(fs, manifests[k + 1..], run);
    forall path
      ensures Then(files, Then([(manifests[k].detector, path)], rest)) ==
        Then(files + [(manifests[k].detector, path)], rest)
    {
      ThenInOrder(files, [(manifests[k].detector, path)], rest);
    }
  }

  ghost predicate AllOrdered(manifests: seq<DetectorManifest>) {
    forall k :: 0 <= k < |manifests| ==> Ordered(manifests[k].ranges)
  }

  method SelectFiles(fs: FileSystem, manifests: seq<DetectorManifest>, run: UInt64)
    returns (r: Option<FileSelection>)
    requires AllOrdered(manifests)
    ensures r == SelectedFiles(fs, manifests, run)
  {
    var files: FileSelection := [];
    assert SelectedFiles(fs, manifests, run).Some? ==>
      [] + SelectedFiles(fs, manifests, run).value == SelectedFiles(fs, manifests, run).value;
    for k := 0 to |manifests|
      invariant SelectedFiles(fs, manifests, run) == Then(files, SelectedFiles(fs, manifests[k..], run))
    {
      SelectionStep(fs, manifests, k, run, files);
      var range := FindRange(manifests[k].ranges, run);
      if range.Some? {
        var path := fs.ResolveOwned(manifests[k].directory, range.value.mappingFile);
        if path.None? {
          return None;
        }
        files := files + [(manifests[k].detector, path.value)];
      }
    }
    assert files + [] == files;
    r := Some(files);
  }

  lemma CombinedStep(fs: FileSystem, files: FileSelection, k: nat)
    requires k < |files|
    ensures CombinedEntries(fs, files[..k]).None? ==> CombinedEntries(fs, files).None?
    ensures CombinedEntries(fs, files[..k]).Some? ==>
      CombinedEntries(fs, files[..k + 1]) ==
        UnionAll([FilePart(fs.Open(files[k].1), files[k].0)], CombinedEntries(fs, files[..k]).value)
  {
    assert Sources(fs, files[..k + 1]) ==
      Sources(fs, files[..k]) + [MappingSource(fs.Open(files[k].1), files[k].0)];
    LoadAllStep(Sources(fs, files[..k]), MappingSource(fs.Open(files[k].1), files[k].0));
    UnionAllSplit(SourceParts(Sources(fs, files[..k])), SourceParts(Sources(fs, files[k..])), map[]);
    assert SourceParts(Sources(fs, files)) ==
      SourceParts(Sources(fs, files[..k])) + SourceParts(Sources(fs, files[k..]));
  }

  lemma CombinedPrefix(fs: FileSystem, files: FileSelection, k: nat)
    requires k <= |files| && CombinedEntries(fs, files[..k]).None?
    ensures CombinedEntries(fs, files).None?
  {
    if k < |files| {
      CombinedStep(fs, files, k);
    } else {
      assert files[..k] == files;
    }
  }

  // A new table holding exactly the combined entries of the selection.
  method LoadTable(fs: FileSystem, files: FileSelection) returns (r: Option<TranslationTable>)
    ensures r.Some? <==> CombinedEntries(fs, files).Some?
    ensures r.Some? ==> fresh(r.value) && CombinedEntries(fs, files) == Some(r.value.entries)
  {
    var table := new TranslationTable();
    for k := 0 to |files|
      invariant fresh(table) && CombinedEntries(fs, files[..k]) == Some(table.entries)
    {
      CombinedStep(fs, files, k);
      var loaded := table.LoadMappingFile(fs.Open(files[k].1), files[k].0);
      if loaded.Failure? {
        CombinedPrefix(fs, files, k + 1);
        return None;
      }
    }
    assert files[..|files|] == files;
    r := Some(table);
  }

  // Every selection met so far has one table of its own, holding exactly the
  // entries that the selected files combine to.
  ghost predicate TablesValid(fs: FileSystem, tables: map<FileSelection, TranslationTable>)
    reads tables.Values
  {
    && (forall f :: f in tables ==> tables[f] in tables.Values && CombinedEntries(fs, f) == Some(tables[f].entries))
    && (forall f, g :: f in tables && g in tables && tables[f] == tables[g] ==> f == g)
  }

  ghost predicate Realizes(runTables: seq<RunRangeTable>, spans: seq<Span<FileSelection>>,
                           tables: map<FileSelection, TranslationTable>)
  {
    && |runTables| == |spans|
    && (forall i :: 0 <= i < |spans| ==> spans[i].files in tables)
    && forall i :: 0 <= i < |spans| ==>
      runTables[i] == RunRangeTable(spans[i].runMin, spans[i].runMax, tables[spans[i].files])
  }

  // The first run that the sweep has not looked at before boundary k.
  ghost function Limit(boundaries: seq<int>, k: nat): int
    requires k <= |boundaries|
  {
    if k < |boundaries| then boundaries[k] else MAX_UINT64 + 1
  }

  lemma IntervalIsElementary(boundaries: set<UInt64>, order: seq<int>, k: nat, run: UInt64)
    requires IsOrderOf(order, boundaries)
    requires k < |order| && order[k] <= run < Limit(order, k + 1)
    ensures order[k] in boundaries && NoneBetween(boundaries, order[k], run)
  {
    assert order[k] in order;
    forall b | b in boundaries ensures !(order[k] < b <= run) {
      assert b in order;
      var j :| 0 <= j < |order| && order[j] == b;
      assert j > k ==> j == k + 1 || order[k + 1] <= order[j];
    }
  }

  lemma IntervalLoads(fs: FileSystem, manifests: seq<DetectorManifest>, boundaries: set<UInt64>,
                      order: seq<int>, k: nat)
    requires AllCut(manifests, boundaries) && IsOrderOf(order, boundaries) && k < |order|
    ensures order[k] in boundaries && (k + 1 < |order| ==> order[k + 1] in boundaries)
    ensures order[k] < Limit(order, k + 1)
    ensures forall run: UInt64 :: order[k] <= run < Limit(order, k + 1) ==>
      SelectedFiles(fs, manifests, run) == SelectedFiles(fs, manifests, order[k])
  {
    assert order[k] in order && (k + 1 < |order| ==> order[k + 1] in order);
    forall run: UInt64 | order[k] <= run < Limit(order, k + 1)
      ensures SelectedFiles(fs, manifests, run) == SelectedFiles(fs, manifests, order[k])
    {
      IntervalIsElementary(boundaries, order, k, run);
      SelectionConstantBetween(fs, manifests, boundaries, order[k], run);
    }
  }

  lemma EarlierThanAll(boundaries: set<UInt64>, order: seq<int>, run: UInt64)
    requires IsOrderOf(order, boundaries) && run < Limit(order, 0)
    ensures forall b :: b in boundaries ==> run < b
  {
    forall b | b in boundaries ensures run < b {
      assert b in order;
      var j :| 0 <= j < |order| && order[j] == b;
      assert order[0] <= order[j];
    }
  }

  // Extends the last entry when it abuts the new interval and shares its
  // table, and appends a new entry otherwise.
  function AddRunTable(runTables: seq<RunRangeTable>, runMin: UInt64, runMax: UInt64, table: TranslationTable)
    : seq<RunRangeTable>
  {
    var last := |runTables| - 1;
    if runTables != [] && runTables[last].runMax != MAX_UINT64 &&
      runTables[last].runMax + 1 == runMin && runTables[last].table == table
    then runTables[last := runTables[last].(runMax := runMax)]
    else runTables + [RunRangeTable(runMin, runMax, table)]
  }

  // Comparing tables by identity is comparing file selections.
  lemma ExtendsRealization(fs: FileSystem, runTables: seq<RunRangeTable>, spans: seq<Span<FileSelection>>,
                           tables: map<FileSelection, TranslationTable>,
                           runMin: UInt64, runMax: UInt64, files: FileSelection)
    requires Realizes(runTables, spans, tables) && files in tables && TablesValid(fs, tables)
    ensures Realizes(AddRunTable(runTables, runMin, runMax, tables[files]),
      AddInterval(spans, runMin, runMax, Some(files)), tables)
  {
    hide CombinedEntries;
  }

  // tables.emplace: one table for each selection, loaded when first met.
  method TableFor(fs: FileSystem, files: FileSelection, tables: map<FileSelection, TranslationTable>)
    returns (r: Option<map<FileSelection, TranslationTable>>)
    requires TablesValid(fs, tables)
    ensures r.Some? <== CombinedEntries(fs, files).Some?
    ensures r.Some? ==> CombinedEntries(fs, files).Some? && TablesValid(fs, r.value) && files in r.value
    ensures r.Some? ==> forall f :: f in tables ==> f in r.value && r.value[f] == tables[f]
    ensures r.Some? ==> forall f :: f in r.value ==> r.value[f] in tables.Values || fresh(r.value[f])
  {
    hide CombinedEntries;
    if files in tables {
      return Some(tables);
    }
    var table := LoadTable(fs, files);
    if table.None? {
      return None;
    }
    var next := tables[files := table.value];
    forall f | f in next ensures next[f] in next.Values {
    }
    forall f | f in tables ensures next[f] != table.value {
      assert tables[f] in tables.Values;
    }
    r := Some(next);
  }

  // What the sweep has established about all runs below the limit.
  ghost predicate SweptTo(fs: FileSystem, manifests: seq<DetectorManifest>, limit: int,
                          runTables: seq<RunRangeTable>, spans: seq<Span<FileSelection>>,
                          tables: map<FileSelection, TranslationTable>)
    reads tables.Values
  {
    && Canonical(SelectionOf(fs, manifests), spans, 0, limit)
    && (forall run: UInt64 :: run < limit ==> RunLoads(fs, manifests, run))
    && TablesValid(fs, tables)
    && Realizes(runTables, spans, tables)
  }

  // One elementary interval.
  method SweepInterval(fs: FileSystem, manifests: seq<DetectorManifest>, runMin: UInt64, runMax: UInt64,
                       runTables: seq<RunRangeTable>, tables: map<FileSelection, TranslationTable>,
                       ghost spans: seq<Span<FileSelection>>)
    returns (r: Result<(seq<RunRangeTable>, map<FileSelection, TranslationTable>), ConfigurationError>,
             ghost nextSpans: seq<Span<FileSelection>>)
    requires AllOrdered(manifests) && runMin <= runMax
    requires SweptTo(fs, manifests, runMin, runTables, spans, tables)
    requires forall run: UInt64 :: runMin <= run <= runMax ==>
      SelectedFiles(fs, manifests, run) == SelectedFiles(fs, manifests, runMin)
    ensures r.Failure? ==> !RunLoads(fs, manifests, runMin)
    ensures r.Success? ==> SweptTo(fs, manifests, runMax + 1, r.value.0, nextSpans, r.value.1)
    ensures r.Success? ==> forall f :: f in r.value.1 ==> fresh(r.value.1[f]) || r.value.1[f] in tables.Values
  {
    hide SelectedFiles, CombinedEntries, AllOrdered, Canonical, Realizes, TablesValid, AddRunTable;
    ghost var select := SelectionOf(fs, manifests);
    nextSpans := spans;
    var files := SelectFiles(fs, manifests, runMin);
    if files.None? {
      return Failure(BadReference), spans;
    }
    AddIntervalKeepsCanonical(select, spans, 0, runMin, runMax);
    if files.value == [] {
      EmptyCombines(fs);
      return Success((runTables, tables)), spans;
    }
    var extended := TableFor(fs, files.value, tables);
    if extended.None? {
      return Failure(BadMapping), spans;
    }
    RealizesInLarger(runTables, spans, tables, extended.value);
    ExtendsRealization(fs, runTables, spans, extended.value, runMin, runMax, files.value);
    nextSpans := AddInterval(spans, runMin, runMax, Some(files.value));
    r := Success((AddRunTable(runTables, runMin, runMax, extended.value[files.value]), extended.value));
  }

  ghost predicate AllRunsLoad(fs: FileSystem, manifests: seq<DetectorManifest>) {
    forall run: UInt64 :: RunLoads(fs, manifests, run)
  }

  ghost predicate SomethingSelected(fs: FileSystem, manifests: seq<DetectorManifest>) {
    exists run: UInt64 :: SelectionOf(fs, manifests)(run).Some?
  }

  // The sweep. It succeeds exactly when every run's files can be resolved and
  // combined and some run selects a file, and it delivers the canonical list.
  method BuildRunTables(fs: FileSystem, manifests: seq<DetectorManifest>, boundaries: set<UInt64>)
    returns (r: Result<seq<RunRangeTable>, ConfigurationError>,
             ghost spans: seq<Span<FileSelection>>, ghost byFiles: map<FileSelection, TranslationTable>)
    requires AllOrdered(manifests) && AllCut(manifests, boundaries)
    ensures r.Success? <==> AllRunsLoad(fs, manifests) && SomethingSelected(fs, manifests)
    ensures r.Success? ==> SweptTo(fs, manifests, MAX_UINT64 + 1, r.value, spans, byFiles)
    ensures forall f :: f in byFiles ==> fresh(byFiles[f])
  {
    var order := Traverse(boundaries);
    hide InOrder, IsOrderOf, AllRunsLoad, SomethingSelected, SweptTo, AllCut, AllOrdered, RunLoads;
    var tables: map<FileSelection, TranslationTable>, runTables: seq<RunRangeTable> := map[], [];
    spans, byFiles := [], map[];
    BeforeFirstBoundary(fs, manifests, boundaries, order);
    for k := 0 to |order|
      invariant SweptTo(fs, manifests, Limit(order, k), runTables, spans, tables)
      invariant byFiles == tables && forall f :: f in tables ==> fresh(tables[f])
    {
      IntervalLoads(fs, manifests, boundaries, order, k);
      var runMin: UInt64 := order[k];
      var runMax: UInt64 := if k + 1 == |order| then MAX_UINT64 else order[k + 1] - 1;
      var step;
      step, spans := SweepInterval(fs, manifests, runMin, runMax, runTables, tables, spans);
      if step.Failure? {
        NotAllLoad(fs, manifests, runMin);
        return Failure(step.error), spans, byFiles;
      }
      runTables, tables := step.value.0, step.value.1;
      byFiles := tables;
    }
    SweptAll(fs, manifests, runTables, spans, tables);
    if runTables == [] {
      return Failure(NoRunTables), spans, byFiles;
    }
    r := Success(runTables);
  }

  lemma NotAllLoad(fs: FileSystem, manifests: seq<DetectorManifest>, run: UInt64)
    requires !RunLoads(fs, manifests, run)
    ensures !AllRunsLoad(fs, manifests)
  {
    hide RunLoads;
  }

  lemma SweptAll(fs: FileSystem, manifests: seq<DetectorManifest>, runTables: seq<RunRangeTable>,
                 spans: seq<Span<FileSelection>>, tables: map<FileSelection, TranslationTable>)
    requires SweptTo(fs, manifests, MAX_UINT64 + 1, runTables, spans, tables)
    ensures AllRunsLoad(fs, manifests)
    ensures SomethingSelected(fs, manifests) <==> runTables != []
  {
    hide RunLoads, Canonical, TablesValid, SelectionOf;
    assert |runTables| == |spans|;
    if spans == [] {
      NothingCovered(SelectionOf(fs, manifests), spans);
    } else {
      SomethingCovered(SelectionOf(fs, manifests), spans);
    }
  }

  lemma RealizesInLarger(runTables: seq<RunRangeTable>, spans: seq<Span<FileSelection>>,
                         some: map<FileSelection, TranslationTable>, all: map<FileSelection, TranslationTable>)
    requires Realizes(runTables, spans, some)
    requires forall f :: f in some ==> f in all && all[f] == some[f]
    ensures Realizes(runTables, spans, all)
  {
  }

  lemma BeforeFirstBoundary(fs: FileSystem, manifests: seq<DetectorManifest>, boundaries: set<UInt64>,
                            order: seq<int>)
    requires AllCut(manifests, boundaries) && IsOrderOf(order, boundaries)
    ensures SweptTo(fs, manifests, Limit(order, 0), [], [], map[])
  {
    hide CombinedEntries, AllCut;
    EmptyCombines(fs);
    forall run: UInt64 | run < Limit(order, 0) ensures SelectedFiles(fs, manifests, run) == Some([]) {
      EarlierThanAll(boundaries, order, run);
      NothingSelectedBefore(fs, manifests, boundaries, run);
    }
  }

  lemma EmptyCombines(fs: FileSystem)
    ensures CombinedEntries(fs, []) == Some(map[])
  {
    assert Sources(fs, []) == [] && SourceParts([]) == [];
  }

  lemma NothingCovered<F>(select: UInt64 -> Option<F>, spans: seq<Span<F>>)
    requires Canonical(select, spans, 0, MAX_UINT64 + 1) && spans == []
    ensures !exists run: UInt64 :: select(run).Some?
  {
    forall run: UInt64 ensures select(run).None? {
      CoveredIffSelected(select, spans, 0, MAX_UINT64 + 1, run);
    }
  }

  lemma SomethingCovered<F>(select: UInt64 -> Option<F>, spans: seq<Span<F>>)
    requires Canonical(select, spans, 0, MAX_UINT64 + 1) && spans != []
    ensures exists run: UInt64 :: select(run).Some?
  {
    assert spans[0].Covers(spans[0].runMin);
    assert select(spans[0].runMin).Some?;
  }
}
