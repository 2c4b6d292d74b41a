// The first half of loadTables: root catalogs, the manifests they name, and
// the run boundaries those manifests introduce.
module DetectorCatalogs {
  import opened Common
  import opened ConfigurationText
  import opened RunRanges
  import opened RunSpans
  import opened Sorting

  // The file system as a partial function from paths to contents, together
  // with the outcome of resolving a reference inside its owning directory:
  // references that are absolute, that escape, or that use '..' are absent.
  datatype FileSystem = FileSystem(files: map<string, File>, owned: map<(string, string), string>) {
    function Open(path: string): Option<File> {
      if path in files then Some(files[path]) else None
    }

    function ResolveOwned(directory: string, reference: string): Option<string> {
      if (directory, reference) in owned then Some(owned[(directory, reference)]) else None
    }
  }

  datatype Provider = Provider(name: string, directory: string)

  datatype CatalogEntry = CatalogEntry(detector: string, manifestFile: string)

  datatype DetectorManifest = DetectorManifest(detector: string, directory: string, ranges: seq<RunRange>)

  datatype ConfigurationError = BadCatalog | RepeatedDetector | BadReference | BadManifest | BadMapping | NoRunTables

  function JoinPath(directory: string, name: string): string {
    if directory == "" || directory[|directory| - 1] == '/' then directory + name
    else directory + "/" + name
  }

  function ParentPath(path: string): string {
    if path == "" then ""
    else if path[|path| - 1] == '/' then (if |path| == 1 then path else path[..|path| - 1])
    else ParentPath(path[..|path| - 1])
  }

  // ----- Catalog files -----

  function ParseEntry(line: string): (entry: Option<seq<CatalogEntry>>)
    ensures entry.Some? && entry.value != [] ==> entry.value[0].detector != ""
    ensures entry.Some? ==> |entry.value| <= 1
  {
    var tokens := Tokenize(line);
    if tokens == [] then Some([])
    else if |tokens| != 2 then None
    else Some([CatalogEntry(tokens[0], tokens[1])])
  }

  ghost predicate DistinctDetectors(entries: seq<CatalogEntry>) {
    forall i, j :: 0 <= i < j < |entries| ==> entries[i].detector != entries[j].detector
  }

  function ParseEntries(lines: seq<string>): (entries: Option<seq<CatalogEntry>>)
    ensures entries.Some? ==> forall i :: 0 <= i < |entries.value| ==> entries.value[i].detector != ""
  {
    if lines == [] then Some([])
    else
      var entry, rest := ParseEntry(lines[0]), ParseEntries(lines[1..]);
      if entry.None? || rest.None? then None else Some(entry.value + rest.value)
  }

  ghost predicate CatalogAccepts(file: Option<File>) {
    && file.Some?
    && ParseEntries(file.value.lines).Some?
    && DistinctDetectors(ParseEntries(file.value.lines).value)
    && file.value.complete
    && ParseEntries(file.value.lines).value != []
  }

  // operator< on std::string, as a non-strict order.
  predicate TextBelow(a: string, b: string) {
    a == "" || (b != "" && (a[0] < b[0] || (a[0] == b[0] && TextBelow(a[1..], b[1..]))))
  }

  lemma {:induction false} TextBelowTotal(a: string, b: string)
    ensures TextBelow(a, b) || TextBelow(b, a)
  {
    if a != "" && b != "" { TextBelowTotal(a[1..], b[1..]); }
  }

  lemma {:induction false} TextBelowTransitive(a: string, b: string, c: string)
    requires TextBelow(a, b) && TextBelow(b, c)
    ensures TextBelow(a, c)
  {
    if a != "" && a[0] == b[0] == c[0] { TextBelowTransitive(a[1..], b[1..], c[1..]); }
  }

  lemma {:induction false} TextBelowAntisymmetric(a: string, b: string)
    requires TextBelow(a, b) && TextBelow(b, a)
    ensures a == b
  {
    if a != "" {
      TextBelowAntisymmetric(a[1..], b[1..]);
      assert a == [a[0]] + a[1..] && b == [b[0]] + b[1..];
    }
  }

  lemma {:induction false} TextBelowReflexive(a: string)
    ensures TextBelow(a, a)
  {
    if a != "" { TextBelowReflexive(a[1..]); }
  }

  // The order by bytes: a prefix comes first, and otherwise the first
  // difference decides.
  ghost predicate DecidedAt(a: string, b: string, i: int) {
    0 <= i < |a| && i < |b| && a[..i] == b[..i] && a[i] < b[i]
  }

  lemma SameStart(a: string, b: string, i: nat)
    requires DecidedAt(a, b, i) && i > 0
    ensures a[0] == b[0]
  {
    assert a[..i][0] == a[0] && b[..i][0] == b[0];
  }

  lemma {:induction false} TextBelowIff(a: string, b: string)
    ensures TextBelow(a, b) <==> a <= b || exists i :: DecidedAt(a, b, i)
  {
    if a != "" && b != "" && a[0] == b[0] {
      TextBelowIff(a[1..], b[1..]);
      if i :| DecidedAt(a[1..], b[1..], i) {
        assert a[..i + 1] == [a[0]] + a[1..][..i] && b[..i + 1] == [b[0]] + b[1..][..i];
        assert DecidedAt(a, b, i + 1);
      }
      if i :| DecidedAt(a, b, i) {
        assert a[1..][..i - 1] == a[..i][1..] && b[1..][..i - 1] == b[..i][1..];
        assert DecidedAt(a[1..], b[1..], i - 1);
      }
      assert a <= b <==> a[1..] <= b[1..] by {
        assert a == [a[0]] + a[1..] && b == [b[0]] + b[1..];
      }
    } else if a != "" && b != "" {
      assert a[0] < b[0] ==> DecidedAt(a, b, 0);
      forall i | DecidedAt(a, b, i) ensures i == 0 {
        if i != 0 { SameStart(a, b, i); }
      }
    }
  }

  lemma DetectorOrder()
    ensures TotalPreorder((x: CatalogEntry, y: CatalogEntry) => TextBelow(x.detector, y.detector))
  {
    forall x: CatalogEntry, y: CatalogEntry
      ensures TextBelow(x.detector, y.detector) || TextBelow(y.detector, x.detector)
    {
      TextBelowTotal(x.detector, y.detector);
    }
    forall x: CatalogEntry, y: CatalogEntry, z: CatalogEntry
      | TextBelow(x.detector, y.detector) && TextBelow(y.detector, z.detector)
      ensures TextBelow(x.detector, z.detector)
    {
      TextBelowTransitive(x.detector, y.detector, z.detector);
    }
  }

  ghost predicate IsCatalog(file: Option<File>, entries: seq<CatalogEntry>) {
    && CatalogAccepts(file)
    && Permutation(ParseEntries(file.value.lines).value, entries)
    && SortedBy((x: CatalogEntry, y: CatalogEntry) => TextBelow(x.detector, y.detector), entries)
  }

  lemma EntriesStep(lines: seq<string>, i: nat, entries: seq<CatalogEntry>)
    requires i < |lines|
    ensures Then(entries, ParseEntries(lines[i..])) ==
      if ParseEntry(lines[i]).None? then None
      else Then(entries + ParseEntry(lines[i]).value, ParseEntries(lines[i + 1..]))
  {
    assert lines[i..][0] == lines[i] && lines[i..][1..] == lines[i + 1..];
    if ParseEntry(lines[i]).Some? {
      ThenInOrder(entries, ParseEntry(lines[i]).value, ParseEntries(lines[i + 1..]));
    }
  }

  // Stops at the first malformed row or repeated detector.
  method ReadEntries(lines: seq<string>) returns (r: Result<seq<CatalogEntry>, ConfigurationError>)
    ensures r.Success? <==> ParseEntries(lines).Some? && DistinctDetectors(ParseEntries(lines).value)
    ensures r.Success? ==> r.value == ParseEntries(lines).value
    ensures r.Failure? ==> r.error == BadCatalog
  {
    var entries: seq<CatalogEntry>, detectors: set<string> := [], {};
    assert ParseEntries(lines).Some? ==> [] + ParseEntries(lines).value == ParseEntries(lines).value;
    for i := 0 to |lines|
      invariant ParseEntries(lines) == Then(entries, ParseEntries(lines[i..]))
      invariant DistinctDetectors(entries)
      invariant detectors == set entry | entry in entries :: entry.detector
    {
      EntriesStep(lines, i, entries);
      var entry := ParseEntry(lines[i]);
      if entry.None? {
        return Failure(BadCatalog);
      }
      if entry.value != [] {
        var next := entry.value[0];
        assert entry.value == [next];
        if next.detector in detectors {
          RepeatedEntry(entries, next, ParseEntries(lines[i + 1..]));
          return Failure(BadCatalog);
        }
        detectors := detectors + {next.detector};
      }
      entries := entries + entry.value;
    }
    assert entries + [] == entries;
    r := Success(entries);
  }

  lemma RepeatedEntry(entries: seq<CatalogEntry>, next: CatalogEntry, rest: Option<seq<CatalogEntry>>)
    requires exists entry :: entry in entries && entry.detector == next.detector
    ensures rest.Some? ==> !DistinctDetectors(entries + [next] + rest.value)
  {
    if rest.Some? {
      var i :| 0 <= i < |entries| && entries[i].detector == next.detector;
      var all := entries + [next] + rest.value;
      assert all[i].detector == all[|entries|].detector;
    }
  }

  method LoadCatalog(file: Option<File>) returns (r: Result<seq<CatalogEntry>, ConfigurationError>)
    ensures r.Success? <==> CatalogAccepts(file)
    ensures r.Success? ==> IsCatalog(file, r.value)
  {
    if file.None? {
      return Failure(BadCatalog);
    }
    var entries := ReadEntries(file.value.lines);
    if entries.Failure? {
      return entries;
    }
    if !file.value.complete || entries.value == [] {
      return Failure(BadCatalog);
    }
    DetectorOrder();
    var sorted := Sorted(entries.value, (x: CatalogEntry, y: CatalogEntry) => TextBelow(x.detector, y.detector));
    r := Success(sorted);
  }

  // ----- All catalogs together -----

  function CatalogFile(fs: FileSystem, provider: Provider): Option<File> {
    fs.Open(JoinPath(provider.directory, "manifest.map"))
  }

  ghost function RowsOf(fs: FileSystem, provider: Provider): seq<CatalogEntry> {
    if CatalogAccepts(CatalogFile(fs, provider)) then ParseEntries(CatalogFile(fs, provider).value.lines).value
    else []
  }

  // The manifest m is what the catalog entry refers to.
  ghost predicate ManifestFor(fs: FileSystem, directory: string, entry: CatalogEntry, m: DetectorManifest) {
    var path := fs.ResolveOwned(directory, entry.manifestFile);
    && m.detector == entry.detector
    && path.Some?
    && m.directory == ParentPath(path.value)
    && IsManifest(fs.Open(path.value), m.ranges)
  }

  ghost predicate DeclaredBy(fs: FileSystem, provider: Provider, m: DetectorManifest) {
    exists entry :: entry in RowsOf(fs, provider) && ManifestFor(fs, provider.directory, entry, m)
  }

  ghost predicate Contributes(fs: FileSystem, directory: string, entry: CatalogEntry,
      manifests: seq<DetectorManifest>) {
    exists k :: 0 <= k < |manifests| && ManifestFor(fs, directory, entry, manifests[k])
  }

  ghost predicate EntryReadable(fs: FileSystem, directory: string, entry: CatalogEntry) {
    var path := fs.ResolveOwned(directory, entry.manifestFile);
    path.Some? && ManifestAccepts(fs.Open(path.value))
  }

  ghost predicate ProviderReadable(fs: FileSystem, provider: Provider) {
    && CatalogAccepts(CatalogFile(fs, provider))
    && forall entry :: entry in RowsOf(fs, provider) ==> EntryReadable(fs, provider.directory, entry)
  }

  ghost predicate SeparateDetectors(left: seq<CatalogEntry>, right: seq<CatalogEntry>) {
    forall e, f :: e in left && f in right ==> e.detector != f.detector
  }

  // When the catalogs and manifests can be read at all.
  ghost predicate Readable(fs: FileSystem, providers: seq<Provider>) {
    && (forall p :: 0 <= p < |providers| ==> ProviderReadable(fs, providers[p]))
    && (forall p, q :: 0 <= p < q < |providers| ==>
      SeparateDetectors(RowsOf(fs, providers[p]), RowsOf(fs, providers[q])))
  }

  ghost predicate DistinctManifests(manifests: seq<DetectorManifest>) {
    forall i, j :: 0 <= i < j < |manifests| ==> manifests[i].detector != manifests[j].detector
  }

  ghost predicate AllDeclared(fs: FileSystem, providers: seq<Provider>, manifests: seq<DetectorManifest>) {
    forall m :: m in manifests ==> exists p :: 0 <= p < |providers| && DeclaredBy(fs, providers[p], m)
  }

  ghost predicate AllContribute(fs: FileSystem, providers: seq<Provider>, manifests: seq<DetectorManifest>) {
    forall p, entry :: 0 <= p < |providers| && entry in RowsOf(fs, providers[p]) ==>
      Contributes(fs, providers[p].directory, entry, manifests)
  }

  // The manifests are exactly those that the providers' catalogs name.
  ghost predicate ConfigurationOf(fs: FileSystem, providers: seq<Provider>, manifests: seq<DetectorManifest>) {
    && Readable(fs, providers)
    && AllDeclared(fs, providers, manifests)
    && AllContribute(fs, providers, manifests)
    && DistinctManifests(manifests)
  }

  // The manifests of one catalog, sorted by detector.
  ghost predicate ReadFrom(fs: FileSystem, provider: Provider, manifests: seq<DetectorManifest>) {
    exists catalog ::
      IsCatalog(CatalogFile(fs, provider), catalog) && AddedFor(fs, provider.directory, catalog, manifests)
  }

  ghost predicate AddedFor(fs: FileSystem, directory: string, entries: seq<CatalogEntry>,
      added: seq<DetectorManifest>) {
    && |added| == |entries|
    && forall i :: 0 <= i < |entries| ==> ManifestFor(fs, directory, entries[i], added[i])
  }

  // Their order: catalog by catalog.
  ghost predicate InCatalogOrder(fs: FileSystem, providers: seq<Provider>, manifests: seq<DetectorManifest>)
    decreases |providers|
  {
    if providers == [] then manifests == []
    else
      var n := |providers| - 1;
      exists k {:trigger manifests[..k]} :: 0 <= k <= |manifests| &&
        InCatalogOrder(fs, providers[..n], manifests[..k]) && ReadFrom(fs, providers[n], manifests[k..])
  }

  lemma OrderExtends(fs: FileSystem, providers: seq<Provider>, n: nat, before: seq<DetectorManifest>,
                     added: seq<DetectorManifest>)
    requires n < |providers| && InCatalogOrder(fs, providers[..n], before) && ReadFrom(fs, providers[n], added)
    ensures InCatalogOrder(fs, providers[..n + 1], before + added)
  {
    hide ReadFrom;
    var upTo, all := providers[..n + 1], before + added;
    assert upTo[..n] == providers[..n] && all[..|before|] == before && all[|before|..] == added;
  }

  lemma CatalogUnique(file: Option<File>, a: seq<CatalogEntry>, b: seq<CatalogEntry>)
    requires IsCatalog(file, a) && IsCatalog(file, b)
    ensures a == b
  {
    var rows, below := ParseEntries(file.value.lines).value,
      (x: CatalogEntry, y: CatalogEntry) => TextBelow(x.detector, y.detector);
    PermutationMembers(rows, a);
    hide ParseEntries;
    forall x, y | x in a && y in a && below(x, y) && below(y, x) ensures x == y {
      TextBelowAntisymmetric(x.detector, y.detector);
      assert x in rows && y in rows;
    }
    forall x ensures below(x, x) {
      TextBelowReflexive(x.detector);
    }
    SortedUnique(below, a, b);
  }

  lemma ReadFromUnique(fs: FileSystem, provider: Provider, a: seq<DetectorManifest>, b: seq<DetectorManifest>)
    requires ReadFrom(fs, provider, a) && ReadFrom(fs, provider, b)
    ensures a == b
  {
    hide IsCatalog, IsManifest;
    var file, directory := CatalogFile(fs, provider), provider.directory;
    var left: seq<CatalogEntry> :| IsCatalog(file, left) && AddedFor(fs, directory, left, a);
    var right: seq<CatalogEntry> :| IsCatalog(file, right) && AddedFor(fs, directory, right, b);
    CatalogUnique(file, left, right);
    forall i | 0 <= i < |a| ensures a[i] == b[i] {
      assert ManifestFor(fs, directory, left[i], a[i]) && ManifestFor(fs, directory, left[i], b[i]);
      ManifestUnique(fs.Open(fs.ResolveOwned(directory, left[i].manifestFile).value), a[i].ranges, b[i].ranges);
    }
  }

  // A file system and a list of providers determine the manifests and their
  // order.
  lemma {:induction false} ManifestsUnique(fs: FileSystem, providers: seq<Provider>, a: seq<DetectorManifest>,
                                           b: seq<DetectorManifest>)
    requires InCatalogOrder(fs, providers, a) && InCatalogOrder(fs, providers, b)
    ensures a == b
    decreases |providers|
  {
    hide ReadFrom;
    if providers != [] {
      var n := |providers| - 1;
      var k :| 0 <= k <= |a| && InCatalogOrder(fs, providers[..n], a[..k]) && ReadFrom(fs, providers[n], a[k..]);
      var l :| 0 <= l <= |b| && InCatalogOrder(fs, providers[..n], b[..l]) && ReadFrom(fs, providers[n], b[l..]);
      ManifestsUnique(fs, providers[..n], a[..k], b[..l]);
      ReadFromUnique(fs, providers[n], a[k..], b[l..]);
      assert a == a[..k] + a[k..] && b == b[..l] + b[l..];
    }
  }

  ghost predicate AllCut(manifests: seq<DetectorManifest>, boundaries: set<UInt64>) {
    forall k, i :: 0 <= k < |manifests| && 0 <= i < |manifests[k].ranges| ==>
      CutAt(manifests[k].ranges[i], boundaries)
  }

  // The boundaries that one range introduces. The successor of a bound that
  // is already the greatest run number is never formed.
  function BoundsOf(range: RunRange): set<UInt64> {
    {range.runMin} + if range.runMax != MAX_UINT64 then {range.runMax + 1} else {}
  }

  ghost function RangeBounds(ranges: seq<RunRange>): set<UInt64> {
    set i, b | 0 <= i < |ranges| && b in BoundsOf(ranges[i]) :: b
  }

  // The boundaries of all manifests.
  ghost function Bounds(manifests: seq<DetectorManifest>): set<UInt64> {
    set k, b | 0 <= k < |manifests| && b in RangeBounds(manifests[k].ranges) :: b
  }

  lemma BoundsConcat(before: seq<DetectorManifest>, added: seq<DetectorManifest>)
    ensures Bounds(before + added) == Bounds(before) + Bounds(added)
  {
    hide RangeBounds;
    var all := before + added;
    assert forall k :: 0 <= k < |before| ==> all[k] == before[k];
    assert forall k :: 0 <= k < |added| ==> all[|before| + k] == added[k];
  }

  lemma BoundsNext(added: seq<DetectorManifest>, m: DetectorManifest)
    ensures Bounds(added + [m]) == Bounds(added) + RangeBounds(m.ranges)
  {
    BoundsConcat(added, [m]);
    hide RangeBounds;
    assert Bounds([m]) == RangeBounds(m.ranges) by {
      assert [m][0] == m;
    }
  }

  lemma BoundsCut(manifests: seq<DetectorManifest>)
    ensures AllCut(manifests, Bounds(manifests))
  {
    forall k, i | 0 <= k < |manifests| && 0 <= i < |manifests[k].ranges|
      ensures CutAt(manifests[k].ranges[i], Bounds(manifests))
    {
      var range := manifests[k].ranges[i];
      assert forall b :: b in BoundsOf(range) ==> b in RangeBounds(manifests[k].ranges);
      assert range.runMin in BoundsOf(range);
      assert range.runMax != MAX_UINT64 ==> range.runMax + 1 in BoundsOf(range);
    }
  }

  ghost function Detectors(manifests: seq<DetectorManifest>): set<string> {
    set m | m in manifests :: m.detector
  }

  // The boundaries of one more manifest.
  method AddBoundaries(ranges: seq<RunRange>, boundaries: set<UInt64>) returns (r: set<UInt64>)
    ensures r == boundaries + RangeBounds(ranges)
  {
    r := boundaries;
    assert RangeBounds(ranges[..0]) == {};
    for i := 0 to |ranges|
      invariant r == boundaries + RangeBounds(ranges[..i])
    {
      RangeBoundsNext(ranges[..i], ranges[i]);
      assert ranges[..i + 1] == ranges[..i] + [ranges[i]];
      r := r + {ranges[i].runMin};
      if ranges[i].runMax != MAX_UINT64 {
        var next: UInt64 := ranges[i].runMax + 1;
        r := r + {next};
      }
    }
    assert ranges[..|ranges|] == ranges;
  }

  lemma RangeBoundsNext(ranges: seq<RunRange>, range: RunRange)
    ensures RangeBounds(ranges + [range]) == RangeBounds(ranges) + BoundsOf(range)
  {
    hide BoundsOf;
    var all := ranges + [range];
    assert all[|ranges|] == range;
    assert forall i :: 0 <= i < |ranges| ==> all[i] == ranges[i];
  }

  // One catalog entry.
  method LoadEntryManifest(fs: FileSystem, directory: string, entry: CatalogEntry)
    returns (r: Result<DetectorManifest, ConfigurationError>)
    ensures r.Success? <==> EntryReadable(fs, directory, entry)
    ensures r.Success? ==> ManifestFor(fs, directory, entry, r.value)
  {
    var path := fs.ResolveOwned(directory, entry.manifestFile);
    if path.None? {
      return Failure(BadReference);
    }
    var ranges := LoadManifest(fs.Open(path.value));
    if ranges.Failure? {
      return Failure(BadManifest);
    }
    r := Success(DetectorManifest(entry.detector, ParentPath(path.value), ranges.value));
  }

  lemma CatalogFacts(fs: FileSystem, provider: Provider, catalog: seq<CatalogEntry>)
    requires IsCatalog(CatalogFile(fs, provider), catalog)
    ensures forall entry :: entry in catalog <==> entry in RowsOf(fs, provider)
    ensures DistinctDetectors(catalog) && catalog != []
  {
    var rows := RowsOf(fs, provider);
    PermutationMembers(rows, catalog);
    PermutationLength(rows, catalog);
    var key := (entry: CatalogEntry) => entry.detector;
    assert DistinctBy(key, rows);
    PermutationKeepsDistinct(key, rows, catalog);
    assert forall i, j :: 0 <= i < j < |catalog| ==> key(catalog[i]) != key(catalog[j]);
  }

  // A detector that an earlier provider has claimed cannot be claimed again.
  lemma ClaimedTwice(fs: FileSystem, providers: seq<Provider>, n: nat,
                     manifests: seq<DetectorManifest>,
                     entry: CatalogEntry)
    requires n < |providers| && AllDeclared(fs, providers[..n], manifests)
    requires entry in RowsOf(fs, providers[n]) && entry.detector in Detectors(manifests)
    ensures !Readable(fs, providers)
  {
    hide RowsOf, IsManifest, CatalogAccepts, ManifestAccepts;
    var m :| m in manifests && m.detector == entry.detector;
    var p :| 0 <= p < n && DeclaredBy(fs, providers[..n][p], m);
    var earlier :| earlier in RowsOf(fs, providers[p]) && ManifestFor(fs, providers[p].directory, earlier, m);
    assert !SeparateDetectors(RowsOf(fs, providers[p]), RowsOf(fs, providers[n]));
  }

  lemma ReadableExtends(fs: FileSystem, providers: seq<Provider>, n: nat,
                        before: seq<DetectorManifest>)
    requires n < |providers| && Readable(fs, providers[..n]) && AllContribute(fs, providers[..n], before)
    requires ProviderReadable(fs, providers[n])
    requires forall entry :: entry in RowsOf(fs, providers[n]) ==> entry.detector !in Detectors(before)
    ensures Readable(fs, providers[..n + 1])
  {
    hide RowsOf, IsManifest, CatalogAccepts, ManifestAccepts, ProviderReadable;
    forall p | 0 <= p < n
      ensures ProviderReadable(fs, providers[p])
      ensures SeparateDetectors(RowsOf(fs, providers[p]), RowsOf(fs, providers[n]))
    {
      assert providers[..n][p] == providers[p];
      forall e | e in RowsOf(fs, providers[p]) ensures e.detector in Detectors(before) {
        assert Contributes(fs, providers[p].directory, e, before);
      }
    }
    forall p, q | 0 <= p < q < n
      ensures SeparateDetectors(RowsOf(fs, providers[p]), RowsOf(fs, providers[q]))
    {
      assert providers[..n][p] == providers[p] && providers[..n][q] == providers[q];
    }
  }

  lemma AllDeclaredExtends(fs: FileSystem, providers: seq<Provider>, n: nat,
                           before: seq<DetectorManifest>,
                           added: seq<DetectorManifest>)
    requires n < |providers| && AllDeclared(fs, providers[..n], before)
    requires forall m :: m in added ==> DeclaredBy(fs, providers[n], m)
    ensures AllDeclared(fs, providers[..n + 1], before + added)
  {
    hide DeclaredBy;
    var upTo := providers[..n + 1];
    forall m | m in before + added ensures exists p :: 0 <= p < |upTo| && DeclaredBy(fs, upTo[p], m) {
      if m in before {
        var p :| 0 <= p < n && DeclaredBy(fs, providers[..n][p], m);
        assert upTo[p] == providers[..n][p];
      } else {
        assert upTo[n] == providers[n];
      }
    }
  }

  lemma ContributesMonotone(fs: FileSystem, directory: string, entry: CatalogEntry,
                            some: seq<DetectorManifest>, all: seq<DetectorManifest>)
    requires Contributes(fs, directory, entry, some) && forall m :: m in some ==> m in all
    ensures Contributes(fs, directory, entry, all)
  {
    hide ManifestFor;
    var k :| 0 <= k < |some| && ManifestFor(fs, directory, entry, some[k]);
    assert some[k] in all;
    var l :| 0 <= l < |all| && all[l] == some[k];
  }

  lemma AllContributeExtends(fs: FileSystem, providers: seq<Provider>, n: nat,
                             before: seq<DetectorManifest>,
                             added: seq<DetectorManifest>)
    requires n < |providers| && AllContribute(fs, providers[..n], before)
    requires forall entry :: entry in RowsOf(fs, providers[n]) ==>
      Contributes(fs, providers[n].directory, entry, added)
    ensures AllContribute(fs, providers[..n + 1], before + added)
  {
    hide RowsOf, Contributes;
    forall p, entry | 0 <= p <= n && entry in RowsOf(fs, providers[p])
      ensures Contributes(fs, providers[p].directory, entry, before + added)
    {
      if p < n {
        assert providers[..n][p] == providers[p];
        ContributesMonotone(fs, providers[p].directory, entry, before, before + added);
      } else {
        ContributesMonotone(fs, providers[p].directory, entry, added, before + added);
      }
    }
  }

  lemma ProviderAdded(fs: FileSystem, providers: seq<Provider>, n: nat, before: seq<DetectorManifest>,
                      catalog: seq<CatalogEntry>, added: seq<DetectorManifest>)
    requires n < |providers| && ConfigurationOf(fs, providers[..n], before)
    requires IsCatalog(CatalogFile(fs, providers[n]), catalog)
    requires AddedFor(fs, providers[n].directory, catalog, added)
    requires forall entry :: entry in catalog ==> entry.detector !in Detectors(before)
    ensures ConfigurationOf(fs, providers[..n + 1], before + added)
  {
    CatalogFacts(fs, providers[n], catalog);
    hide RowsOf, IsManifest, CatalogAccepts, ManifestAccepts;
    forall entry | entry in RowsOf(fs, providers[n])
      ensures Contributes(fs, providers[n].directory, entry, added)
      ensures EntryReadable(fs, providers[n].directory, entry)
    {
      assert entry in catalog;
      var i :| 0 <= i < |catalog| && catalog[i] == entry;
      assert ManifestFor(fs, providers[n].directory, entry, added[i]);
      ManifestReadable(fs, providers[n].directory, entry, added[i]);
    }
    forall m | m in added ensures DeclaredBy(fs, providers[n], m) {
      var i :| 0 <= i < |added| && added[i] == m;
      assert catalog[i] in RowsOf(fs, providers[n]);
    }
    ReadableExtends(fs, providers, n, before);
    AllDeclaredExtends(fs, providers, n, before, added);
    AllContributeExtends(fs, providers, n, before, added);
    forall i, j | 0 <= i < j < |before + added|
      ensures (before + added)[i].detector != (before + added)[j].detector
    {
      if i < |before| <= j { assert before[i] in before && catalog[j - |before|] in catalog; }
    }
  }

  lemma ManifestReadable(fs: FileSystem, directory: string, entry: CatalogEntry, m: DetectorManifest)
    requires ManifestFor(fs, directory, entry, m)
    ensures EntryReadable(fs, directory, entry)
  {
  }

  ghost predicate Rejected(fs: FileSystem, directory: string, before: seq<DetectorManifest>, entry: CatalogEntry) {
    entry.detector in Detectors(before) || !EntryReadable(fs, directory, entry)
  }

  // The loop over one catalog: either every entry is new and readable, or
  // some entry is not.
  method LoadEntries(fs: FileSystem, directory: string, entries: seq<CatalogEntry>,
                     before: seq<DetectorManifest>, bounds: set<UInt64>)
    returns (r: Result<(seq<DetectorManifest>, set<UInt64>), ConfigurationError>)
    requires DistinctDetectors(entries)
    ensures r.Failure? ==> exists entry :: entry in entries && Rejected(fs, directory, before, entry)
    ensures r.Success? ==> AddedFor(fs, directory, entries, r.value.0) && r.value.1 == bounds + Bounds(r.value.0)
    ensures r.Success? ==> forall entry :: entry in entries ==> entry.detector !in Detectors(before)
  {
    hide EntryReadable, ManifestFor, Bounds, RangeBounds;
    var owners := set m | m in before :: m.detector;
    var added: seq<DetectorManifest>, boundaries := [], bounds;
    NoBounds();
    for j := 0 to |entries|
      invariant AddedFor(fs, directory, entries[..j], added)
      invariant boundaries == bounds + Bounds(added)
      invariant owners == Detectors(before) + set i | 0 <= i < j :: entries[i].detector
      invariant forall i :: 0 <= i < j ==> entries[i].detector !in Detectors(before)
    {
      var entry := entries[j];
      if entry.detector in owners {
        assert Rejected(fs, directory, before, entry);
        return Failure(RepeatedDetector);
      }
      owners := owners + {entry.detector};
      var manifest := LoadEntryManifest(fs, directory, entry);
      if manifest.Failure? {
        assert Rejected(fs, directory, before, entry);
        return Failure(manifest.error);
      }
      boundaries := AddBoundaries(manifest.value.ranges, boundaries);
      BoundsNext(added, manifest.value);
      assert entries[..j + 1] == entries[..j] + [entry];
      added := added + [manifest.value];
    }
    assert entries[..|entries|] == entries;
    r := Success((added, boundaries));
  }

  lemma NoBounds()
    ensures Bounds([]) == {}
  {
  }

  method LoadProvider(fs: FileSystem, providers: seq<Provider>, n: nat, before: seq<DetectorManifest>,
                      bounds: set<UInt64>)
    returns (r: Result<(seq<DetectorManifest>, set<UInt64>), ConfigurationError>)
    requires n < |providers| && bounds == Bounds(before)
    requires ConfigurationOf(fs, providers[..n], before) && InCatalogOrder(fs, providers[..n], before)
    ensures r.Failure? ==> !Readable(fs, providers)
    ensures r.Success? ==> r.value.1 == Bounds(r.value.0)
    ensures r.Success? ==>
      ConfigurationOf(fs, providers[..n + 1], r.value.0) && InCatalogOrder(fs, providers[..n + 1], r.value.0)
  {
    var catalog := LoadCatalog(CatalogFile(fs, providers[n]));
    if catalog.Failure? {
      assert !ProviderReadable(fs, providers[n]);
      return Failure(catalog.error);
    }
    CatalogFacts(fs, providers[n], catalog.value);
    hide Bounds, IsCatalog, RowsOf, CatalogAccepts, Readable, EntryReadable, AddedFor, InCatalogOrder;
    var loaded := LoadEntries(fs, providers[n].directory, catalog.value, before, bounds);
    if loaded.Failure? {
      ghost var entry :| entry in catalog.value && Rejected(fs, providers[n].directory, before, entry);
      if entry.detector in Detectors(before) {
        ClaimedTwice(fs, providers, n, before, entry);
      } else {
        NotReadable(fs, providers, n, entry);
      }
      return Failure(loaded.error);
    }
    ProviderAdded(fs, providers, n, before, catalog.value, loaded.value.0);
    BoundsConcat(before, loaded.value.0);
    OrderExtends(fs, providers, n, before, loaded.value.0);
    r := Success((before + loaded.value.0, loaded.value.1));
  }

  lemma NotReadable(fs: FileSystem, providers: seq<Provider>, n: nat, entry: CatalogEntry)
    requires n < |providers| && entry in RowsOf(fs, providers[n])
    requires !EntryReadable(fs, providers[n].directory, entry)
    ensures !Readable(fs, providers)
  {
    hide RowsOf, EntryReadable;
  }

  // Reading succeeds exactly when everything is readable, and then delivers
  // what the catalogs name, in their order, and exactly the boundaries of it.
  method ReadConfiguration(fs: FileSystem, providers: seq<Provider>)
    returns (r: Result<(seq<DetectorManifest>, set<UInt64>), ConfigurationError>)
    ensures r.Success? <==> Readable(fs, providers)
    ensures r.Success? ==> ConfigurationOf(fs, providers, r.value.0) && InCatalogOrder(fs, providers, r.value.0)
    ensures r.Success? ==> r.value.1 == Bounds(r.value.0) && AllCut(r.value.0, r.value.1)
  {
    hide Bounds;
    NoBounds();
    var manifests: seq<DetectorManifest>, boundaries: set<UInt64> := [], {};
    for n := 0 to |providers|
      invariant ConfigurationOf(fs, providers[..n], manifests) && InCatalogOrder(fs, providers[..n], manifests)
      invariant boundaries == Bounds(manifests)
    {
      var loaded := LoadProvider(fs, providers, n, manifests, boundaries);
      if loaded.Failure? {
        return loaded;
      }
      manifests, boundaries := loaded.value.0, loaded.value.1;
    }
    assert providers[..|providers|] == providers;
    BoundsCut(manifests);
    r := Success((manifests, boundaries));
  }
}
