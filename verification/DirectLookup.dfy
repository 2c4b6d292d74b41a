// The simple thing the run tables must agree with: for a run and an address,
// look at every catalog row, every manifest row that covers the run, and the
// mapping file it names. No boundaries, no shared tables, no search.
module DirectLookup {
  import opened Common
  import opened ConfigurationText
  import opened DisjointMaps
  import opened TranslationTables
  import opened MappingFileLaws
  import opened RunRanges
  import opened DetectorCatalogs
  import opened RunTables

  // The rows of the manifest that a catalog entry names, as written.
  ghost function ManifestRows(fs: FileSystem, directory: string, entry: CatalogEntry): seq<RunRange> {
    if EntryReadable(fs, directory, entry) then
      ParseRows(fs.Open(fs.ResolveOwned(directory, entry.manifestFile).value).value.lines).value
    else []
  }

  // A row of some provider's manifest for a detector, covering the run.
  ghost predicate Claims(fs: FileSystem, provider: Provider, entry: CatalogEntry, row: RunRange, run: UInt64) {
    && entry in RowsOf(fs, provider)
    && row in ManifestRows(fs, provider.directory, entry)
    && row.Covers(run)
  }

  // The entries of the mapping file that the row names, if it can be loaded.
  ghost function ClaimedEntries(fs: FileSystem, provider: Provider, entry: CatalogEntry,
      row: RunRange): Option<Entries> {
    match fs.ResolveOwned(provider.directory, entry.manifestFile)
    case None => None
    case Some(manifest) =>
      match fs.ResolveOwned(ParentPath(manifest), row.mappingFile)
      case None => None
      case Some(path) => FilePart(fs.Open(path), entry.detector)
  }

  ghost predicate RunCovered(fs: FileSystem, providers: seq<Provider>, run: UInt64) {
    exists p, entry, row :: 0 <= p < |providers| && Claims(fs, providers[p], entry, row, run)
  }

  ghost predicate MapsDirectly(fs: FileSystem, providers: seq<Provider>, run: UInt64,
                               daq: DAQAddress, address: DetectorAddress) {
    exists p, entry, row :: 0 <= p < |providers| && Claims(fs, providers[p], entry, row, run) &&
      Claimed(ClaimedEntries(fs, providers[p], entry, row), daq, address)
  }

  ghost predicate Claimed(entries: Option<Entries>, daq: DAQAddress, address: DetectorAddress) {
    entries.Some? && daq in entries.value && entries.value[daq] == address
  }

  // Every file that applies to the run loads, and no address is claimed by two
  // detectors.
  ghost predicate SoundRun(fs: FileSystem, providers: seq<Provider>, run: UInt64) {
    && (forall p, entry, row :: 0 <= p < |providers| && Claims(fs, providers[p], entry, row, run) ==>
      ClaimedEntries(fs, providers[p], entry, row).Some?)
    && (forall p, e, r, q, f, s ::
      0 <= p < |providers| && Claims(fs, providers[p], e, r, run) &&
      0 <= q < |providers| && Claims(fs, providers[q], f, s, run) && e.detector != f.detector ==>
      NoCollision(ClaimedEntries(fs, providers[p], e, r), ClaimedEntries(fs, providers[q], f, s)))
  }

  ghost predicate NoCollision(left: Option<Entries>, right: Option<Entries>) {
    left.Some? && right.Some? ==> left.value.Keys !! right.value.Keys
  }

  // ----- One manifest at one run -----

  // What a manifest contributes to a run's table.
  function Contribution(fs: FileSystem, m: DetectorManifest, run: UInt64): Option<Entries> {
    match LinearFind(m.ranges, run)
    case None => Some(map[])
    case Some(range) =>
      match fs.ResolveOwned(m.directory, range.mappingFile)
      case None => None
      case Some(path) => FilePart(fs.Open(path), m.detector)
  }

  function Contributions(fs: FileSystem, manifests: seq<DetectorManifest>, run: UInt64): seq<Option<Entries>> {
    Map((m: DetectorManifest) => Contribution(fs, m, run), manifests)
  }

  function LoadSelected(fs: FileSystem, files: Option<FileSelection>, base: Entries): Option<Entries> {
    if files.None? then None else LoadAll(Sources(fs, files.value), base)
  }

  // Selecting files and loading them is the disjoint union of what the
  // manifests contribute.
  lemma {:induction false} SelectedIsUnion(fs: FileSystem, manifests: seq<DetectorManifest>, run: UInt64, base: Entries)
    ensures LoadSelected(fs, SelectedFiles(fs, manifests, run), base) ==
      UnionAll(Contributions(fs, manifests, run), base)
  {
    var parts := Contributions(fs, manifests, run);
    if manifests == [] {
      assert Sources(fs, []) == [] && SourceParts([]) == [];
    } else {
      var m, rest := manifests[0], SelectedFiles(fs, manifests[1..], run);
      var part := Contribution(fs, m, run);
      assert parts[0] == part && parts[1..] == Contributions(fs, manifests[1..], run);
      match LinearFind(m.ranges, run) {
        case None =>
          assert base + map[] == base;
          SelectedIsUnion(fs, manifests[1..], run, base);
        case Some(range) =>
          var path := fs.ResolveOwned(m.directory, range.mappingFile);
          if path.Some? {
            if part.Some? && part.value.Keys !! base.Keys {
              SelectedIsUnion(fs, manifests[1..], run, base + part.value);
            }
            if rest.Some? {
              FirstSource(fs, (m.detector, path.value), rest.value);
            }
          }
      }
    }
  }

  lemma FirstSource(fs: FileSystem, file: (string, string), rest: FileSelection)
    ensures SourceParts(Sources(fs, [file] + rest)) ==
      [FilePart(fs.Open(file.1), file.0)] + SourceParts(Sources(fs, rest))
  {
    assert Sources(fs, [file] + rest) == [MappingSource(fs.Open(file.1), file.0)] + Sources(fs, rest);
  }

  lemma {:induction false} SelectionNonEmpty(fs: FileSystem, manifests: seq<DetectorManifest>, run: UInt64)
    requires SelectedFiles(fs, manifests, run).Some?
    ensures SelectedFiles(fs, manifests, run).value != [] <==>
      exists m :: m in manifests && LinearFind(m.ranges, run).Some?
  {
    if manifests != [] {
      SelectionNonEmpty(fs, manifests[1..], run);
      assert manifests == [manifests[0]] + manifests[1..];
    }
  }

  // ----- From manifests to rows -----

  lemma CoveringRow(fs: FileSystem, provider: Provider, entry: CatalogEntry, m: DetectorManifest, run: UInt64)
    requires entry in RowsOf(fs, provider) && ManifestFor(fs, provider.directory, entry, m)
    ensures forall row :: Claims(fs, provider, entry, row, run) <==> LinearFind(m.ranges, run) == Some(row)
  {
    var rows := ManifestRows(fs, provider.directory, entry);
    ManifestReadable(fs, provider.directory, entry, m);
    PermutationMembers(rows, m.ranges);
    forall row ensures Claims(fs, provider, entry, row, run) <==> LinearFind(m.ranges, run) == Some(row) {
      if row in m.ranges && row.Covers(run) {
        var i :| 0 <= i < |m.ranges| && m.ranges[i] == row;
        OnlyOneCovers(m.ranges, run, i);
      }
    }
  }

  // A row that covers the run contributes exactly what its manifest does.
  lemma RowContribution(fs: FileSystem, provider: Provider, entry: CatalogEntry, m: DetectorManifest,
                        row: RunRange, run: UInt64)
    requires ManifestFor(fs, provider.directory, entry, m) && Claims(fs, provider, entry, row, run)
    ensures ClaimedEntries(fs, provider, entry, row) == Contribution(fs, m, run)
  {
    CoveringRow(fs, provider, entry, m, run);
  }

  lemma ManifestOfEntry(fs: FileSystem, providers: seq<Provider>, manifests: seq<DetectorManifest>,
                        p: nat, entry: CatalogEntry) returns (m: DetectorManifest)
    requires ConfigurationOf(fs, providers, manifests) && p < |providers| && entry in RowsOf(fs, providers[p])
    ensures m in manifests && ManifestFor(fs, providers[p].directory, entry, m)
  {
    hide RowsOf, ManifestFor, Readable;
    assert Contributes(fs, providers[p].directory, entry, manifests);
    var k :| 0 <= k < |manifests| && ManifestFor(fs, providers[p].directory, entry, manifests[k]);
    m := manifests[k];
  }

  lemma EntryOfManifest(fs: FileSystem, providers: seq<Provider>, manifests: seq<DetectorManifest>,
                        m: DetectorManifest) returns (p: nat, entry: CatalogEntry)
    requires ConfigurationOf(fs, providers, manifests) && m in manifests
    ensures p < |providers| && entry in RowsOf(fs, providers[p]) && ManifestFor(fs, providers[p].directory, entry, m)
  {
    hide RowsOf, ManifestFor, Readable;
    var n :| 0 <= n < |providers| && DeclaredBy(fs, providers[n], m);
    p := n;
    entry :| entry in RowsOf(fs, providers[p]) && ManifestFor(fs, providers[p].directory, entry, m);
  }

  // A run is covered by some manifest exactly when some row covers it.
  lemma CoveredDirectly(fs: FileSystem, providers: seq<Provider>, manifests: seq<DetectorManifest>, run: UInt64)
    requires ConfigurationOf(fs, providers, manifests)
    ensures RunCovered(fs, providers, run) <==> exists m :: m in manifests && LinearFind(m.ranges, run).Some?
  {
    hide ConfigurationOf, ManifestFor, Claims;
    if RunCovered(fs, providers, run) {
      var p, entry, row :| 0 <= p < |providers| && Claims(fs, providers[p], entry, row, run);
      assert entry in RowsOf(fs, providers[p]) by { ClaimsRow(fs, providers[p], entry, row, run); }
      var m := ManifestOfEntry(fs, providers, manifests, p, entry);
      CoveringRow(fs, providers[p], entry, m, run);
    }
    if exists m :: m in manifests && LinearFind(m.ranges, run).Some? {
      var m :| m in manifests && LinearFind(m.ranges, run).Some?;
      var p, entry := EntryOfManifest(fs, providers, manifests, m);
      CoveringRow(fs, providers[p], entry, m, run);
      assert Claims(fs, providers[p], entry, LinearFind(m.ranges, run).value, run);
    }
  }

  lemma ClaimsRow(fs: FileSystem, provider: Provider, entry: CatalogEntry, row: RunRange, run: UInt64)
    requires Claims(fs, provider, entry, row, run)
    ensures entry in RowsOf(fs, provider)
  {
  }

  // ----- The two descriptions agree -----

  // A claim seen as a manifest's contribution.
  lemma ClaimAsContribution(fs: FileSystem, providers: seq<Provider>, manifests: seq<DetectorManifest>,
                            p: nat, entry: CatalogEntry, row: RunRange, run: UInt64) returns (k: nat)
    requires ConfigurationOf(fs, providers, manifests) && p < |providers|
    requires Claims(fs, providers[p], entry, row, run)
    ensures k < |manifests| && manifests[k].detector == entry.detector
    ensures ClaimedEntries(fs, providers[p], entry, row) == Contributions(fs, manifests, run)[k]
  {
    ClaimsRow(fs, providers[p], entry, row, run);
    hide ConfigurationOf, Claims, IsManifest, ClaimedEntries, Contribution;
    var m := ManifestOfEntry(fs, providers, manifests, p, entry);
    var i :| 0 <= i < |manifests| && manifests[i] == m;
    k := i;
    RowContribution(fs, providers[p], entry, m, row, run);
  }

  // A contribution that is not empty seen as a claim.
  lemma ContributionAsClaim(fs: FileSystem, providers: seq<Provider>, manifests: seq<DetectorManifest>,
                            k: nat, run: UInt64) returns (p: nat, entry: CatalogEntry, row: RunRange)
    requires ConfigurationOf(fs, providers, manifests) && k < |manifests|
    requires Contributions(fs, manifests, run)[k] != Some(map[])
    ensures p < |providers| && Claims(fs, providers[p], entry, row, run)
    ensures entry.detector == manifests[k].detector
    ensures ClaimedEntries(fs, providers[p], entry, row) == Contributions(fs, manifests, run)[k]
  {
    hide ConfigurationOf, Claims, IsManifest, ClaimedEntries;
    p, entry := EntryOfManifest(fs, providers, manifests, manifests[k]);
    CoveringRow(fs, providers[p], entry, manifests[k], run);
    row := LinearFind(manifests[k].ranges, run).value;
    RowContribution(fs, providers[p], entry, manifests[k], row, run);
  }

  lemma SoundImpliesCollisionless(fs: FileSystem, providers: seq<Provider>, manifests: seq<DetectorManifest>,
                                  run: UInt64)
    requires ConfigurationOf(fs, providers, manifests) && SoundRun(fs, providers, run)
    ensures Collisionless(Contributions(fs, manifests, run), map[])
  {
    hide Claims, ClaimedEntries, Contribution, Readable, AllDeclared, AllContribute;
    var parts := Contributions(fs, manifests, run);
    assert |parts| == |manifests|;
    hide Contributions;
    forall k | 0 <= k < |parts| ensures parts[k].Some? {
      if parts[k] != Some(map[]) {
        var p, e, r := ContributionAsClaim(fs, providers, manifests, k, run);
      }
    }
    forall i, j | 0 <= i < j < |parts| ensures parts[i].value.Keys !! parts[j].value.Keys {
      if parts[i] != Some(map[]) && parts[j] != Some(map[]) {
        var p, e, r := ContributionAsClaim(fs, providers, manifests, i, run);
        var q, f, s := ContributionAsClaim(fs, providers, manifests, j, run);
        assert NoCollision(ClaimedEntries(fs, providers[p], e, r), ClaimedEntries(fs, providers[q], f, s));
      }
    }
  }

  lemma CollisionlessImpliesSound(fs: FileSystem, providers: seq<Provider>,
                                  manifests: seq<DetectorManifest>,
                                  run: UInt64)
    requires ConfigurationOf(fs, providers, manifests)
    requires Collisionless(Contributions(fs, manifests, run), map[])
    ensures SoundRun(fs, providers, run)
  {
    hide Claims, ClaimedEntries, Contribution, ConfigurationOf;
    forall p, entry, row | 0 <= p < |providers| && Claims(fs, providers[p], entry, row, run)
      ensures ClaimedEntries(fs, providers[p], entry, row).Some?
    {
      var k := ClaimAsContribution(fs, providers, manifests, p, entry, row, run);
    }
    forall p, e, r, q, f, s |
      0 <= p < |providers| && Claims(fs, providers[p], e, r, run) &&
      0 <= q < |providers| && Claims(fs, providers[q], f, s, run) && e.detector != f.detector
      ensures NoCollision(ClaimedEntries(fs, providers[p], e, r), ClaimedEntries(fs, providers[q], f, s))
    {
      var i := ClaimAsContribution(fs, providers, manifests, p, e, r, run);
      var j := ClaimAsContribution(fs, providers, manifests, q, f, s, run);
      assert i < j || j < i;
    }
  }

  // A run loads exactly when it is sound on the rows as written.
  lemma LoadsIffSound(fs: FileSystem, providers: seq<Provider>, manifests: seq<DetectorManifest>, run: UInt64)
    requires ConfigurationOf(fs, providers, manifests)
    ensures RunLoads(fs, manifests, run) <==> SoundRun(fs, providers, run)
  {
    SelectedIsUnion(fs, manifests, run, map[]);
    UnionAllExists(Contributions(fs, manifests, run), map[]);
    hide Collisionless, SoundRun, ConfigurationOf, UnionAll, Contributions, SelectedFiles;
    if SoundRun(fs, providers, run) {
      SoundImpliesCollisionless(fs, providers, manifests, run);
    }
    if Collisionless(Contributions(fs, manifests, run), map[]) {
      CollisionlessImpliesSound(fs, providers, manifests, run);
    }
  }

  // The combined table of a run maps an address exactly when, and exactly to
  // what, a covering row's mapping file maps it.
  lemma LookupIsDirect(fs: FileSystem, providers: seq<Provider>, manifests: seq<DetectorManifest>, run: UInt64,
                       daq: DAQAddress, address: DetectorAddress)
    requires ConfigurationOf(fs, providers, manifests) && RunLoads(fs, manifests, run)
    ensures
      Claimed(CombinedEntries(fs, SelectedFiles(fs, manifests, run).value), daq, address) <==>
      MapsDirectly(fs, providers, run, daq, address)
  {
    var parts := Contributions(fs, manifests, run);
    SelectedIsUnion(fs, manifests, run, map[]);
    UnionAllMaps(parts, map[], daq);
    UnionAllExists(parts, map[]);
    hide ConfigurationOf, UnionAll, Contributions, SelectedFiles, CombinedEntries, Claims, ClaimedEntries;
    var entries := UnionAll(parts, map[]);
    assert entries == CombinedEntries(fs, SelectedFiles(fs, manifests, run).value);
    if Claimed(entries, daq, address) {
      var k :| 0 <= k < |parts| && parts[k].Some? && daq in parts[k].value;
      var p, e, r := ContributionAsClaim(fs, providers, manifests, k, run);
      assert Claimed(ClaimedEntries(fs, providers[p], e, r), daq, address);
    }
    if MapsDirectly(fs, providers, run, daq, address) {
      var p, e, r :| 0 <= p < |providers| && Claims(fs, providers[p], e, r, run) &&
        Claimed(ClaimedEntries(fs, providers[p], e, r), daq, address);
      var k := ClaimAsContribution(fs, providers, manifests, p, e, r, run);
      assert parts[k].Some? && daq in parts[k].value;
    }
  }

  // At most one detector maps an address at a sound run, and the entry names
  // that detector.
  lemma OneDetectorMaps(fs: FileSystem, providers: seq<Provider>, run: UInt64, daq: DAQAddress,
                        p: nat, e: CatalogEntry, r: RunRange, q: nat, f: CatalogEntry, s: RunRange,
                        left: DetectorAddress, right: DetectorAddress)
    requires SoundRun(fs, providers, run) && p < |providers| && q < |providers|
    requires Claims(fs, providers[p], e, r, run) && Claimed(ClaimedEntries(fs, providers[p], e, r), daq, left)
    requires Claims(fs, providers[q], f, s, run) && Claimed(ClaimedEntries(fs, providers[q], f, s), daq, right)
    ensures e.detector == f.detector && left.detector == e.detector
  {
    hide Claims;
    BothClaim(ClaimedEntries(fs, providers[p], e, r), ClaimedEntries(fs, providers[q], f, s), daq, left, right);
    ClaimNamesDetector(fs, providers[p], e, r, run, daq);
  }

  lemma BothClaim(some: Option<Entries>, other: Option<Entries>, daq: DAQAddress,
                  left: DetectorAddress, right: DetectorAddress)
    requires Claimed(some, daq, left) && Claimed(other, daq, right)
    ensures !NoCollision(some, other)
  {
  }

  lemma EntriesNamed(lines: seq<string>)
    ensures ParseEntries(lines).Some? ==>
      forall entry :: entry in ParseEntries(lines).value ==> entry.detector != ""
  {
  }

  lemma ClaimNamesDetector(fs: FileSystem, provider: Provider, entry: CatalogEntry, row: RunRange, run: UInt64,
                           daq: DAQAddress)
    requires Claims(fs, provider, entry, row, run)
    requires ClaimedEntries(fs, provider, entry, row).Some?
    requires daq in ClaimedEntries(fs, provider, entry, row).value
    ensures ClaimedEntries(fs, provider, entry, row).value[daq].detector == entry.detector
  {
    EntriesNamed(CatalogFile(fs, provider).value.lines);
    var manifest := fs.ResolveOwned(provider.directory, entry.manifestFile).value;
    var path := fs.ResolveOwned(ParentPath(manifest), row.mappingFile).value;
    EntriesNameExpectedDetector(fs.Open(path), entry.detector, daq);
  }

  // Some row covers the lower bound of every range, so a configuration that
  // names any detector covers some run.
  lemma SomeRunCovered(fs: FileSystem, providers: seq<Provider>, manifests: seq<DetectorManifest>)
    requires ConfigurationOf(fs, providers, manifests) && providers != []
    requires AllRunsLoad(fs, manifests)
    ensures SomethingSelected(fs, manifests)
  {
    var provider := providers[0];
    assert ProviderReadable(fs, provider);
    var entry := RowsOf(fs, provider)[0];
    var m := ManifestOfEntry(fs, providers, manifests, 0, entry);
    ManifestReadable(fs, provider.directory, entry, m);
    PermutationLength(ManifestRows(fs, provider.directory, entry), m.ranges);
    var run := m.ranges[0].runMin;
    OnlyOneCovers(m.ranges, run, 0);
    assert RunLoads(fs, manifests, run);
    SelectionNonEmpty(fs, manifests, run);
    assert SelectionOf(fs, manifests)(run).Some?;
  }
}
