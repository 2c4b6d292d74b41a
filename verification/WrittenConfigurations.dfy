// A whole configuration as somebody writes it: catalogs, manifests and mapping
// files. Exactly when the service can load it, and what a run's table then is.
module WrittenConfigurations {
  import opened Common
  import opened ConfigurationText
  import opened TranslationTables
  import opened WrittenMappings
  import opened RunRanges
  import opened DetectorCatalogs
  import opened DirectLookup
  import opened TranslationService

  // One line of a manifest, with the mapping file that it refers to. Without
  // an upper bound it is written with `max`.
  datatype WrittenRange =
    WrittenRange(runMin: nat, runMax: Option<nat>, reference: string, comment: string, path: string, text: MappingText)

  // One line of a catalog, with the manifest that it refers to: a file of that
  // name in the directory.
  datatype WrittenDetector =
    WrittenDetector(name: string, reference: string, comment: string, directory: string, file: string,
                    ranges: seq<WrittenRange>)

  datatype WrittenCatalog = WrittenCatalog(directory: string, detectors: seq<WrittenDetector>)

  // ----- Manifests -----

  function LastRun(r: WrittenRange): nat {
    match r.runMax case None => 0xFFFF_FFFF_FFFF_FFFF case Some(run) => run
  }

  function RangeLine(r: WrittenRange): string {
    JoinTokens([ShowNat(r.runMin), match r.runMax case None => "max" case Some(run) => ShowNat(run), r.reference]) +
    r.comment
  }

  predicate RangeFits(r: WrittenRange) {
    r.runMin <= LastRun(r) <= 0xFFFF_FFFF_FFFF_FFFF
  }

  function RangeOf(r: WrittenRange): RunRange
    requires RangeFits(r)
  {
    RunRange(r.runMin, LastRun(r), r.reference)
  }

  predicate RangesFit(ranges: seq<WrittenRange>) {
    forall i :: 0 <= i < |ranges| ==> RangeFits(ranges[i])
  }

  function RangesOf(ranges: seq<WrittenRange>): (r: seq<RunRange>)
    requires RangesFit(ranges)
    ensures |r| == |ranges| && forall i :: 0 <= i < |r| ==> r[i] == RangeOf(ranges[i])
  {
    seq(|ranges|, i requires 0 <= i < |ranges| => RangeOf(ranges[i]))
  }

  lemma RunRead(n: nat, allowMax: bool)
    ensures IsToken(ShowNat(n))
    ensures ParseRun(ShowNat(n), allowMax) == if n <= 0xFFFF_FFFF_FFFF_FFFF then Some(n) else None
  {
    NumberTokens(n, 0);
    ParseInvertsShow(n, MAX_UINT64);
    assert IsDigit(ShowNat(n)[0]);
    hide ShowNat, ParseUnsigned;
  }

  // A written line reads as exactly the range from its first number to its
  // second one, both included, or to the greatest run number; it is malformed
  // exactly when the bounds are crossed or too large.
  lemma RangeRead(r: WrittenRange)
    requires IsToken(r.reference) && IsComment(r.comment)
    ensures ParseRow(RangeLine(r)) == if RangeFits(r) then Some([RangeOf(r)]) else None
  {
    RunRead(r.runMin, false);
    RunRead(LastRun(r), true);
    var upper := match r.runMax case None => "max" case Some(run) => ShowNat(run);
    assert IsToken("max");
    var tokens := [ShowNat(r.runMin), upper, r.reference];
    TokenizeInvertsJoin(tokens, r.comment);
    hide Tokenize, JoinTokens, ShowNat, IsToken;
    assert ParseRun("max", true) == Some(0xFFFF_FFFF_FFFF_FFFF);
    hide ParseRun;
  }

  // The greatest run that a token gives as the upper bound.
  predicate IsLastRun(token: string, run: nat) {
    if token == "max" then run == 0xFFFF_FFFF_FFFF_FFFF else AllDigits(token) && run == DecimalValue(token)
  }

  // Of all rows of tokens exactly these are ranges: three tokens, the first a
  // number, the second a number that is no smaller, or `max`.
  lemma RangeReadIff(tokens: seq<string>, comment: string, range: RunRange)
    requires (forall i :: 0 <= i < |tokens| ==> IsToken(tokens[i])) && IsComment(comment)
    ensures ParseRow(JoinTokens(tokens) + comment) == Some([range]) <==>
      && |tokens| == 3 && AllDigits(tokens[0])
      && range.runMin == DecimalValue(tokens[0]) && IsLastRun(tokens[1], range.runMax)
      && range.runMin <= range.runMax && range.mappingFile == tokens[2]
    ensures ParseRow(JoinTokens(tokens) + comment) == Some([]) <==> tokens == []
  {
    TokenizeInvertsJoin(tokens, comment);
    hide Tokenize, JoinTokens, DecimalValue, IsToken;
  }

  ghost predicate LinesWritable(ranges: seq<WrittenRange>) {
    forall i :: 0 <= i < |ranges| ==> IsToken(ranges[i].reference) && IsComment(ranges[i].comment)
  }

  lemma {:induction false} RangesRead(ranges: seq<WrittenRange>)
    requires LinesWritable(ranges)
    ensures ParseRows(Map(RangeLine, ranges)) == if RangesFit(ranges) then Some(RangesOf(ranges)) else None
  {
    hide ParseRow, RangeLine, IsToken, IsComment, RangeFits, RangeOf;
    if ranges != [] {
      RangeRead(ranges[0]);
      RangesRead(ranges[1..]);
      assert Map(RangeLine, ranges)[1..] == Map(RangeLine, ranges[1..]);
      assert forall i :: 0 < i < |ranges| ==> ranges[i] == ranges[1..][i - 1];
      if RangesFit(ranges) {
        assert RangesOf(ranges) == [RangeOf(ranges[0])] + RangesOf(ranges[1..]);
      }
    }
  }

  predicate NoSharedRun(ranges: seq<WrittenRange>) {
    forall i, j :: 0 <= i < j < |ranges| ==>
      LastRun(ranges[i]) < ranges[j].runMin || LastRun(ranges[j]) < ranges[i].runMin
  }

  predicate GoodRanges(ranges: seq<WrittenRange>) {
    ranges != [] && RangesFit(ranges) && NoSharedRun(ranges)
  }

  // A written manifest is accepted exactly when it has lines, each reads as a
  // range, and no two of them share a run.
  lemma WrittenManifestAccepted(ranges: seq<WrittenRange>)
    requires LinesWritable(ranges)
    ensures ManifestAccepts(Some(File(Map(RangeLine, ranges), true))) <==> GoodRanges(ranges)
  {
    RangesRead(ranges);
    hide ParseRows, RangeLine;
    if RangesFit(ranges) {
      var read := RangesOf(ranges);
      forall i, j | 0 <= i < j < |ranges|
        ensures read[i].Intersects(read[j]) <==>
          !(LastRun(ranges[i]) < ranges[j].runMin || LastRun(ranges[j]) < ranges[i].runMin)
      {
        IntersectsIffBoundsCross(read[i], read[j]);
      }
    }
  }

  // ----- Catalogs -----

  function EntryLine(d: WrittenDetector): string {
    JoinTokens([d.name, d.reference]) + d.comment
  }

  function EntryOf(d: WrittenDetector): CatalogEntry {
    CatalogEntry(d.name, d.reference)
  }

  ghost predicate EntryWritable(d: WrittenDetector) {
    IsToken(d.name) && IsToken(d.reference) && IsComment(d.comment)
  }

  lemma {:induction false} EntriesRead(detectors: seq<WrittenDetector>)
    requires forall i :: 0 <= i < |detectors| ==> EntryWritable(detectors[i])
    ensures ParseEntries(Map(EntryLine, detectors)) == Some(Map(EntryOf, detectors))
  {
    hide Tokenize, JoinTokens, IsToken, IsComment;
    if detectors != [] {
      var d := detectors[0];
      TokenizeInvertsJoin([d.name, d.reference], d.comment);
      EntriesRead(detectors[1..]);
      assert Map(EntryLine, detectors)[1..] == Map(EntryLine, detectors[1..]);
      assert Map(EntryOf, detectors) == [EntryOf(d)] + Map(EntryOf, detectors[1..]);
    }
  }

  // Of all rows of tokens exactly those with two are entries.
  lemma EntryReadIff(tokens: seq<string>, comment: string)
    requires (forall i :: 0 <= i < |tokens| ==> IsToken(tokens[i])) && IsComment(comment)
    ensures ParseEntry(JoinTokens(tokens) + comment) ==
      if |tokens| == 2 then Some([CatalogEntry(tokens[0], tokens[1])])
      else if tokens == [] then Some([])
      else None
  {
    TokenizeInvertsJoin(tokens, comment);
    hide Tokenize, JoinTokens, IsToken;
  }

  predicate DistinctNames(detectors: seq<WrittenDetector>) {
    forall i, j :: 0 <= i < j < |detectors| ==> detectors[i].name != detectors[j].name
  }

  // A written catalog is accepted exactly when it has lines and every detector
  // occurs once.
  lemma WrittenCatalogAccepted(detectors: seq<WrittenDetector>)
    requires forall i :: 0 <= i < |detectors| ==> EntryWritable(detectors[i])
    ensures CatalogAccepts(Some(File(Map(EntryLine, detectors), true))) <==>
      detectors != [] && DistinctNames(detectors)
  {
    EntriesRead(detectors);
    hide ParseEntries, EntryLine;
  }

  // The directory of a file.
  lemma {:induction false} ParentOfFile(directory: string, name: string)
    requires directory != "" && '/' !in name
    ensures ParentPath(directory + "/" + name) == directory
    decreases |name|
  {
    var path := directory + "/" + name;
    if name == "" {
      assert path[..|path| - 1] == directory;
    } else {
      ParentOfFile(directory, name[..|name| - 1]);
      assert path[..|path| - 1] == directory + "/" + name[..|name| - 1];
    }
  }

  // ----- What is on disk -----

  ghost predicate RangeOnDisk(fs: FileSystem, directory: string, r: WrittenRange) {
    && IsToken(r.reference) && IsComment(r.comment) && Writable(r.text)
    && fs.ResolveOwned(directory, r.reference) == Some(r.path)
    && fs.Open(r.path) == Some(File(TextLines(r.text), true))
  }

  ghost predicate DetectorOnDisk(fs: FileSystem, directory: string, d: WrittenDetector) {
    && EntryWritable(d) && d.directory != "" && '/' !in d.file
    && fs.ResolveOwned(directory, d.reference) == Some(d.directory + "/" + d.file)
    && fs.Open(d.directory + "/" + d.file) == Some(File(Map(RangeLine, d.ranges), true))
    && forall j :: 0 <= j < |d.ranges| ==> RangeOnDisk(fs, d.directory, d.ranges[j])
  }

  // The directory may be given with or without a slash at its end.
  ghost predicate CatalogOnDisk(fs: FileSystem, directory: string, c: WrittenCatalog) {
    && (directory == c.directory + "/" ||
        (directory == c.directory && c.directory != "" && c.directory[|c.directory| - 1] != '/'))
    && fs.Open(c.directory + "/" + "manifest.map") == Some(File(Map(EntryLine, c.detectors), true))
    && forall i :: 0 <= i < |c.detectors| ==> DetectorOnDisk(fs, directory, c.detectors[i])
  }

  ghost predicate AllOnDisk(fs: FileSystem, providers: seq<Provider>, catalogs: seq<WrittenCatalog>) {
    && |providers| == |catalogs|
    && forall p :: 0 <= p < |providers| ==> CatalogOnDisk(fs, providers[p].directory, catalogs[p])
  }

  lemma CatalogOpened(fs: FileSystem, provider: Provider, c: WrittenCatalog)
    requires CatalogOnDisk(fs, provider.directory, c)
    ensures CatalogFile(fs, provider) == Some(File(Map(EntryLine, c.detectors), true))
    ensures forall i :: 0 <= i < |c.detectors| ==> EntryWritable(c.detectors[i])
  {
    hide EntryLine, EntryWritable;
    assert c.directory + "/" + "manifest.map" == c.directory + ("/" + "manifest.map");
    forall i | 0 <= i < |c.detectors| ensures EntryWritable(c.detectors[i]) {
      assert DetectorOnDisk(fs, provider.directory, c.detectors[i]);
    }
  }

  // ----- When it can be read -----

  predicate GoodCatalog(c: WrittenCatalog) {
    && c.detectors != [] && DistinctNames(c.detectors)
    && forall i :: 0 <= i < |c.detectors| ==> GoodRanges(c.detectors[i].ranges)
  }

  predicate NoSharedName(left: WrittenCatalog, right: WrittenCatalog) {
    forall i, j :: 0 <= i < |left.detectors| && 0 <= j < |right.detectors| ==>
      left.detectors[i].name != right.detectors[j].name
  }

  predicate GoodCatalogs(catalogs: seq<WrittenCatalog>) {
    && (forall p :: 0 <= p < |catalogs| ==> GoodCatalog(catalogs[p]))
    && forall p, q :: 0 <= p < q < |catalogs| ==> NoSharedName(catalogs[p], catalogs[q])
  }

  lemma DetectorReadable(fs: FileSystem, directory: string, d: WrittenDetector)
    requires DetectorOnDisk(fs, directory, d)
    ensures EntryReadable(fs, directory, EntryOf(d)) <==> GoodRanges(d.ranges)
  {
    assert LinesWritable(d.ranges) by {
      forall j | 0 <= j < |d.ranges| ensures IsToken(d.ranges[j].reference) && IsComment(d.ranges[j].comment) {
        assert RangeOnDisk(fs, d.directory, d.ranges[j]);
      }
    }
    WrittenManifestAccepted(d.ranges);
    hide ManifestAccepts, GoodRanges, RangeLine;
  }

  lemma ProviderReadableIff(fs: FileSystem, provider: Provider, c: WrittenCatalog)
    requires CatalogOnDisk(fs, provider.directory, c)
    ensures ProviderReadable(fs, provider) <==> GoodCatalog(c)
    ensures ProviderReadable(fs, provider) ==> RowsOf(fs, provider) == Map(EntryOf, c.detectors)
  {
    CatalogOpened(fs, provider, c);
    WrittenCatalogAccepted(c.detectors);
    EntriesRead(c.detectors);
    hide CatalogAccepts, DistinctNames, ParseEntries, EntryLine, EntryReadable, EntryOf, GoodRanges, DetectorOnDisk;
    hide CatalogFile, EntryWritable;
    forall i | 0 <= i < |c.detectors|
      ensures EntryReadable(fs, provider.directory, EntryOf(c.detectors[i])) <==> GoodRanges(c.detectors[i].ranges)
    {
      DetectorReadable(fs, provider.directory, c.detectors[i]);
    }
    if CatalogAccepts(CatalogFile(fs, provider)) {
      var rows := Map(EntryOf, c.detectors);
      assert RowsOf(fs, provider) == rows;
      assert forall i :: 0 <= i < |rows| ==> rows[i] in rows;
    }
  }

  lemma SeparateIff(left: WrittenCatalog, right: WrittenCatalog)
    ensures SeparateDetectors(Map(EntryOf, left.detectors), Map(EntryOf, right.detectors)) <==>
      NoSharedName(left, right)
  {
    var a, b := Map(EntryOf, left.detectors), Map(EntryOf, right.detectors);
    if SeparateDetectors(a, b) {
      forall i, j | 0 <= i < |left.detectors| && 0 <= j < |right.detectors|
        ensures left.detectors[i].name != right.detectors[j].name
      {
        assert a[i] in a && b[j] in b;
      }
    }
  }

  // The catalogs and manifests can be read exactly when each of them is good
  // and no detector is in two catalogs.
  lemma WrittenReadableIff(fs: FileSystem, providers: seq<Provider>, catalogs: seq<WrittenCatalog>)
    requires AllOnDisk(fs, providers, catalogs)
    ensures Readable(fs, providers) <==> GoodCatalogs(catalogs)
  {
    hide ProviderReadable, GoodCatalog, CatalogOnDisk, SeparateDetectors, NoSharedName, RowsOf;
    forall p | 0 <= p < |providers|
      ensures ProviderReadable(fs, providers[p]) <==> GoodCatalog(catalogs[p])
      ensures ProviderReadable(fs, providers[p]) ==> RowsOf(fs, providers[p]) == Map(EntryOf, catalogs[p].detectors)
    {
      ProviderReadableIff(fs, providers[p], catalogs[p]);
    }
    forall p, q | 0 <= p < q < |providers|
      ensures SeparateDetectors(Map(EntryOf, catalogs[p].detectors), Map(EntryOf, catalogs[q].detectors)) <==>
        NoSharedName(catalogs[p], catalogs[q])
    {
      SeparateIff(catalogs[p], catalogs[q]);
    }
  }

  // ----- What applies to a run -----

  predicate Covers(r: WrittenRange, run: nat) {
    r.runMin <= run <= LastRun(r)
  }

  function PartOf(r: WrittenRange, detector: string): Option<Entries> {
    FilePart(Some(File(TextLines(r.text), true)), detector)
  }

  // Line j of the manifest of detector i covers the run.
  ghost predicate InManifest(c: WrittenCatalog, i: int, j: int, run: UInt64) {
    0 <= i < |c.detectors| && 0 <= j < |c.detectors[i].ranges| && Covers(c.detectors[i].ranges[j], run)
  }

  lemma RowsWritten(fs: FileSystem, directory: string, d: WrittenDetector)
    requires DetectorOnDisk(fs, directory, d) && GoodRanges(d.ranges)
    ensures ManifestRows(fs, directory, EntryOf(d)) == RangesOf(d.ranges)
  {
    DetectorReadable(fs, directory, d);
    assert LinesWritable(d.ranges) by {
      forall j | 0 <= j < |d.ranges| ensures IsToken(d.ranges[j].reference) && IsComment(d.ranges[j].comment) {
        assert RangeOnDisk(fs, d.directory, d.ranges[j]);
      }
    }
    RangesRead(d.ranges);
    hide ManifestAccepts, RangeLine, ParseRows;
  }

  lemma RangesFitIn(c: WrittenCatalog, i: int, j: int)
    requires GoodCatalog(c) && 0 <= i < |c.detectors| && 0 <= j < |c.detectors[i].ranges|
    ensures RangeFits(c.detectors[i].ranges[j])
  {
    hide RangeFits, DistinctNames, NoSharedRun;
    assert GoodRanges(c.detectors[i].ranges);
  }

  lemma RowClaims(fs: FileSystem, provider: Provider, c: WrittenCatalog, i: int, j: int, run: UInt64)
    requires CatalogOnDisk(fs, provider.directory, c) && GoodCatalog(c) && InManifest(c, i, j, run)
    requires RangeFits(c.detectors[i].ranges[j])
    ensures Claims(fs, provider, EntryOf(c.detectors[i]), RangeOf(c.detectors[i].ranges[j]), run)
  {
    ProviderReadableIff(fs, provider, c);
    hide ProviderReadable, RowsOf, ManifestRows, DetectorOnDisk, EntryLine, DistinctNames, EntryOf;
    var rows, d := Map(EntryOf, c.detectors), c.detectors[i];
    RowsWritten(fs, provider.directory, d);
    assert rows[i] in rows && RangesOf(d.ranges)[j] in RangesOf(d.ranges);
  }

  lemma ClaimedRow(fs: FileSystem, provider: Provider, c: WrittenCatalog, entry: CatalogEntry, row: RunRange,
                   run: UInt64) returns (i: nat, j: nat)
    requires CatalogOnDisk(fs, provider.directory, c) && GoodCatalog(c) && Claims(fs, provider, entry, row, run)
    ensures InManifest(c, i, j, run) && RangeFits(c.detectors[i].ranges[j])
    ensures entry == EntryOf(c.detectors[i]) && row == RangeOf(c.detectors[i].ranges[j])
  {
    ProviderReadableIff(fs, provider, c);
    hide ProviderReadable, RowsOf, ManifestRows, DetectorOnDisk, EntryLine, DistinctNames, EntryOf, GoodRanges;
    hide RangeOf, RangesOf;
    var rows := Map(EntryOf, c.detectors);
    i :| 0 <= i < |rows| && rows[i] == entry;
    var d := c.detectors[i];
    j := WhichRow(fs, provider.directory, d, row);
  }

  lemma WhichRow(fs: FileSystem, directory: string, d: WrittenDetector, row: RunRange) returns (j: nat)
    requires DetectorOnDisk(fs, directory, d) && GoodRanges(d.ranges)
    requires row in ManifestRows(fs, directory, EntryOf(d))
    ensures j < |d.ranges| && RangeFits(d.ranges[j]) && row == RangeOf(d.ranges[j])
  {
    RowsWritten(fs, directory, d);
    hide ManifestRows, DetectorOnDisk, RangeFits, RangeOf, NoSharedRun;
    j :| 0 <= j < |RangesOf(d.ranges)| && RangesOf(d.ranges)[j] == row;
  }

  lemma ClaimedWritten(fs: FileSystem, provider: Provider, c: WrittenCatalog, i: nat, j: nat)
    requires CatalogOnDisk(fs, provider.directory, c) && i < |c.detectors| && j < |c.detectors[i].ranges|
    requires RangeFits(c.detectors[i].ranges[j])
    ensures ClaimedEntries(fs, provider, EntryOf(c.detectors[i]), RangeOf(c.detectors[i].ranges[j])) ==
      PartOf(c.detectors[i].ranges[j], c.detectors[i].name)
  {
    hide FilePart, EntryLine, RangeLine, TextLines, RangeFits, ParentPath, Writable, EntryWritable;
    var d := c.detectors[i];
    assert DetectorOnDisk(fs, provider.directory, d);
    assert RangeOnDisk(fs, d.directory, d.ranges[j]);
    ParentOfFile(d.directory, d.file);
  }

  // Row k of the mapping file gives the address these named values.
  ghost predicate Says(t: MappingText, k: int, daq: DAQAddress, address: DetectorAddress) {
    && 0 <= k < |t.rows| && |t.rows[k].values| == |t.fields|
    && daq == AddressOf(t.rows[k])
    && address == DetectorAddress(t.detector, Labelled(t.fields, t.rows[k].values))
  }

  lemma PartWritten(r: WrittenRange, detector: string)
    requires Writable(r.text)
    ensures PartOf(r, detector).Some? <==> Acceptable(r.text, detector)
    ensures PartOf(r, detector).Some? ==>
      EntriesOf(PartOf(r, detector).value, r.text.detector, r.text.fields, r.text.rows)
  {
    WrittenFileRead(r.text, detector);
    hide ReadMapping, TextLines, Acceptable, EntriesOf, Writable;
  }

  lemma EntriesSaid(entries: Entries, t: MappingText, daq: DAQAddress, address: DetectorAddress)
    requires EntriesOf(entries, t.detector, t.fields, t.rows)
    ensures Claimed(Some(entries), daq, address) <==> exists k :: Says(t, k, daq, address)
  {
    hide AddressOf, Labelled;
    if Claimed(Some(entries), daq, address) {
      var k :| 0 <= k < |t.rows| && AddressOf(t.rows[k]) == daq;
      assert WrittenMappings.EntryOf(entries, t.detector, t.fields, t.rows[k]);
      assert Says(t, k, daq, address);
    }
    if exists k :: Says(t, k, daq, address) {
      var k :| Says(t, k, daq, address);
      assert WrittenMappings.EntryOf(entries, t.detector, t.fields, t.rows[k]);
    }
  }

  lemma EntriesKeys(entries: Entries, t: MappingText, daq: DAQAddress)
    requires EntriesOf(entries, t.detector, t.fields, t.rows)
    ensures daq in entries <==> exists k :: 0 <= k < |t.rows| && AddressOf(t.rows[k]) == daq
  {
    hide AddressOf, Labelled;
    if k :| 0 <= k < |t.rows| && AddressOf(t.rows[k]) == daq {
      assert WrittenMappings.EntryOf(entries, t.detector, t.fields, t.rows[k]);
    }
  }

  // ----- When it loads -----

  predicate NoSharedAddress(left: MappingText, right: MappingText) {
    forall k, l :: 0 <= k < |left.rows| && 0 <= l < |right.rows| ==>
      AddressOf(left.rows[k]) != AddressOf(right.rows[l])
  }

  // Every mapping file that applies to the run can be loaded for its detector,
  // and no two of different detectors share an address.
  ghost predicate GoodRun(catalogs: seq<WrittenCatalog>, run: UInt64) {
    && (forall p, i, j :: 0 <= p < |catalogs| && InManifest(catalogs[p], i, j, run) ==>
      Acceptable(catalogs[p].detectors[i].ranges[j].text, catalogs[p].detectors[i].name))
    && (forall p, i, j, q, k, l ::
      0 <= p < |catalogs| && InManifest(catalogs[p], i, j, run) &&
      0 <= q < |catalogs| && InManifest(catalogs[q], k, l, run) &&
      catalogs[p].detectors[i].name != catalogs[q].detectors[k].name ==>
      NoSharedAddress(catalogs[p].detectors[i].ranges[j].text, catalogs[q].detectors[k].ranges[l].text))
  }

  lemma NoCollisionIff(r: WrittenRange, detector: string, s: WrittenRange, other: string)
    requires Writable(r.text) && Writable(s.text) && Acceptable(r.text, detector) && Acceptable(s.text, other)
    ensures NoCollision(PartOf(r, detector), PartOf(s, other)) <==> NoSharedAddress(r.text, s.text)
  {
    PartWritten(r, detector);
    PartWritten(s, other);
    KeysDisjointIff(PartOf(r, detector).value, r.text, PartOf(s, other).value, s.text);
    hide EntriesOf, PartOf, Writable, Acceptable, NoSharedAddress;
  }

  lemma KeysDisjointIff(a: Entries, left: MappingText, b: Entries, right: MappingText)
    requires EntriesOf(a, left.detector, left.fields, left.rows)
    requires EntriesOf(b, right.detector, right.fields, right.rows)
    ensures a.Keys !! b.Keys <==> NoSharedAddress(left, right)
  {
    hide EntriesOf, AddressOf;
    forall daq ensures daq in a <==> exists k :: 0 <= k < |left.rows| && AddressOf(left.rows[k]) == daq {
      EntriesKeys(a, left, daq);
    }
    forall daq ensures daq in b <==> exists k :: 0 <= k < |right.rows| && AddressOf(right.rows[k]) == daq {
      EntriesKeys(b, right, daq);
    }
    if a.Keys !! b.Keys {
      forall k, l | 0 <= k < |left.rows| && 0 <= l < |right.rows|
        ensures AddressOf(left.rows[k]) != AddressOf(right.rows[l])
      {
        assert AddressOf(left.rows[k]) in a && AddressOf(right.rows[l]) in b;
      }
    }
  }

  // What the service finds for a line that covers the run.
  lemma RowFound(fs: FileSystem, providers: seq<Provider>, catalogs: seq<WrittenCatalog>, p: int, i: int, j: int,
                 run: UInt64) returns (entry: CatalogEntry, row: RunRange)
    requires AllOnDisk(fs, providers, catalogs) && GoodCatalogs(catalogs)
    requires 0 <= p < |catalogs| && InManifest(catalogs[p], i, j, run)
    ensures Claims(fs, providers[p], entry, row, run) && entry.detector == catalogs[p].detectors[i].name
    ensures ClaimedEntries(fs, providers[p], entry, row) ==
      PartOf(catalogs[p].detectors[i].ranges[j], catalogs[p].detectors[i].name)
    ensures Writable(catalogs[p].detectors[i].ranges[j].text)
  {
    hide Claims, ClaimedEntries, PartOf, GoodCatalog, CatalogOnDisk, RangeFits;
    var c := catalogs[p];
    assert CatalogOnDisk(fs, providers[p].directory, c);
    RangesFitIn(c, i, j);
    entry, row := EntryOf(c.detectors[i]), RangeOf(c.detectors[i].ranges[j]);
    RowClaims(fs, providers[p], c, i, j, run);
    ClaimedWritten(fs, providers[p], c, i, j);
    TextWritable(fs, providers[p], c, i, j);
  }

  lemma FoundRow(fs: FileSystem, providers: seq<Provider>, catalogs: seq<WrittenCatalog>, p: int,
                 entry: CatalogEntry, row: RunRange, run: UInt64) returns (i: nat, j: nat)
    requires AllOnDisk(fs, providers, catalogs) && GoodCatalogs(catalogs)
    requires 0 <= p < |catalogs| && Claims(fs, providers[p], entry, row, run)
    ensures InManifest(catalogs[p], i, j, run) && entry.detector == catalogs[p].detectors[i].name
    ensures ClaimedEntries(fs, providers[p], entry, row) ==
      PartOf(catalogs[p].detectors[i].ranges[j], catalogs[p].detectors[i].name)
    ensures Writable(catalogs[p].detectors[i].ranges[j].text)
  {
    hide Claims, ClaimedEntries, PartOf, GoodCatalog, CatalogOnDisk, RangeFits;
    var c := catalogs[p];
    assert CatalogOnDisk(fs, providers[p].directory, c);
    i, j := ClaimedRow(fs, providers[p], c, entry, row, run);
    ClaimedWritten(fs, providers[p], c, i, j);
    TextWritable(fs, providers[p], c, i, j);
  }

  lemma TextWritable(fs: FileSystem, provider: Provider, c: WrittenCatalog, i: nat, j: nat)
    requires CatalogOnDisk(fs, provider.directory, c) && i < |c.detectors| && j < |c.detectors[i].ranges|
    ensures Writable(c.detectors[i].ranges[j].text)
  {
    hide Writable, EntryLine, RangeLine, EntryWritable;
    var d := c.detectors[i];
    assert DetectorOnDisk(fs, provider.directory, d);
    assert RangeOnDisk(fs, d.directory, d.ranges[j]);
  }

  lemma SoundIsGood(fs: FileSystem, providers: seq<Provider>, catalogs: seq<WrittenCatalog>, run: UInt64)
    requires AllOnDisk(fs, providers, catalogs) && GoodCatalogs(catalogs) && SoundRun(fs, providers, run)
    ensures GoodRun(catalogs, run)
  {
    hide CatalogOnDisk, GoodCatalogs, Claims, ClaimedEntries, PartOf, Writable, Acceptable, Covers, NoCollision;
    hide NoSharedAddress;
    forall p, i, j | 0 <= p < |catalogs| && InManifest(catalogs[p], i, j, run)
      ensures Acceptable(catalogs[p].detectors[i].ranges[j].text, catalogs[p].detectors[i].name)
    {
      var e, r := RowFound(fs, providers, catalogs, p, i, j, run);
      PartWritten(catalogs[p].detectors[i].ranges[j], catalogs[p].detectors[i].name);
    }
    forall p, i, j, q, k, l |
      0 <= p < |catalogs| && InManifest(catalogs[p], i, j, run) &&
      0 <= q < |catalogs| && InManifest(catalogs[q], k, l, run) &&
      catalogs[p].detectors[i].name != catalogs[q].detectors[k].name
      ensures NoSharedAddress(catalogs[p].detectors[i].ranges[j].text, catalogs[q].detectors[k].ranges[l].text)
    {
      var left, right := catalogs[p].detectors[i], catalogs[q].detectors[k];
      var e, r := RowFound(fs, providers, catalogs, p, i, j, run);
      var f, s := RowFound(fs, providers, catalogs, q, k, l, run);
      NoCollisionIff(left.ranges[j], left.name, right.ranges[l], right.name);
      assert NoCollision(ClaimedEntries(fs, providers[p], e, r), ClaimedEntries(fs, providers[q], f, s));
    }
  }

  lemma GoodIsSound(fs: FileSystem, providers: seq<Provider>, catalogs: seq<WrittenCatalog>, run: UInt64)
    requires AllOnDisk(fs, providers, catalogs) && GoodCatalogs(catalogs) && GoodRun(catalogs, run)
    ensures SoundRun(fs, providers, run)
  {
    hide CatalogOnDisk, GoodCatalogs, Claims, ClaimedEntries, PartOf, Writable, Acceptable, Covers, NoCollision;
    hide NoSharedAddress;
    forall p, entry, row | 0 <= p < |providers| && Claims(fs, providers[p], entry, row, run)
      ensures ClaimedEntries(fs, providers[p], entry, row).Some?
    {
      var i, j := FoundRow(fs, providers, catalogs, p, entry, row, run);
      PartWritten(catalogs[p].detectors[i].ranges[j], catalogs[p].detectors[i].name);
    }
    forall p, e, r, q, f, s |
      0 <= p < |providers| && Claims(fs, providers[p], e, r, run) &&
      0 <= q < |providers| && Claims(fs, providers[q], f, s, run) && e.detector != f.detector
      ensures NoCollision(ClaimedEntries(fs, providers[p], e, r), ClaimedEntries(fs, providers[q], f, s))
    {
      var i, j := FoundRow(fs, providers, catalogs, p, e, r, run);
      var k, l := FoundRow(fs, providers, catalogs, q, f, s, run);
      var left, right := catalogs[p].detectors[i], catalogs[q].detectors[k];
      assert NoSharedAddress(left.ranges[j].text, right.ranges[l].text);
      NoCollisionIff(left.ranges[j], left.name, right.ranges[l], right.name);
    }
  }

  // A written configuration can be loaded exactly when every catalog names its
  // detectors once, no two catalogs name the same one, every manifest has lines
  // with uncrossed bounds that share no run, and at every run the mapping files
  // that apply declare the right detector, are well formed and share no
  // address.
  lemma WrittenLoadable(fs: FileSystem, providers: seq<Provider>, catalogs: seq<WrittenCatalog>)
    requires AllOnDisk(fs, providers, catalogs)
    ensures Loadable(fs, providers) <==>
      (catalogs != [] ==> GoodCatalogs(catalogs) && forall run: UInt64 :: GoodRun(catalogs, run))
  {
    hide CatalogOnDisk, GoodCatalogs, GoodRun, SoundRun, Readable;
    WrittenReadableIff(fs, providers, catalogs);
    if GoodCatalogs(catalogs) {
      forall run: UInt64 ensures SoundRun(fs, providers, run) <==> GoodRun(catalogs, run) {
        hide AllOnDisk;
        if SoundRun(fs, providers, run) { SoundIsGood(fs, providers, catalogs, run); }
        if GoodRun(catalogs, run) { GoodIsSound(fs, providers, catalogs, run); }
      }
    }
  }

  // ----- What a run's table says -----

  ghost predicate CoveredAsWritten(catalogs: seq<WrittenCatalog>, run: UInt64) {
    exists p, i, j :: 0 <= p < |catalogs| && InManifest(catalogs[p], i, j, run)
  }

  ghost predicate SaidAt(c: WrittenCatalog, run: UInt64, daq: DAQAddress, address: DetectorAddress) {
    exists i, j, k :: InManifest(c, i, j, run) && Says(c.detectors[i].ranges[j].text, k, daq, address)
  }

  ghost predicate Said(catalogs: seq<WrittenCatalog>, run: UInt64, daq: DAQAddress, address: DetectorAddress) {
    exists p :: 0 <= p < |catalogs| && SaidAt(catalogs[p], run, daq, address)
  }

  lemma WrittenCovered(fs: FileSystem, providers: seq<Provider>, catalogs: seq<WrittenCatalog>, run: UInt64)
    requires AllOnDisk(fs, providers, catalogs) && GoodCatalogs(catalogs)
    ensures RunCovered(fs, providers, run) <==> CoveredAsWritten(catalogs, run)
  {
    hide CatalogOnDisk, GoodCatalogs, Claims, ClaimedEntries, PartOf, Writable, Covers;
    if RunCovered(fs, providers, run) {
      var p, entry, row :| 0 <= p < |providers| && Claims(fs, providers[p], entry, row, run);
      var i, j := FoundRow(fs, providers, catalogs, p, entry, row, run);
      assert InManifest(catalogs[p], i, j, run);
    }
    if p, i, j :| 0 <= p < |catalogs| && InManifest(catalogs[p], i, j, run) {
      var e, r := RowFound(fs, providers, catalogs, p, i, j, run);
    }
  }

  lemma PartSaid(r: WrittenRange, detector: string, daq: DAQAddress, address: DetectorAddress)
    requires Writable(r.text) && Acceptable(r.text, detector)
    ensures Claimed(PartOf(r, detector), daq, address) <==> exists k :: Says(r.text, k, daq, address)
  {
    PartWritten(r, detector);
    EntriesSaid(PartOf(r, detector).value, r.text, daq, address);
    hide PartOf, EntriesOf, Writable, Acceptable, Says;
  }

  lemma WrittenMaps(fs: FileSystem, providers: seq<Provider>, catalogs: seq<WrittenCatalog>, run: UInt64,
                    daq: DAQAddress, address: DetectorAddress)
    requires AllOnDisk(fs, providers, catalogs) && GoodCatalogs(catalogs) && GoodRun(catalogs, run)
    ensures MapsDirectly(fs, providers, run, daq, address) <==> Said(catalogs, run, daq, address)
  {
    hide CatalogOnDisk, GoodCatalogs, Claims, ClaimedEntries, PartOf, Writable, Covers, Claimed, Says, Acceptable;
    hide NoSharedAddress;
    if MapsDirectly(fs, providers, run, daq, address) {
      var p, e, r :| 0 <= p < |providers| && Claims(fs, providers[p], e, r, run) &&
        Claimed(ClaimedEntries(fs, providers[p], e, r), daq, address);
      var i, j := FoundRow(fs, providers, catalogs, p, e, r, run);
      PartSaid(catalogs[p].detectors[i].ranges[j], catalogs[p].detectors[i].name, daq, address);
      var k :| Says(catalogs[p].detectors[i].ranges[j].text, k, daq, address);
      assert SaidAt(catalogs[p], run, daq, address);
    }
    if p :| 0 <= p < |catalogs| && SaidAt(catalogs[p], run, daq, address) {
      var i, j, k :| InManifest(catalogs[p], i, j, run) &&
        Says(catalogs[p].detectors[i].ranges[j].text, k, daq, address);
      var e, r := RowFound(fs, providers, catalogs, p, i, j, run);
      PartSaid(catalogs[p].detectors[i].ranges[j], catalogs[p].detectors[i].name, daq, address);
    }
  }

  // What the service answers for a written configuration that it loaded: a
  // table exactly for the runs within the bounds of some manifest line, and in
  // it an address exactly when a row of that line's mapping file has its ROC,
  // slot and channel, with the values of that row under the declared names.
  lemma AnswersAsWritten(fs: FileSystem, providers: seq<Provider>, catalogs: seq<WrittenCatalog>, c: Configuration,
                         run: UInt64, daq: DAQAddress, address: DetectorAddress)
    requires AllOnDisk(fs, providers, catalogs) && providers != [] && LoadedFrom(fs, providers, c)
    ensures Answer(c, run).Some? <==> CoveredAsWritten(catalogs, run)
    ensures Claimed(Answer(c, run), daq, address) <==> Said(catalogs, run, daq, address)
  {
    AnswerIsDirect(fs, providers, c, run, daq, address);
    LoadableIffAllRunsLoad(fs, providers, c.manifests);
    WrittenLoadable(fs, providers, catalogs);
    hide Answer, Claimed, RunCovered, CoveredAsWritten, Said, MapsDirectly, AllOnDisk, Loadable, GoodCatalogs, GoodRun;
    WrittenCovered(fs, providers, catalogs, run);
    WrittenMaps(fs, providers, catalogs, run, daq, address);
  }

  // ----- Which catalogs are loaded -----

  // A service with an explicit directory answers what is written there,
  // whatever other catalogs there are; without one it answers what is written
  // in the default catalogs, if there are any, and otherwise in the registered
  // ones. Where nothing is configured every run has the empty table.
  lemma ServiceAnswersAsWritten(fs: FileSystem, directory: string, defaults: seq<Provider>, registered: seq<Provider>,
                                catalogs: seq<WrittenCatalog>, c: Configuration, run: UInt64, daq: DAQAddress,
                                address: DetectorAddress)
    requires directory != "" ==> |catalogs| == 1 && CatalogOnDisk(fs, directory, catalogs[0])
    requires directory == "" && defaults != [] ==> AllOnDisk(fs, defaults, catalogs)
    requires directory == "" && defaults == [] ==> AllOnDisk(fs, registered, catalogs)
    requires LoadedFrom(fs, ChooseProviders(directory, defaults, registered), c)
    ensures catalogs == [] ==> Answer(c, run) == Some(map[])
    ensures catalogs != [] ==> (Answer(c, run).Some? <==> CoveredAsWritten(catalogs, run))
    ensures catalogs != [] ==> (Claimed(Answer(c, run), daq, address) <==> Said(catalogs, run, daq, address))
  {
    var providers := ChooseProviders(directory, defaults, registered);
    hide CatalogOnDisk, LoadedFrom, Answer, CoveredAsWritten, Claimed, Said;
    if catalogs == [] {
      AnswerIsDirect(fs, providers, c, run, daq, address);
    } else {
      AnswersAsWritten(fs, providers, catalogs, c, run, daq, address);
    }
  }

  // And a load succeeds exactly when what is written there is sound.
  lemma ServiceLoadsAsWritten(fs: FileSystem, directory: string, defaults: seq<Provider>, registered: seq<Provider>,
                              catalogs: seq<WrittenCatalog>)
    requires directory != "" ==> |catalogs| == 1 && CatalogOnDisk(fs, directory, catalogs[0])
    requires directory == "" && defaults != [] ==> AllOnDisk(fs, defaults, catalogs)
    requires directory == "" && defaults == [] ==> AllOnDisk(fs, registered, catalogs)
    ensures Loadable(fs, ChooseProviders(directory, defaults, registered)) <==>
      (catalogs != [] ==> GoodCatalogs(catalogs) && forall run: UInt64 :: GoodRun(catalogs, run))
  {
    hide CatalogOnDisk, Loadable, GoodCatalogs, GoodRun;
    WrittenLoadable(fs, ChooseProviders(directory, defaults, registered), catalogs);
  }
}
