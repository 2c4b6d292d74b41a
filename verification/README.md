# Detector readout: decoding, routing and translation

A Dafny model of the parts of the readout software that turn EVIO banks into
detector hits, and proofs of what they promise. `dafny verify dfyconfig.toml`
checks the whole project.

**Run tables.** Detector catalogs name manifests; a manifest gives a detector's
mapping files by run range. The service reads all of them once, cuts the run
numbers at every bound, builds one combined address table for each interval,
lets equal file selections share a table, merges abutting intervals, and then
answers `getTable` through a one-entry cache and a binary search that threads
share. `DirectLookup` states the simple thing this must agree with, on the rows
as they are written; `TranslationService` and `ConcurrentLookup` prove that it
does, for every run up to the greatest 64-bit number and under every
interleaving. `WrittenMappings` and `WrittenConfigurations` start one step
earlier, at the text: for catalogs, manifests and mapping files written from
numbers and names they say when the service loads them and what every address
is mapped to. The file system is a partial function from paths to lines.
Relaxed atomics are covered by letting a cache read return any value ever
stored, and a flag test miss a flag that is set.

**Decoders.** `Fadc`, `Mpd`, `Vftdc` and `Helicity` hold the word loops with
their cursors, registers and sub-parsers, each proved against a decoder on
32-bit words (`bv32`, with the bit slices of the original). A decoder ends in
one of three ways: decoded, rejected by an exception, or undefined, where the
original uses an event that no header opened or a word beyond the end. Nothing
is required of the input. The files whose names end in `RoundTrip` encode whole
readouts and prove what decoding gives back.
`BlockFraming` is the framing that the decoders share, and `StreamTraces` what
every stream read under it satisfies, accepted or not.
`Consolidation` merges the published objects by event number, and
`EventParser` puts filter, routes, parsers and consolidation together;
`EventFiltering` says which banks of an event count, and `EventRoundTrip` runs
encoded readouts of all kinds through it.

**Registries.** `BankRoutes` (layered bank routes with a freeze),
`FilterIndex` (the allow-list) and `Translators` (detector routes, their dump
outputs, and the translation of an event) are classes whose methods are proved
equal to functions on values; the files whose names end in `Laws` prove what
holds over every sequence of calls.

The model follows the code where it departs from its documentation or from what
its names suggest:

- The helicity decoder publishes an event when the next header is met. Of two
  blocks with an event each the second event gets a wrong number, and any word
  after the last trailer that the decoder passes over loses the last event,
  also with one block
  (`HelicityRoundTrip.TwoBlocksMisnumbered`, `HelicityRoundTrip.LastEventLost`);
  `HelicityRoundTrip.NumberedRightIff` says exactly when the numbers are right.
- A hit before the first event header, a trigger time at the end of a bank, and
  an MPD frame that nothing ends are not rejected but misread. Each decoder has
  a lemma `HowItEnds` that says exactly when, and a lemma `MisreadStreams` with
  concrete banks.
- A hit between a later block header and its first event header is filed under
  the last event of an earlier block. `StreamTraces.InOwnBlockIff` says exactly
  which hits go to an event of their own block, and
  `FadcExamples.EarlyHitMisfiled` gives a bank where one does not.
- MPD and VFTDC trigger times lose the bits above 32 (`Words.TimestampKept`).
- A mapping file that writes the channel 4294967295 as a number means the same
  as `none`, although the documentation reserves `none` for records without a
  channel; no other token does (`MappingFileLaws.UnspecifiedChannelIff`).
- A filter file with a malformed row is reported as an error but keeps the rows
  before it, unlike a bank mapping layer, which is all or nothing. It leaves
  the rows as they were exactly when all of those are known already
  (`FilterLaws.LoadKeepsRowsIff`, `FilterLaws.FailedLoadAddsRow`).

## Model

| member | source | states |
|---|---|---|
| ConfigurationText.TokenizeInvertsJoin | src/plugins/detector_translation/detector_mapping/TranslationTable.cc:23-35 | every written row of tokens is read back token by token, and a trailing comment is invisible |
| ConfigurationText.LayoutInvisible | src/plugins/detector_translation/detector_mapping/TranslationTable.cc:23-35 | however tokens are laid out with blanks, tabs and line ends, exactly these tokens are read |
| ConfigurationText.ParseInvertsShow | src/plugins/detector_translation/detector_mapping/TranslationTable.cc:37-51 | an unsigned integer is read back exactly when it is in the range of its type |
| ConfigurationText.ParseInvertsShowInt | src/plugins/detector_translation/detector_mapping/TranslationTable.cc:37-51 | the same for signed 32-bit integers, both ends of the range included |
| TranslationTables.TranslationTable.Insert | src/plugins/detector_translation/detector_mapping/TranslationTable.cc:65-67 | inserts exactly when the address is new, and never changes an existing entry |
| TranslationTables.TranslationTable.Lookup | src/plugins/detector_translation/detector_mapping/TranslationTable.cc:69-72 | an address is found exactly when it has an entry |
| TranslationTables.TranslationTable.LoadMappingFile | src/plugins/detector_translation/detector_mapping/TranslationTable.cc:78-173 | all or nothing: any failure leaves the table as it was, success adds the disjoint union of what the lines of the file say, and the kind of failure is the one the reader or the merge gives; which columns mean what is `WrittenMappings.WrittenFileLoads` |
| TranslationTables.TranslationTable.MergeLoaded | src/plugins/detector_translation/detector_mapping/TranslationTable.cc:166-172 | the copy and swap succeed exactly when no address is present in both tables |
| MappingFileLaws.DeclaredLinesAreParts | src/plugins/detector_translation/detector_mapping/TranslationTable.cc:92-157 | once both declarations are read, reading lines is taking a disjoint union of what the lines say |
| MappingFileLaws.RowOrderInvisible | src/plugins/detector_translation/detector_mapping/TranslationTable.cc:92-172 | the rows of a file load to the same entries, or fail, in every order |
| MappingFileLaws.FileOrderInvisible | src/plugins/detector_translation/services/JEventService_TranslationTable.cc:176-179 | a list of files loads to the same table in every order, or fails in every order |
| MappingFileLaws.EntriesNameExpectedDetector | src/plugins/detector_translation/detector_mapping/TranslationTable.cc:103-110 | every entry of a file names the detector that the catalog expects |
| MappingFileLaws.UnspecifiedChannelIff | src/plugins/detector_translation/detector_mapping/TranslationTable.cc:53-62 | a token means an unspecified channel exactly when it is `none` or writes the number 4294967295 |
| MappingFileLaws.WrittenSentinel | src/plugins/detector_translation/detector_mapping/TranslationTable.cc:53-62 | a row that writes that number adds the same entry as a row with `none` |
| WrittenMappings.WrittenRowRead | src/plugins/detector_translation/detector_mapping/TranslationTable.cc:112-163 | a written row of ROC, slot, channel and values, with any comment, adds exactly the entry of that address with the values under the declared names, in order; it is malformed exactly when a number is out of range, the values do not match the fields, or the address is taken |
| WrittenMappings.ChannelRowReadIff | src/plugins/detector_translation/detector_mapping/TranslationTable.cc:112-157 | of all rows of tokens exactly those add an entry that have ROC and slot in digits, the channel in digits or `none`, and one signed number in range for each field; the entry is the one they say |
| WrittenMappings.WrittenFileRead | src/plugins/detector_translation/detector_mapping/TranslationTable.cc:78-164 | a written file is read exactly when its detector is the expected one, the field names differ, and the rows fit and have different addresses; its entries are then exactly those of its rows |
| WrittenMappings.WrittenFileLoads | src/plugins/detector_translation/detector_mapping/TranslationTable.cc:78-173 | loading it into a table needs besides that none of its addresses is there, and adds exactly these entries |
| WrittenMappings.FileAcceptedIff | src/plugins/detector_translation/detector_mapping/TranslationTable.cc:86-164 | any file is accepted exactly when its first line with a token declares the expected detector, the next one the fields, each once, and all later lines are blank or rows for these fields with different addresses |
| DisjointMaps.UnionAllExists | src/plugins/detector_translation/detector_mapping/TranslationTable.cc:154-172 | the combination exists exactly when no part is missing and no key is claimed twice |
| DisjointMaps.UnionAllMaps | src/plugins/detector_translation/detector_mapping/TranslationTable.cc:154-172 | a combined table maps precisely what its base or one of the parts maps, and to the same address |
| DisjointMaps.UnionAllOrderInvisible | src/plugins/detector_translation/detector_mapping/TranslationTable.cc:154-172 | the order of the parts decides neither whether they combine nor what they combine to |
| RunRanges.AdjacentCheckComplete | src/plugins/detector_translation/services/translation_table/DetectorMappingManifest.cc:110-118 | for rows in any order, the adjacent check after sorting passes exactly when no two ranges share a run |
| RunRanges.DisjointIsUnordered | src/plugins/detector_translation/services/translation_table/DetectorMappingManifest.cc:110-118 | whether ranges are pairwise disjoint does not depend on the order in which they are written |
| WrittenConfigurations.RangeRead | src/plugins/detector_translation/services/translation_table/DetectorMappingManifest.cc:48-105 | a written manifest row, with any comment, reads as exactly the runs from its first number to its second, both included, or to the greatest run number for `max`; it is malformed exactly when the bounds are crossed or too large |
| WrittenConfigurations.RangeReadIff | src/plugins/detector_translation/services/translation_table/DetectorMappingManifest.cc:48-105 | of all rows of tokens exactly those are ranges that have three tokens, the first a number, the second a number that is no smaller, or `max` |
| WrittenConfigurations.WrittenManifestAccepted | src/plugins/detector_translation/services/translation_table/DetectorMappingManifest.cc:71-120 | a written manifest is accepted exactly when it has rows, none is malformed, and no two share a run |
| WrittenConfigurations.WrittenCatalogAccepted | src/plugins/detector_translation/services/translation_table/DetectorMappingManifest.cc:122-154 | a written catalog is accepted exactly when it has rows and names no detector twice |
| WrittenConfigurations.EntryReadIff | src/plugins/detector_translation/services/translation_table/DetectorMappingManifest.cc:136-145 | of all rows of tokens exactly those with two are catalog entries |
| RunRanges.ManifestUnique | src/plugins/detector_translation/services/translation_table/DetectorMappingManifest.cc:110-119 | two accepted results of the same rows are equal: there is one sorted permutation |
| RunRanges.SortAndCheck | src/plugins/detector_translation/services/translation_table/DetectorMappingManifest.cc:110-118 | rejects exactly when two ranges intersect; otherwise an ordered permutation of the rows |
| RunRanges.LoadManifest | src/plugins/detector_translation/services/translation_table/DetectorMappingManifest.cc:71-120 | accepts exactly the complete files of well-formed, disjoint, non-empty rows, and for each of the four errors says exactly which files give it |
| RunRanges.UpperBound | src/plugins/detector_translation/services/JEventService_TranslationTable.cc:58-62 | the binary search finds the first item whose lower bound exceeds the run |
| RunRanges.FindRange | src/plugins/detector_translation/services/JEventService_TranslationTable.cc:55-69 | binary search on an accepted manifest agrees with looking at every range, for every run |
| DetectorCatalogs.LoadCatalog | src/plugins/detector_translation/services/translation_table/DetectorMappingManifest.cc:122-159 | accepts exactly the complete catalogs with distinct detectors, and delivers them in detector order |
| DetectorCatalogs.AddBoundaries | src/plugins/detector_translation/services/JEventService_TranslationTable.cc:134-139 | adds every bound and every successor of a bound, and nothing else; the successor of the greatest run number is never formed |
| DetectorCatalogs.ReadConfiguration | src/plugins/detector_translation/services/JEventService_TranslationTable.cc:115-146 | succeeds exactly when every catalog and manifest is readable and no detector is named twice, and then delivers exactly the manifests that the catalogs name, catalog by catalog and by detector within each, with exactly the boundaries of their ranges |
| DetectorCatalogs.ManifestsUnique | src/plugins/detector_translation/services/JEventService_TranslationTable.cc:115-146 | a file system and a list of providers determine the manifests and their order |
| DetectorCatalogs.TextBelowIff | src/plugins/detector_translation/services/translation_table/DetectorMappingManifest.cc:155-157 | the order of the detectors is by the first differing character, a prefix coming first |
| WrittenConfigurations.ParentOfFile | src/plugins/detector_translation/services/JEventService_TranslationTable.cc:140-144 | the directory of a file is what stands before its last slash |
| RunSpans.AddIntervalKeepsCanonical | src/plugins/detector_translation/services/JEventService_TranslationTable.cc:183-190 | coalescing keeps the list sorted, disjoint, faithful, complete, and free of abutting entries that could have been one |
| RunSpans.CanonicalUnique | src/plugins/detector_translation/services/JEventService_TranslationTable.cc:152-191 | the selection alone determines the list: two canonical lists of it are equal |
| RunSpans.FindConstantBetween | src/plugins/detector_translation/services/JEventService_TranslationTable.cc:134-139 | between two neighbouring boundaries no manifest can tell two runs apart |
| RunTables.SelectFiles | src/plugins/detector_translation/services/JEventService_TranslationTable.cc:159-169 | the files found by binary search are those of a linear look at every manifest |
| RunTables.LoadTable | src/plugins/detector_translation/services/JEventService_TranslationTable.cc:175-180 | a new table exists exactly when the selected files combine, and holds exactly what they combine to |
| RunTables.TableFor | src/plugins/detector_translation/services/JEventService_TranslationTable.cc:174-181 | equal selections share one table and different selections never do |
| RunTables.SweepInterval | src/plugins/detector_translation/services/JEventService_TranslationTable.cc:152-191 | one elementary interval extends what is established about all runs below it, and fails only if its runs cannot be loaded |
| RunTables.BuildRunTables | src/plugins/detector_translation/services/JEventService_TranslationTable.cc:148-195 | succeeds exactly when every run's files resolve and combine and some run selects a file, and delivers the canonical list up to the greatest 64-bit run number |
| DirectLookup.SelectedIsUnion | src/plugins/detector_translation/services/JEventService_TranslationTable.cc:159-181 | selecting files and loading them is the disjoint union of what each manifest contributes to the run |
| DirectLookup.CoveredDirectly | src/plugins/detector_translation/services/JEventService_TranslationTable.cc:159-172 | a run has a range in some manifest exactly when some written row covers it |
| DirectLookup.LoadsIffSound | src/plugins/detector_translation/services/JEventService_TranslationTable.cc:159-181 | a run loads exactly when every file that applies to it loads and no address is claimed by two detectors, stated on the rows as written |
| DirectLookup.LookupIsDirect | src/plugins/detector_translation/services/JEventService_TranslationTable.cc:159-181 | the combined table maps an address exactly when, and exactly to what, the file of a covering row maps it |
| DirectLookup.OneDetectorMaps | src/plugins/detector_translation/services/JEventService_TranslationTable.cc:117-130 | at most one detector maps an address at a run, and the entry names it |
| TranslationService.BuildFrom | src/plugins/detector_translation/services/JEventService_TranslationTable.cc:115-195 | a load succeeds exactly when the configuration is readable and every run is sound; the list answers every run, tables are shared exactly by equal selections, and it is the one list of these files and providers |
| TranslationService.TranslationTableService.LoadTables | src/plugins/detector_translation/services/JEventService_TranslationTable.cc:89-198 | publishes a complete list or changes nothing; without providers every run gets the empty table |
| TranslationService.TranslationTableService.GetTable | src/plugins/detector_translation/services/JEventService_TranslationTable.cc:200-232 | loads once, and returns for every run exactly the answer of the configuration whatever the cache holds; a failing lookup leaves the cache alone |
| TranslationService.TranslationTableService.FindTable | src/plugins/detector_translation/services/JEventService_TranslationTable.cc:209-231 | cache and binary search together answer as the configuration does, and only the cache can change |
| TranslationService.SearchTables | src/plugins/detector_translation/services/JEventService_TranslationTable.cc:215-229 | the binary search finds an entry exactly when one covers the run |
| TranslationService.SweptIsPublished | src/plugins/detector_translation/services/JEventService_TranslationTable.cc:148-196 | the swept list answers every run, abutting entries never share a table, and two entries share one exactly when they selected the same files |
| TranslationService.AnswerIsDirect | src/plugins/detector_translation/services/JEventService_TranslationTable.cc:115-232 | for every configuration that loads, every run and every address: a request fails exactly when no written row covers the run, and an address is mapped exactly as a covering row's file maps it |
| WrittenConfigurations.WrittenLoadable | src/plugins/detector_translation/services/JEventService_TranslationTable.cc:109-195 | for every configuration written to disk: it can be loaded exactly when every catalog names its detectors once, no two name the same one, every manifest is accepted, and at every run the mapping files that apply declare the right detector, are well formed and share no address |
| WrittenConfigurations.AnswersAsWritten | src/plugins/detector_translation/services/JEventService_TranslationTable.cc:109-232 | and every answer is the one written there: a table exactly for the runs within the bounds of some manifest row, and in it an address exactly when a channel row of that row's mapping file has its ROC, slot and channel, with the values of that row under the declared names |
| WrittenConfigurations.ServiceAnswersAsWritten | src/plugins/detector_translation/services/JEventService_TranslationTable.cc:89-108 | an explicit directory decides alone, otherwise the default catalogs do, otherwise the registered ones, whatever is written elsewhere; with none of them every run has the empty table |
| WrittenConfigurations.ServiceLoadsAsWritten | src/plugins/detector_translation/services/JEventService_TranslationTable.cc:89-195 | the same precedence for whether a load succeeds |
| TranslationService.PublishedListUnique | src/plugins/detector_translation/services/JEventService_TranslationTable.cc:148-196 | two loads from the same file system and providers publish the same list |
| ConcurrentLookup.StepKeepsInvariant | src/plugins/detector_translation/services/JEventService_TranslationTable.cc:200-232 | every atomic step of every thread keeps the invariant of the load-once, cache and search protocol |
| ConcurrentLookup.RunKeepsInvariant | src/plugins/detector_translation/services/JEventService_TranslationTable.cc:200-232 | so does every finite run of steps, however the threads interleave |
| ConcurrentLookup.PublishedListIsFinal | src/plugins/detector_translation/services/JEventService_TranslationTable.cc:196-206 | once published, the list never changes again |
| ConcurrentLookup.EveryInterleavingIsSequential | src/plugins/detector_translation/services/JEventService_TranslationTable.cc:200-232 | under every interleaving the tables are read only after a completed load, at most one list is published, the cache holds only null or an entry of it, and every returned table is the sequential, uncached answer |
| ConcurrentLookup.PublishedWasBuilt | src/plugins/detector_translation/services/JEventService_TranslationTable.cc:200-206 | the published list is one that a completed load built |
| ConcurrentLookup.FailedLoadCanBeRetried | src/plugins/detector_translation/services/JEventService_TranslationTable.cc:202-207 | a load that throws publishes nothing, and another waiting thread can run it again |
| ConcurrentLookup.FailedLookupLeavesCache | src/plugins/detector_translation/services/JEventService_TranslationTable.cc:220-229 | a lookup that finds no entry stores nothing |
| TranslationService.UncachedIsAnswer | src/plugins/detector_translation/services/JEventService_TranslationTable.cc:209-231 | the sequential answer on a published list is the answer of the configuration |
| TranslationService.EveryInterleavingAnswers | src/plugins/detector_translation/services/JEventService_TranslationTable.cc:200-232 | under every interleaving every returned table holds the configuration's answer for its run, if every load that completes builds a list for the configuration |
| Words.DefiningWordParts | src/plugins/evio_parser/core/ModuleParser.h:88-93 | type and payload of a defining word are recovered by bit slices |
| Words.TimestampKept | src/plugins/evio_common_modules/module_parsers/MPD/ModuleParser_MPD.cc:97-100 | of a 48-bit trigger time the MPD and VFTDC decoders keep the low 32 bits, and so the whole exactly when its high half is below 256 |
| BlockFraming.CountersAreCounts | src/plugins/evio_common_modules/module_parsers/FADC/ModuleParser_FADC.cc:53-90 | at every point of an accepted stream the counters are functions of what was seen: declared minus seen, headers since the last trailer, and the largest such count |
| BlockFraming.TrailerClosesBlock | src/plugins/evio_common_modules/module_parsers/FADC/ModuleParser_FADC.cc:59-66 | a trailer is accepted only where exactly the declared number of events was seen |
| BlockFraming.PeakIsReached | src/plugins/evio_common_modules/module_parsers/FADC/ModuleParser_FADC.cc:86-90 | the number of published events is the event index at some point of the stream |
| StreamTraces.ChainedIsWellFramed | src/plugins/evio_common_modules/module_parsers/FADC/ModuleParser_FADC.cc:53-90 | any decoder whose steps follow the framing has these counters after every step, its open events are the contiguous numbers from the first on, slots agree with the block header where they are checked, and hits are filed under the event whose header came last |
| StreamTraces.InOwnBlockIff | src/plugins/evio_common_modules/module_parsers/FADC/ModuleParser_FADC.cc:53-90 | hits go to an event of their own block exactly when fewer events remain than the block declares: before the first event header of a block they go to the last event of an earlier one |
| EventMaps.FilledEvents | src/plugins/evio_common_modules/module_parsers/FADC/ModuleParser_FADC.cc:85-90 | blocks deposited in order leave exactly the contiguous numbers, each with the in-order concatenation over the blocks |
| EventMaps.EventNumbersDistinct | src/plugins/evio_common_modules/module_parsers/FADC/ModuleParser_FADC.cc:86 | event numbers of one bank do not collide in 64-bit or 32-bit arithmetic |
| Fadc.ParseWaveformData | src/plugins/evio_common_modules/module_parsers/FADC/ModuleParser_FADC.cc:191-248 | returns the announced number of valid samples or rejects, and moves the cursor exactly past the words of the waveform, in range |
| Fadc.ParsePulseData | src/plugins/evio_common_modules/module_parsers/FADC/ModuleParser_FADC.cc:253-304 | one hit per complete pair of continuation words; the cursor stops on the last word consumed, in range |
| Fadc.ParseWords | src/plugins/evio_common_modules/module_parsers/FADC/ModuleParser_FADC.cc:45-178 | the word loop with its five lists per event does what the decoder does, and fails when, and how, it does |
| Fadc.Parse | src/plugins/evio_common_modules/module_parsers/FADC/ModuleParser_FADC.cc:18-185 | publishes one new event per number after those of earlier banks, or ends rejected or misread with the decoder, for the reasons that HowItEnds gives; what the five lists hold is `EventParserLaws.FadcBankRoundTrip` |
| HitTypes.KindListsNext | src/plugins/evio_common_modules/module_parsers/FADC/ModuleParser_FADC.cc:101-176 | a hit goes to the end of the list of its own kind and to no other: the lists that the decoder fills are the subsequences of each kind |
| HitTypes.KindListsComplete | src/plugins/evio_common_modules/module_parsers/FADC/ModuleParser_FADC.cc:101-176 | every hit is in exactly one of the five lists: their lengths add up |
| FadcLaws.WaveformAccepted | src/plugins/evio_common_modules/module_parsers/FADC/ModuleParser_FADC.cc:207-245 | a waveform is accepted exactly when its ceil(len/2) words are present continuation words with one sample flagged invalid if len is odd and none if even |
| FadcLaws.PulsesTaken | src/plugins/evio_common_modules/module_parsers/FADC/ModuleParser_FADC.cc:269-301 | the pulse parser takes the longest run of complete continuation pairs and stops only before a defining word or the end |
| FadcLaws.FadcFraming | src/plugins/evio_common_modules/module_parsers/FADC/ModuleParser_FADC.cc:45-90 | every stream is well framed as far as it is read, event headers repeat the slot of their block, and an accepted stream publishes the contiguous numbers first..first+M-1 |
| FadcLaws.HitsFiled | src/plugins/evio_common_modules/module_parsers/FADC/ModuleParser_FADC.cc:101-176 | every hit of any accepted stream is in exactly one place: the event whose header came last, after the hits read before it |
| FadcLaws.HowItEnds | src/plugins/evio_common_modules/module_parsers/FADC/ModuleParser_FADC.cc:45-178 | how every stream ends: accepted when it is read to the end; rejected exactly when reading stops at a word that the framing does not allow there or at a malformed waveform; misread exactly when, inside a block, it stops at a trigger time that ends the stream or at a word that yields hits before any event header |
| FadcExamples.MisreadStreams | src/plugins/evio_common_modules/module_parsers/FADC/ModuleParser_FADC.cc:91-127 | a hit before any event header, and a trigger time that ends the stream, are misread and not rejected |
| FadcExamples.EarlyHitMisfiled | src/plugins/evio_common_modules/module_parsers/FADC/ModuleParser_FADC.cc:53-127 | a hit of slot 2 that precedes the header of its only event is accepted and goes to the second event of slot 1 |
| FadcRoundTrip.SamplesRecovered | src/plugins/evio_common_modules/module_parsers/FADC/ModuleParser_FADC.cc:210-234 | samples packed two a word, with the missing one flagged, are taken back in order |
| FadcRoundTrip.PulsesRecovered | src/plugins/evio_common_modules/module_parsers/FADC/ModuleParser_FADC.cc:269-298 | all seven fields of every pulse are taken back from its two words |
| FadcRoundTrip.DatumDecoded | src/plugins/evio_common_modules/module_parsers/FADC/ModuleParser_FADC.cc:91-176 | each kind of datum, at the head of any stream, decodes to its hits with every field recovered, and exactly its words are consumed |
| FadcRoundTrip.BlockDecoded | src/plugins/evio_common_modules/module_parsers/FADC/ModuleParser_FADC.cc:45-178 | a block deposits the hits of its events under the numbers counted from the first one |
| FadcRoundTrip.DecodeInvertsEncode | src/plugins/evio_common_modules/module_parsers/FADC/ModuleParser_FADC.cc:45-184 | decoding inverts encoding for every list of well-formed blocks: number first+k holds the in-order concatenation over the blocks of their k-th events' hits |
| Mpd.ParseFrame | src/plugins/evio_common_modules/module_parsers/MPD/ModuleParser_MPD.cc:110-142 | one hit per triple in order, the cursor left before the defining word; undefined when the words run out or no event is open |
| Mpd.ParseWords | src/plugins/evio_common_modules/module_parsers/MPD/ModuleParser_MPD.cc:41-145 | the word loop and its registers do what the decoder does, and fail when, and how, it does |
| Mpd.Parse | src/plugins/evio_common_modules/module_parsers/MPD/ModuleParser_MPD.cc:18-152 | publishes one new event per number after those of earlier banks, or ends rejected or misread with the decoder, for the reasons that HowItEnds gives |
| MpdLaws.TripleRecovered | src/plugins/evio_common_modules/module_parsers/MPD/ModuleParser_MPD.cc:122-136 | the ten-bit channel split over two words, the APV id and the six 13-bit samples are recovered |
| MpdLaws.FrameRoundTrip | src/plugins/evio_common_modules/module_parsers/MPD/ModuleParser_MPD.cc:101-142 | a frame with any number of triples decodes to one hit each, in order, with the frame's fiber and MPD ids, and resumes exactly at the defining word; without one the parser reads beyond the end |
| MpdRoundTrip.DatumDecoded | src/plugins/evio_common_modules/module_parsers/MPD/ModuleParser_MPD.cc:91-143 | trigger times, frames and ignored words, at any position of any stream, decode to their hits, and exactly their words are consumed |
| MpdRoundTrip.DecodeInvertsEncode | src/plugins/evio_common_modules/module_parsers/MPD/ModuleParser_MPD.cc:41-150 | decoding inverts encoding for every list of well-formed blocks with any frames: number first+k, in 32-bit arithmetic, holds the in-order concatenation over the blocks of their k-th events' hits |
| MpdLaws.MpdFraming | src/plugins/evio_common_modules/module_parsers/MPD/ModuleParser_MPD.cc:41-89 | every stream is well framed as far as it is read, trailers repeat the slot of their block, and an accepted stream publishes contiguous numbers in 32-bit arithmetic |
| MpdLaws.HitsFiled | src/plugins/evio_common_modules/module_parsers/MPD/ModuleParser_MPD.cc:101-142 | every hit of any accepted stream is in exactly one place: the event whose header came last, after the hits read before it |
| MpdLaws.HowItEnds | src/plugins/evio_common_modules/module_parsers/MPD/ModuleParser_MPD.cc:41-145 | how every stream ends: accepted when it is read to the end; rejected exactly when reading stops at a word that the framing does not allow there; misread exactly when, inside a block, it stops at a trigger time that ends the stream, at a frame that no defining word ends, or at a frame with triples before any event header |
| MpdRoundTrip.MisreadStreams | src/plugins/evio_common_modules/module_parsers/MPD/ModuleParser_MPD.cc:101-142 | a frame that nothing ends, and a frame with a triple before any event header, are misread and not rejected |
| Vftdc.ParseWords | src/plugins/evio_common_modules/module_parsers/VFTDC/ModuleParser_VFTDC.cc:39-118 | the word loop and its registers do what the decoder does, and fail when, and how, it does |
| Vftdc.Parse | src/plugins/evio_common_modules/module_parsers/VFTDC/ModuleParser_VFTDC.cc:19-124 | publishes one new event per number after those of earlier banks, or ends rejected or misread with the decoder, for the reasons that HowItEnds gives |
| VftdcLaws.DataWordRoundTrip | src/plugins/evio_common_modules/module_parsers/VFTDC/ModuleParser_VFTDC.cc:97-115 | all six fields of the 27-bit payload are recovered into one hit of the open event |
| VftdcRoundTrip.DecodeInvertsEncode | src/plugins/evio_common_modules/module_parsers/VFTDC/ModuleParser_VFTDC.cc:39-123 | decoding inverts encoding for every list of well-formed blocks, with the board, slot and trigger time that apply to each hit |
| VftdcLaws.VftdcFraming | src/plugins/evio_common_modules/module_parsers/VFTDC/ModuleParser_VFTDC.cc:39-82 | every stream is well framed as far as it is read, event headers repeat the slot of their block, and an accepted stream publishes contiguous numbers |
| VftdcLaws.HitsFiled | src/plugins/evio_common_modules/module_parsers/VFTDC/ModuleParser_VFTDC.cc:97-115 | every hit of any accepted stream is in exactly one place: the event whose header came last, after the hits read before it |
| VftdcLaws.HowItEnds | src/plugins/evio_common_modules/module_parsers/VFTDC/ModuleParser_VFTDC.cc:39-118 | how every stream ends: accepted when it is read to the end; rejected exactly when reading stops at a word that the framing does not allow there; misread exactly when, inside a block, it stops at a trigger time that ends the stream or at a data word before any event header |
| VftdcRoundTrip.MisreadStreams | src/plugins/evio_common_modules/module_parsers/VFTDC/ModuleParser_VFTDC.cc:84-116 | a data word before any event header, and a trigger time that ends the stream, are misread and not rejected |
| Helicity.ParseDecoderData | src/plugins/evio_common_modules/module_parsers/helicity_decoder/ModuleParser_HelicityDecoder.cc:123-205 | payload words present in the bank fill their fields, missing ones stay zero, and the cursor moves by the announced count, possibly past the end |
| Helicity.ParseWords | src/plugins/evio_common_modules/module_parsers/helicity_decoder/ModuleParser_HelicityDecoder.cc:38-116 | the word loop publishes the decoder's emissions in order, each under its own index |
| Helicity.Parse | src/plugins/evio_common_modules/module_parsers/helicity_decoder/ModuleParser_HelicityDecoder.cc:18-117 | publishes the emissions after the events of earlier banks, or ends rejected or misread with the decoder, for the reasons that HowItEnds gives |
| HelicityLaws.BlocksEmitted | src/plugins/evio_common_modules/module_parsers/helicity_decoder/ModuleParser_HelicityDecoder.cc:53-86 | what the delayed emission publishes for any blocks, in closed form |
| HelicityLaws.EmissionsRight | src/plugins/evio_common_modules/module_parsers/helicity_decoder/ModuleParser_HelicityDecoder.cc:60-71 | the emissions are the events under their right numbers exactly when there are no events, or nothing follows the last trailer and either only the last block has events, or the last block is empty and no block has more than one |
| HelicityRoundTrip.PayloadRecovered | src/plugins/evio_common_modules/module_parsers/helicity_decoder/ModuleParser_HelicityDecoder.cc:145-202 | payload words are taken by count, so words with bit 31 set are never read as defining words |
| HelicityRoundTrip.RecordRecovered | src/plugins/evio_common_modules/module_parsers/helicity_decoder/ModuleParser_HelicityDecoder.cc:145-199 | the nine counters, seven flags and four windows of a record are read back from its fourteen words |
| HelicityRoundTrip.RecordPartlyRecovered | src/plugins/evio_common_modules/module_parsers/helicity_decoder/ModuleParser_HelicityDecoder.cc:145-202 | from a shorter or longer payload exactly the leading words that are there fill their fields, and all others stay zero |
| HelicityFraming.HowItEnds | src/plugins/evio_common_modules/module_parsers/helicity_decoder/ModuleParser_HelicityDecoder.cc:38-116 | how every stream ends: accepted when it is read to the end; rejected exactly when reading stops at a word that the framing does not allow there; misread exactly when, inside a block, it stops at a trigger time that ends the stream or at decoder data before any event header |
| HelicityRoundTrip.MisreadStreams | src/plugins/evio_common_modules/module_parsers/helicity_decoder/ModuleParser_HelicityDecoder.cc:87-114 | decoder data before any event header, and a trigger time that ends the stream, are misread and not rejected |
| HelicityRoundTrip.DelayedEmission | src/plugins/evio_common_modules/module_parsers/helicity_decoder/ModuleParser_HelicityDecoder.cc:38-116 | every list of well-formed blocks is accepted, and exactly the closed form comes out |
| HelicityRoundTrip.NumberedRightIff | src/plugins/evio_common_modules/module_parsers/helicity_decoder/ModuleParser_HelicityDecoder.cc:53-86 | exactly when the decoded events carry the numbers of the encoded ones |
| HelicityRoundTrip.TwoBlocksMisnumbered | src/plugins/evio_common_modules/module_parsers/helicity_decoder/ModuleParser_HelicityDecoder.cc:59-71 | two blocks of one event each: the second event is published under the number after the first one's |
| HelicityRoundTrip.LastEventLost | src/plugins/evio_common_modules/module_parsers/helicity_decoder/ModuleParser_HelicityDecoder.cc:59-64 | one block with any word after its trailer that the decoder passes over: the last event is never published |
| HelicityRoundTrip.OneBlockRoundTrip | src/plugins/evio_common_modules/module_parsers/helicity_decoder/ModuleParser_HelicityDecoder.cc:53-114 | one block of n>=1 events whose trailer is the last word: exactly n events, numbered from the first on, each with its own records |
| PhysicsEvents.PhysicsEvent.AddHits | src/plugins/evio_parser/core/data_objects/PhysicsEvent.h:53-55 | the container is added at the end of the list |
| PhysicsEvents.PhysicsEvent.InsertHitsInto | src/plugins/evio_parser/core/data_objects/PhysicsEvent.h:65-70 | every container moves to the end of the other event, in order, and none stays |
| PhysicsEvents.Publish | src/plugins/evio_common_modules/module_parsers/FADC/ModuleParser_FADC.cc:180-184 | one new object per number in ascending order, with the number converted to int |
| Consolidation.MergeEvent | src/plugins/evio_parser/core/EvioEventParser.cc:43-52 | an event is kept under a new number, or its hits go to the end of the one kept before and it is deleted |
| Consolidation.Consolidate | src/plugins/evio_parser/core/EvioEventParser.cc:38-56 | the result is the input grouped by number in ascending order, and every input object is kept once or deleted once, the deleted ones emptied |
| ConsolidationLaws.ConsolidatedNumbers | src/plugins/evio_parser/core/EvioEventParser.cc:42-56 | strictly increasing numbers, and exactly those of the input |
| ConsolidationLaws.HitsConserved | src/plugins/evio_parser/core/EvioEventParser.cc:42-56 | every hit container of the input is found once in the result, and nothing else is |
| ConsolidationLaws.HitsOfBanks | src/plugins/evio_parser/core/EvioEventParser.cc:42-52 | each event holds the hits of earlier banks before those of later ones |
| ConsolidationLaws.OrderWithinEvents | src/plugins/evio_parser/core/EvioEventParser.cc:42-56 | permuting the inputs permutes only hits within an event |
| EventParser.ParseTriggerBank | src/plugins/evio_parser/core/EvioEventParser.cc:71-105 | the first event number and the ROC segments, or the failure that a missing or inconsistent bank gives |
| EventParser.ParseDma | src/plugins/evio_parser/core/EvioEventParser.cc:155-196 | adds what one bank gives, or fails as its parser does; which banks give anything is `EventFiltering.PublishedInTurn` |
| EventParser.ParseRocBanks | src/plugins/evio_parser/core/EvioEventParser.cc:118-198 | everything the allowed banks publish, in order, up to the first failure; nothing is published when the counts differ |
| EventParser.Parse | src/plugins/evio_parser/core/EvioEventParser.cc:21-57 | the consolidation of everything the parsers publish; an event for which nothing is published is rejected |
| EventFiltering.PublishedInTurn | src/plugins/evio_parser/core/EvioEventParser.cc:107-198 | what is published is what the parsers make, in order, of exactly the banks for which there are no allow-list rows or one with this ROC (tag mod 4096) and bank (tag mod 65536), and which are routed |
| EventFiltering.OthersInvisible | src/plugins/evio_parser/core/EvioEventParser.cc:150-174 | removing every other bank, and every ROC that no row names, with its segment, changes nothing of what is published |
| EventFiltering.AcceptedIff | src/plugins/evio_parser/core/EvioEventParser.cc:107-198 | an event is accepted exactly when its trigger bank is, each ROC bank has the tag of its segment, and each bank that counts has a registered parser that accepts its words |
| EventParserLaws.FadcBankRoundTrip | src/plugins/evio_common_modules/module_parsers/FADC/ModuleParser_FADC.cc:45-184 | a bank of encoded FADC blocks publishes, for the int numbers first..first+M-1 in order, five lists: the waveforms, pulses, integrals, times and peaks among the k-th events' hits of all blocks, each in order |
| EventParserLaws.MpdBankRoundTrip | src/plugins/evio_common_modules/module_parsers/MPD/ModuleParser_MPD.cc:41-150 | the same for a bank of encoded MPD blocks |
| EventParserLaws.VftdcBankRoundTrip | src/plugins/evio_common_modules/module_parsers/VFTDC/ModuleParser_VFTDC.cc:39-123 | the same for a bank of encoded VFTDC blocks |
| EventParserLaws.WidthInvisible | src/plugins/evio_common_modules/module_parsers/MPD/ModuleParser_MPD.cc:79 | counting in 32 or in 64 bits gives the same int numbers |
| EventParserLaws.TriggerAcceptedIff | src/plugins/evio_parser/core/EvioEventParser.cc:71-103 | a trigger bank is accepted exactly when its first segment has a number and as many segments are UInt32 as it announces ROCs, the k-th of them for the k-th ROC; it is misread exactly when that number is missing |
| EventParserLaws.HelicityBankRoundTrip | src/plugins/evio_common_modules/module_parsers/helicity_decoder/ModuleParser_HelicityDecoder.cc:53-114 | a bank of one encoded helicity block publishes each of its events under its own int number |
| EventParserLaws.HitsBankByBank | src/plugins/evio_parser/core/EvioEventParser.cc:155-196 | one more bank adds its containers of a number after those of the banks before it |
| EventRoundTrip.EventComesOut | src/plugins/evio_parser/core/EvioEventParser.cc:21-57 | encoded readouts of any kinds in the banks that count, with any words in any other banks between them, come out as one event per number, contiguous from the first, each with the containers of the counting banks in bank order |
| StreamIntegers.ExtractRowInvertsText | src/plugins/evio_parser/services/JEventService_FilterDB.cc:116-123 | stream extraction reads written integers back exactly when there are as many as expected and all are in range |
| BankRoutes.BankToModuleMap.LoadMappingFile | src/plugins/evio_parser/services/JEventService_BankToModuleMap.h:38-83 | a rejected or late layer changes nothing; an accepted one overrides modules, and a source only where the module changes; which columns mean what is `BankRouteLaws.WrittenFileRoutes` |
| BankRoutes.BankToModuleMap.AddRoute | src/plugins/evio_parser/services/JEventService_BankToModuleMap.h:86-94 | fails on a known bank and after the freeze, and otherwise adds a route without a source |
| BankRoutes.BankToModuleMap.GetModuleId | src/plugins/evio_parser/services/JEventService_BankToModuleMap.h:97-103 | answers -1 for an unknown bank, and freezes the registry |
| BankRouteLaws.LayerIsItsRows | src/plugins/evio_parser/services/JEventService_BankToModuleMap.h:44-66 | a layer is accepted exactly when no row is malformed and no bank has two modules; its routes are those of its rows, each with the line it comes from |
| BankRouteLaws.ApplyToBank | src/plugins/evio_parser/services/JEventService_BankToModuleMap.h:38-103 | an operation that fails does nothing; one that succeeds changes only the banks it names |
| BankRouteLaws.ModuleIsOfLastSource | src/plugins/evio_parser/services/JEventService_BankToModuleMap.h:38-103 | over every sequence of operations each bank's module is that of the last successful one naming it |
| BankRouteLaws.RecordedSourcesTrue | src/plugins/evio_parser/services/JEventService_BankToModuleMap.h:70-82 | every recorded source line really gives the current module |
| BankRouteLaws.FixedAfterLookup | src/plugins/evio_parser/services/JEventService_BankToModuleMap.h:68-103 | after the first lookup nothing changes any more and every load and registration fails |
| BankRouteLaws.ReadInvertsShow | src/plugins/evio_parser/services/JEventService_BankToModuleMap.h:50-61 | a row written as module and bank, with any comment, reads as that route exactly when neither is negative, the module is an int and the bank at most 65535, and is malformed otherwise |
| BankRouteLaws.OtherRowsBad | src/plugins/evio_parser/services/JEventService_BankToModuleMap.h:50-61 | more or fewer than two numbers make a malformed row, none at all a blank one |
| BankRouteLaws.JunkRowsBad | src/plugins/evio_parser/services/JEventService_BankToModuleMap.h:50-61 | anything but a number among the two, or after them, makes a malformed row |
| BankRouteLaws.WrittenFileRoutes | src/plugins/evio_parser/services/JEventService_BankToModuleMap.h:38-83 | loading a written file succeeds exactly when the registry is not frozen, every row is in range and no bank has two modules; then each bank that a row names has the module of that row, and every other bank what it had |
| FilterIndex.FilterDB.FillDB | src/plugins/evio_parser/services/JEventService_FilterDB.cc:103-135 | the rows before the first malformed one are added once each, in order; an error is reported exactly when the file is missing, malformed or unreadable |
| FilterIndex.FilterDB.IsRocAllowed | src/plugins/evio_parser/services/JEventService_FilterDB.cc:164-170 | allowed exactly when no rows are loaded or some row names the ROC |
| FilterIndex.FilterDB.IsBankAllowed | src/plugins/evio_parser/services/JEventService_FilterDB.cc:182-197 | allowed exactly when no rows are loaded or some row names this ROC and bank |
| FilterIndex.FilterDB.IsSlotAllowed | src/plugins/evio_parser/services/JEventService_FilterDB.cc:209-224 | allowed exactly when no rows are loaded or some row names this ROC and slot |
| FilterIndex.FilterDB.IsModuleAllowed | src/plugins/evio_parser/services/JEventService_FilterDB.cc:236-251 | allowed exactly when no rows are loaded or some row names this ROC and module |
| FilterLaws.LoadedRows | src/plugins/evio_parser/services/JEventService_FilterDB.cc:111-132 | after any sequence of loads, aborted ones included, the rows are those before the first malformed line of some file, each once |
| FilterLaws.LoadKeepsRowsIff | src/plugins/evio_parser/services/JEventService_FilterDB.cc:113-132 | a load leaves the rows as they were exactly when every row before the first malformed one is known already |
| FilterLaws.FailedLoadAddsRow | src/plugins/evio_parser/services/JEventService_FilterDB.cc:113-132 | a written row and then a malformed line: the load fails and the row stays |
| FilterLaws.ReadInvertsShow | src/plugins/evio_parser/services/JEventService_FilterDB.cc:115-124 | a row written as ROC, slot, module and bank, with any comment, is read back exactly when its values are in range, and is malformed otherwise |
| FilterLaws.OtherRowsBad | src/plugins/evio_parser/services/JEventService_FilterDB.cc:115-124 | more or fewer than four numbers make a malformed row, none at all a blank one |
| FilterLaws.JunkRowsBad | src/plugins/evio_parser/services/JEventService_FilterDB.cc:115-124 | anything but a number among the four, or after them, makes a malformed row |
| FilterLaws.WrittenFileContributes | src/plugins/evio_parser/services/JEventService_FilterDB.cc:111-132 | a written file contributes exactly the rows before the first one with a number out of range |
| FilterLaws.LayersUnion | src/plugins/evio_parser/services/JEventService_FilterDB.cc:111-132 | the order of the files, and loading one again, decide nothing |
| FilterLaws.LaterFilesBroaden | src/plugins/evio_parser/services/JEventService_FilterDB.cc:164-251 | once some row is loaded, further files only broaden what is allowed |
| FilterLaws.ListLengths | src/plugins/evio_parser/services/JEventService_FilterDB.cc:127-131 | the three lists of a ROC are as long as it has distinct rows |
| PathEncoding.PathComponent | src/plugins/detector_translation/services/translation_table/DetectorTranslationDump.h:42-55 | the byte loop builds the encoding that the laws below are about |
| PathEncoding.DecodeInvertsEncode | src/plugins/detector_translation/services/translation_table/DetectorTranslationDump.h:40-55 | the encoding is reversible on all byte strings |
| PathEncoding.EncodedIsSafe | src/plugins/detector_translation/services/translation_table/DetectorTranslationDump.h:40-55 | it never emits a slash or a dot |
| PathEncoding.LiteralNamesKept | src/plugins/detector_translation/services/translation_table/DetectorTranslationDump.h:42-55 | exactly the names of letters, digits, underscores and hyphens are their own encoding |
| PathEncoding.EscapedName | src/plugins/detector_translation/services/tests/JEventService_DetectorTranslatorsMapTests.cc:55-56 | `../%/` becomes `%2E%2E%2F%25%2F`: capital hexadecimal digits, the high one first |
| PathEncoding.LiteralPath | src/plugins/detector_translation/services/translation_table/DetectorTranslationDump.h:66-79 | for such names the path is the detector, a slash, the type name and `.csv` |
| PathEncoding.PathsDistinct | src/plugins/detector_translation/services/translation_table/DetectorTranslationDump.h:67-79 | generated paths are equal exactly when both the detector and the displayed type name are |
| Translators.DetectorTranslatorsMap.AddTranslator | src/plugins/detector_translation/services/JEventService_DetectorTranslatorsMap.h:29-51 | registers the route and its dump output together, or fails with the first check that does not hold |
| Translators.DetectorTranslatorsMap.AddWriter | src/plugins/detector_translation/services/translation_table/DetectorTranslationDump.h:71-95 | one output and one path, or neither |
| Translators.DetectorTranslatorsMap.Freeze | src/plugins/detector_translation/services/JEventService_DetectorTranslatorsMap.h:53-56 | freezes and changes nothing else |
| Translators.DetectorTranslatorsMap.GetDumpOutputs | src/plugins/detector_translation/services/JEventService_DetectorTranslatorsMap.h:58-62 | delivers the outputs in registration order, and freezes |
| Translators.DetectorTranslatorsMap.GroupHits | src/plugins/detector_translation/services/JEventService_DetectorTranslatorsMap.h:124-129 | the groups are, for each routed detector with any, its hits in event order |
| Translators.DetectorTranslatorsMap.TranslateRoute | src/plugins/detector_translation/services/JEventService_DetectorTranslatorsMap.h:98-109 | publishes the translator mapped over the hits, as DigiHits and as one output of the route; which hits and addresses these are is `TranslationLaws.RouteOutput` |
| Translators.DetectorTranslatorsMap.TranslateEvent | src/plugins/detector_translation/services/JEventService_DetectorTranslatorsMap.h:64-72 | each route that some hit reaches runs exactly once, in some order, on the hits the event held before |
| Translators.WriteEvent | src/plugins/detector_translation/services/translation_table/DetectorTranslationDump.h:84-92 | writes the rows of the route's own collections, in order |
| TranslatorRegistryLaws.AddChanges | src/plugins/detector_translation/services/JEventService_DetectorTranslatorsMap.h:29-51 | a registration that fails leaves routes, outputs and paths alone; one that succeeds adds one of each |
| TranslatorRegistryLaws.AlwaysBijective | src/plugins/detector_translation/services/JEventService_DetectorTranslatorsMap.h:29-72 | after every sequence of registrations, failing ones included, there is exactly one dump output per route and the other way round |
| TranslatorRegistryLaws.OutputUnique | src/plugins/detector_translation/services/translation_table/DetectorTranslationDump.h:78-81 | two outputs of one route are the same output |
| TranslatorRegistryLaws.RegistrationSucceeds | src/plugins/detector_translation/services/JEventService_DetectorTranslatorsMap.h:37-50 | a registration succeeds exactly when the registry is not frozen, the request is complete, and no output has the same detector and displayed type name |
| TranslatorRegistryLaws.FixedOnceFrozen | src/plugins/detector_translation/services/JEventService_DetectorTranslatorsMap.h:53-72 | after any of the three freezing operations nothing changes and every registration fails |
| TranslationLaws.RouteOutput | src/plugins/detector_translation/services/JEventService_DetectorTranslatorsMap.h:98-109 | the output of every route that runs is the translator applied, position by position, to exactly the raw hits whose address the table maps to the route's detector, each with the whole address that the table gives it |
| TranslationLaws.DumpRowsAreOwn | src/plugins/detector_translation/services/translation_table/DetectorTranslationDump.h:84-92 | the k-th dump row of a route is its row writer applied to its translator's hit for the k-th raw hit, in event order, that the table assigns to its detector, and there are no others |
| TranslationLaws.OrderInvisible | src/plugins/detector_translation/services/JEventService_DetectorTranslatorsMap.h:121-133 | hash-map order decides no route output, and only the order in which DigiHits of different routes follow each other |
| TranslationLaws.EveryHitOnce | src/plugins/detector_translation/services/JEventService_DetectorTranslatorsMap.h:121-133 | under every DigiHit type the event gains as many hits as it has raw hits that are mapped and routed to that type, each counted once |
| TranslationLaws.DigiHitsMade | src/plugins/detector_translation/services/JEventService_DetectorTranslatorsMap.h:98-133 | and with what content: under every DigiHit type each digi hit value is gained as often as raw hits are mapped, routed to that type and translated to it |

## Left out

- `resolveOwnedPath`: the resolution of symbolic links depends on the live file system; it is a partial function from a directory and a relative path to a path.
- `std::sort`, `std::upper_bound` and hash maps are modelled by their contracts: any sorting permutation, the first greater element, any order of traversal.
- `call_once`, `std::mutex` and `std::atomic` are modelled as atomic steps; the mutexes of the registries make each of their calls one step.
- `ModuleParser_TIScaler`, `ModuleParser_FADCScaler` and `ModuleParser_CAEN1190`: fixed layouts or no framing, which would add only easy members. The parser registry of `EventParser` holds the four decoders that are modelled.
- The registry of parsers (`JEventService_ModuleParsersMap`) is a map from module to decoder; its own freeze is not part of this model.
- Objects that a parser has published before it throws are not followed; the model ends in `Rejected`.
- EventMaps.FilledEvents: blocks of 2^32 or more events are not considered; a block header declares at most 255.
- WrittenConfigurations.AnswersAsWritten: one blank after every token and no blank lines; other layouts are covered by `ConfigurationText.LayoutInvisible` and `WrittenMappings.FileAcceptedIff`.
- EventRoundTrip.EventComesOut: event numbers below 2^31, the range of the int that a `PhysicsEvent` stores, and one helicity block a bank, because more are numbered wrongly.
- Translators.DetectorTranslatorsMap.TranslateEvent: requires that no route publishes a type that is itself scanned for raw hits; then the order in which the types are scanned would matter.
- Hits of one DigiHit or raw type are values, not objects: identity and ownership of hit objects are not modelled. Objects of `PhysicsEvent` and of the tables are.
- Demangling is an arbitrary partial function from types to byte strings.
- Type checks that C++ makes at compile time, such as that a raw hit type provides a DAQ address.
- The choice and order of configuration files (`jce_config_files`): the registries are proved for every sequence of files.
- `PhysicsEvent::SetEventNumber` and the insertion of hits into a JANA event.
- EVIO file reading, the JANA event life cycle, parameters, plugin entry points, ROOT and text output, the summary table of the filter, logging and error texts.
