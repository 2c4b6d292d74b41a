// What the mapping-file reader means as a whole: after the two declarations a
// file is an unordered collection of rows, and a table is an unordered
// collection of files.
module MappingFileLaws {
  import opened Common
  import opened ConfigurationText
  import opened DisjointMaps
  import opened TranslationTables

  // What one line contributes once both declarations have been read.
  function LinePart(line: string, detector: string, fields: seq<string>): Option<Entries> {
    var tokens := Tokenize(line);
    if tokens == [] then Some(map[])
    else if tokens[0] == "detector" || tokens[0] == "fields" then None
    else RowEntry(detector, fields, tokens)
  }

  function LineParts(lines: seq<string>, detector: string, fields: seq<string>): seq<Option<Entries>> {
    Map((line: string) => LinePart(line, detector, fields), lines)
  }

  lemma {:induction false} DeclaredLinesAreParts(lines: seq<string>, expected: string, st: MappingState)
    requires st.Declared()
    ensures ReadLines(lines, expected, st).Success? <==>
      UnionAll(LineParts(lines, st.detector, st.fields), st.loaded).Some?
    ensures ReadLines(lines, expected, st).Success? ==>
      var loaded := UnionAll(LineParts(lines, st.detector, st.fields), st.loaded).value;
      ReadLines(lines, expected, st).value == st.(loaded := loaded)
  {
    if lines != [] {
      var parts := LineParts(lines, st.detector, st.fields);
      var part := LinePart(lines[0], st.detector, st.fields);
      assert parts[0] == part && parts[1..] == LineParts(lines[1..], st.detector, st.fields);
      if part.Some? && part.value.Keys !! st.loaded.Keys {
        var next := st.(loaded := st.loaded + part.value);
        assert st.loaded + map[] == st.loaded;
        assert StepLine(lines[0], expected, st) == Success(next);
        DeclaredLinesAreParts(lines[1..], expected, next);
      } else {
        assert StepLine(lines[0], expected, st).Failure?;
      }
    }
  }

  lemma {:induction false} ReadLinesSplit(front: seq<string>, back: seq<string>, expected: string, st: MappingState)
    requires ReadLines(front, expected, st).Success?
    ensures ReadLines(front + back, expected, st) ==
      ReadLines(back, expected, ReadLines(front, expected, st).value)
  {
    if front == [] {
      assert front + back == back;
    } else {
      assert (front + back)[0] == front[0] && (front + back)[1..] == front[1..] + back;
      ReadLinesSplit(front[1..], back, expected, StepLine(front[0], expected, st).value);
    }
  }

  // The rows of a mapping file may appear in any order: the same rows load to
  // the same entries, or fail to load, however they are arranged.
  lemma RowOrderInvisible(declarations: seq<string>, rows: seq<string>, shuffled: seq<string>,
                          complete: bool, expected: string)
    requires ReadLines(declarations, expected, EMPTY_STATE).Success?
    requires ReadLines(declarations, expected, EMPTY_STATE).value.Declared()
    requires Permutation(rows, shuffled)
    ensures FilePart(Some(File(declarations + rows, complete)), expected) ==
      FilePart(Some(File(declarations + shuffled, complete)), expected)
  {
    var st := ReadLines(declarations, expected, EMPTY_STATE).value;
    ReadLinesSplit(declarations, rows, expected, EMPTY_STATE);
    ReadLinesSplit(declarations, shuffled, expected, EMPTY_STATE);
    DeclaredLinesAreParts(rows, expected, st);
    DeclaredLinesAreParts(shuffled, expected, st);
    PermutationMap((line: string) => LinePart(line, st.detector, st.fields), rows, shuffled);
    UnionAllOrderInvisible(
      LineParts(rows, st.detector, st.fields), LineParts(shuffled, st.detector, st.fields), st.loaded);
  }

  // A mapping file together with the detector it is expected to declare.
  datatype MappingSource = MappingSource(file: Option<File>, detector: string)

  function SourcePart(source: MappingSource): Option<Entries> {
    FilePart(source.file, source.detector)
  }

  function SourceParts(sources: seq<MappingSource>): seq<Option<Entries>> {
    Map(SourcePart, sources)
  }

  // What a table holds after loading the sources one after another, if every
  // one of them loads.
  function LoadAll(sources: seq<MappingSource>, base: Entries): Option<Entries> {
    UnionAll(SourceParts(sources), base)
  }

  // The order of the files is just as invisible: either every order loads to
  // the same table or every order fails.
  lemma FileOrderInvisible(sources: seq<MappingSource>, shuffled: seq<MappingSource>, base: Entries)
    requires Permutation(sources, shuffled)
    ensures LoadAll(sources, base) == LoadAll(shuffled, base)
  {
    PermutationMap(SourcePart, sources, shuffled);
    UnionAllOrderInvisible(SourceParts(sources), SourceParts(shuffled), base);
  }

  // Loading one more source is one more LoadMappingFile step.
  lemma LoadAllStep(sources: seq<MappingSource>, last: MappingSource)
    ensures LoadAll(sources + [last], map[]) ==
      (match LoadAll(sources, map[]) case None => None case Some(m) => UnionAll([SourcePart(last)], m))
  {
    UnionAllSplit(SourceParts(sources), [SourcePart(last)], map[]);
    assert SourceParts(sources + [last]) == SourceParts(sources) + [SourcePart(last)];
  }

  // Every entry of a file names the detector that the file declares, which is
  // the expected one when one is expected.
  ghost predicate Named(st: MappingState, expected: string) {
    && (st.detector != "" && expected != "" ==> st.detector == expected)
    && (st.detector == "" ==> st.loaded == map[])
    && forall daq :: daq in st.loaded ==> st.loaded[daq].detector == st.detector
  }

  lemma {:induction false} LinesKeepNamed(lines: seq<string>, expected: string, st: MappingState)
    requires Named(st, expected)
    ensures ReadLines(lines, expected, st).Success? ==> Named(ReadLines(lines, expected, st).value, expected)
  {
    if lines != [] && StepLine(lines[0], expected, st).Success? {
      LinesKeepNamed(lines[1..], expected, StepLine(lines[0], expected, st).value);
    }
  }

  lemma EntriesNameExpectedDetector(file: Option<File>, expected: string, daq: DAQAddress)
    requires expected != "" && FilePart(file, expected).Some?
    requires daq in FilePart(file, expected).value
    ensures FilePart(file, expected).value[daq].detector == expected
  {
    LinesKeepNamed(file.value.lines, expected, EMPTY_STATE);
  }

  // ----- The channel that stands for no channel -----

  // Besides the word reserved for it, every way to write the largest channel
  // number means an unspecified channel.
  lemma UnspecifiedChannelIff(token: string)
    ensures ParseChannel(token) == Some(UNSPECIFIED_CHANNEL) <==>
      token == "none" || (AllDigits(token) && DecimalValue(token) == 0xFFFF_FFFF)
  {
    assert !IsDigit("none"[0]);
  }

  // A row with that number is a row with the reserved word: the two add the
  // same entry, and so collide in one table.
  lemma WrittenSentinel(detector: string, fields: seq<string>, rocid: string, slot: string, values: seq<string>)
    ensures RowEntry(detector, fields, [rocid, slot, ShowNat(0xFFFF_FFFF)] + values) ==
      RowEntry(detector, fields, [rocid, slot, "none"] + values)
  {
    ParseInvertsShow(0xFFFF_FFFF, MAX_UINT32);
    hide ShowNat, ParseFieldValues, ParseUnsigned;
    assert ([rocid, slot, ShowNat(0xFFFF_FFFF)] + values)[3..] == values == ([rocid, slot, "none"] + values)[3..];
  }
}
