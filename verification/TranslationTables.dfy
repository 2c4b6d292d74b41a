// DAQ address to detector address tables and the mapping files that fill them.
module TranslationTables {
  import opened Common
  import opened ConfigurationText
  import opened DisjointMaps

  datatype DAQAddress = DAQAddress(rocid: nat, slot: nat, channel: nat)

  datatype DetectorAddress = DetectorAddress(detector: string, fields: seq<(string, int)>)

  type Entries = map<DAQAddress, DetectorAddress>

  const UNSPECIFIED_CHANNEL: nat := MAX_UINT32

  datatype LoadError = Unreadable | Malformed | DuplicateAddress

  // ----- One line of a mapping file -----

  function ParseChannel(token: string): Option<nat> {
    if token == "none" then Some(UNSPECIFIED_CHANNEL) else ParseUnsigned(token, MAX_UINT32)
  }

  // What has been read so far. An empty detector or field list means that the
  // declaration has not been seen.
  datatype MappingState = MappingState(detector: string, fields: seq<string>, loaded: Entries) {
    predicate Declared() {
      detector != "" && fields != []
    }
  }

  const EMPTY_STATE := MappingState("", [], map[])

  function ParseFieldValues(fields: seq<string>, tokens: seq<string>): (r: Option<seq<(string, int)>>)
    requires |tokens| == |fields|
    ensures r.Some? ==> |r.value| == |fields|
  {
    if fields == [] then Some([])
    else
      var value := ParseInt32(tokens[0]);
      var rest := ParseFieldValues(fields[1..], tokens[1..]);
      if value.None? || rest.None? then None else Some([(fields[0], value.value)] + rest.value)
  }

  // The single entry that a channel row contributes, if the row is valid.
  function RowEntry(detector: string, fields: seq<string>, tokens: seq<string>): Option<Entries> {
    if |tokens| != |fields| + 3 then None
    else
      var rocid, slot := ParseUnsigned(tokens[0], MAX_UINT32), ParseUnsigned(tokens[1], MAX_UINT32);
      var channel := ParseChannel(tokens[2]);
      var values := ParseFieldValues(fields, tokens[3..]);
      if rocid.None? || slot.None? || channel.None? || values.None? then None
      else Some(map[DAQAddress(rocid.value, slot.value, channel.value) :=
        DetectorAddress(detector, values.value)])
  }

  // An empty expected detector accepts any declaration.
  function StepLine(line: string, expected: string, st: MappingState): Result<MappingState, LoadError> {
    var tokens := Tokenize(line);
    if tokens == [] then Success(st)
    else if tokens[0] == "detector" then
      if |tokens| != 2 || st.detector != "" || st.fields != [] then Failure(Malformed)
      else if expected != "" && tokens[1] != expected then Failure(Malformed)
      else Success(st.(detector := tokens[1]))
    else if tokens[0] == "fields" then
      if st.detector == "" || st.fields != [] || |tokens| < 2 || !NoRepeats(tokens[1..]) then Failure(Malformed)
      else Success(st.(fields := tokens[1..]))
    else if !st.Declared() then Failure(Malformed)
    else
      match RowEntry(st.detector, st.fields, tokens)
      case None => Failure(Malformed)
      case Some(entry) =>
        if entry.Keys !! st.loaded.Keys then Success(st.(loaded := st.loaded + entry))
        else Failure(Malformed)
  }

  function ReadLines(lines: seq<string>, expected: string, st: MappingState): Result<MappingState, LoadError> {
    if lines == [] then Success(st)
    else
      match StepLine(lines[0], expected, st)
      case Failure(e) => Failure(e)
      case Success(next) => ReadLines(lines[1..], expected, next)
  }

  // The whole content of a mapping file. A missing file is None.
  function ReadMapping(file: Option<File>, expected: string): Result<Entries, LoadError> {
    if file.None? then Failure(Unreadable)
    else
      match ReadLines(file.value.lines, expected, EMPTY_STATE)
      case Failure(e) => Failure(e)
      case Success(st) =>
        if !file.value.complete then Failure(Unreadable)
        else if !st.Declared() then Failure(Malformed)
        else Success(st.loaded)
  }

  function FilePart(file: Option<File>, expected: string): Option<Entries> {
    match ReadMapping(file, expected)
    case Failure(_) => None
    case Success(entries) => Some(entries)
  }

  lemma MergeStep(base: Entries, loaded: Entries, remaining: set<DAQAddress>, daq: DAQAddress)
    requires remaining <= loaded.Keys && daq in remaining
    ensures daq in base + (loaded - remaining) <==> daq in base
    ensures base + (loaded - (remaining - {daq})) == (base + (loaded - remaining))[daq := loaded[daq]]
  {
    assert loaded - (remaining - {daq}) == (loaded - remaining)[daq := loaded[daq]];
  }

  class TranslationTable {
    var entries: Entries

    constructor ()
      ensures entries == map[]
    {
      entries := map[];
    }

    method Insert(daq: DAQAddress, detector: DetectorAddress) returns (inserted: bool)
      modifies this
      ensures inserted <==> daq !in old(entries)
      ensures entries == if inserted then old(entries)[daq := detector] else old(entries)
    {
      if daq in entries {
        return false;
      }
      entries := entries[daq := detector];
      inserted := true;
    }

    function Lookup(daq: DAQAddress): (address: Option<DetectorAddress>)
      reads this
      ensures address.Some? <==> daq in entries
      ensures address.Some? ==> entries[daq] == address.value
    {
      if daq in entries then Some(entries[daq]) else None
    }

    // All or nothing: a failure of any kind leaves the table as it was, and
    // success adds exactly the file's entries, none of which was present.
    method LoadMappingFile(file: Option<File>, expected: string) returns (r: Result<(), LoadError>)
      modifies this
      ensures r.Success? <==> UnionAll([FilePart(file, expected)], old(entries)).Some?
      ensures r.Success? ==> Some(entries) == UnionAll([FilePart(file, expected)], old(entries))
      ensures r.Failure? ==> entries == old(entries)
      ensures r.Failure? && ReadMapping(file, expected).Failure? ==>
        r.error == ReadMapping(file, expected).error
      ensures r.Failure? && ReadMapping(file, expected).Success? ==> r.error == DuplicateAddress
    {
      if file.None? {
        return Failure(Unreadable);
      }
      var lines := file.value.lines;
      var detector: string, fields: seq<string> := "", [];
      var loaded := new TranslationTable();
      for i := 0 to |lines|
        invariant fresh(loaded) && entries == old(entries)
        invariant ReadLines(lines, expected, EMPTY_STATE) ==
          ReadLines(lines[i..], expected, MappingState(detector, fields, loaded.entries))
      {
        ghost var st := MappingState(detector, fields, loaded.entries);
        assert lines[i..][0] == lines[i] && lines[i..][1..] == lines[i + 1..];
        var tokens := Tokenize(lines[i]);
        if tokens == [] {
          continue;
        }
        if tokens[0] == "detector" {
          if |tokens| != 2 || detector != "" || fields != [] {
            return Failure(Malformed);
          }
          if expected != "" && tokens[1] != expected {
            return Failure(Malformed);
          }
          detector := tokens[1];
          continue;
        }
        if tokens[0] == "fields" {
          if detector == "" || fields != [] || |tokens| < 2 {
            return Failure(Malformed);
          }
          if !NoRepeats(tokens[1..]) {
            return Failure(Malformed);
          }
          fields := tokens[1..];
          continue;
        }
        if detector == "" || fields == [] {
          return Failure(Malformed);
        }
        if |tokens| != |fields| + 3 {
          return Failure(Malformed);
        }
        var rocid, slot := ParseUnsigned(tokens[0], MAX_UINT32), ParseUnsigned(tokens[1], MAX_UINT32);
        var channel := ParseChannel(tokens[2]);
        var values := ParseFieldValues(fields, tokens[3..]);
        if rocid.None? || slot.None? || channel.None? || values.None? {
          return Failure(Malformed);
        }
        var daq := DAQAddress(rocid.value, slot.value, channel.value);
        var address := DetectorAddress(detector, values.value);
        assert RowEntry(detector, fields, tokens) == Some(map[daq := address]);
        var inserted := loaded.Insert(daq, address);
        if !inserted {
          return Failure(Malformed);
        }
        assert st.loaded + map[daq := address] == loaded.entries;
      }
      assert lines[|lines|..] == [];
      if !file.value.complete {
        return Failure(Unreadable);
      }
      if detector == "" || fields == [] {
        return Failure(Malformed);
      }
      r := MergeLoaded(loaded);
    }

    // The copy, insert-all and swap that ends a successful read.
    method MergeLoaded(loaded: TranslationTable) returns (r: Result<(), LoadError>)
      requires loaded != this
      modifies this
      ensures r.Success? <==> old(entries).Keys !! loaded.entries.Keys
      ensures r == Success(()) || r == Failure(DuplicateAddress)
      ensures entries == if r.Success? then old(entries) + loaded.entries else old(entries)
    {
      var combined := new TranslationTable();
      combined.entries := entries;
      var remaining := loaded.entries.Keys;
      while remaining != {}
        invariant fresh(combined) && entries == old(entries)
        invariant remaining <= loaded.entries.Keys
        invariant combined.entries == entries + (loaded.entries - remaining)
        invariant entries.Keys !! loaded.entries.Keys - remaining
        decreases |remaining|
      {
        var daq :| daq in remaining;
        MergeStep(entries, loaded.entries, remaining, daq);
        var inserted := combined.Insert(daq, loaded.entries[daq]);
        if !inserted {
          return Failure(DuplicateAddress);
        }
        remaining := remaining - {daq};
      }
      entries := combined.entries;
      assert loaded.entries - {} == loaded.entries;
      r := Success(());
    }
  }

  // ----- Tables by run -----

  // The table that applies to the runs of an interval, both ends included.
  datatype RunRangeTable = RunRangeTable(runMin: UInt64, runMax: UInt64, table: TranslationTable)

  predicate Within(entry: RunRangeTable, run: UInt64) {
    entry.runMin <= run <= entry.runMax
  }
}
