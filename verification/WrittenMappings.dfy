// Mapping files as somebody writes them: declarations and rows of numbers,
// and exactly what loading such a file adds to a table.
module WrittenMappings {
  import opened Common
  import opened ConfigurationText
  import opened DisjointMaps
  import opened TranslationTables
  import opened MappingFileLaws

  // ----- One channel row -----

  // A row without a channel is written with `none`. The comment is the rest of
  // the line.
  datatype ChannelRow = ChannelRow(rocid: nat, slot: nat, channel: Option<nat>, values: seq<int>, comment: string)

  function ChannelText(channel: Option<nat>): string {
    match channel
    case None => "none"
    case Some(number) => ShowNat(number)
  }

  function RowTokens(row: ChannelRow): seq<string> {
    [ShowNat(row.rocid), ShowNat(row.slot), ChannelText(row.channel)] + Map(ShowInt, row.values)
  }

  function RowLine(row: ChannelRow): string {
    JoinTokens(RowTokens(row)) + row.comment
  }

  // One value per field, and every number in the range of its type.
  predicate RowFits(row: ChannelRow, fieldCount: nat) {
    && |row.values| == fieldCount
    && row.rocid <= 0xFFFF_FFFF && row.slot <= 0xFFFF_FFFF
    && (row.channel.Some? ==> row.channel.value <= 0xFFFF_FFFF)
    && forall i :: 0 <= i < |row.values| ==> -0x8000_0000 <= row.values[i] <= 0x7FFF_FFFF
  }

  function AddressOf(row: ChannelRow): DAQAddress {
    DAQAddress(row.rocid, row.slot, match row.channel case None => 0xFFFF_FFFF case Some(number) => number)
  }

  // Each field name with the value written below it.
  function Labelled(fields: seq<string>, values: seq<int>): (r: seq<(string, int)>)
    requires |fields| == |values|
    ensures |r| == |fields| && forall i :: 0 <= i < |r| ==> r[i] == (fields[i], values[i])
  {
    seq(|fields|, i requires 0 <= i < |fields| => (fields[i], values[i]))
  }

  lemma NumberTokens(n: nat, m: int)
    ensures IsToken(ShowNat(n)) && IsToken(ShowInt(m))
    ensures ShowNat(n) != "detector" && ShowNat(n) != "fields" && ShowNat(n) != "none"
  {
    assert AllDigits(ShowNat(n)) && AllDigits(ShowNat(if m < 0 then -m else m));
    hide ShowNat;
    assert IsDigit(ShowNat(n)[0]);
  }

  lemma RowTokensAre(row: ChannelRow)
    ensures forall i :: 0 <= i < |RowTokens(row)| ==> IsToken(RowTokens(row)[i])
    ensures RowTokens(row)[0] != "detector" && RowTokens(row)[0] != "fields"
    ensures RowTokens(row)[3..] == Map(ShowInt, row.values)
  {
    NumberTokens(row.rocid, 0);
    NumberTokens(row.slot, 0);
    if row.channel.Some? { NumberTokens(row.channel.value, 0); }
    forall i | 0 <= i < |row.values| ensures IsToken(ShowInt(row.values[i])) {
      NumberTokens(0, row.values[i]);
    }
    hide ShowNat, ShowInt;
  }

  lemma {:induction false} ValuesRead(fields: seq<string>, values: seq<int>)
    requires |fields| == |values|
    ensures ParseFieldValues(fields, Map(ShowInt, values)) ==
      if forall i :: 0 <= i < |values| ==> -0x8000_0000 <= values[i] <= 0x7FFF_FFFF then Some(Labelled(fields, values))
      else None
    decreases |fields|
  {
    hide ParseInt32, ShowInt;
    if fields != [] {
      var tokens := Map(ShowInt, values);
      ParseInvertsShowInt(values[0]);
      assert tokens[1..] == Map(ShowInt, values[1..]);
      ValuesRead(fields[1..], values[1..]);
      assert forall i :: 0 < i < |values| ==> values[i] == values[1..][i - 1];
      assert Labelled(fields, values) == [(fields[0], values[0])] + Labelled(fields[1..], values[1..]);
    }
  }

  lemma ChannelRead(channel: Option<nat>)
    ensures ParseChannel(ChannelText(channel)) ==
      match channel
      case None => Some(0xFFFF_FFFF)
      case Some(number) => if number <= 0xFFFF_FFFF then Some(number) else None
  {
    if channel.Some? {
      NumberTokens(channel.value, 0);
      ParseInvertsShow(channel.value, MAX_UINT32);
    }
  }

  lemma EntryRead(row: ChannelRow, detector: string, fields: seq<string>)
    ensures RowEntry(detector, fields, RowTokens(row)) ==
      if RowFits(row, |fields|) then
        Some(map[AddressOf(row) := DetectorAddress(detector, Labelled(fields, row.values))])
      else None
  {
    ParseInvertsShow(row.rocid, MAX_UINT32);
    ParseInvertsShow(row.slot, MAX_UINT32);
    ChannelRead(row.channel);
    RowTokensAre(row);
    if |row.values| == |fields| { ValuesRead(fields, row.values); }
    hide ParseUnsigned, ParseChannel, ParseFieldValues, ShowNat, ShowInt, ChannelText, IsToken;
  }

  // Once both declarations are read, a written row adds exactly one entry: its
  // columns are ROC, slot, channel, and one value per field in the order in
  // which the fields are declared. It is malformed exactly when a number is
  // out of range, the values do not match the fields, or the address is taken.
  lemma WrittenRowRead(row: ChannelRow, expected: string, st: MappingState)
    requires st.Declared() && IsComment(row.comment)
    ensures StepLine(RowLine(row), expected, st) ==
      if RowFits(row, |st.fields|) && AddressOf(row) !in st.loaded then
        Success(st.(loaded := st.loaded[AddressOf(row) :=
          DetectorAddress(st.detector, Labelled(st.fields, row.values))]))
      else Failure(Malformed)
  {
    RowTokensAre(row);
    TokenizeInvertsJoin(RowTokens(row), row.comment);
    EntryRead(row, st.detector, st.fields);
    hide RowTokens, RowEntry, JoinTokens, Tokenize, IsToken, RowFits;
    if RowFits(row, |st.fields|) {
      var address := DetectorAddress(st.detector, Labelled(st.fields, row.values));
      assert st.loaded + map[AddressOf(row) := address] == st.loaded[AddressOf(row) := address];
    }
  }

  // ----- Any channel row -----

  predicate IsUnsigned(token: string, value: nat) {
    AllDigits(token) && value == DecimalValue(token) && value <= 0xFFFF_FFFF
  }

  // A leading minus sign, but no plus sign.
  predicate IsSigned(token: string, value: int) {
    || (AllDigits(token) && value == DecimalValue(token) && value <= 0x7FFF_FFFF)
    || (token != "" && token[0] == '-' && AllDigits(token[1..]) && -value == DecimalValue(token[1..]) &&
        -0x8000_0000 <= value)
  }

  lemma SignedRead(token: string, value: int)
    ensures ParseInt32(token) == Some(value) <==> IsSigned(token, value)
  {
    hide DecimalValue;
    if token != "" && token[0] == '-' {
      assert !IsDigit(token[0]);
    }
  }

  lemma {:induction false} SignedValuesRead(fields: seq<string>, tokens: seq<string>, values: seq<(string, int)>)
    requires |tokens| == |fields|
    ensures ParseFieldValues(fields, tokens) == Some(values) <==>
      && |values| == |fields|
      && forall i :: 0 <= i < |fields| ==> values[i].0 == fields[i] && IsSigned(tokens[i], values[i].1)
    decreases |fields|
  {
    hide IsSigned, ParseInt32;
    if fields != [] {
      if values != [] {
        SignedRead(tokens[0], values[0].1);
        SignedValuesRead(fields[1..], tokens[1..], values[1..]);
        assert values == [values[0]] + values[1..];
        assert forall i :: 0 < i < |fields| ==> fields[i] == fields[1..][i - 1] && tokens[i] == tokens[1..][i - 1];
        assert |values| == |fields| ==> forall i :: 0 < i < |fields| ==> values[i] == values[1..][i - 1];
      }
    }
  }

  // The row says that the address is this one.
  ghost predicate RowSays(tokens: seq<string>, fields: seq<string>, daq: DAQAddress, values: seq<(string, int)>) {
    && |tokens| == |fields| + 3 && |values| == |fields|
    && IsUnsigned(tokens[0], daq.rocid) && IsUnsigned(tokens[1], daq.slot)
    && (if tokens[2] == "none" then daq.channel == 0xFFFF_FFFF else IsUnsigned(tokens[2], daq.channel))
    && forall i :: 0 <= i < |fields| ==> values[i].0 == fields[i] && IsSigned(tokens[i + 3], values[i].1)
  }

  // Of all rows of tokens exactly these are channel rows: ROC and slot in
  // digits, the channel in digits or `none`, and one signed number a field.
  lemma EntryReadIff(tokens: seq<string>, detector: string, fields: seq<string>, daq: DAQAddress,
                     values: seq<(string, int)>)
    ensures RowEntry(detector, fields, tokens) == Some(map[daq := DetectorAddress(detector, values)]) <==>
      RowSays(tokens, fields, daq, values)
  {
    hide ParseFieldValues, IsSigned, DecimalValue;
    if |tokens| == |fields| + 3 {
      SignedValuesRead(fields, tokens[3..], values);
      var entry := RowEntry(detector, fields, tokens);
      assert entry == Some(map[daq := DetectorAddress(detector, values)]) ==> daq in entry.value;
    }
  }

  lemma OneEntryAdded(loaded: Entries, entry: Entries, daq: DAQAddress, address: DetectorAddress)
    requires entry.Keys !! loaded.Keys && daq !in loaded
    ensures loaded + entry == loaded[daq := address] <==> entry == map[daq := address]
  {
    if loaded + entry == loaded[daq := address] {
      assert daq in loaded + entry && (loaded + entry)[daq] == address;
      forall k | k in entry ensures k == daq {
        assert k in loaded + entry;
      }
      assert entry == map[daq := address];
    }
    if entry == map[daq := address] {
      assert loaded + entry == loaded[daq := address];
    }
  }

  lemma NumbersDeclareNothing(tokens: seq<string>, fields: seq<string>, daq: DAQAddress, values: seq<(string, int)>)
    requires RowSays(tokens, fields, daq, values)
    ensures tokens[0] != "detector" && tokens[0] != "fields"
  {
    assert IsDigit(tokens[0][0]);
  }

  ghost predicate ReadAs(r: Result<MappingState, LoadError>, st: MappingState, daq: DAQAddress,
                         values: seq<(string, int)>)
  {
    r == Success(st.(loaded := st.loaded[daq := DetectorAddress(st.detector, values)]))
  }

  // After the declarations a line is blank, or it is read as a channel row.
  lemma DeclaredStep(line: string, expected: string, st: MappingState)
    requires st.Declared()
    ensures StepLine(line, expected, st) ==
      if Tokenize(line) == [] then Success(st)
      else if Tokenize(line)[0] == "detector" || Tokenize(line)[0] == "fields" then Failure(Malformed)
      else EntryAdded(st, RowEntry(st.detector, st.fields, Tokenize(line)))
  {
    hide Tokenize, RowEntry;
  }

  function EntryAdded(st: MappingState, entry: Option<Entries>): Result<MappingState, LoadError> {
    match entry
    case None => Failure(Malformed)
    case Some(e) => if e.Keys !! st.loaded.Keys then Success(st.(loaded := st.loaded + e)) else Failure(Malformed)
  }

  lemma EntryAddedIff(st: MappingState, entry: Option<Entries>, daq: DAQAddress, values: seq<(string, int)>)
    requires daq !in st.loaded
    ensures ReadAs(EntryAdded(st, entry), st, daq, values) <==>
      entry == Some(map[daq := DetectorAddress(st.detector, values)])
  {
    var address := DetectorAddress(st.detector, values);
    if entry.Some? && entry.value.Keys !! st.loaded.Keys {
      OneEntryAdded(st.loaded, entry.value, daq, address);
    } else if entry.Some? {
      assert entry.value != map[daq := address];
    }
  }

  lemma ChannelRowReadIff(tokens: seq<string>, comment: string, expected: string, st: MappingState, daq: DAQAddress,
                          values: seq<(string, int)>)
    requires (forall i :: 0 <= i < |tokens| ==> IsToken(tokens[i])) && IsComment(comment)
    requires st.Declared() && daq !in st.loaded
    ensures ReadAs(StepLine(JoinTokens(tokens) + comment, expected, st), st, daq, values) <==>
      RowSays(tokens, st.fields, daq, values)
  {
    TokenizeInvertsJoin(tokens, comment);
    DeclaredStep(JoinTokens(tokens) + comment, expected, st);
    EntryReadIff(tokens, st.detector, st.fields, daq, values);
    if RowSays(tokens, st.fields, daq, values) {
      NumbersDeclareNothing(tokens, st.fields, daq, values);
    }
    EntryAddedIff(st, RowEntry(st.detector, st.fields, tokens), daq, values);
    hide JoinTokens, Tokenize, RowSays, IsToken, RowEntry, StepLine, EntryAdded;
    assert daq in st.loaded[daq := DetectorAddress(st.detector, values)];
  }

  // ----- A whole file -----

  datatype MappingText = MappingText(detector: string, fields: seq<string>, rows: seq<ChannelRow>)

  function TextLines(t: MappingText): seq<string> {
    [JoinTokens(["detector", t.detector]), JoinTokens(["fields"] + t.fields)] + Map(RowLine, t.rows)
  }

  // What can be written down.
  ghost predicate Writable(t: MappingText) {
    && IsToken(t.detector)
    && (forall i :: 0 <= i < |t.fields| ==> IsToken(t.fields[i]))
    && forall i :: 0 <= i < |t.rows| ==> IsComment(t.rows[i].comment)
  }

  ghost predicate RowsFit(rows: seq<ChannelRow>, fieldCount: nat) {
    && (forall i :: 0 <= i < |rows| ==> RowFits(rows[i], fieldCount))
    && (forall i, j :: 0 <= i < j < |rows| ==> AddressOf(rows[i]) != AddressOf(rows[j]))
  }

  ghost predicate Acceptable(t: MappingText, expected: string) {
    && (expected == "" || expected == t.detector)
    && t.fields != [] && NoRepeats(t.fields)
    && RowsFit(t.rows, |t.fields|)
  }

  // The entries are those of the rows, and no others.
  ghost predicate EntriesOf(entries: Entries, detector: string, fields: seq<string>, rows: seq<ChannelRow>) {
    && (forall i :: 0 <= i < |rows| ==> RowFits(rows[i], |fields|) && EntryOf(entries, detector, fields, rows[i]))
    && (forall daq :: daq in entries ==> exists i :: 0 <= i < |rows| && AddressOf(rows[i]) == daq)
  }

  ghost predicate EntryOf(entries: Entries, detector: string, fields: seq<string>, row: ChannelRow)
    requires RowFits(row, |fields|)
  {
    && AddressOf(row) in entries
    && entries[AddressOf(row)] == DetectorAddress(detector, Labelled(fields, row.values))
  }

  ghost predicate NoneTaken(rows: seq<ChannelRow>, entries: Entries) {
    forall i :: 0 <= i < |rows| ==> AddressOf(rows[i]) !in entries
  }

  // The rows of a file, added one after the other.
  function WithRows(base: Entries, detector: string, fields: seq<string>, rows: seq<ChannelRow>): Entries
    requires forall i :: 0 <= i < |rows| ==> RowFits(rows[i], |fields|)
  {
    if rows == [] then base
    else
      var last := rows[|rows| - 1];
      assert RowFits(last, |fields|);
      WithRows(base, detector, fields, rows[..|rows| - 1])[AddressOf(last) :=
        DetectorAddress(detector, Labelled(fields, last.values))]
  }

  lemma EntriesNext(before: Entries, detector: string, fields: seq<string>, front: seq<ChannelRow>, last: ChannelRow)
    requires RowsFit(front + [last], |fields|) && EntriesOf(before, detector, fields, front)
    requires RowFits(last, |fields|)
    ensures EntriesOf(before[AddressOf(last) := DetectorAddress(detector, Labelled(fields, last.values))],
      detector, fields, front + [last])
  {
    FitsNext(front, last, |fields|);
    hide RowFits, AddressOf, RowsFit;
    var after, rows := before[AddressOf(last) := DetectorAddress(detector, Labelled(fields, last.values))],
      front + [last];
    forall i | 0 <= i < |rows| ensures RowFits(rows[i], |fields|) && EntryOf(after, detector, fields, rows[i]) {
      assert i < |front| ==> EntryOf(before, detector, fields, front[i]);
    }
    forall daq | daq in after ensures exists i :: 0 <= i < |rows| && AddressOf(rows[i]) == daq {
      if daq == AddressOf(last) {
        assert AddressOf(rows[|front|]) == daq;
      } else {
        var i :| 0 <= i < |front| && AddressOf(front[i]) == daq;
        assert AddressOf(rows[i]) == daq;
      }
    }
  }

  lemma {:induction false} WithRowsAre(detector: string, fields: seq<string>, rows: seq<ChannelRow>)
    requires RowsFit(rows, |fields|)
    ensures EntriesOf(WithRows(map[], detector, fields, rows), detector, fields, rows)
  {
    hide RowFits, AddressOf;
    if rows != [] {
      var front, last := rows[..|rows| - 1], rows[|rows| - 1];
      assert rows == front + [last];
      FitsNext(front, last, |fields|);
      WithRowsAre(detector, fields, front);
      EntriesNext(WithRows(map[], detector, fields, front), detector, fields, front, last);
    }
  }

  lemma {:induction false} ReadLinesFail(front: seq<string>, back: seq<string>, expected: string, st: MappingState)
    requires ReadLines(front, expected, st).Failure?
    ensures ReadLines(front + back, expected, st) == ReadLines(front, expected, st)
  {
    assert (front + back)[0] == front[0] && (front + back)[1..] == front[1..] + back;
    if StepLine(front[0], expected, st).Success? {
      ReadLinesFail(front[1..], back, expected, StepLine(front[0], expected, st).value);
    }
  }

  lemma ReadOneLine(line: string, expected: string, st: MappingState)
    ensures ReadLines([line], expected, st) == StepLine(line, expected, st)
  {
    hide StepLine;
    assert [line][1..] == [];
  }

  // Reading written rows in a declared state, where nothing is loaded yet.
  lemma {:induction false} RowsRead(rows: seq<ChannelRow>, expected: string, st: MappingState)
    requires st.Declared() && st.loaded == map[] && forall i :: 0 <= i < |rows| ==> IsComment(rows[i].comment)
    ensures ReadLines(Map(RowLine, rows), expected, st) ==
      if RowsFit(rows, |st.fields|) then Success(st.(loaded := WithRows(map[], st.detector, st.fields, rows)))
      else Failure(Malformed)
  {
    hide RowFits, StepLine, RowLine, AddressOf;
    if rows != [] {
      var front, last := rows[..|rows| - 1], rows[|rows| - 1];
      RowsRead(front, expected, st);
      assert Map(RowLine, rows) == Map(RowLine, front) + [RowLine(last)];
      FitsNext(front, last, |st.fields|);
      assert rows == front + [last];
      if RowsFit(front, |st.fields|) {
        var next := st.(loaded := WithRows(map[], st.detector, st.fields, front));
        ReadLinesSplit(Map(RowLine, front), [RowLine(last)], expected, st);
        ReadOneLine(RowLine(last), expected, next);
        WrittenRowRead(last, expected, next);
        WithRowsAre(st.detector, st.fields, front);
        TakenIff(next.loaded, st.detector, st.fields, front, last);
      } else {
        ReadLinesFail(Map(RowLine, front), [RowLine(last)], expected, st);
      }
    }
  }

  lemma TakenIff(entries: Entries, detector: string, fields: seq<string>, rows: seq<ChannelRow>, last: ChannelRow)
    requires RowsFit(rows, |fields|) && EntriesOf(entries, detector, fields, rows)
    ensures AddressOf(last) in entries <==> exists i :: 0 <= i < |rows| && AddressOf(rows[i]) == AddressOf(last)
  {
    hide RowFits, AddressOf;
  }

  lemma FitsNext(front: seq<ChannelRow>, last: ChannelRow, fieldCount: nat)
    ensures RowsFit(front + [last], fieldCount) <==>
      && RowsFit(front, fieldCount) && RowFits(last, fieldCount)
      && forall i :: 0 <= i < |front| ==> AddressOf(front[i]) != AddressOf(last)
  {
    hide RowFits, AddressOf;
    var all := front + [last];
    assert all[|front|] == last && forall i :: 0 <= i < |front| ==> all[i] == front[i];
  }

  lemma DeclarationsRead(t: MappingText, expected: string)
    requires Writable(t)
    ensures var declarations := [JoinTokens(["detector", t.detector]), JoinTokens(["fields"] + t.fields)];
      ReadLines(declarations, expected, EMPTY_STATE) ==
      if (expected == "" || expected == t.detector) && t.fields != [] && NoRepeats(t.fields) then
        Success(MappingState(t.detector, t.fields, map[]))
      else Failure(Malformed)
  {
    var first, second := JoinTokens(["detector", t.detector]), JoinTokens(["fields"] + t.fields);
    assert IsToken("detector") && IsToken("fields");
    TokenizeInvertsJoin(["detector", t.detector], "");
    TokenizeInvertsJoin(["fields"] + t.fields, "");
    hide JoinTokens, Tokenize, IsToken;
    assert first + "" == first && second + "" == second;
    assert (["fields"] + t.fields)[1..] == t.fields;
    assert [first, second][1..] == [second];
    ReadOneLine(second, expected, MappingState(t.detector, [], map[]));
  }

  // A written file loads exactly when its detector is the expected one, its
  // field names differ, and its rows fit and have different addresses. It then
  // gives each row's address the row's values, field by field, and no other
  // address anything.
  lemma WrittenFileRead(t: MappingText, expected: string)
    requires Writable(t)
    ensures var r := ReadMapping(Some(File(TextLines(t), true)), expected);
      && (r.Success? <==> Acceptable(t, expected))
      && (r.Success? ==> EntriesOf(r.value, t.detector, t.fields, t.rows))
      && (r.Failure? ==> r.error == Malformed)
  {
    DeclarationsRead(t, expected);
    var st := MappingState(t.detector, t.fields, map[]);
    var declarations := [JoinTokens(["detector", t.detector]), JoinTokens(["fields"] + t.fields)];
    hide JoinTokens, StepLine, RowLine, RowFits, AddressOf, EntriesOf, ReadLines;
    if ReadLines(declarations, expected, EMPTY_STATE).Success? {
      ReadLinesSplit(declarations, Map(RowLine, t.rows), expected, EMPTY_STATE);
      RowsRead(t.rows, expected, st);
      if RowsFit(t.rows, |t.fields|) { WithRowsAre(t.detector, t.fields, t.rows); }
    } else {
      ReadLinesFail(declarations, Map(RowLine, t.rows), expected, EMPTY_STATE);
    }
  }

  // Loading it into a table also needs that no address is taken there, and
  // then adds exactly these entries.
  lemma WrittenFileLoads(t: MappingText, expected: string, base: Entries)
    requires Writable(t)
    ensures var r := UnionAll([FilePart(Some(File(TextLines(t), true)), expected)], base);
      && (r.Some? <==> Acceptable(t, expected) && NoneTaken(t.rows, base))
      && (r.Some? ==>
        && (forall daq :: daq in base ==> daq in r.value && r.value[daq] == base[daq])
        && EntriesOf(r.value - base.Keys, t.detector, t.fields, t.rows))
  {
    WrittenFileRead(t, expected);
    hide ReadMapping, TextLines, RowFits, AddressOf;
    var part := FilePart(Some(File(TextLines(t), true)), expected);
    assert [part][1..] == [];
    if part.Some? {
      NoneTakenIff(part.value, t.detector, t.fields, t.rows, base);
      hide EntriesOf, NoneTaken;
      if part.value.Keys !! base.Keys {
        assert base + part.value - base.Keys == part.value;
      }
    }
  }

  lemma NoneTakenIff(entries: Entries, detector: string, fields: seq<string>, rows: seq<ChannelRow>, base: Entries)
    requires EntriesOf(entries, detector, fields, rows)
    ensures entries.Keys !! base.Keys <==> NoneTaken(rows, base)
  {
    hide RowFits, AddressOf;
    forall i | 0 <= i < |rows| ensures AddressOf(rows[i]) in entries {
      assert EntryOf(entries, detector, fields, rows[i]);
    }
    if NoneTaken(rows, base) {
      forall daq | daq in entries ensures daq !in base {
        var i :| 0 <= i < |rows| && AddressOf(rows[i]) == daq;
      }
    }
  }

  // ----- The shape of every accepted file -----

  // The first line that holds a token.
  function FirstTokens(lines: seq<string>): (n: nat)
    ensures n <= |lines|
    ensures forall i :: 0 <= i < n ==> Tokenize(lines[i]) == []
    ensures n < |lines| ==> Tokenize(lines[n]) != []
  {
    if lines == [] || Tokenize(lines[0]) != [] then 0
    else
      var rest := FirstTokens(lines[1..]);
      assert forall i :: 0 < i < |lines| ==> lines[i] == lines[1..][i - 1];
      1 + rest
  }

  lemma {:induction false} BlankLinesSkipped(lines: seq<string>, expected: string, st: MappingState)
    ensures ReadLines(lines, expected, st) == ReadLines(lines[FirstTokens(lines)..], expected, st)
  {
    hide Tokenize;
    if lines != [] && Tokenize(lines[0]) == [] {
      BlankLinesSkipped(lines[1..], expected, st);
      assert lines[1..][FirstTokens(lines[1..])..] == lines[FirstTokens(lines)..];
    }
  }

  // The first line with a token declares the detector.
  ghost predicate DeclaresDetector(lines: seq<string>, expected: string) {
    var d := FirstTokens(lines);
    d < |lines| && exists name :: Tokenize(lines[d]) == ["detector", name] && (expected == "" || expected == name)
  }

  // The first line with a token declares the fields, each once.
  ghost predicate DeclaresFields(lines: seq<string>) {
    var f := FirstTokens(lines);
    f < |lines| && exists names ::
      Tokenize(lines[f]) == ["fields"] + names && names != [] && NoRepeats(names)
  }

  lemma DetectorLineRead(lines: seq<string>, expected: string)
    ensures var d := FirstTokens(lines);
      if DeclaresDetector(lines, expected) then
        ReadLines(lines, expected, EMPTY_STATE) ==
          ReadLines(lines[d + 1..], expected, MappingState(Tokenize(lines[d])[1], [], map[]))
      else
        ReadLines(lines, expected, EMPTY_STATE).Failure? || ReadLines(lines, expected, EMPTY_STATE).value == EMPTY_STATE
  {
    BlankLinesSkipped(lines, expected, EMPTY_STATE);
    hide Tokenize;
    var rest := lines[FirstTokens(lines)..];
    if rest != [] {
      var tokens := Tokenize(rest[0]);
      assert rest[1..] == lines[FirstTokens(lines) + 1..];
      if tokens[0] == "detector" && |tokens| == 2 {
        assert tokens == ["detector", tokens[1]];
      }
    }
  }

  lemma FieldsLineRead(lines: seq<string>, expected: string, detector: string)
    requires detector != ""
    ensures var f, st := FirstTokens(lines), MappingState(detector, [], map[]);
      if DeclaresFields(lines) then
        ReadLines(lines, expected, st) ==
          ReadLines(lines[f + 1..], expected, MappingState(detector, Tokenize(lines[f])[1..], map[]))
      else
        ReadLines(lines, expected, st).Failure? || ReadLines(lines, expected, st).value == st
  {
    var st := MappingState(detector, [], map[]);
    BlankLinesSkipped(lines, expected, st);
    hide Tokenize;
    var rest := lines[FirstTokens(lines)..];
    if rest != [] {
      var tokens := Tokenize(rest[0]);
      assert rest[1..] == lines[FirstTokens(lines) + 1..];
      if tokens[0] == "fields" && |tokens| >= 2 && NoRepeats(tokens[1..]) {
        assert tokens == ["fields"] + tokens[1..];
      }
      if DeclaresFields(lines) {
        var names :| tokens == ["fields"] + names && names != [] && NoRepeats(names);
        assert tokens[1..] == names;
      }
    }
  }

  // The rest of the file after the detector.
  ghost predicate GoodRest(later: seq<string>, detector: string) {
    && DeclaresFields(later)
    && var f := FirstTokens(later);
    UnionAll(LineParts(later[f + 1..], detector, Tokenize(later[f])[1..]), map[]).Some?
  }

  lemma RestRead(later: seq<string>, expected: string, detector: string)
    requires detector != ""
    ensures var r := ReadLines(later, expected, MappingState(detector, [], map[]));
      (r.Success? && r.value.Declared()) <==> GoodRest(later, detector)
  {
    FieldsLineRead(later, expected, detector);
    hide ReadLines, LineParts, Tokenize;
    if DeclaresFields(later) {
      var f := FirstTokens(later);
      var st := MappingState(detector, Tokenize(later[f])[1..], map[]);
      hide DeclaresFields, UnionAll;
      DeclaredLinesAreParts(later[f + 1..], expected, st);
    }
  }

  // A file is accepted exactly when it is read to the end, its first line with
  // a token declares the expected detector, the next one the fields, and all
  // later lines are blank or rows for these fields with different addresses.
  lemma {:induction false} FileAcceptedIff(lines: seq<string>, complete: bool, expected: string)
    ensures ReadMapping(Some(File(lines, complete)), expected).Success? <==>
      && complete && DeclaresDetector(lines, expected)
      && var d := FirstTokens(lines);
      GoodRest(lines[d + 1..], Tokenize(lines[d])[1])
  {
    var d := FirstTokens(lines);
    DetectorLineRead(lines, expected);
    hide ReadLines, GoodRest;
    if DeclaresDetector(lines, expected) {
      RestRead(lines[d + 1..], expected, Tokenize(lines[d])[1]);
    }
  }
}
