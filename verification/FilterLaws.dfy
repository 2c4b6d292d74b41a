// The allow-list over every sequence of file loads, including those that
// stop at a malformed row.
module FilterLaws {
  import opened Common
  import opened ConfigurationText
  import opened StreamIntegers
  import opened FilterIndex

  // The distinct rows after the first n loads.
  function AfterLoads(files: seq<Option<File>>, n: nat): seq<FilterRow>
    requires n <= |files|
  {
    if n == 0 then []
    else if files[n - 1].None? then AfterLoads(files, n - 1)
    else
      var parsed := ReadRows(files[n - 1].value.lines);
      Extended(AfterLoads(files, n - 1), parsed, GoodRows(parsed, |parsed|))
  }

  // A file contributes its rows before the first malformed one.
  ghost predicate Contributes(file: Option<File>, row: FilterRow) {
    file.Some? && exists k :: ContributesAt(file.value.lines, row, k)
  }

  ghost predicate ContributesAt(lines: seq<string>, row: FilterRow, k: int) {
    && 0 <= k < |lines| && ReadRow(lines[k]) == Allow(row)
    && forall i :: 0 <= i < k ==> !ReadRow(lines[i]).Bad?
  }

  lemma {:induction false} ExtendedRows(order: seq<FilterRow>, rows: seq<ParsedRow>, n: nat)
    requires n <= |rows| && NoRepeats(order)
    ensures NoRepeats(Extended(order, rows, n))
    ensures forall row :: row in Extended(order, rows, n) <==>
      row in order || exists k :: 0 <= k < n && rows[k] == Allow(row)
  {
    if n > 0 {
      ExtendedRows(order, rows, n - 1);
      var before, after := Extended(order, rows, n - 1), Extended(order, rows, n);
      forall row ensures row in after <==> row in order || exists k :: 0 <= k < n && rows[k] == Allow(row) {
        if rows[n - 1] == Allow(row) {
          assert row in after;
        } else {
          assert row in after <==> row in before;
        }
      }
    }
  }

  lemma GoodRowsContribute(lines: seq<string>, row: FilterRow)
    ensures var parsed := ReadRows(lines);
      (exists k :: 0 <= k < GoodRows(parsed, |parsed|) && parsed[k] == Allow(row)) <==>
        exists k :: ContributesAt(lines, row, k)
  {
    hide ReadRow, GoodRows;
    var parsed := ReadRows(lines);
    var good := GoodRows(parsed, |parsed|);
    assert forall i :: 0 <= i < |lines| ==> parsed[i] == ReadRow(lines[i]);
    if k :| 0 <= k < good && parsed[k] == Allow(row) {
      assert ContributesAt(lines, row, k);
    }
    if k :| ContributesAt(lines, row, k) {
      assert k < good && parsed[k] == Allow(row);
    }
  }

  predicate Known(files: seq<Option<File>>, n: nat, row: FilterRow)
    requires n <= |files|
  {
    row in AfterLoads(files, n)
  }

  lemma NothingKnown(files: seq<Option<File>>, row: FilterRow)
    ensures NoRepeats(AfterLoads(files, 0)) && !Known(files, 0, row) && !SomeContributes(files, 0, row)
  {
  }

  lemma OneLoad(files: seq<Option<File>>, n: nat, row: FilterRow)
    requires n < |files| && NoRepeats(AfterLoads(files, n))
    ensures NoRepeats(AfterLoads(files, n + 1))
    ensures Known(files, n + 1, row) <==> Known(files, n, row) || Contributes(files[n], row)
  {
    if files[n].Some? {
      var lines := files[n].value.lines;
      var parsed := ReadRows(lines);
      ExtendedRows(AfterLoads(files, n), parsed, GoodRows(parsed, |parsed|));
      hide ReadRows, ContributesAt, NoRepeats, Extended, GoodRows;
      GoodRowsContribute(lines, row);
    }
  }

  ghost predicate SomeContributes(files: seq<Option<File>>, n: nat, row: FilterRow)
    requires n <= |files|
  {
    exists i :: 0 <= i < n && Contributes(files[i], row)
  }

  // After any sequence of loads the index holds exactly the rows that some
  // file contributes, each once.
  lemma {:induction false} LoadedRows(files: seq<Option<File>>, n: nat, row: FilterRow)
    requires n <= |files|
    ensures NoRepeats(AfterLoads(files, n))
    ensures Known(files, n, row) <==> SomeContributes(files, n, row)
  {
    hide *;
    if n == 0 {
      NothingKnown(files, row);
    } else {
      LoadedRows(files, n - 1, row);
      OneLoad(files, n - 1, row);
      OneMoreContributes(files, n, row);
    }
  }

  lemma OneMoreContributes(files: seq<Option<File>>, n: nat, row: FilterRow)
    requires 0 < n <= |files|
    ensures SomeContributes(files, n, row) <==>
      SomeContributes(files, n - 1, row) || Contributes(files[n - 1], row)
  {
    hide Contributes;
  }

  function RowSet(order: seq<FilterRow>): set<FilterRow> {
    set row | row in order
  }

  // Layers form a union: neither their order nor loading one again decides
  // which rows, and so which answers, there are.
  lemma LayersUnion(left: seq<Option<File>>, right: seq<Option<File>>)
    requires forall file :: file in left <==> file in right
    ensures RowSet(AfterLoads(left, |left|)) == RowSet(AfterLoads(right, |right|))
  {
    hide AfterLoads, Contributes;
    forall row ensures row in AfterLoads(left, |left|) <==> row in AfterLoads(right, |right|) {
      LoadedRows(left, |left|, row);
      LoadedRows(right, |right|, row);
      if SomeContributes(left, |left|, row) {
        var i :| 0 <= i < |left| && Contributes(left[i], row);
        assert left[i] in right;
      }
      if SomeContributes(right, |right|, row) {
        var i :| 0 <= i < |right| && Contributes(right[i], row);
        assert right[i] in left;
      }
    }
  }

  // Once some row is loaded, further files only broaden what is allowed.
  lemma {:induction false} LaterFilesBroaden(files: seq<Option<File>>, n: nat, m: nat, rocid: int, bank: int,
                                             slot: int, moduleId: int)
    requires n <= m <= |files| && AfterLoads(files, n) != []
    ensures var before, after := RowSet(AfterLoads(files, n)), RowSet(AfterLoads(files, m));
      && before <= after && before != {}
      && (RocAllowed(before, rocid) ==> RocAllowed(after, rocid))
      && (BankAllowed(before, rocid, bank) ==> BankAllowed(after, rocid, bank))
      && (SlotAllowed(before, rocid, slot) ==> SlotAllowed(after, rocid, slot))
      && (ModuleAllowed(before, rocid, moduleId) ==> ModuleAllowed(after, rocid, moduleId))
  {
    hide AfterLoads, Contributes;
    assert AfterLoads(files, n)[0] in RowSet(AfterLoads(files, n));
    forall row | row in AfterLoads(files, n) ensures row in AfterLoads(files, m) {
      LoadedRows(files, n, row);
      LoadedRows(files, m, row);
    }
  }

  // ----- The parallel lists -----

  lemma {:induction false} RocRowsDistinct(order: seq<FilterRow>, rocid: int)
    requires NoRepeats(order)
    ensures NoRepeats(RocRows(order, rocid))
  {
    if order != [] {
      var front := order[..|order| - 1];
      RocRowsDistinct(front, rocid);
      RocRowsAre(front, rocid);
    }
  }

  lemma {:induction false} DistinctCount(rows: seq<FilterRow>)
    requires NoRepeats(rows)
    ensures |RowSet(rows)| == |rows|
  {
    if rows != [] {
      var front, last := rows[..|rows| - 1], rows[|rows| - 1];
      DistinctCount(front);
      assert rows == front + [last];
      assert RowSet(rows) == RowSet(front) + {last};
      assert last !in front;
    }
  }

  // The three lists of a ROC are as long as it has distinct rows.
  lemma ListLengths(data: map<int, Lists>, order: seq<FilterRow>, rocid: int)
    requires Indexes(data, order) && NoRepeats(order) && rocid in data
    ensures var count := |set row | row in order && row.rocid == rocid|;
      |data[rocid].banks| == |data[rocid].slots| == |data[rocid].modules| == count
  {
    var rows := RocRows(order, rocid);
    RocRowsDistinct(order, rocid);
    RocRowsAre(order, rocid);
    DistinctCount(rows);
    assert RowSet(rows) == set row | row in order && row.rocid == rocid;
  }

  // ----- Loads that stop -----

  lemma {:induction false} ExtendedUnchangedIff(order: seq<FilterRow>, rows: seq<ParsedRow>, n: nat)
    requires n <= |rows|
    ensures |Extended(order, rows, n)| >= |order|
    ensures Extended(order, rows, n) == order <==> forall i :: 0 <= i < n && rows[i].Allow? ==> rows[i].row in order
  {
    if n > 0 { ExtendedUnchangedIff(order, rows, n - 1); }
  }

  // A load that fails on a malformed row leaves the rows as they were exactly
  // when every row that the file contributes is known already.
  lemma LoadKeepsRowsIff(order: seq<FilterRow>, lines: seq<string>)
    ensures var parsed := ReadRows(lines);
      Extended(order, parsed, GoodRows(parsed, |parsed|)) == order <==>
        forall row, k :: ContributesAt(lines, row, k) ==> row in order
  {
    hide ReadRow, GoodRows, Extended;
    var parsed := ReadRows(lines);
    var good := GoodRows(parsed, |parsed|);
    ExtendedUnchangedIff(order, parsed, good);
    assert forall i :: 0 <= i < |lines| ==> parsed[i] == ReadRow(lines[i]);
    if forall row, k :: ContributesAt(lines, row, k) ==> row in order {
      forall i | 0 <= i < good && parsed[i].Allow? ensures parsed[i].row in order {
        assert ContributesAt(lines, parsed[i].row, i);
      }
    }
    forall row, k | ContributesAt(lines, row, k) && Extended(order, parsed, good) == order ensures row in order {
      assert k < good && parsed[k] == Allow(row);
    }
  }

  // A row and then a line that is none: the load fails, and the row stays.
  lemma FailedLoadAddsRow(row: FilterRow)
    requires RowFits(row)
    ensures var lines := [ShowRow(row), "x"];
      && !Loads(Some(File(lines, true)))
      && AfterLoads([Some(File(lines, true))], 1) == [row]
  {
    var lines := [ShowRow(row), "x"];
    ReadInvertsShow(row, "");
    assert ShowRow(row) + "" == ShowRow(row);
    LetterIsBad();
    hide ReadRow, ShowRow;
    var parsed := ReadRows(lines);
    assert parsed == [Allow(row), Bad];
    FirstBad(parsed, 1);
    assert Extended([], parsed, 0) == [];
    assert Extended([], parsed, 1) == [row];
    assert ReadRow(lines[1]).Bad?;
    assert AfterLoads([Some(File(lines, true))], 0) == [];
  }

  lemma LetterIsBad()
    ensures ReadRow("x").Bad?
  {
    assert "x"[1..] == "" && StripComment("x") == "x";
    assert SkipSpace("x") == "x" && DigitRun("x") == 0;
  }

  // ----- Written rows are read back -----

  predicate RowFits(row: FilterRow) {
    && 0 <= row.rocid <= MAX_INT && 0 <= row.slot <= MAX_INT && 0 <= row.moduleId <= MAX_INT
    && 0 <= row.bank <= 65535
  }

  // The columns are ROC, slot, module and bank.
  function ShowRow(row: FilterRow): string {
    RowText([row.rocid, row.slot, row.moduleId, row.bank])
  }

  lemma ReadInvertsShow(row: FilterRow, comment: string)
    requires IsComment(comment)
    ensures ReadRow(ShowRow(row) + comment) == if RowFits(row) then Allow(row) else Bad
  {
    hide RowText, ExtractRow, StripComment, Blank;
    var values := [row.rocid, row.slot, row.moduleId, row.bank];
    ExtractRowInvertsText(values, 4);
    WrittenLine(values, comment);
  }

  // A row with more or fewer numbers is malformed, and a line with nothing
  // but a comment is none.
  lemma OtherRowsBad(values: seq<int>, comment: string)
    requires IsComment(comment) && |values| != 4
    ensures ReadRow(RowText(values) + comment) == if values == [] then Empty else Bad
  {
    hide RowText, ExtractRow, StripComment, Blank;
    ExtractRowInvertsText(values, 4);
    WrittenLine(values, comment);
  }

  // Nor may anything but a number stand among the four or after them.
  lemma JunkRowsBad(values: seq<int>, junk: string, comment: string)
    requires IsJunk(junk) && |values| <= 4 && IsComment(comment)
    ensures ReadRow(RowText(values) + junk + comment) == Bad
  {
    hide RowText, ExtractRow, StripComment, Blank, IsJunk;
    JunkLine(values, junk, comment, 4);
  }

  datatype WrittenRow = WrittenRow(row: FilterRow, comment: string)

  function RowLine(written: WrittenRow): string {
    ShowRow(written.row) + written.comment
  }

  // Row k of a file and all rows before it are in range.
  ghost predicate WrittenAt(rows: seq<WrittenRow>, row: FilterRow, k: int) {
    0 <= k < |rows| && rows[k].row == row && forall i :: 0 <= i <= k ==> RowFits(rows[i].row)
  }

  // A written file contributes exactly the rows before the first one with a
  // number out of range.
  lemma WrittenFileContributes(rows: seq<WrittenRow>, complete: bool, row: FilterRow)
    requires forall i :: 0 <= i < |rows| ==> IsComment(rows[i].comment)
    ensures Contributes(Some(File(Map(RowLine, rows), complete)), row) <==> exists k :: WrittenAt(rows, row, k)
  {
    hide ReadRow, ShowRow, RowFits, IsComment;
    var lines := Map(RowLine, rows);
    forall i | 0 <= i < |rows|
      ensures ReadRow(lines[i]) == if RowFits(rows[i].row) then Allow(rows[i].row) else Bad
    {
      ReadInvertsShow(rows[i].row, rows[i].comment);
    }
    if k :| ContributesAt(lines, row, k) {
      assert WrittenAt(rows, row, k);
    }
    if k :| WrittenAt(rows, row, k) {
      assert ContributesAt(lines, row, k);
    }
  }
}
