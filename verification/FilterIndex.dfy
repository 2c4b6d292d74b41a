// The allow-list of ROCs, banks, slots and modules.
module FilterIndex {
  import opened Common
  import opened ConfigurationText
  import opened StreamIntegers

  datatype FilterRow = FilterRow(rocid: int, slot: int, moduleId: int, bank: int)

  datatype ParsedRow = Empty | Allow(row: FilterRow) | Bad

  function ReadRow(line: string): ParsedRow {
    if Blank(line) then Empty
    else
      match ExtractRow(StripComment(line), 4)
      case None => Bad
      case Some(v) =>
        if v[0] < 0 || v[1] < 0 || v[2] < 0 || v[3] < 0 || v[3] > 65535 then Bad
        else Allow(FilterRow(v[0], v[1], v[2], v[3]))
  }

  // The three lists of one ROC.
  datatype Lists = Lists(banks: seq<int>, slots: seq<int>, modules: seq<int>)

  const NO_LISTS := Lists([], [], [])

  function ReadRows(lines: seq<string>): (rows: seq<ParsedRow>)
    ensures |rows| == |lines|
  {
    Map(ReadRow, lines)
  }

  // ----- What the allow-list is for -----

  ghost predicate RocAllowed(rows: set<FilterRow>, rocid: int) {
    rows == {} || exists row :: row in rows && row.rocid == rocid
  }

  ghost predicate BankAllowed(rows: set<FilterRow>, rocid: int, bank: int) {
    rows == {} || exists row :: row in rows && row.rocid == rocid && row.bank == bank
  }

  ghost predicate SlotAllowed(rows: set<FilterRow>, rocid: int, slot: int) {
    rows == {} || exists row :: row in rows && row.rocid == rocid && row.slot == slot
  }

  ghost predicate ModuleAllowed(rows: set<FilterRow>, rocid: int, moduleId: int) {
    rows == {} || exists row :: row in rows && row.rocid == rocid && row.moduleId == moduleId
  }

  // ----- The index as a function of the rows -----

  // The rows of a ROC, in the order in which they were first met.
  function RocRows(order: seq<FilterRow>, rocid: int): seq<FilterRow> {
    if order == [] then []
    else
      var last := order[|order| - 1];
      RocRows(order[..|order| - 1], rocid) + if last.rocid == rocid then [last] else []
  }

  function ListsOf(rows: seq<FilterRow>): Lists {
    Lists(Map((r: FilterRow) => r.bank, rows), Map((r: FilterRow) => r.slot, rows),
      Map((r: FilterRow) => r.moduleId, rows))
  }

  ghost predicate Indexes(data: map<int, Lists>, order: seq<FilterRow>) {
    && (forall rocid :: rocid in data <==> RocRows(order, rocid) != [])
    && (forall rocid :: rocid in data ==> data[rocid] == ListsOf(RocRows(order, rocid)))
  }

  lemma RocRowsNext(order: seq<FilterRow>, row: FilterRow, rocid: int)
    ensures RocRows(order + [row], rocid) == RocRows(order, rocid) + if row.rocid == rocid then [row] else []
  {
    assert (order + [row])[..|order|] == order;
  }

  lemma {:induction false} RocRowsAre(order: seq<FilterRow>, rocid: int)
    ensures forall row :: row in RocRows(order, rocid) <==> row in order && row.rocid == rocid
  {
    if order != [] {
      var front, last := order[..|order| - 1], order[|order| - 1];
      RocRowsAre(front, rocid);
      assert order == front + [last];
    }
  }

  // One more row that was not known before.
  lemma IndexOneMore(data: map<int, Lists>, order: seq<FilterRow>, row: FilterRow)
    requires Indexes(data, order)
    ensures var lists := if row.rocid in data then data[row.rocid] else NO_LISTS;
      Indexes(data[row.rocid := Lists(lists.banks + [row.bank], lists.slots + [row.slot],
        lists.modules + [row.moduleId])], order + [row])
  {
    var lists := if row.rocid in data then data[row.rocid] else NO_LISTS;
    var updated := Lists(lists.banks + [row.bank], lists.slots + [row.slot], lists.modules + [row.moduleId]);
    var next := data[row.rocid := updated];
    ListsOneMore(RocRows(order, row.rocid), row);
    assert ListsOf([]) == NO_LISTS;
    hide RocRows, ListsOf;
    forall rocid
      ensures rocid in next <==> RocRows(order + [row], rocid) != []
      ensures rocid in next ==> next[rocid] == ListsOf(RocRows(order + [row], rocid))
    {
      RocRowsNext(order, row, rocid);
      if rocid != row.rocid {
        assert RocRows(order, rocid) + [] == RocRows(order, rocid);
      }
    }
  }

  lemma ListsOneMore(rows: seq<FilterRow>, row: FilterRow)
    ensures var lists := ListsOf(rows);
      ListsOf(rows + [row]) ==
        Lists(lists.banks + [row.bank], lists.slots + [row.slot], lists.modules + [row.moduleId])
  {
  }

  // ----- Loading -----

  // How many rows come before the first malformed one.
  function GoodRows(rows: seq<ParsedRow>, n: nat): (r: nat)
    requires n <= |rows|
    ensures r <= n
    ensures forall i :: 0 <= i < r ==> !rows[i].Bad?
    ensures r < n ==> rows[r].Bad?
  {
    if n == 0 then 0
    else
      var r := GoodRows(rows, n - 1);
      if r == n - 1 && !rows[r].Bad? then n else r
  }

  // The rows among the first n that are not known yet, appended in order.
  function Extended(order: seq<FilterRow>, rows: seq<ParsedRow>, n: nat): seq<FilterRow>
    requires n <= |rows|
  {
    if n == 0 then order
    else
      var before := Extended(order, rows, n - 1);
      if rows[n - 1].Allow? && rows[n - 1].row !in before then before + [rows[n - 1].row] else before
  }

  datatype FilterError = Unreadable | Malformed

  class FilterDB {
    var data: map<int, Lists>
    var rows: set<FilterRow>
    // The distinct rows, in the order in which they were first met.
    ghost var order: seq<FilterRow>

    ghost predicate Valid()
      reads this
    {
      && Indexes(data, order)
      && (forall row :: row in rows <==> row in order)
      && NoRepeats(order)
    }

    constructor ()
      ensures Valid() && rows == {} && order == []
    {
      data, rows, order := map[], {}, [];
    }

    // A malformed row stops the load, but the rows before it stay.
    method FillDB(file: Option<File>) returns (error: Option<FilterError>)
      requires Valid()
      modifies this
      ensures Valid()
      ensures file.None? ==> order == old(order)
      ensures file.Some? ==>
        var parsed := ReadRows(file.value.lines);
        order == Extended(old(order), parsed, GoodRows(parsed, |parsed|))
      ensures error.None? <==> Loads(file)
    {
      if file.None? {
        return Some(Unreadable);
      }
      hide Valid, ReadRow, Extended, GoodRows;
      var good := FillRows(file.value.lines);
      if !good {
        return Some(Malformed);
      }
      error := if file.value.complete then None else Some(Unreadable);
    }

    // The loop over the lines.
    method FillRows(lines: seq<string>) returns (good: bool)
      requires Valid()
      modifies this
      ensures Valid()
      ensures var parsed := ReadRows(lines);
        order == Extended(old(order), parsed, GoodRows(parsed, |parsed|))
      ensures good <==> forall i :: 0 <= i < |lines| ==> !ReadRow(lines[i]).Bad?
    {
      hide Valid, ReadRow, GoodRows;
      ghost var parsed := ReadRows(lines);
      for n := 0 to |lines|
        invariant Valid() && order == Extended(old(order), parsed, n)
        invariant forall i :: 0 <= i < n ==> !parsed[i].Bad?
      {
        var row := ReadRow(lines[n]);
        assert row == parsed[n];
        if row.Bad? {
          FirstBad(parsed, n);
          return false;
        }
        if row.Empty? {
          continue;
        }
        InsertRow(row.row);
      }
      AllGood(parsed);
      assert forall i :: 0 <= i < |lines| ==> parsed[i] == ReadRow(lines[i]);
      good := true;
    }

    method InsertRow(row: FilterRow)
      requires Valid()
      modifies this
      ensures Valid() && order == if row in old(order) then old(order) else old(order) + [row]
    {
      if row in rows {
        return;
      }
      IndexOneMore(data, order, row);
      rows := rows + {row};
      var lists := if row.rocid in data then data[row.rocid] else NO_LISTS;
      data := data[row.rocid := Lists(lists.banks + [row.bank], lists.slots + [row.slot],
        lists.modules + [row.moduleId])];
      order := order + [row];
    }

    method IsRocAllowed(rocid: int) returns (allowed: bool)
      requires Valid()
      ensures allowed <==> RocAllowed(rows, rocid)
    {
      EmptyIndex(data, order, rows);
      ListsAnswer(data, order, rocid);
      hide Indexes, NoRepeats;
      if data == map[] {
        return true;
      }
      allowed := rocid in data;
    }

    method IsBankAllowed(rocid: int, bank: int) returns (allowed: bool)
      requires Valid()
      ensures allowed <==> BankAllowed(rows, rocid, bank)
    {
      EmptyIndex(data, order, rows);
      ListsAnswer(data, order, rocid);
      hide Indexes, NoRepeats;
      if data == map[] {
        return true;
      }
      if rocid !in data {
        return false;
      }
      allowed := bank in data[rocid].banks;
    }

    method IsSlotAllowed(rocid: int, slot: int) returns (allowed: bool)
      requires Valid()
      ensures allowed <==> SlotAllowed(rows, rocid, slot)
    {
      EmptyIndex(data, order, rows);
      ListsAnswer(data, order, rocid);
      hide Indexes, NoRepeats;
      if data == map[] {
        return true;
      }
      if rocid !in data {
        return false;
      }
      allowed := slot in data[rocid].slots;
    }

    method IsModuleAllowed(rocid: int, moduleId: int) returns (allowed: bool)
      requires Valid()
      ensures allowed <==> ModuleAllowed(rows, rocid, moduleId)
    {
      EmptyIndex(data, order, rows);
      ListsAnswer(data, order, rocid);
      hide Indexes, NoRepeats;
      if data == map[] {
        return true;
      }
      if rocid !in data {
        return false;
      }
      allowed := moduleId in data[rocid].modules;
    }
  }

  predicate Loads(file: Option<File>) {
    && file.Some? && file.value.complete
    && forall i :: 0 <= i < |file.value.lines| ==> !ReadRow(file.value.lines[i]).Bad?
  }

  lemma FirstBad(rows: seq<ParsedRow>, n: nat)
    requires n < |rows| && rows[n].Bad? && forall i :: 0 <= i < n ==> !rows[i].Bad?
    ensures GoodRows(rows, |rows|) == n
  {
  }

  lemma AllGood(rows: seq<ParsedRow>)
    requires forall i :: 0 <= i < |rows| ==> !rows[i].Bad?
    ensures GoodRows(rows, |rows|) == |rows|
  {
  }

  lemma EmptyIndex(data: map<int, Lists>, order: seq<FilterRow>, rows: set<FilterRow>)
    requires Indexes(data, order) && forall row :: row in rows <==> row in order
    ensures data == map[] <==> rows == {}
  {
    if order != [] {
      assert order[0] in rows;
      var rocid := order[0].rocid;
      RocRowsAre(order, rocid);
      assert order[0] in RocRows(order, rocid);
      assert rocid in data;
    } else {
      assert forall rocid :: rocid !in data;
    }
  }

  // What the lists of a ROC say about the rows.
  lemma ListsAnswer(data: map<int, Lists>, order: seq<FilterRow>, rocid: int)
    requires Indexes(data, order)
    ensures rocid in data <==> exists row :: row in order && row.rocid == rocid
    ensures rocid in data ==>
      && (forall x :: x in data[rocid].banks <==> exists row :: row in order && row.rocid == rocid && row.bank == x)
      && (forall x :: x in data[rocid].slots <==> exists row :: row in order && row.rocid == rocid && row.slot == x)
      && (forall x :: x in data[rocid].modules <==>
        exists row :: row in order && row.rocid == rocid && row.moduleId == x)
  {
    var rows := RocRows(order, rocid);
    RocRowsAre(order, rocid);
    ListsFind(rows);
    hide ListsOf, RocRows;
    if rocid in data {
      assert rows[0] in rows;
    }
  }

  // A value is in a list exactly when one of the rows has it.
  lemma ListsFind(rows: seq<FilterRow>)
    ensures forall x :: x in ListsOf(rows).banks <==> exists row :: row in rows && row.bank == x
    ensures forall x :: x in ListsOf(rows).slots <==> exists row :: row in rows && row.slot == x
    ensures forall x :: x in ListsOf(rows).modules <==> exists row :: row in rows && row.moduleId == x
  {
    var lists := ListsOf(rows);
    forall row | row in rows
      ensures row.bank in lists.banks && row.slot in lists.slots && row.moduleId in lists.modules
    {
      var i :| 0 <= i < |rows| && rows[i] == row;
      assert lists.banks[i] == row.bank && lists.slots[i] == row.slot && lists.modules[i] == row.moduleId;
    }
    assert forall i :: 0 <= i < |rows| ==> rows[i] in rows;
  }
}
