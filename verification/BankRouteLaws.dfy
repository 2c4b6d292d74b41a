// The bank registry over every sequence of file loads, registrations and
// lookups.
module BankRouteLaws {
  import opened Common
  import opened ConfigurationText
  import opened StreamIntegers
  import opened BankRoutes

  // ----- One layer -----

  // No malformed row, and no bank with two modules.
  ghost predicate Consistent(lines: seq<string>, n: nat)
    requires n <= |lines|
  {
    && (forall i :: 0 <= i < n ==> !ReadRow(lines[i]).Bad?)
    && (forall i, j :: 0 <= i < j < n ==> Agree(ReadRow(lines[i]), ReadRow(lines[j])))
  }

  predicate Agree(a: Row, b: Row) {
    a.Mapping? && b.Mapping? && a.bank == b.bank ==> a.moduleId == b.moduleId
  }

  // The routes are those of the rows, each with the line it is read from.
  ghost predicate RoutesOf(routes: map<int, Route>, filename: string, lines: seq<string>, n: nat)
    requires n <= |lines|
  {
    && (forall i :: 0 <= i < n && ReadRow(lines[i]).Mapping? ==>
      var row := ReadRow(lines[i]);
      row.bank in routes && routes[row.bank].moduleId == row.moduleId)
    && (forall b :: b in routes ==> FromLine(routes[b], filename, lines, n, b))
  }

  ghost predicate FromLine(route: Route, filename: string, lines: seq<string>, n: nat, bank: int)
    requires n <= |lines|
  {
    && route.source.file == filename
    && 1 <= route.source.line <= n
    && ReadRow(lines[route.source.line - 1]) == Mapping(route.moduleId, bank)
  }

  // A layer is accepted exactly when it is consistent, and then its routes
  // are those of its rows.
  lemma {:induction false} LayerIsItsRows(filename: string, lines: seq<string>, n: nat)
    requires n <= |lines|
    ensures LayerUpTo(filename, lines, n).Success? <==> Consistent(lines, n)
    ensures LayerUpTo(filename, lines, n).Success? ==> RoutesOf(LayerUpTo(filename, lines, n).value, filename, lines, n)
  {
    hide ReadRow;
    if n > 0 {
      LayerIsItsRows(filename, lines, n - 1);
      if LayerUpTo(filename, lines, n - 1).Success? {
        var routes, row := LayerUpTo(filename, lines, n - 1).value, ReadRow(lines[n - 1]);
        if row.Mapping? && row.bank in routes && routes[row.bank].moduleId != row.moduleId {
          var k := routes[row.bank].source.line - 1;
          assert FromLine(routes[row.bank], filename, lines, n - 1, row.bank);
          assert !Agree(ReadRow(lines[k]), ReadRow(lines[n - 1]));
        } else if !row.Bad? {
          forall i | 0 <= i < n - 1 ensures Agree(ReadRow(lines[i]), row) {
          }
        }
      }
    }
  }

  // ----- Every sequence of operations -----

  function After(ops: seq<Operation>, n: nat): Registry
    requires n <= |ops|
  {
    if n == 0 then EMPTY_REGISTRY else Apply(ops[n - 1], After(ops, n - 1)).0
  }

  predicate Succeeds(ops: seq<Operation>, i: nat)
    requires i < |ops|
  {
    Apply(ops[i], After(ops, i)).1.None?
  }

  // The module that an operation gives the bank, if it names it.
  function Names(op: Operation, bank: int): Option<int> {
    match op
    case Load(filename, file) =>
      (match Layer(filename, file)
       case Failure(_) => None
       case Success(routes) => if bank in routes then Some(routes[bank].moduleId) else None)
    case Add(b, moduleId) => if b == bank then Some(moduleId) else None
    case Lookup(_) => None
  }

  // The last of the first n operations that succeeded and named the bank.
  function LastNaming(ops: seq<Operation>, n: nat, bank: int): (i: int)
    requires n <= |ops|
    ensures -1 <= i < n
    ensures i >= 0 ==> Succeeds(ops, i) && Names(ops[i], bank).Some?
    ensures forall k :: i < k < n ==> !Succeeds(ops, k) || Names(ops[k], bank).None?
  {
    if n == 0 then -1
    else if Succeeds(ops, n - 1) && Names(ops[n - 1], bank).Some? then n - 1
    else LastNaming(ops, n - 1, bank)
  }

  // What one operation does to one bank. One that fails does nothing: in
  // particular a rejected file publishes none of its routes.
  lemma ApplyToBank(op: Operation, reg: Registry, bank: int)
    ensures var (next, error) := Apply(op, reg);
      && (error.Some? ==> next == reg)
      && (error.None? && Names(op, bank).Some? ==>
        bank in next.modules && next.modules[bank] == Names(op, bank).value)
      && (error.None? && Names(op, bank).None? ==>
        (bank in next.modules <==> bank in reg.modules)
        && (bank in reg.modules ==> next.modules[bank] == reg.modules[bank]))
  {
    hide Layer;
  }

  // Each bank's module is that of the last successful source naming it.
  lemma {:induction false} ModuleIsOfLastSource(ops: seq<Operation>, n: nat, bank: int)
    requires n <= |ops|
    ensures var last := LastNaming(ops, n, bank);
      if last < 0 then bank !in After(ops, n).modules
      else bank in After(ops, n).modules && After(ops, n).modules[bank] == Names(ops[last], bank).value
  {
    hide Apply, Names;
    if n > 0 {
      ModuleIsOfLastSource(ops, n - 1, bank);
      ApplyToBank(ops[n - 1], After(ops, n - 1), bank);
    }
  }

  // The source is a line, of a file that was loaded, that gives the bank the
  // module.
  ghost predicate ReallyGives(op: Operation, source: Source, bank: int, moduleId: int) {
    && op.Load? && op.file.Some?
    && source.file == op.filename
    && 1 <= source.line <= |op.file.value.lines|
    && ReadRow(op.file.value.lines[source.line - 1]) == Mapping(moduleId, bank)
  }

  ghost predicate SourcesTrue(ops: seq<Operation>, n: nat)
    requires n <= |ops|
  {
    forall b :: b in After(ops, n).sources ==>
      b in After(ops, n).modules && GivenBySome(ops, n, After(ops, n).sources[b], b, After(ops, n).modules[b])
  }

  ghost predicate GivenBySome(ops: seq<Operation>, n: nat, source: Source, bank: int, moduleId: int)
    requires n <= |ops|
  {
    exists i :: 0 <= i < n && ReallyGives(ops[i], source, bank, moduleId)
  }

  // Where the source and the module of a bank come from in one operation.
  lemma SourceStep(op: Operation, reg: Registry, bank: int)
    requires bank in Apply(op, reg).0.sources && (bank in reg.sources ==> bank in reg.modules)
    ensures var next := Apply(op, reg).0;
      && bank in next.modules
      && (ReallyGives(op, next.sources[bank], bank, next.modules[bank])
        || (bank in reg.sources && next.sources[bank] == reg.sources[bank] && next.modules[bank] == reg.modules[bank]))
  {
    hide ReadRow, LayerUpTo;
    var next := Apply(op, reg).0;
    if op.Load? && Layer(op.filename, op.file).Success? && !reg.frozen {
      var lines, routes := op.file.value.lines, Layer(op.filename, op.file).value;
      LayerIsItsRows(op.filename, lines, |lines|);
      if bank in routes {
        assert FromLine(routes[bank], op.filename, lines, |lines|, bank);
      }
    }
  }

  // Every recorded source line really gives the current module.
  lemma {:induction false} RecordedSourcesTrue(ops: seq<Operation>, n: nat)
    requires n <= |ops|
    ensures SourcesTrue(ops, n)
  {
    if n > 0 {
      RecordedSourcesTrue(ops, n - 1);
      var reg, next := After(ops, n - 1), After(ops, n);
      hide Apply, ReallyGives;
      forall b | b in next.sources
        ensures b in next.modules && GivenBySome(ops, n, next.sources[b], b, next.modules[b])
      {
        SourceStep(ops[n - 1], reg, b);
        if !ReallyGives(ops[n - 1], next.sources[b], b, next.modules[b]) {
          assert GivenBySome(ops, n - 1, reg.sources[b], b, reg.modules[b]);
        }
      }
    }
  }

  // After the first lookup nothing changes any more, and every attempt to
  // load a file or to add a route fails.
  lemma {:induction false} FixedAfterLookup(ops: seq<Operation>, i: nat, n: nat)
    requires i < n <= |ops| && ops[i].Lookup?
    ensures After(ops, n) == After(ops, i).(frozen := true)
    ensures forall k :: i < k < n && !ops[k].Lookup? ==> !Succeeds(ops, k)
    decreases n
  {
    hide Layer, Publish;
    if i < n - 1 {
      FixedAfterLookup(ops, i, n - 1);
    }
  }

  // ----- Written files -----

  // A row as somebody writes it: the module, then the bank, then a comment.
  datatype RouteRow = RouteRow(moduleId: int, bank: int, comment: string)

  function RowLine(row: RouteRow): string {
    RowText([row.moduleId, row.bank]) + row.comment
  }

  predicate RowFits(row: RouteRow) {
    0 <= row.moduleId <= MAX_INT && 0 <= row.bank <= 65535
  }

  lemma ReadInvertsShow(row: RouteRow)
    requires IsComment(row.comment)
    ensures ReadRow(RowLine(row)) == if RowFits(row) then Mapping(row.moduleId, row.bank) else Bad
  {
    hide RowText, ExtractRow, StripComment, Blank;
    var values := [row.moduleId, row.bank];
    ExtractRowInvertsText(values, 2);
    WrittenLine(values, row.comment);
  }

  // A row with more or fewer numbers is malformed, and a line with nothing
  // but a comment is none.
  lemma OtherRowsBad(values: seq<int>, comment: string)
    requires IsComment(comment) && |values| != 2
    ensures ReadRow(RowText(values) + comment) == if values == [] then Empty else Bad
  {
    hide RowText, ExtractRow, StripComment, Blank;
    ExtractRowInvertsText(values, 2);
    WrittenLine(values, comment);
  }

  // Nor may anything but a number stand among the two or after them.
  lemma JunkRowsBad(values: seq<int>, junk: string, comment: string)
    requires IsJunk(junk) && |values| <= 2 && IsComment(comment)
    ensures ReadRow(RowText(values) + junk + comment) == Bad
  {
    hide RowText, ExtractRow, StripComment, Blank, IsJunk;
    JunkLine(values, junk, comment, 2);
  }

  function WrittenFile(rows: seq<RouteRow>): File {
    File(Map(RowLine, rows), true)
  }

  // Every row in range, and no bank under two modules.
  ghost predicate Acceptable(rows: seq<RouteRow>) {
    && (forall i :: 0 <= i < |rows| ==> RowFits(rows[i]))
    && (forall i, j :: 0 <= i < j < |rows| && rows[i].bank == rows[j].bank ==> rows[i].moduleId == rows[j].moduleId)
  }

  lemma WrittenConsistent(rows: seq<RouteRow>)
    requires forall i :: 0 <= i < |rows| ==> IsComment(rows[i].comment)
    ensures Consistent(WrittenFile(rows).lines, |rows|) <==> Acceptable(rows)
  {
    hide ReadRow, RowLine, RowFits;
    var lines := WrittenFile(rows).lines;
    forall i | 0 <= i < |rows|
      ensures ReadRow(lines[i]) == if RowFits(rows[i]) then Mapping(rows[i].moduleId, rows[i].bank) else Bad
    {
      ReadInvertsShow(rows[i]);
    }
    if Consistent(lines, |rows|) {
      forall i, j | 0 <= i < j < |rows| && rows[i].bank == rows[j].bank ensures rows[i].moduleId == rows[j].moduleId {
        assert Agree(ReadRow(lines[i]), ReadRow(lines[j]));
      }
    }
  }

  // Loading a written file succeeds exactly when the registry is not frozen
  // and the rows are in range and agree. Each bank that a row names then has
  // that row's module, and every other bank the module it had, if any.
  lemma WrittenFileRoutes(rows: seq<RouteRow>, filename: string, reg: Registry)
    requires forall i :: 0 <= i < |rows| ==> IsComment(rows[i].comment)
    ensures var (next, error) := Apply(Load(filename, Some(WrittenFile(rows))), reg);
      && (error.None? <==> !reg.frozen && Acceptable(rows))
      && (error.Some? ==> next == reg)
      && (error.None? ==>
        && (forall i :: 0 <= i < |rows| ==>
          rows[i].bank in next.modules && next.modules[rows[i].bank] == rows[i].moduleId)
        && (forall b :: (forall i :: 0 <= i < |rows| ==> rows[i].bank != b) ==>
          (b in next.modules <==> b in reg.modules) && (b in reg.modules ==> next.modules[b] == reg.modules[b])))
  {
    var lines := WrittenFile(rows).lines;
    WrittenConsistent(rows);
    LayerIsItsRows(filename, lines, |lines|);
    hide ReadRow, RowLine, RowFits, LayerUpTo, Consistent, Acceptable;
    if Acceptable(rows) {
      var routes := LayerUpTo(filename, lines, |lines|).value;
      WrittenRoutes(rows, filename, routes);
    }
  }

  lemma WrittenRoutes(rows: seq<RouteRow>, filename: string, routes: map<int, Route>)
    requires (forall i :: 0 <= i < |rows| ==> IsComment(rows[i].comment)) && Acceptable(rows)
    requires RoutesOf(routes, filename, WrittenFile(rows).lines, |rows|)
    ensures forall i :: 0 <= i < |rows| ==> rows[i].bank in routes && routes[rows[i].bank].moduleId == rows[i].moduleId
    ensures forall b :: b in routes ==> exists i :: 0 <= i < |rows| && rows[i].bank == b
  {
    hide ReadRow, RowLine, RowFits;
    var lines := WrittenFile(rows).lines;
    forall i | 0 <= i < |rows| ensures ReadRow(lines[i]) == Mapping(rows[i].moduleId, rows[i].bank) {
      ReadInvertsShow(rows[i]);
    }
    forall b | b in routes ensures exists i :: 0 <= i < |rows| && rows[i].bank == b {
      assert FromLine(routes[b], filename, lines, |rows|, b);
      assert rows[routes[b].source.line - 1].bank == b;
    }
  }
}
