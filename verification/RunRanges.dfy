// Detector manifests: run ranges that are read, sorted, checked for overlap
// and searched by run number.
module RunRanges {
  import opened Common
  import opened ConfigurationText
  import opened Sorting

  datatype RunRange = RunRange(runMin: UInt64, runMax: UInt64, mappingFile: string) {
    predicate Covers(run: UInt64) {
      runMin <= run <= runMax
    }

    // Some run belongs to both ranges.
    ghost predicate Intersects(other: RunRange) {
      exists run: UInt64 :: Covers(run) && other.Covers(run)
    }
  }

  datatype ManifestError = ManifestUnreadable | MalformedRow | EmptyManifest | OverlappingRanges

  // ----- Rows -----

  function ParseRun(token: string, allowMax: bool): Option<UInt64> {
    if allowMax && token == "max" then Some(MAX_UINT64)
    else
      match ParseUnsigned(token, MAX_UINT64)
      case None => None
      case Some(run) => Some(run)
  }

  // The range on one line: nothing at all on a blank line, at most one
  // otherwise.
  function ParseRow(line: string): (row: Option<seq<RunRange>>)
    ensures row.Some? ==> |row.value| <= 1
    ensures row.Some? && row.value != [] ==> row.value[0].runMin <= row.value[0].runMax
  {
    var tokens := Tokenize(line);
    if tokens == [] then Some([])
    else if |tokens| != 3 then None
    else
      var runMin, runMax := ParseRun(tokens[0], false), ParseRun(tokens[1], true);
      if runMin.None? || runMax.None? || runMin.value > runMax.value then None
      else Some([RunRange(runMin.value, runMax.value, tokens[2])])
  }

  ghost predicate WellFormed(ranges: seq<RunRange>) {
    forall i :: 0 <= i < |ranges| ==> ranges[i].runMin <= ranges[i].runMax
  }

  function ParseRows(lines: seq<string>): (rows: Option<seq<RunRange>>)
    ensures rows.Some? ==> WellFormed(rows.value)
  {
    if lines == [] then Some([])
    else
      var row, rest := ParseRow(lines[0]), ParseRows(lines[1..]);
      if row.None? || rest.None? then None else Some(row.value + rest.value)
  }

  // ----- Order -----

  ghost predicate SortedByMin(ranges: seq<RunRange>) {
    forall i, j :: 0 <= i < j < |ranges| ==> ranges[i].runMin <= ranges[j].runMin
  }

  // Sorted and pairwise disjoint.
  ghost predicate Ordered(ranges: seq<RunRange>) {
    && WellFormed(ranges)
    && forall i, j :: 0 <= i < j < |ranges| ==> ranges[i].runMax < ranges[j].runMin
  }

  ghost predicate PairwiseDisjoint(ranges: seq<RunRange>) {
    forall i, j :: 0 <= i < j < |ranges| ==> !ranges[i].Intersects(ranges[j])
  }

  lemma SelfIntersects(a: RunRange)
    requires a.runMin <= a.runMax
    ensures a.Intersects(a)
  {
    assert a.Covers(a.runMin);
  }

  lemma IntersectsIffBoundsCross(a: RunRange, b: RunRange)
    requires a.runMin <= a.runMax && b.runMin <= b.runMax
    ensures a.Intersects(b) <==> a.runMin <= b.runMax && b.runMin <= a.runMax
  {
    if a.runMin <= b.runMax && b.runMin <= a.runMax {
      var run := if a.runMin < b.runMin then b.runMin else a.runMin;
      assert a.Covers(run) && b.Covers(run);
    }
  }

  // Disjointness does not depend on the order of the ranges.
  ghost predicate DisjointByCount(ranges: seq<RunRange>) {
    forall a, b :: a in multiset(ranges) && b in multiset(ranges) && a.Intersects(b) ==>
      a == b && multiset(ranges)[a] == 1
  }

  lemma CountAtTwoIndices(ranges: seq<RunRange>, i: nat, j: nat)
    requires i < j < |ranges| && ranges[i] == ranges[j]
    ensures multiset(ranges)[ranges[i]] >= 2
  {
    assert ranges == ranges[..i] + [ranges[i]] + ranges[i + 1..j] + [ranges[j]] + ranges[j + 1..];
  }

  lemma IndicesOfRepeated(ranges: seq<RunRange>, a: RunRange) returns (i: nat, j: nat)
    requires multiset(ranges)[a] >= 2
    ensures i < j < |ranges| && ranges[i] == ranges[j] == a
  {
    assert a in multiset(ranges);
    i :| 0 <= i < |ranges| && ranges[i] == a;
    var rest := ranges[..i] + ranges[i + 1..];
    assert ranges == ranges[..i] + [a] + ranges[i + 1..];
    assert multiset(ranges) == multiset(rest) + multiset{a};
    assert a in multiset(rest);
    var k :| 0 <= k < |rest| && rest[k] == a;
    if k < i {
      i, j := k, i;
    } else {
      j := k + 1;
    }
  }

  lemma DisjointIsUnordered(ranges: seq<RunRange>)
    requires WellFormed(ranges)
    ensures PairwiseDisjoint(ranges) <==> DisjointByCount(ranges)
  {
    if PairwiseDisjoint(ranges) {
      forall a, b | a in multiset(ranges) && b in multiset(ranges) && a.Intersects(b)
        ensures a == b && multiset(ranges)[a] == 1
      {
        var i :| 0 <= i < |ranges| && ranges[i] == a;
        var j :| 0 <= j < |ranges| && ranges[j] == b;
        assert b.Intersects(a);
        assert i == j;
        if multiset(ranges)[a] >= 2 {
          var p, q := IndicesOfRepeated(ranges, a);
          SelfIntersects(a);
          assert false;
        }
      }
    }
    if DisjointByCount(ranges) {
      forall i, j | 0 <= i < j < |ranges| ensures !ranges[i].Intersects(ranges[j]) {
        assert ranges[i] in multiset(ranges) && ranges[j] in multiset(ranges);
        if ranges[i] == ranges[j] {
          CountAtTwoIndices(ranges, i, j);
          SelfIntersects(ranges[i]);
        }
      }
    }
  }

  // The adjacent check after sorting is complete: it passes exactly when no
  // two of the ranges, in whatever order they were written, share a run.
  lemma AdjacentCheckComplete(rows: seq<RunRange>, sorted: seq<RunRange>)
    requires WellFormed(rows) && Permutation(rows, sorted) && SortedByMin(sorted)
    ensures PairwiseDisjoint(rows) <==>
      forall k :: 1 <= k < |sorted| ==> sorted[k].runMin > sorted[k - 1].runMax
    ensures PairwiseDisjoint(rows) <==> Ordered(sorted)
  {
    forall i | 0 <= i < |sorted| ensures sorted[i].runMin <= sorted[i].runMax {
      assert sorted[i] in multiset(sorted) && sorted[i] in multiset(rows);
    }
    hide PairwiseDisjoint, Ordered;
    DisjointIsUnordered(rows);
    DisjointIsUnordered(sorted);
    AdjacentIsOrdered(sorted);
    OrderedIsDisjoint(sorted);
  }

  lemma AdjacentIsOrdered(sorted: seq<RunRange>)
    requires WellFormed(sorted) && SortedByMin(sorted)
    ensures Ordered(sorted) <==> forall k :: 1 <= k < |sorted| ==> sorted[k].runMin > sorted[k - 1].runMax
  {
    if forall k :: 1 <= k < |sorted| ==> sorted[k].runMin > sorted[k - 1].runMax {
      forall i, j | 0 <= i < j < |sorted| ensures sorted[i].runMax < sorted[j].runMin {
        assert sorted[i + 1].runMin <= sorted[j].runMin;
      }
    }
  }

  lemma OrderedIsDisjoint(sorted: seq<RunRange>)
    requires WellFormed(sorted) && SortedByMin(sorted)
    ensures Ordered(sorted) <==> PairwiseDisjoint(sorted)
  {
    forall i, j | 0 <= i < j < |sorted|
      ensures sorted[i].runMax < sorted[j].runMin <==> !sorted[i].Intersects(sorted[j])
    {
      IntersectsIffBoundsCross(sorted[i], sorted[j]);
    }
  }

  // An accepted list of ranges has exactly one sorted arrangement, so the
  // sorting algorithm cannot be observed.
  lemma {:induction false} OrderedUnique(a: seq<RunRange>, b: seq<RunRange>)
    requires Ordered(a) && Ordered(b) && Permutation(a, b)
    ensures a == b
    decreases |a|
  {
    PermutationLength(a, b);
    if |a| > 0 {
      LeastComesFirst(a, b);
      OrderedUnique(a[1..], b[1..]);
      assert a == [a[0]] + a[1..] && b == [b[0]] + b[1..];
    }
  }

  lemma LeastComesFirst(a: seq<RunRange>, b: seq<RunRange>)
    requires Ordered(a) && Ordered(b) && Permutation(a, b) && |a| == |b| > 0
    ensures b[0] == a[0] && Permutation(a[1..], b[1..])
  {
    var k := PermutationHead(a, b);
    assert b[0] in multiset(a);
    var l :| 0 <= l < |a| && a[l] == b[0];
    assert a[0].runMin <= a[l].runMin;
    assert b[0].runMin <= b[k].runMin && (b[0].runMin == b[k].runMin ==> k == 0);
    assert b[..0] + b[1..] == b[1..];
  }

  // ----- Reading a manifest -----

  // The meaning of a manifest, stated on its rows in the order they are
  // written; the accepted list is any sorted arrangement of them.
  ghost predicate ManifestAccepts(file: Option<File>) {
    && file.Some?
    && ParseRows(file.value.lines).Some?
    && file.value.complete
    && ParseRows(file.value.lines).value != []
    && PairwiseDisjoint(ParseRows(file.value.lines).value)
  }

  ghost predicate IsManifest(file: Option<File>, ranges: seq<RunRange>) {
    && ManifestAccepts(file)
    && Ordered(ranges)
    && Permutation(ParseRows(file.value.lines).value, ranges)
  }

  lemma ManifestUnique(file: Option<File>, a: seq<RunRange>, b: seq<RunRange>)
    requires IsManifest(file, a) && IsManifest(file, b)
    ensures a == b
  {
    OrderedUnique(a, b);
  }

  lemma RowsStep(lines: seq<string>, i: nat, ranges: seq<RunRange>)
    requires i < |lines|
    ensures Then(ranges, ParseRows(lines[i..])) ==
      if ParseRow(lines[i]).None? then None
      else Then(ranges + ParseRow(lines[i]).value, ParseRows(lines[i + 1..]))
  {
    assert lines[i..][0] == lines[i] && lines[i..][1..] == lines[i + 1..];
    if ParseRow(lines[i]).Some? {
      ThenInOrder(ranges, ParseRow(lines[i]).value, ParseRows(lines[i + 1..]));
    }
  }

  method ReadRows(lines: seq<string>) returns (r: Option<seq<RunRange>>)
    ensures r == ParseRows(lines)
  {
    var ranges: seq<RunRange> := [];
    assert ParseRows(lines).Some? ==> [] + ParseRows(lines).value == ParseRows(lines).value;
    for i := 0 to |lines|
      invariant ParseRows(lines) == Then(ranges, ParseRows(lines[i..]))
    {
      RowsStep(lines, i, ranges);
      var row := ParseRow(lines[i]);
      if row.None? {
        return None;
      }
      ranges := ranges + row.value;
    }
    assert ranges + [] == ranges;
    r := Some(ranges);
  }

  // Sorts, then looks at adjacent pairs only.
  method SortAndCheck(rows: seq<RunRange>) returns (r: Option<seq<RunRange>>)
    requires WellFormed(rows)
    ensures r.Some? <==> PairwiseDisjoint(rows)
    ensures r.Some? ==> Ordered(r.value) && Permutation(rows, r.value)
  {
    var ranges := Sorted(rows, (left: RunRange, right: RunRange) => left.runMin <= right.runMin);
    assert SortedByMin(ranges);
    AdjacentCheckComplete(rows, ranges);
    var index := 1;
    while index < |ranges|
      invariant 1 <= index
      invariant forall k :: 1 <= k < index && k < |ranges| ==> ranges[k].runMin > ranges[k - 1].runMax
    {
      if ranges[index].runMin <= ranges[index - 1].runMax {
        return None;
      }
      index := index + 1;
    }
    r := Some(ranges);
  }

  method LoadManifest(file: Option<File>) returns (r: Result<seq<RunRange>, ManifestError>)
    ensures r.Success? <==> ManifestAccepts(file)
    ensures r.Success? ==> IsManifest(file, r.value)
    ensures r == Failure(OverlappingRanges) <==>
      file.Some? && file.value.complete && ParseRows(file.value.lines).Some? &&
      !PairwiseDisjoint(ParseRows(file.value.lines).value)
    ensures r == Failure(MalformedRow) <==> file.Some? && ParseRows(file.value.lines).None?
    ensures r == Failure(ManifestUnreadable) <==>
      file.None? || (ParseRows(file.value.lines).Some? && !file.value.complete)
    ensures r == Failure(EmptyManifest) <==>
      file.Some? && file.value.complete && ParseRows(file.value.lines) == Some([])
  {
    if file.None? {
      return Failure(ManifestUnreadable);
    }
    var rows := ReadRows(file.value.lines);
    if rows.None? {
      return Failure(MalformedRow);
    }
    if !file.value.complete {
      return Failure(ManifestUnreadable);
    }
    if rows.value == [] {
      return Failure(EmptyManifest);
    }
    var checked := SortAndCheck(rows.value);
    if checked.None? {
      return Failure(OverlappingRanges);
    }
    r := Success(checked.value);
  }

  // ----- Search -----

  // std::upper_bound: the first item whose lower bound exceeds the run.
  method UpperBound<T>(items: seq<T>, run: UInt64, lower: T -> UInt64) returns (k: nat)
    requires forall i, j :: 0 <= i < j < |items| ==> lower(items[i]) <= lower(items[j])
    ensures k <= |items|
    ensures forall i :: 0 <= i < k ==> lower(items[i]) <= run
    ensures forall i :: k <= i < |items| ==> run < lower(items[i])
  {
    k := 0;
    var count := |items|;
    while count > 0
      invariant 0 <= count && k + count <= |items|
      invariant forall i :: 0 <= i < k ==> lower(items[i]) <= run
      invariant forall i :: k + count <= i < |items| ==> run < lower(items[i])
    {
      var step := count / 2;
      if run < lower(items[k + step]) {
        count := step;
      } else {
        k, count := k + step + 1, count - step - 1;
      }
    }
  }

  // The first range that covers the run, found by looking at every range.
  function LinearFind(ranges: seq<RunRange>, run: UInt64): (r: Option<RunRange>)
    ensures r.Some? <==> exists i :: 0 <= i < |ranges| && ranges[i].Covers(run)
    ensures r.Some? ==> r.value in ranges && r.value.Covers(run)
  {
    if ranges == [] then None
    else if ranges[0].Covers(run) then Some(ranges[0])
    else
      var r := LinearFind(ranges[1..], run);
      assert forall i :: 0 < i < |ranges| ==> ranges[i] == ranges[1..][i - 1];
      r
  }

  lemma {:induction false} OnlyOneCovers(ranges: seq<RunRange>, run: UInt64, i: nat)
    requires Ordered(ranges) && i < |ranges| && ranges[i].Covers(run)
    ensures LinearFind(ranges, run) == Some(ranges[i])
  {
    if i > 0 {
      assert ranges[0].runMax < ranges[i].runMin;
      OnlyOneCovers(ranges[1..], run, i - 1);
    }
  }

  // Binary search agrees with looking at every range.
  method FindRange(ranges: seq<RunRange>, run: UInt64) returns (r: Option<RunRange>)
    requires Ordered(ranges)
    ensures r == LinearFind(ranges, run)
  {
    forall i, j | 0 <= i < j < |ranges| ensures ranges[i].runMin <= ranges[j].runMin {
      assert ranges[i].runMax < ranges[j].runMin;
    }
    var upper := UpperBound(ranges, run, (range: RunRange) => range.runMin);
    if upper == 0 {
      return None;
    }
    var range := ranges[upper - 1];
    if run <= range.runMax {
      OnlyOneCovers(ranges, run, upper - 1);
      return Some(range);
    }
    forall i | 0 <= i < |ranges| ensures !ranges[i].Covers(run) {
      if i < upper - 1 {
        assert ranges[i].runMax < range.runMin <= run;
      }
    }
    r := None;
  }
}
