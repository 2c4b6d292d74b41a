// The interval sweep, on values: a selection that may change from run to run
// is cut at boundaries, and abutting intervals with equal selections are
// merged again.
module RunSpans {
  import opened Common
  import opened ConfigurationText
  import opened RunRanges

  datatype Span<F> = Span(runMin: UInt64, runMax: UInt64, files: F) {
    predicate Covers(run: UInt64) {
      runMin <= run <= runMax
    }
  }

  ghost predicate CoveredBy<F>(spans: seq<Span<F>>, run: UInt64) {
    exists i :: 0 <= i < |spans| && spans[i].Covers(run)
  }

  // spans is the canonical description of the selection on runs from base up
  // to, but not including, limit: in order, disjoint, faithful, covering
  // exactly the runs that select anything, and with no two abutting spans that
  // could have been one.
  ghost predicate Canonical<F>(select: UInt64 -> Option<F>, spans: seq<Span<F>>, base: int, limit: int) {
    && (forall i :: 0 <= i < |spans| ==> base <= spans[i].runMin <= spans[i].runMax < limit)
    && (forall i, j :: 0 <= i < j < |spans| ==> spans[i].runMax < spans[j].runMin)
    && (forall i, run: UInt64 {:trigger spans[i].Covers(run)} :: 0 <= i < |spans| && spans[i].Covers(run) ==>
      select(run) == Some(spans[i].files))
    && (forall run: UInt64 :: base <= run < limit && select(run).Some? ==> CoveredBy(spans, run))
    && (forall i :: 0 <= i < |spans| - 1 && spans[i].runMax + 1 == spans[i + 1].runMin ==>
      spans[i].files != spans[i + 1].files)
  }

  // One elementary interval of the sweep.
  function AddInterval<F(==)>(spans: seq<Span<F>>, runMin: UInt64, runMax: UInt64, files: Option<F>): seq<Span<F>> {
    if files.None? then spans
    else if spans != [] && spans[|spans| - 1].runMax != MAX_UINT64 &&
      spans[|spans| - 1].runMax + 1 == runMin && spans[|spans| - 1].files == files.value
    then spans[|spans| - 1 := spans[|spans| - 1].(runMax := runMax)]
    else spans + [Span(runMin, runMax, files.value)]
  }

  ghost predicate Abutting<F>(spans: seq<Span<F>>, runMin: UInt64, files: F) {
    spans != [] && spans[|spans| - 1].runMax + 1 == runMin && spans[|spans| - 1].files == files
  }

  lemma AppendKeepsCanonical<F>(select: UInt64 -> Option<F>, spans: seq<Span<F>>, base: int,
                                runMin: UInt64, runMax: UInt64, files: F)
    requires Canonical(select, spans, base, runMin) && base <= runMin <= runMax
    requires forall run: UInt64 :: runMin <= run <= runMax ==> select(run) == select(runMin)
    requires select(runMin) == Some(files) && !Abutting(spans, runMin, files)
    ensures Canonical(select, spans + [Span(runMin, runMax, files)], base, runMax + 1)
  {
    var next := spans + [Span(runMin, runMax, files)];
    forall i, run: UInt64 | 0 <= i < |next| && next[i].Covers(run)
      ensures select(run) == Some(next[i].files)
    {
      if i < |spans| { assert spans[i].Covers(run); }
    }
    forall run: UInt64 | base <= run < runMax + 1 && select(run).Some?
      ensures CoveredBy(next, run)
    {
      if run < runMin {
        assert CoveredBy(spans, run);
        var i :| 0 <= i < |spans| && spans[i].Covers(run);
        assert next[i].Covers(run);
      } else {
        assert next[|spans|].Covers(run);
      }
    }
  }

  lemma ExtendKeepsCanonical<F>(select: UInt64 -> Option<F>, spans: seq<Span<F>>, base: int,
                                runMin: UInt64, runMax: UInt64, files: F)
    requires Canonical(select, spans, base, runMin) && base <= runMin <= runMax
    requires forall run: UInt64 :: runMin <= run <= runMax ==> select(run) == select(runMin)
    requires select(runMin) == Some(files) && Abutting(spans, runMin, files)
    ensures Canonical(select, spans[|spans| - 1 := spans[|spans| - 1].(runMax := runMax)], base, runMax + 1)
  {
    var last := |spans| - 1;
    var next := spans[last := spans[last].(runMax := runMax)];
    forall i, run: UInt64 | 0 <= i < |next| && next[i].Covers(run)
      ensures select(run) == Some(next[i].files)
    {
      if run < runMin { assert spans[i].Covers(run); }
    }
    forall run: UInt64 | base <= run < runMax + 1 && select(run).Some?
      ensures CoveredBy(next, run)
    {
      if run < runMin {
        assert CoveredBy(spans, run);
        var i :| 0 <= i < |spans| && spans[i].Covers(run);
        assert next[i].Covers(run);
      } else {
        assert next[last].Covers(run);
      }
    }
  }

  lemma AddIntervalKeepsCanonical<F>(select: UInt64 -> Option<F>, spans: seq<Span<F>>, base: int,
                                     runMin: UInt64, runMax: UInt64)
    requires Canonical(select, spans, base, runMin) && base <= runMin <= runMax
    requires forall run: UInt64 :: runMin <= run <= runMax ==> select(run) == select(runMin)
    ensures Canonical(select, AddInterval(spans, runMin, runMax, select(runMin)), base, runMax + 1)
  {
    if select(runMin).Some? {
      if Abutting(spans, runMin, select(runMin).value) {
        ExtendKeepsCanonical(select, spans, base, runMin, runMax, select(runMin).value);
      } else {
        AppendKeepsCanonical(select, spans, base, runMin, runMax, select(runMin).value);
      }
    }
  }

  lemma CoveredIffSelected<F>(select: UInt64 -> Option<F>, spans: seq<Span<F>>, base: int, limit: int, run: UInt64)
    requires Canonical(select, spans, base, limit) && base <= run < limit
    ensures CoveredBy(spans, run) <==> select(run).Some?
  {
  }

  // A span ends exactly where the selection changes.
  lemma SelectionChangesAfterFirst<F>(select: UInt64 -> Option<F>, spans: seq<Span<F>>, base: int, limit: int,
                                      run: UInt64)
    requires Canonical(select, spans, base, limit) && spans != []
    requires run == spans[0].runMax + 1 < limit
    ensures select(run) != Some(spans[0].files)
  {
    if select(run).Some? {
      assert CoveredBy(spans, run);
      var i :| 0 <= i < |spans| && spans[i].Covers(run);
      assert spans[0].runMax < spans[1].runMin <= spans[i].runMin <= run;
      assert spans[1].Covers(run);
    }
  }

  lemma FirstSpanEndsNoLater<F>(select: UInt64 -> Option<F>, a: seq<Span<F>>, b: seq<Span<F>>, base: int, limit: int)
    requires Canonical(select, a, base, limit) && Canonical(select, b, base, limit)
    requires a != [] && b != [] && a[0].runMin == b[0].runMin
    ensures b[0].runMax <= a[0].runMax
  {
    if a[0].runMax < b[0].runMax {
      var run: UInt64 := a[0].runMax + 1;
      assert b[0].Covers(run) && b[0].Covers(b[0].runMin) && a[0].Covers(a[0].runMin);
      SelectionChangesAfterFirst(select, a, base, limit, run);
      assert false;
    }
  }

  lemma FirstSpanStartsNoLater<F>(select: UInt64 -> Option<F>, a: seq<Span<F>>, b: seq<Span<F>>, base: int, limit: int)
    requires Canonical(select, a, base, limit) && Canonical(select, b, base, limit) && b != []
    ensures a != [] && a[0].runMin <= b[0].runMin
  {
    var run := b[0].runMin;
    assert b[0].Covers(run) && CoveredBy(a, run);
    var i :| 0 <= i < |a| && a[i].Covers(run);
    assert a[0].runMin <= a[i].runMin;
  }

  lemma CanonicalTail<F>(select: UInt64 -> Option<F>, spans: seq<Span<F>>, base: int, limit: int)
    requires Canonical(select, spans, base, limit) && spans != []
    ensures Canonical(select, spans[1..], spans[0].runMax + 1, limit)
  {
    var rest := spans[1..];
    forall run: UInt64 | spans[0].runMax + 1 <= run < limit && select(run).Some?
      ensures CoveredBy(rest, run)
    {
      var i :| 0 <= i < |spans| && spans[i].Covers(run);
      assert rest[i - 1].Covers(run);
    }
  }

  lemma SameFirstSpan<F>(select: UInt64 -> Option<F>, a: seq<Span<F>>, b: seq<Span<F>>, base: int, limit: int)
    requires Canonical(select, a, base, limit) && Canonical(select, b, base, limit) && a != []
    ensures b != [] && a[0] == b[0]
  {
    FirstSpanStartsNoLater(select, b, a, base, limit);
    FirstSpanStartsNoLater(select, a, b, base, limit);
    FirstSpanEndsNoLater(select, a, b, base, limit);
    FirstSpanEndsNoLater(select, b, a, base, limit);
    assert a[0].Covers(a[0].runMin) && b[0].Covers(b[0].runMin);
  }

  // The list is canonical in the full sense: nothing but the selection itself
  // determines it.
  lemma {:induction false} CanonicalUnique<F>(select: UInt64 -> Option<F>, a: seq<Span<F>>, b: seq<Span<F>>,
                                              base: int, limit: int)
    requires Canonical(select, a, base, limit) && Canonical(select, b, base, limit)
    ensures a == b
    decreases |a|
  {
    hide Canonical;
    if a != [] {
      SameFirstSpan(select, a, b, base, limit);
      CanonicalTail(select, a, base, limit);
      CanonicalTail(select, b, base, limit);
      CanonicalUnique(select, a[1..], b[1..], a[0].runMax + 1, limit);
      assert a == [a[0]] + a[1..] && b == [b[0]] + b[1..];
    } else if b != [] {
      FirstSpanStartsNoLater(select, a, b, base, limit);
    }
  }

  // ----- Boundaries -----

  ghost predicate CutAt(range: RunRange, boundaries: set<UInt64>) {
    && range.runMin in boundaries
    && (range.runMax != MAX_UINT64 ==> range.runMax + 1 in boundaries)
  }

  ghost predicate NoneBetween(boundaries: set<UInt64>, low: UInt64, high: UInt64) {
    forall b :: b in boundaries ==> !(low < b <= high)
  }

  // Between two boundaries, no manifest can tell the runs apart.
  lemma {:induction false} FindConstantBetween(ranges: seq<RunRange>, boundaries: set<UInt64>, low: UInt64,
                                               high: UInt64)
    requires low <= high && NoneBetween(boundaries, low, high)
    requires forall i :: 0 <= i < |ranges| ==> CutAt(ranges[i], boundaries)
    ensures LinearFind(ranges, low) == LinearFind(ranges, high)
  {
    if ranges != [] {
      assert CutAt(ranges[0], boundaries);
      assert ranges[0].Covers(low) <==> ranges[0].Covers(high);
      FindConstantBetween(ranges[1..], boundaries, low, high);
    }
  }

  // Before the first boundary nothing is covered.
  lemma {:induction false} FindNothingBefore(ranges: seq<RunRange>, boundaries: set<UInt64>, run: UInt64)
    requires forall b :: b in boundaries ==> run < b
    requires forall i :: 0 <= i < |ranges| ==> CutAt(ranges[i], boundaries)
    ensures LinearFind(ranges, run) == None
  {
    if ranges != [] {
      assert CutAt(ranges[0], boundaries);
      FindNothingBefore(ranges[1..], boundaries, run);
    }
  }
}
