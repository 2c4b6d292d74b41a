// What translating an event guarantees: an exact partition of its mapped and
// routed hits, whatever the order of the hash maps.
module TranslationLaws {
  import opened Common
  import opened TranslationTables
  import opened Translators

  // ----- Route outputs -----

  lemma {:induction false} CollectionAfter(state: EventState, order: seq<RouteKey>, reg: Registry, entries: Entries,
                                           hits: map<TypeId, seq<Hit>>, key: RouteKey)
    requires NoRepeats(order)
    ensures var after := PublishAll(state, order, reg, entries, hits).collections;
      && Get(after, key) ==
        Get(state.collections, key) + (if key in order then [Produced(reg, entries, hits, key)] else [])
      && (key in after <==> key in state.collections || key in order)
  {
    hide Produced;
    if order == [] {
      assert Get(state.collections, key) + [] == Get(state.collections, key);
    } else {
      var front, last := order[..|order| - 1], order[|order| - 1];
      CollectionAfter(state, front, reg, entries, hits, key);
      assert order == front + [last];
      assert last !in front;
      if key == last {
        assert Get(state.collections, key) + [] == Get(state.collections, key);
      } else {
        assert key in order <==> key in front;
      }
    }
  }

  lemma RowsNext(writeRow: RowWriter, number: nat, collections: seq<seq<Hit>>, produced: seq<Hit>)
    ensures Rows(writeRow, number, collections + [produced]) ==
      Rows(writeRow, number, collections) + Map((hit: Hit) => writeRow(number, hit), produced)
  {
    assert (collections + [produced])[..|collections|] == collections;
  }

  // The positions, in event order, of the hits that the table assigns to the
  // detector.
  ghost predicate Selects(positions: seq<int>, entries: Entries, hits: seq<Hit>, detector: string) {
    && Ascending(positions)
    && (forall i :: i in positions ==> 0 <= i < |hits|)
    && forall i :: 0 <= i < |hits| ==>
      (i in positions <==> hits[i].daq in entries && entries[hits[i].daq].detector == detector)
  }

  // The translator applied to each of these hits and to the address that the
  // table gives it.
  ghost function TranslatedAt(translator: Translator, entries: Entries, hits: seq<Hit>, positions: seq<int>,
                              detector: string): (r: seq<Hit>)
    requires Selects(positions, entries, hits, detector)
    ensures |r| == |positions|
  {
    seq(|positions|, k requires 0 <= k < |positions| =>
      assert positions[k] in positions;
      translator(hits[positions[k]], entries[hits[positions[k]].daq]))
  }

  lemma PositionsMapped(positions: seq<int>, entries: Entries, hits: seq<Hit>, detector: string)
    requires Selects(positions, entries, hits, detector)
    ensures forall k :: 0 <= k < |positions| ==>
      0 <= positions[k] < |hits| && hits[positions[k]].daq in entries
    ensures hits == [] ==> positions == []
  {
    assert forall k :: 0 <= k < |positions| ==> positions[k] in positions;
    assert positions != [] ==> 0 <= positions[0] < |hits|;
  }

  // The last hit is selected by the last position, or not at all.
  lemma SelectsLast(positions: seq<int>, entries: Entries, hits: seq<Hit>, detector: string)
    requires Selects(positions, entries, hits, detector) && hits != []
    ensures var n := |hits| - 1;
      hits[n].daq in entries && entries[hits[n].daq].detector == detector <==>
        positions != [] && positions[|positions| - 1] == n
  {
    PositionsMapped(positions, entries, hits, detector);
    var n := |hits| - 1;
    if n in positions {
      var k :| 0 <= k < |positions| && positions[k] == n;
      var top := |positions| - 1;
      assert 0 <= positions[top] < |hits|;
      assert k < top ==> positions[k] < positions[top];
    }
  }

  lemma SelectsFront(positions: seq<int>, entries: Entries, hits: seq<Hit>, detector: string)
    requires Selects(positions, entries, hits, detector) && hits != []
    ensures var n := |hits| - 1;
      var last := positions != [] && positions[|positions| - 1] == n;
      Selects(if last then positions[..|positions| - 1] else positions, entries, hits[..n], detector)
  {
    var n := |hits| - 1;
    if positions != [] && positions[|positions| - 1] == n {
      var front := positions[..|positions| - 1];
      assert positions == front + [n];
      assert forall i :: i in front <==> i in positions && i != n;
    } else {
      SelectsLast(positions, entries, hits, detector);
    }
  }

  lemma {:induction false} MatchedAt(entries: Entries, hits: seq<Hit>, detector: string, positions: seq<int>)
    requires Selects(positions, entries, hits, detector)
    ensures |Matched(entries, hits, detector)| == |positions|
    ensures forall k :: 0 <= k < |positions| ==>
      0 <= positions[k] < |hits| && hits[positions[k]].daq in entries &&
      Matched(entries, hits, detector)[k] == (hits[positions[k]], entries[hits[positions[k]].daq])
  {
    hide Selects;
    PositionsMapped(positions, entries, hits, detector);
    if hits != [] {
      var n := |hits| - 1;
      SelectsFront(positions, entries, hits, detector);
      SelectsLast(positions, entries, hits, detector);
      var last := positions != [] && positions[|positions| - 1] == n;
      MatchedAt(entries, hits[..n], detector, if last then positions[..|positions| - 1] else positions);
    }
  }

  lemma ProducedAt(reg: Registry, entries: Entries, hits: map<TypeId, seq<Hit>>, key: RouteKey, positions: seq<int>)
    requires HasRoute(reg, key.raw, key.detector)
    requires Selects(positions, entries, Get(hits, key.raw), key.detector)
    ensures Produced(reg, entries, hits, key) ==
      TranslatedAt(Routes(reg, key.raw)[key.detector].translator, entries, Get(hits, key.raw), positions, key.detector)
    ensures Active(reg, entries, hits, key) <==>
      Routes(reg, key.raw)[key.detector].digi == key.digi && positions != []
  {
    MatchedAt(entries, Get(hits, key.raw), key.detector, positions);
    hide Selects, Matched;
  }

  // The output of a route that some hit reaches is one more collection of the
  // route: its translator applied, in event order, to exactly the hits that
  // the table assigns to its detector, each with its address in the table. A
  // route that no hit reaches gets none.
  lemma RouteOutput(state: EventState, order: seq<RouteKey>, reg: Registry, entries: Entries,
                    hits: map<TypeId, seq<Hit>>, key: RouteKey, positions: seq<int>)
    requires RunsActive(order, reg.translators.Keys, reg, entries, hits)
    requires HasRoute(reg, key.raw, key.detector) && Routes(reg, key.raw)[key.detector].digi == key.digi
    requires Selects(positions, entries, Get(hits, key.raw), key.detector)
    ensures var after := PublishAll(state, order, reg, entries, hits).collections;
      var translator := Routes(reg, key.raw)[key.detector].translator;
      Get(after, key) == Get(state.collections, key) +
        if positions == [] then []
        else [TranslatedAt(translator, entries, Get(hits, key.raw), positions, key.detector)]
  {
    CollectionAfter(state, order, reg, entries, hits, key);
    ProducedAt(reg, entries, hits, key, positions);
    hide PublishAll, Selects, Active, Produced;
  }

  // The dump rows that translating an event adds to a route are those of
  // exactly these hits, in the same order.
  lemma DumpRowsAreOwn(state: EventState, order: seq<RouteKey>, reg: Registry, entries: Entries,
                       hits: map<TypeId, seq<Hit>>, output: Output, number: nat, positions: seq<int>)
    requires RunsActive(order, reg.translators.Keys, reg, entries, hits)
    requires HasRoute(reg, output.key.raw, output.key.detector)
    requires Routes(reg, output.key.raw)[output.key.detector].digi == output.key.digi
    requires Selects(positions, entries, Get(hits, output.key.raw), output.key.detector)
    ensures var key := output.key;
      var before := Get(state.collections, key);
      var translator := Routes(reg, key.raw)[key.detector].translator;
      var written := TranslatedAt(translator, entries, Get(hits, key.raw), positions, key.detector);
      var rows := Rows(output.writeRow, number, Get(PublishAll(state, order, reg, entries, hits).collections, key));
      var added := Map((hit: Hit) => output.writeRow(number, hit), written);
      rows == Rows(output.writeRow, number, before) + added && (before == [] ==> rows == added)
  {
    hide PublishAll, RunsActive, Selects, Rows;
    var key := output.key;
    var before := Get(state.collections, key);
    RouteOutput(state, order, reg, entries, hits, key, positions);
    RowsAfter(output.writeRow, number, before, TranslatedAt(Routes(reg, key.raw)[key.detector].translator, entries,
      Get(hits, key.raw), positions, key.detector));
  }

  lemma RowsAfter(writeRow: RowWriter, number: nat, before: seq<seq<Hit>>, written: seq<Hit>)
    ensures var rows := Rows(writeRow, number, before + if written == [] then [] else [written]);
      var added := Map((hit: Hit) => writeRow(number, hit), written);
      rows == Rows(writeRow, number, before) + added && (before == [] ==> rows == added)
  {
    NoRows(writeRow, number);
    hide Rows;
    var rows, added := Rows(writeRow, number, before), Map((hit: Hit) => writeRow(number, hit), written);
    assert [] + added == added;
    if written == [] {
      assert before + [] == before && rows + [] == rows;
    } else {
      RowsNext(writeRow, number, before, written);
    }
  }

  lemma NoRows(writeRow: RowWriter, number: nat)
    ensures Rows(writeRow, number, []) == []
  {
  }

  // ----- DigiHits -----

  // What the routes publish under one DigiHit type, in the order in which
  // they run.
  function Appended(order: seq<RouteKey>, reg: Registry, entries: Entries, hits: map<TypeId, seq<Hit>>, digi: TypeId)
    : seq<Hit>
  {
    if order == [] then []
    else
      Appended(order[..|order| - 1], reg, entries, hits, digi) +
      Part(order[|order| - 1], reg, entries, hits, digi)
  }

  function Part(key: RouteKey, reg: Registry, entries: Entries, hits: map<TypeId, seq<Hit>>, digi: TypeId): seq<Hit> {
    if key.digi == digi then Produced(reg, entries, hits, key) else []
  }

  lemma PartPublished(state: EventState, key: RouteKey, reg: Registry, entries: Entries, hits: map<TypeId, seq<Hit>>,
                      digi: TypeId)
    ensures Get(Publish(state, key, Produced(reg, entries, hits, key)).hits, digi) ==
      Get(state.hits, digi) + Part(key, reg, entries, hits, digi)
  {
    hide Produced;
    assert Get(state.hits, digi) + [] == Get(state.hits, digi);
  }

  lemma {:induction false} HitsAfter(state: EventState, order: seq<RouteKey>, reg: Registry, entries: Entries,
                                     hits: map<TypeId, seq<Hit>>, digi: TypeId)
    ensures Get(PublishAll(state, order, reg, entries, hits).hits, digi) ==
      Get(state.hits, digi) + Appended(order, reg, entries, hits, digi)
  {
    hide Produced, Get, Publish, Part;
    if order == [] {
      assert Get(state.hits, digi) + [] == Get(state.hits, digi);
    } else {
      var front, last := order[..|order| - 1], order[|order| - 1];
      HitsAfter(state, front, reg, entries, hits, digi);
      PartPublished(PublishAll(state, front, reg, entries, hits), last, reg, entries, hits, digi);
      assert Get(state.hits, digi) + Appended(order, reg, entries, hits, digi) ==
        Get(state.hits, digi) + Appended(front, reg, entries, hits, digi) + Part(last, reg, entries, hits, digi);
    }
  }

  lemma AppendedNext(front: seq<RouteKey>, key: RouteKey, reg: Registry, entries: Entries,
                     hits: map<TypeId, seq<Hit>>, digi: TypeId)
    ensures Appended(front + [key], reg, entries, hits, digi) ==
      Appended(front, reg, entries, hits, digi) + Part(key, reg, entries, hits, digi)
  {
    hide Produced;
    assert (front + [key])[..|front|] == front;
  }

  lemma AppendedNothing(reg: Registry, entries: Entries, hits: map<TypeId, seq<Hit>>, digi: TypeId)
    ensures Appended([], reg, entries, hits, digi) == []
  {
  }

  lemma {:induction false} AppendedConcat(front: seq<RouteKey>, back: seq<RouteKey>, reg: Registry,
                                          entries: Entries, hits: map<TypeId, seq<Hit>>, digi: TypeId)
    ensures Appended(front + back, reg, entries, hits, digi) ==
      Appended(front, reg, entries, hits, digi) + Appended(back, reg, entries, hits, digi)
    decreases |back|
  {
    hide Appended, Part;
    if back == [] {
      assert front + back == front;
      AppendedNothing(reg, entries, hits, digi);
    } else {
      var rest, last := back[..|back| - 1], back[|back| - 1];
      AppendedConcat(front, rest, reg, entries, hits, digi);
      AppendedNext(front + rest, last, reg, entries, hits, digi);
      AppendedNext(rest, last, reg, entries, hits, digi);
      assert front + back == front + rest + [last] && back == rest + [last];
    }
  }

  lemma AppendedInsert(front: seq<RouteKey>, key: RouteKey, back: seq<RouteKey>, reg: Registry,
                       entries: Entries, hits: map<TypeId, seq<Hit>>, digi: TypeId)
    ensures multiset(Appended(front + [key] + back, reg, entries, hits, digi)) ==
      multiset(Appended(front + back, reg, entries, hits, digi)) + multiset(Part(key, reg, entries, hits, digi))
  {
    hide Appended, Part;
    AppendedConcat(front + [key], back, reg, entries, hits, digi);
    AppendedConcat(front, back, reg, entries, hits, digi);
    AppendedNext(front, key, reg, entries, hits, digi);
  }

  lemma {:induction false} AppendedPermuted(left: seq<RouteKey>, right: seq<RouteKey>, reg: Registry,
                                            entries: Entries, hits: map<TypeId, seq<Hit>>, digi: TypeId)
    requires Permutation(left, right)
    ensures Permutation(Appended(left, reg, entries, hits, digi), Appended(right, reg, entries, hits, digi))
    decreases |left|
  {
    hide Appended, Part;
    if left == [] {
      PermutationLength(left, right);
    } else {
      var k := PermutationHead(left, right);
      var rest := right[..k] + right[k + 1..];
      AppendedPermuted(left[1..], rest, reg, entries, hits, digi);
      AppendedInsert([], left[0], left[1..], reg, entries, hits, digi);
      AppendedInsert(right[..k], left[0], right[k + 1..], reg, entries, hits, digi);
      assert [] + [left[0]] + left[1..] == left && [] + left[1..] == left[1..];
    }
  }

  lemma SameElements<T>(left: seq<T>, right: seq<T>)
    requires NoRepeats(left) && NoRepeats(right) && forall x :: x in left <==> x in right
    ensures Permutation(left, right)
  {
    forall x ensures multiset(left)[x] == multiset(right)[x] {
      CountOnce(left, x);
      CountOnce(right, x);
    }
  }

  lemma {:induction false} CountOnce<T>(s: seq<T>, x: T)
    requires NoRepeats(s)
    ensures multiset(s)[x] == if x in s then 1 else 0
  {
    if s != [] {
      var front, last := s[..|s| - 1], s[|s| - 1];
      CountOnce(front, x);
      assert s == front + [last];
      assert last !in front;
    }
  }

  lemma SameCollections(state: EventState, left: seq<RouteKey>, right: seq<RouteKey>, reg: Registry, entries: Entries,
                        hits: map<TypeId, seq<Hit>>)
    requires NoRepeats(left) && NoRepeats(right) && forall key :: key in left <==> key in right
    ensures PublishAll(state, left, reg, entries, hits).collections ==
      PublishAll(state, right, reg, entries, hits).collections
  {
    hide PublishAll, Produced;
    var l := PublishAll(state, left, reg, entries, hits).collections;
    var r := PublishAll(state, right, reg, entries, hits).collections;
    forall key ensures (key in l <==> key in r) && (key in l ==> l[key] == r[key]) {
      CollectionAfter(state, left, reg, entries, hits, key);
      CollectionAfter(state, right, reg, entries, hits, key);
    }
  }

  // The order in which the hash maps are traversed decides neither any route
  // output nor which DigiHits there are, only the order in which those of
  // different routes follow each other.
  lemma {:induction false} OrderInvisible(state: EventState, left: seq<RouteKey>, right: seq<RouteKey>,
                                          reg: Registry, entries: Entries,
                                          hits: map<TypeId, seq<Hit>>)
    requires RunsActive(left, reg.translators.Keys, reg, entries, hits)
    requires RunsActive(right, reg.translators.Keys, reg, entries, hits)
    ensures var l, r := PublishAll(state, left, reg, entries, hits), PublishAll(state, right, reg, entries, hits);
      && l.collections == r.collections
      && forall digi :: Permutation(Get(l.hits, digi), Get(r.hits, digi))
  {
    SameElements(left, right);
    hide PublishAll, Produced, Active;
    SameCollections(state, left, right, reg, entries, hits);
    forall digi
      ensures Permutation(Get(PublishAll(state, left, reg, entries, hits).hits, digi),
        Get(PublishAll(state, right, reg, entries, hits).hits, digi))
    {
      HitsAfter(state, left, reg, entries, hits, digi);
      HitsAfter(state, right, reg, entries, hits, digi);
      AppendedPermuted(left, right, reg, entries, hits, digi);
    }
  }

  // ----- Counting -----

  // The raw hits of an event, by type and position.
  predicate IsAssigned(entries: Entries, hit: Hit, detector: string) {
    hit.daq in entries && entries[hit.daq].detector == detector
  }

  // The hits that the table assigns to the detector of the route.
  function HitsOfRoute(key: RouteKey, entries: Entries, hits: map<TypeId, seq<Hit>>, n: nat): set<(TypeId, nat)>
    requires n <= |Get(hits, key.raw)|
  {
    set k: nat | k < n && IsAssigned(entries, Get(hits, key.raw)[k], key.detector) :: (key.raw, k)
  }

  // The same over the routes that publish under one DigiHit type.
  function HitsOfRoutes(order: seq<RouteKey>, entries: Entries, hits: map<TypeId, seq<Hit>>, digi: TypeId)
    : set<(TypeId, nat)>
  {
    if order == [] then {}
    else
      var last := order[|order| - 1];
      HitsOfRoutes(order[..|order| - 1], entries, hits, digi) +
      if last.digi == digi then HitsOfRoute(last, entries, hits, |Get(hits, last.raw)|) else {}
  }

  lemma {:induction false} MatchedCount(key: RouteKey, entries: Entries, hits: map<TypeId, seq<Hit>>, n: nat)
    requires n <= |Get(hits, key.raw)|
    ensures |Matched(entries, Get(hits, key.raw)[..n], key.detector)| == |HitsOfRoute(key, entries, hits, n)|
  {
    hide HitsOfRoute;
    if n == 0 {
      NoHitsOfRoute(key, entries, hits);
    } else {
      MatchedCount(key, entries, hits, n - 1);
      var all := Get(hits, key.raw);
      assert all[..n] == all[..n - 1] + [all[n - 1]];
      MatchedNext(entries, all[..n - 1], all[n - 1], key.detector);
      HitsOfRouteNext(key, entries, hits, n - 1);
    }
  }

  lemma NoHitsOfRoute(key: RouteKey, entries: Entries, hits: map<TypeId, seq<Hit>>)
    ensures |HitsOfRoute(key, entries, hits, 0)| == 0
  {
  }

  lemma HitsOfRouteSplit(key: RouteKey, entries: Entries, hits: map<TypeId, seq<Hit>>, n: nat)
    requires n < |Get(hits, key.raw)|
    ensures var one := if IsAssigned(entries, Get(hits, key.raw)[n], key.detector) then {(key.raw, n)} else {};
      && HitsOfRoute(key, entries, hits, n + 1) == HitsOfRoute(key, entries, hits, n) + one
      && HitsOfRoute(key, entries, hits, n) !! one
  {
    hide IsAssigned, Get;
  }

  lemma HitsOfRouteNext(key: RouteKey, entries: Entries, hits: map<TypeId, seq<Hit>>, n: nat)
    requires n < |Get(hits, key.raw)|
    ensures |HitsOfRoute(key, entries, hits, n + 1)| == |HitsOfRoute(key, entries, hits, n)| +
      if IsAssigned(entries, Get(hits, key.raw)[n], key.detector) then 1 else 0
  {
    hide IsAssigned, Get, HitsOfRoute;
    HitsOfRouteSplit(key, entries, hits, n);
  }

  ghost predicate AnyAssigns(order: seq<RouteKey>, entries: Entries, raw: TypeId, hit: Hit, digi: TypeId) {
    exists key :: key in order && key.raw == raw && key.digi == digi && IsAssigned(entries, hit, key.detector)
  }

  lemma {:induction false} HitsOfRoutesIn(order: seq<RouteKey>, entries: Entries, hits: map<TypeId, seq<Hit>>,
                                          digi: TypeId, raw: TypeId, k: nat)
    ensures (raw, k) in HitsOfRoutes(order, entries, hits, digi) <==>
      k < |Get(hits, raw)| && AnyAssigns(order, entries, raw, Get(hits, raw)[k], digi)
  {
    if order != [] {
      var front, last := order[..|order| - 1], order[|order| - 1];
      HitsOfRoutesIn(front, entries, hits, digi, raw, k);
      assert order == front + [last];
      assert last in order;
    }
  }

  // Another route to the same type has other hits.
  lemma OtherRoutesHits(front: seq<RouteKey>, last: RouteKey, reg: Registry, entries: Entries,
                        hits: map<TypeId, seq<Hit>>, digi: TypeId)
    requires last !in front && Active(reg, entries, hits, last)
    requires forall key :: key in front ==> Active(reg, entries, hits, key)
    ensures HitsOfRoutes(front, entries, hits, digi) !! HitsOfRoute(last, entries, hits, |Get(hits, last.raw)|)
  {
    hide Matched, HitsOfRoutes;
    forall p | p in HitsOfRoute(last, entries, hits, |Get(hits, last.raw)|)
      ensures p !in HitsOfRoutes(front, entries, hits, digi)
    {
      HitsOfRoutesIn(front, entries, hits, digi, p.0, p.1);
    }
  }

  lemma {:induction false} AppendedCount(order: seq<RouteKey>, reg: Registry, entries: Entries,
                                         hits: map<TypeId, seq<Hit>>, digi: TypeId)
    requires NoRepeats(order) && forall key :: key in order ==> Active(reg, entries, hits, key)
    ensures |Appended(order, reg, entries, hits, digi)| == |HitsOfRoutes(order, entries, hits, digi)|
  {
    if order != [] {
      var front, last := order[..|order| - 1], order[|order| - 1];
      var all := Get(hits, last.raw);
      assert order == front + [last] && last in order && last !in front;
      AppendedCount(front, reg, entries, hits, digi);
      MatchedCount(last, entries, hits, |all|);
      assert all[..|all|] == all;
      OtherRoutesHits(front, last, reg, entries, hits, digi);
      hide HitsOfRoute, Matched;
      var before, here := HitsOfRoutes(front, entries, hits, digi), HitsOfRoute(last, entries, hits, |all|);
      assert |before + here| == |before| + |here|;
    }
  }

  // The hits of scanned types that are both mapped and routed, to a route
  // that publishes under the given DigiHit type.
  ghost predicate IsRouted(reg: Registry, entries: Entries, hits: map<TypeId, seq<Hit>>, raw: TypeId, k: nat,
                           digi: TypeId)
  {
    && k < |Get(hits, raw)|
    && Get(hits, raw)[k].daq in entries
    && HasRoute(reg, raw, entries[Get(hits, raw)[k].daq].detector)
    && Routes(reg, raw)[entries[Get(hits, raw)[k].daq].detector].digi == digi
  }

  // Under each type the event gains as many DigiHits as it has hits that are
  // both mapped and routed there: each of them is translated once.
  lemma EveryHitOnce(state: EventState, order: seq<RouteKey>, reg: Registry, entries: Entries,
                     hits: map<TypeId, seq<Hit>>, digi: TypeId)
    requires RunsActive(order, reg.translators.Keys, reg, entries, hits)
    ensures var after := PublishAll(state, order, reg, entries, hits);
      |Get(after.hits, digi)| == |Get(state.hits, digi)| + |HitsOfRoutes(order, entries, hits, digi)|
    ensures forall raw, k: nat :: (raw, k) in HitsOfRoutes(order, entries, hits, digi) <==>
      IsRouted(reg, entries, hits, raw, k, digi)
  {
    HitsAfter(state, order, reg, entries, hits, digi);
    AppendedCount(order, reg, entries, hits, digi);
    hide PublishAll, Appended, HitsOfRoutes, Matched;
    forall raw, k: nat
      ensures (raw, k) in HitsOfRoutes(order, entries, hits, digi) <==> IsRouted(reg, entries, hits, raw, k, digi)
    {
      HitsOfRoutesIn(order, entries, hits, digi, raw, k);
      if IsRouted(reg, entries, hits, raw, k, digi) {
        RoutedIsActive(reg, entries, hits, raw, k, digi);
      }
    }
  }

  lemma RoutedIsActive(reg: Registry, entries: Entries, hits: map<TypeId, seq<Hit>>, raw: TypeId, k: nat, digi: TypeId)
    requires IsRouted(reg, entries, hits, raw, k, digi)
    ensures Active(reg, entries, hits, RouteKey(raw, digi, entries[Get(hits, raw)[k].daq].detector))
  {
    var key := RouteKey(raw, digi, entries[Get(hits, raw)[k].daq].detector);
    var all := Get(hits, raw);
    MatchedCount(key, entries, hits, |all|);
    assert all[..|all|] == all;
    assert (raw, k) in HitsOfRoute(key, entries, hits, |all|);
  }

  // ----- Which DigiHits -----

  // The hit at the position is routed, and its route's translator makes this
  // DigiHit of it and its address.
  ghost predicate Gives(reg: Registry, entries: Entries, hits: map<TypeId, seq<Hit>>, raw: TypeId, k: nat, made: Hit) {
    && k < |Get(hits, raw)|
    && var hit := Get(hits, raw)[k];
    && hit.daq in entries && HasRoute(reg, raw, entries[hit.daq].detector)
    && Routes(reg, raw)[entries[hit.daq].detector].translator(hit, entries[hit.daq]) == made
  }

  // Those of the given hits that make this DigiHit.
  ghost function Giving(some: set<(TypeId, nat)>, reg: Registry, entries: Entries, hits: map<TypeId, seq<Hit>>,
                        made: Hit): set<(TypeId, nat)>
  {
    set p | p in some && Gives(reg, entries, hits, p.0, p.1, made)
  }

  lemma GivingUnion(a: set<(TypeId, nat)>, b: set<(TypeId, nat)>, reg: Registry, entries: Entries,
                    hits: map<TypeId, seq<Hit>>, made: Hit)
    requires a !! b
    ensures |Giving(a + b, reg, entries, hits, made)| ==
      |Giving(a, reg, entries, hits, made)| + |Giving(b, reg, entries, hits, made)|
  {
    hide Gives;
    var left, right := Giving(a, reg, entries, hits, made), Giving(b, reg, entries, hits, made);
    assert Giving(a + b, reg, entries, hits, made) == left + right;
  }

  lemma GivingOne(key: RouteKey, reg: Registry, entries: Entries, hits: map<TypeId, seq<Hit>>, n: nat, made: Hit)
    requires n < |Get(hits, key.raw)| && HasRoute(reg, key.raw, key.detector)
    requires IsAssigned(entries, Get(hits, key.raw)[n], key.detector)
    ensures var hit := Get(hits, key.raw)[n];
      |Giving({(key.raw, n)}, reg, entries, hits, made)| ==
        if Routes(reg, key.raw)[key.detector].translator(hit, entries[hit.daq]) == made then 1 else 0
  {
    var giving := Giving({(key.raw, n)}, reg, entries, hits, made);
    if Gives(reg, entries, hits, key.raw, n, made) {
      assert giving == {(key.raw, n)};
    } else {
      assert giving == {};
    }
  }

  // What one route makes of its first n hits.
  lemma {:induction false} MadeByRoute(key: RouteKey, reg: Registry, entries: Entries, hits: map<TypeId, seq<Hit>>,
                                       n: nat, made: Hit)
    requires n <= |Get(hits, key.raw)| && HasRoute(reg, key.raw, key.detector)
    ensures var translator := Routes(reg, key.raw)[key.detector].translator;
      multiset(Translated(translator, Matched(entries, Get(hits, key.raw)[..n], key.detector)))[made] ==
        |Giving(HitsOfRoute(key, entries, hits, n), reg, entries, hits, made)|
  {
    if n == 0 {
      assert HitsOfRoute(key, entries, hits, 0) == {};
    } else {
      hide Matched, HitsOfRoute, Gives, Giving, HasRoute, Translated, IsAssigned;
      MadeByRoute(key, reg, entries, hits, n - 1, made);
      MatchedOneMore(key, reg, entries, hits, n - 1, made);
      GivingOneMore(key, reg, entries, hits, n - 1, made);
    }
  }

  // Whether the translator makes this DigiHit of the hit at position n.
  ghost predicate MakesIt(key: RouteKey, reg: Registry, entries: Entries, hits: map<TypeId, seq<Hit>>, n: nat,
                          made: Hit)
    requires n < |Get(hits, key.raw)| && HasRoute(reg, key.raw, key.detector)
  {
    && IsAssigned(entries, Get(hits, key.raw)[n], key.detector)
    && var hit := Get(hits, key.raw)[n];
    Routes(reg, key.raw)[key.detector].translator(hit, entries[hit.daq]) == made
  }

  lemma MatchedOneMore(key: RouteKey, reg: Registry, entries: Entries, hits: map<TypeId, seq<Hit>>, n: nat, made: Hit)
    requires n < |Get(hits, key.raw)| && HasRoute(reg, key.raw, key.detector)
    ensures var translator, all := Routes(reg, key.raw)[key.detector].translator, Get(hits, key.raw);
      multiset(Translated(translator, Matched(entries, all[..n + 1], key.detector)))[made] ==
        multiset(Translated(translator, Matched(entries, all[..n], key.detector)))[made] +
        if MakesIt(key, reg, entries, hits, n, made) then 1 else 0
  {
    var translator, all := Routes(reg, key.raw)[key.detector].translator, Get(hits, key.raw);
    hide Matched, Translated, HasRoute;
    assert all[..n + 1] == all[..n] + [all[n]];
    MatchedNext(entries, all[..n], all[n], key.detector);
    var matched := Matched(entries, all[..n], key.detector);
    if IsAssigned(entries, all[n], key.detector) {
      TranslatedNext(translator, matched, (all[n], entries[all[n].daq]));
    } else {
      assert matched + [] == matched;
    }
  }

  lemma GivingOneMore(key: RouteKey, reg: Registry, entries: Entries, hits: map<TypeId, seq<Hit>>, n: nat, made: Hit)
    requires n < |Get(hits, key.raw)| && HasRoute(reg, key.raw, key.detector)
    ensures |Giving(HitsOfRoute(key, entries, hits, n + 1), reg, entries, hits, made)| ==
      |Giving(HitsOfRoute(key, entries, hits, n), reg, entries, hits, made)| +
      if MakesIt(key, reg, entries, hits, n, made) then 1 else 0
  {
    hide HitsOfRoute, Gives, Giving, HasRoute, IsAssigned, Get;
    HitsOfRouteSplit(key, entries, hits, n);
    var before := HitsOfRoute(key, entries, hits, n);
    if IsAssigned(entries, Get(hits, key.raw)[n], key.detector) {
      GivingOne(key, reg, entries, hits, n, made);
      GivingUnion(before, {(key.raw, n)}, reg, entries, hits, made);
    } else {
      assert before + {} == before;
    }
  }

  lemma TranslatedNext(translator: Translator, matched: seq<(Hit, DetectorAddress)>, last: (Hit, DetectorAddress))
    ensures multiset(Translated(translator, matched + [last])) ==
      multiset(Translated(translator, matched)) + multiset{translator(last.0, last.1)}
  {
    assert Translated(translator, matched + [last]) == Translated(translator, matched) + [translator(last.0, last.1)];
  }

  lemma {:induction false} AppendedMade(order: seq<RouteKey>, reg: Registry, entries: Entries,
                                        hits: map<TypeId, seq<Hit>>, digi: TypeId, made: Hit)
    requires NoRepeats(order) && forall key :: key in order ==> Active(reg, entries, hits, key)
    ensures multiset(Appended(order, reg, entries, hits, digi))[made] ==
      |Giving(HitsOfRoutes(order, entries, hits, digi), reg, entries, hits, made)|
  {
    if order == [] {
      assert HitsOfRoutes(order, entries, hits, digi) == {};
    } else {
      hide HitsOfRoute, Matched, Gives, Giving, Appended, HitsOfRoutes, Part;
      var front, last := order[..|order| - 1], order[|order| - 1];
      assert order == front + [last] && last in order && last !in front;
      AppendedMade(front, reg, entries, hits, digi, made);
      AppendedNext(front, last, reg, entries, hits, digi);
      PartMade(front, last, reg, entries, hits, digi, made);
    }
  }

  // One more route adds what it makes of its own hits.
  lemma PartMade(front: seq<RouteKey>, last: RouteKey, reg: Registry, entries: Entries, hits: map<TypeId, seq<Hit>>,
                 digi: TypeId, made: Hit)
    requires last !in front && Active(reg, entries, hits, last)
    requires forall key :: key in front ==> Active(reg, entries, hits, key)
    ensures |Giving(HitsOfRoutes(front + [last], entries, hits, digi), reg, entries, hits, made)| ==
      |Giving(HitsOfRoutes(front, entries, hits, digi), reg, entries, hits, made)| +
      multiset(Part(last, reg, entries, hits, digi))[made]
  {
    var all, before := Get(hits, last.raw), HitsOfRoutes(front, entries, hits, digi);
    assert (front + [last])[..|front|] == front;
    MadeByRoute(last, reg, entries, hits, |all|, made);
    assert all[..|all|] == all;
    OtherRoutesHits(front, last, reg, entries, hits, digi);
    hide HitsOfRoute, Matched, Gives, Giving, Translated;
    if last.digi == digi {
      GivingUnion(before, HitsOfRoute(last, entries, hits, |all|), reg, entries, hits, made);
    } else {
      assert before + {} == before;
    }
  }

  // Under each type the event gains each DigiHit as often as there are mapped
  // and routed hits of which the translator of their route makes it.
  lemma DigiHitsMade(state: EventState, order: seq<RouteKey>, reg: Registry, entries: Entries,
                     hits: map<TypeId, seq<Hit>>, digi: TypeId, made: Hit)
    requires RunsActive(order, reg.translators.Keys, reg, entries, hits)
    ensures var routed := HitsOfRoutes(order, entries, hits, digi);
      && (forall raw, k: nat :: (raw, k) in routed <==> IsRouted(reg, entries, hits, raw, k, digi))
      && multiset(Get(PublishAll(state, order, reg, entries, hits).hits, digi))[made] ==
        multiset(Get(state.hits, digi))[made] +
        |set p | p in routed && Gives(reg, entries, hits, p.0, p.1, made)|
  {
    EveryHitOnce(state, order, reg, entries, hits, digi);
    HitsAfter(state, order, reg, entries, hits, digi);
    AppendedMade(order, reg, entries, hits, digi, made);
    hide PublishAll, Appended, HitsOfRoutes, Gives;
  }
}
