// The registry of detector routes, the dump that describes their outputs, and
// the translation of an event.
module Translators {
  import opened Common
  import opened PathEncoding
  import opened TranslationTables

  // The identity of a C++ type.
  datatype TypeId = TypeId(id: nat)

  // A hit object of any type; raw hits provide a DAQ address.
  datatype Hit = Hit(daq: DAQAddress, content: seq<int>)

  type Translator = (Hit, DetectorAddress) -> Hit
  type RowWriter = (nat, Hit) -> string

  datatype Route = Route(digi: TypeId, translator: Translator)

  // The type arguments and the tag under which a route publishes its output.
  datatype RouteKey = RouteKey(raw: TypeId, digi: TypeId, detector: string)

  datatype Output = Output(directory: string, filename: string, header: string, key: RouteKey, writeRow: RowWriter)

  datatype RegistryError = Frozen | Incomplete | Duplicate | NoHeader | NoTypeName | PathTaken

  // An empty std::function is None.
  datatype Request = Request(
    detector: ByteString, raw: TypeId, digi: TypeId, translator: Option<Translator>, header: string,
    writeRow: Option<RowWriter>)

  // The displayed name of a type, if it can be determined. Distinct types may
  // share one.
  type Demangler = TypeId -> Option<ByteString>

  // ----- The registry as a value -----

  datatype Registry = Registry(
    translators: map<TypeId, map<string, Route>>, paths: set<string>, outputs: seq<Output>, frozen: bool)

  const EMPTY_REGISTRY := Registry(map[], {}, [], false)

  function Path(output: Output): string {
    output.directory + "/" + output.filename
  }

  function Routes(reg: Registry, raw: TypeId): map<string, Route> {
    if raw in reg.translators then reg.translators[raw] else map[]
  }

  predicate HasRoute(reg: Registry, raw: TypeId, detector: string) {
    detector in Routes(reg, raw)
  }

  // addWriter: the new dump, or why there is none.
  function WriterFor(request: Request, paths: set<string>, names: Demangler): Result<Output, RegistryError> {
    if request.header == "" || request.writeRow.None? then Failure(NoHeader)
    else
      match names(request.raw)
      case None => Failure(NoTypeName)
      case Some(typeName) =>
        var output := Output(Encoded(request.detector), GeneratedFilename(typeName), request.header,
          RouteKey(request.raw, request.digi, request.detector), request.writeRow.value);
        if Path(output) in paths then Failure(PathTaken) else Success(output)
  }

  // addTranslator. The table of the raw type is created before the remaining
  // checks, and stays when they fail.
  function Add(reg: Registry, request: Request, names: Demangler): (Registry, Option<RegistryError>) {
    if reg.frozen then (reg, Some(Frozen))
    else if request.detector == "" || request.translator.None? || request.writeRow.None? then (reg, Some(Incomplete))
    else
      var routes := Routes(reg, request.raw);
      var created := reg.(translators := reg.translators[request.raw := routes]);
      if request.detector in routes then (created, Some(Duplicate))
      else
        match WriterFor(request, reg.paths, names)
        case Failure(e) => (created, Some(e))
        case Success(output) =>
          (Registry(reg.translators[request.raw :=
              routes[request.detector := Route(request.digi, request.translator.value)]],
            reg.paths + {Path(output)}, reg.outputs + [output], reg.frozen), None)
  }

  // ----- Events -----

  class HitEvent {
    const number: nat
    // The untagged collection of each type, in order of insertion.
    var hits: map<TypeId, seq<Hit>>
    // The route outputs: DetectorTranslationOutput collections by tag.
    var collections: map<RouteKey, seq<seq<Hit>>>

    constructor (number: nat, hits: map<TypeId, seq<Hit>>)
      ensures this.number == number && this.hits == hits && collections == map[]
    {
      this.number, this.hits, this.collections := number, hits, map[];
    }

    ghost function State(): EventState
      reads this
    {
      EventState(hits, collections)
    }

    method Insert(kind: TypeId, hit: Hit)
      modifies this`hits
      ensures hits == old(hits)[kind := Get(old(hits), kind) + [hit]]
    {
      hits := hits[kind := Get(hits, kind) + [hit]];
    }

    method InsertOutput(key: RouteKey, output: seq<Hit>)
      modifies this`collections
      ensures collections == old(collections)[key := Get(old(collections), key) + [output]]
    {
      collections := collections[key := Get(collections, key) + [output]];
    }
  }

  datatype EventState = EventState(hits: map<TypeId, seq<Hit>>, collections: map<RouteKey, seq<seq<Hit>>>)

  function Get<K, T>(m: map<K, seq<T>>, k: K): seq<T> {
    if k in m then m[k] else []
  }

  // ----- What a route produces -----

  // The hit, if the table assigns it to the detector.
  function Assigned(entries: Entries, hit: Hit, detector: string): seq<(Hit, DetectorAddress)> {
    if hit.daq in entries && entries[hit.daq].detector == detector then [(hit, entries[hit.daq])] else []
  }

  // The hits that the table assigns to the detector, in order.
  function Matched(entries: Entries, hits: seq<Hit>, detector: string): seq<(Hit, DetectorAddress)> {
    if hits == [] then []
    else
      Matched(entries, hits[..|hits| - 1], detector) + Assigned(entries, hits[|hits| - 1], detector)
  }

  function Translated(translator: Translator, matched: seq<(Hit, DetectorAddress)>): (r: seq<Hit>)
    ensures |r| == |matched|
  {
    Map((m: (Hit, DetectorAddress)) => translator(m.0, m.1), matched)
  }

  // The event after a route has published its hits.
  function Publish(state: EventState, key: RouteKey, produced: seq<Hit>): EventState {
    EventState(state.hits[key.digi := Get(state.hits, key.digi) + produced],
      state.collections[key := Get(state.collections, key) + [produced]])
  }

  // A route that some hit of the event reaches.
  ghost predicate Active(reg: Registry, entries: Entries, hits: map<TypeId, seq<Hit>>, key: RouteKey) {
    && HasRoute(reg, key.raw, key.detector)
    && Routes(reg, key.raw)[key.detector].digi == key.digi
    && Matched(entries, Get(hits, key.raw), key.detector) != []
  }

  // What the route produces from the event's hits.
  function Produced(reg: Registry, entries: Entries, hits: map<TypeId, seq<Hit>>, key: RouteKey): seq<Hit> {
    if !HasRoute(reg, key.raw, key.detector) then []
    else
      Translated(Routes(reg, key.raw)[key.detector].translator, Matched(entries, Get(hits, key.raw), key.detector))
  }

  // The event after the given routes have published, one after the other.
  function PublishAll(state: EventState, order: seq<RouteKey>, reg: Registry, entries: Entries,
                      hits: map<TypeId, seq<Hit>>): EventState
  {
    if order == [] then state
    else
      var last := order[|order| - 1];
      Publish(PublishAll(state, order[..|order| - 1], reg, entries, hits), last, Produced(reg, entries, hits, last))
  }

  // Each active route of the raw types once, and no others, in some order.
  ghost predicate RunsActive(order: seq<RouteKey>, raws: set<TypeId>, reg: Registry, entries: Entries,
                             hits: map<TypeId, seq<Hit>>)
  {
    NoRepeats(order) && forall key :: key in order <==> key.raw in raws && Active(reg, entries, hits, key)
  }

  // Part of the way through one more raw type: the routes of the detectors
  // that do not remain have run.
  ghost predicate RunSoFar(order: seq<RouteKey>, done: set<TypeId>, raw: TypeId, remaining: set<string>,
                           reg: Registry, entries: Entries, hits: map<TypeId, seq<Hit>>)
  {
    && NoRepeats(order)
    && forall key :: key in order <==>
      Active(reg, entries, hits, key) && (key.raw in done || (key.raw == raw && key.detector !in remaining))
  }

  lemma RunStarts(order: seq<RouteKey>, done: set<TypeId>, raw: TypeId, detectors: set<string>,
                  reg: Registry, entries: Entries, hits: map<TypeId, seq<Hit>>)
    requires RunsActive(order, done, reg, entries, hits) && raw !in done
    requires forall detector :: detector in detectors <==>
      detector in Routes(reg, raw) && Matched(entries, Get(hits, raw), detector) != []
    ensures RunSoFar(order, done, raw, detectors, reg, entries, hits)
  {
    hide Matched;
  }

  lemma RunNext(order: seq<RouteKey>, done: set<TypeId>, raw: TypeId, remaining: set<string>, detector: string,
                reg: Registry, entries: Entries, hits: map<TypeId, seq<Hit>>)
    requires RunSoFar(order, done, raw, remaining, reg, entries, hits) && raw !in done
    requires detector in remaining && detector in Routes(reg, raw)
    requires Matched(entries, Get(hits, raw), detector) != []
    ensures RunSoFar(order + [RouteKey(raw, Routes(reg, raw)[detector].digi, detector)], done, raw,
      remaining - {detector}, reg, entries, hits)
  {
    hide Matched, Get;
    var key := RouteKey(raw, Routes(reg, raw)[detector].digi, detector);
    assert Active(reg, entries, hits, key) && key !in order;
    var next := order + [key];
    forall k ensures k in next <==>
      Active(reg, entries, hits, k) && (k.raw in done || (k.raw == raw && k.detector !in remaining - {detector}))
    {
      assert k in next <==> k in order || k == key;
    }
  }

  lemma RunEnds(order: seq<RouteKey>, done: set<TypeId>, raw: TypeId, reg: Registry, entries: Entries,
                hits: map<TypeId, seq<Hit>>)
    requires RunSoFar(order, done, raw, {}, reg, entries, hits)
    ensures RunsActive(order, done + {raw}, reg, entries, hits)
  {
    hide Active;
  }

  lemma FrozenSeparate(reg: Registry)
    requires Separate(reg)
    ensures Separate(reg.(frozen := true))
  {
    assert forall raw :: Routes(reg.(frozen := true), raw) == Routes(reg, raw);
    assert forall raw, detector :: HasRoute(reg.(frozen := true), raw, detector) ==> HasRoute(reg, raw, detector);
  }

  lemma NothingRun(state: EventState, reg: Registry, entries: Entries, hits: map<TypeId, seq<Hit>>)
    ensures RunsActive([], reg.translators.Keys - reg.translators.Keys, reg, entries, hits)
    ensures PublishAll(state, [], reg, entries, hits) == state
  {
  }

  lemma RunUnchanged(state: EventState, order: seq<RouteKey>, done: set<TypeId>, reg: Registry, entries: Entries,
                     hits: map<TypeId, seq<Hit>>, scanned: TypeId)
    requires Separate(reg) && scanned in reg.translators && RunsActive(order, done, reg, entries, hits)
    ensures Get(PublishAll(state, order, reg, entries, hits).hits, scanned) == Get(state.hits, scanned)
  {
    hide Separate, Matched, PublishAll;
    ScannedUnchanged(state, order, reg, entries, hits, scanned);
  }

  // DigiHit types and scanned raw hit types do not overlap.
  ghost predicate Separate(reg: Registry) {
    forall raw, detector, scanned :: HasRoute(reg, raw, detector) && scanned in reg.translators ==>
      Routes(reg, raw)[detector].digi != scanned
  }

  lemma PublishNext(state: EventState, order: seq<RouteKey>, key: RouteKey, reg: Registry, entries: Entries,
                    hits: map<TypeId, seq<Hit>>)
    ensures PublishAll(state, order + [key], reg, entries, hits) ==
      Publish(PublishAll(state, order, reg, entries, hits), key, Produced(reg, entries, hits, key))
  {
    hide Produced, Publish;
    assert (order + [key])[..|order|] == order;
  }

  // What is scanned is not changed by what is published.
  lemma {:induction false} ScannedUnchanged(state: EventState, order: seq<RouteKey>, reg: Registry, entries: Entries,
                                            hits: map<TypeId, seq<Hit>>, scanned: TypeId)
    requires Separate(reg) && scanned in reg.translators
    requires forall key :: key in order ==>
      HasRoute(reg, key.raw, key.detector) && Routes(reg, key.raw)[key.detector].digi == key.digi
    ensures Get(PublishAll(state, order, reg, entries, hits).hits, scanned) == Get(state.hits, scanned)
  {
    hide Produced, Routes, HasRoute;
    if order != [] {
      assert order[|order| - 1] in order;
      ScannedUnchanged(state, order[..|order| - 1], reg, entries, hits, scanned);
    }
  }

  lemma MatchedNext(entries: Entries, hits: seq<Hit>, hit: Hit, detector: string)
    ensures Matched(entries, hits + [hit], detector) ==
      Matched(entries, hits, detector) + Assigned(entries, hit, detector)
  {
    assert (hits + [hit])[..|hits|] == hits;
  }

  // ----- The service -----

  class DetectorTranslatorsMap {
    const names: Demangler
    var translators: map<TypeId, map<string, Route>>
    var paths: set<string>
    var outputs: seq<Output>
    var frozen: bool

    constructor (names: Demangler)
      ensures State() == EMPTY_REGISTRY && this.names == names
    {
      this.names := names;
      translators, paths, outputs, frozen := map[], {}, [], false;
    }

    ghost function State(): Registry
      reads this
    {
      Registry(translators, paths, outputs, frozen)
    }

    method AddTranslator(request: Request) returns (error: Option<RegistryError>)
      modifies this
      ensures (State(), error) == Add(old(State()), request, names)
    {
      if frozen {
        return Some(Frozen);
      }
      if request.detector == "" || request.translator.None? || request.writeRow.None? {
        return Some(Incomplete);
      }
      if request.raw !in translators {
        translators := translators[request.raw := map[]];
      }
      assert translators == old(translators)[request.raw := Routes(old(State()), request.raw)];
      if request.detector in translators[request.raw] {
        return Some(Duplicate);
      }
      error := AddWriter(request);
      if error.Some? {
        return;
      }
      translators := translators[request.raw :=
        translators[request.raw][request.detector := Route(request.digi, request.translator.value)]];
      assert translators == old(translators)[request.raw := translators[request.raw]];
    }

    // DetectorTranslationDump::addWriter.
    method AddWriter(request: Request) returns (error: Option<RegistryError>)
      modifies this`paths, this`outputs
      ensures match WriterFor(request, old(paths), names)
        case Failure(e) => error == Some(e) && paths == old(paths) && outputs == old(outputs)
        case Success(output) =>
          error == None && paths == old(paths) + {Path(output)} && outputs == old(outputs) + [output]
    {
      if request.header == "" || request.writeRow.None? {
        return Some(NoHeader);
      }
      var directory := PathComponent(request.detector);
      var typeName := names(request.raw);
      if typeName.None? {
        return Some(NoTypeName);
      }
      var component := PathComponent(typeName.value);
      var filename := component + ".csv";
      var path := directory + "/" + filename;
      if path in paths {
        return Some(PathTaken);
      }
      paths := paths + {path};
      outputs := outputs + [Output(directory, filename, request.header,
        RouteKey(request.raw, request.digi, request.detector), request.writeRow.value)];
      error := None;
    }

    method Freeze()
      modifies this`frozen
      ensures State() == old(State()).(frozen := true)
    {
      frozen := true;
    }

    method GetDumpOutputs() returns (r: seq<Output>)
      modifies this`frozen
      ensures State() == old(State()).(frozen := true) && r == outputs
    {
      frozen := true;
      r := outputs;
    }

    // translateEvent: each active route runs once, in no particular order, on
    // the hits that the event held before.
    method TranslateEvent(table: TranslationTable, event: HitEvent) returns (ghost order: seq<RouteKey>)
      requires Separate(State())
      modifies this`frozen, event`hits, event`collections
      ensures State() == old(State()).(frozen := true)
      ensures RunsActive(order, translators.Keys, State(), table.entries, old(event.hits))
      ensures event.State() == PublishAll(old(event.State()), order, State(), table.entries, old(event.hits))
    {
      FrozenSeparate(State());
      frozen := true;
      order := TranslateTypes(table, event);
    }

    method TranslateTypes(table: TranslationTable, event: HitEvent) returns (ghost order: seq<RouteKey>)
      requires Separate(State())
      modifies event`hits, event`collections
      ensures RunsActive(order, translators.Keys, State(), table.entries, old(event.hits))
      ensures event.State() == PublishAll(old(event.State()), order, State(), table.entries, old(event.hits))
    {
      hide Active, RunsActive, Separate, PublishAll;
      var remaining := translators.Keys;
      order := [];
      NothingRun(event.State(), State(), table.entries, event.hits);
      while remaining != {}
        invariant remaining <= translators.Keys
        invariant RunsActive(order, translators.Keys - remaining, State(), table.entries, old(event.hits))
        invariant event.State() == PublishAll(old(event.State()), order, State(), table.entries, old(event.hits))
        decreases |remaining|
      {
        var raw: TypeId :| raw in remaining;
        ghost var done := translators.Keys - remaining;
        RunUnchanged(old(event.State()), order, done, State(), table.entries, old(event.hits), raw);
        order := TranslateType(raw, table, event, old(event.hits), old(event.State()), order, done);
        remaining := remaining - {raw};
        assert done + {raw} == translators.Keys - remaining;
      }
      assert translators.Keys - {} == translators.Keys;
    }

    // TranslatorMap::translate. The groups are run in no particular order.
    method TranslateType(raw: TypeId, table: TranslationTable, event: HitEvent, ghost hits: map<TypeId, seq<Hit>>,
                         ghost before: EventState, ghost ran: seq<RouteKey>, ghost done: set<TypeId>)
      returns (ghost order: seq<RouteKey>)
      requires raw in translators && raw !in done && Get(event.hits, raw) == Get(hits, raw)
      requires RunsActive(ran, done, State(), table.entries, hits)
      requires event.State() == PublishAll(before, ran, State(), table.entries, hits)
      modifies event`hits, event`collections
      ensures RunsActive(order, done + {raw}, State(), table.entries, hits)
      ensures event.State() == PublishAll(before, order, State(), table.entries, hits)
    {
      hide Matched, Translated, PublishAll, Publish, RunSoFar, RunsActive, Active;
      var routes := translators[raw];
      var matched := GroupHits(routes, table, Get(event.hits, raw));
      var remaining := matched.Keys;
      order := ran;
      RunStarts(order, done, raw, remaining, State(), table.entries, hits);
      while remaining != {}
        invariant remaining <= matched.Keys
        invariant RunSoFar(order, done, raw, remaining, State(), table.entries, hits)
        invariant event.State() == PublishAll(before, order, State(), table.entries, hits)
        decreases |remaining|
      {
        var detector: string :| detector in remaining;
        ghost var key := RouteKey(raw, routes[detector].digi, detector);
        RunNext(order, done, raw, remaining, detector, State(), table.entries, hits);
        PublishNext(before, order, key, State(), table.entries, hits);
        TranslateRoute(routes[detector], matched[detector], event, raw, detector);
        order := order + [key];
        remaining := remaining - {detector};
      }
      RunEnds(order, done, raw, State(), table.entries, hits);
    }

    // Matched raw hits grouped by detector: one lookup for each hit.
    method GroupHits(routes: map<string, Route>, table: TranslationTable, hits: seq<Hit>)
      returns (matched: map<string, seq<(Hit, DetectorAddress)>>)
      ensures forall detector :: detector in matched <==>
        detector in routes && Matched(table.entries, hits, detector) != []
      ensures forall detector :: detector in matched ==> matched[detector] == Matched(table.entries, hits, detector)
    {
      hide Matched;
      matched := map[];
      NothingMatched(table.entries);
      for n := 0 to |hits|
        invariant forall detector :: detector in matched <==>
          detector in routes && Matched(table.entries, hits[..n], detector) != []
        invariant forall detector :: detector in matched ==>
          matched[detector] == Matched(table.entries, hits[..n], detector)
      {
        var hit := hits[n];
        OneMoreMatched(table.entries, hits, n);
        var address := table.Lookup(hit.daq);
        if address.None? || address.value.detector !in routes {
          continue;
        }
        var detector := address.value.detector;
        matched := matched[detector := Get(matched, detector) + [(hit, address.value)]];
      }
      assert hits[..|hits|] == hits;
    }

    // Route::translate.
    method TranslateRoute(route: Route, matched: seq<(Hit, DetectorAddress)>, event: HitEvent, raw: TypeId,
                          detector: string)
      requires matched != []
      modifies event`hits, event`collections
      ensures event.State() ==
        Publish(old(event.State()), RouteKey(raw, route.digi, detector), Translated(route.translator, matched))
    {
      var output: seq<Hit> := [];
      ghost var before := Get(event.hits, route.digi);
      for n := 0 to |matched|
        invariant output == Translated(route.translator, matched)[..n]
        invariant event.collections == old(event.collections)
        invariant event.hits == if n == 0 then old(event.hits) else old(event.hits)[route.digi := before + output]
      {
        var hit := route.translator(matched[n].0, matched[n].1);
        InsertedTwice(old(event.hits), route.digi, before + output, hit);
        event.Insert(route.digi, hit);
        assert before + output + [hit] == before + (output + [hit]) && before + [] == before;
        output := output + [hit];
        assert event.hits == old(event.hits)[route.digi := before + output];
      }
      assert Translated(route.translator, matched)[..|matched|] == Translated(route.translator, matched);
      event.InsertOutput(RouteKey(raw, route.digi, detector), output);
    }
  }

  lemma InsertedTwice(m: map<TypeId, seq<Hit>>, kind: TypeId, hits: seq<Hit>, hit: Hit)
    ensures m[kind := hits][kind := Get(m[kind := hits], kind) + [hit]] == m[kind := hits + [hit]]
  {
  }

  lemma NothingMatched(entries: Entries)
    ensures forall detector :: Matched(entries, [], detector) == []
  {
  }

  lemma OneMoreMatched(entries: Entries, hits: seq<Hit>, n: nat)
    requires n < |hits|
    ensures forall detector ::
      Matched(entries, hits[..n + 1], detector) ==
        Matched(entries, hits[..n], detector) + Assigned(entries, hits[n], detector)
  {
    hide Matched;
    assert hits[..n + 1] == hits[..n] + [hits[n]];
    forall detector
      ensures Matched(entries, hits[..n + 1], detector) ==
        Matched(entries, hits[..n], detector) + Assigned(entries, hits[n], detector)
    {
      MatchedNext(entries, hits[..n], hits[n], detector);
    }
  }

  // ----- The dump -----

  // The rows of the collections of a route, in order.
  function Rows(writeRow: RowWriter, number: nat, collections: seq<seq<Hit>>): seq<string> {
    if collections == [] then []
    else
      Rows(writeRow, number, collections[..|collections| - 1]) +
      Map((hit: Hit) => writeRow(number, hit), collections[|collections| - 1])
  }

  // The writeEvent callback.
  method WriteEvent(output: Output, event: HitEvent) returns (rows: seq<string>)
    ensures rows == Rows(output.writeRow, event.number, Get(event.collections, output.key))
  {
    var collections := Get(event.collections, output.key);
    rows := [];
    for n := 0 to |collections|
      invariant rows == Rows(output.writeRow, event.number, collections[..n])
    {
      ghost var before := rows;
      var collection := collections[n];
      ghost var written := Map((hit: Hit) => output.writeRow(event.number, hit), collection);
      for k := 0 to |collection|
        invariant rows == before + written[..k]
      {
        rows := rows + [output.writeRow(event.number, collection[k])];
      }
      assert written[..|collection|] == written;
      assert collections[..n + 1][..n] == collections[..n];
    }
    assert collections[..|collections|] == collections;
  }
}
