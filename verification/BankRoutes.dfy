// The bank ID to module ID registry: file layers that may override each
// other, plugin registrations that may not, and a freeze at the first lookup.
module BankRoutes {
  import opened Common
  import opened ConfigurationText
  import opened StreamIntegers

  // The file and the line, counted from 1, that a route comes from.
  datatype Source = Source(file: string, line: nat)

  datatype Route = Route(moduleId: int, source: Source)

  datatype RouteError = Unreadable | Malformed | Conflict | Frozen | Duplicate

  // ----- One layer -----

  datatype Row = Empty | Mapping(moduleId: int, bank: int) | Bad

  function ReadRow(line: string): Row {
    if Blank(line) then Empty
    else
      match ExtractRow(StripComment(line), 2)
      case None => Bad
      case Some(v) => if v[0] < 0 || v[1] < 0 || v[1] > 65535 then Bad else Mapping(v[0], v[1])
  }

  // The routes of the first n lines. The first line that names a bank is its
  // source; a later one may only repeat it.
  function LayerUpTo(filename: string, lines: seq<string>, n: nat): (r: Result<map<int, Route>, RouteError>)
    requires n <= |lines|
  {
    if n == 0 then Success(map[])
    else
      match LayerUpTo(filename, lines, n - 1)
      case Failure(e) => Failure(e)
      case Success(routes) =>
        match ReadRow(lines[n - 1])
        case Empty => Success(routes)
        case Bad => Failure(Malformed)
        case Mapping(moduleId, bank) =>
          if bank !in routes then Success(routes[bank := Route(moduleId, Source(filename, n))])
          else if routes[bank].moduleId != moduleId then Failure(Conflict)
          else Success(routes)
  }

  function Layer(filename: string, file: Option<File>): Result<map<int, Route>, RouteError> {
    if file.None? then Failure(Unreadable)
    else
      match LayerUpTo(filename, file.value.lines, |file.value.lines|)
      case Failure(e) => Failure(e)
      case Success(routes) => if file.value.complete then Success(routes) else Failure(Unreadable)
  }

  // ----- The registry as a value -----

  datatype Registry = Registry(modules: map<int, int>, sources: map<int, Source>, frozen: bool)

  const EMPTY_REGISTRY := Registry(map[], map[], false)

  // A bank whose module does not change keeps the source it has.
  predicate Replaces(modules: map<int, int>, routes: map<int, Route>, bank: int) {
    bank in routes && !(bank in modules && modules[bank] == routes[bank].moduleId)
  }

  function RouteModules(routes: map<int, Route>): map<int, int> {
    map b | b in routes :: routes[b].moduleId
  }

  function NewSources(modules: map<int, int>, routes: map<int, Route>): map<int, Source> {
    map b | b in routes && Replaces(modules, routes, b) :: routes[b].source
  }

  function Publish(reg: Registry, routes: map<int, Route>): Registry {
    Registry(reg.modules + RouteModules(routes), reg.sources + NewSources(reg.modules, routes), reg.frozen)
  }

  datatype Operation =
    | Load(filename: string, file: Option<File>)
    | Add(bank: int, moduleId: int)
    | Lookup(wanted: int)

  // The registry after an operation, and the exception it throws, if any.
  function Apply(op: Operation, reg: Registry): (Registry, Option<RouteError>) {
    match op
    case Load(filename, file) =>
      (match Layer(filename, file)
       case Failure(e) => (reg, Some(e))
       case Success(routes) => if reg.frozen then (reg, Some(Frozen)) else (Publish(reg, routes), None))
    case Add(bank, moduleId) =>
      if reg.frozen then (reg, Some(Frozen))
      else if bank in reg.modules then (reg, Some(Duplicate))
      else (reg.(modules := reg.modules[bank := moduleId]), None)
    case Lookup(_) => (reg.(frozen := true), None)
  }

  // ----- The service -----

  class BankToModuleMap {
    var bankToModule: map<int, int>
    var routeSources: map<int, Source>
    var frozen: bool

    constructor ()
      ensures State() == EMPTY_REGISTRY
    {
      bankToModule, routeSources, frozen := map[], map[], false;
    }

    ghost function State(): Registry
      reads this
    {
      Registry(bankToModule, routeSources, frozen)
    }

    method LoadMappingFile(filename: string, file: Option<File>) returns (error: Option<RouteError>)
      modifies this
      ensures (State(), error) == Apply(Load(filename, file), old(State()))
    {
      var routes := ReadLayer(filename, file);
      if routes.Failure? {
        return Some(routes.error);
      }
      if frozen {
        return Some(Frozen);
      }
      PublishRoutes(routes.value);
      error := None;
    }

    // The loop over the routes of a layer.
    method PublishRoutes(routes: map<int, Route>)
      modifies this`bankToModule, this`routeSources
      ensures State() == Publish(old(State()), routes)
    {
      var order := Traverse(routes.Keys);
      hide InOrder, Publish, FirstRoutes, PublishOne;
      NothingPublished(State(), routes, order);
      for i := 0 to |order|
        invariant State() == Publish(old(State()), FirstRoutes(routes, order, i))
      {
        FirstRoutesStep(routes, order, i);
        OneMoreRoute(old(State()), FirstRoutes(routes, order, i), order[i], routes[order[i]]);
        PublishRoute(order[i], routes[order[i]]);
      }
      AllRoutes(routes, order);
    }

    // A bank that already has the module keeps its source.
    method PublishRoute(bank: int, route: Route)
      modifies this`bankToModule, this`routeSources
      ensures State() == PublishOne(old(State()), bank, route)
    {
      if bank in bankToModule && bankToModule[bank] == route.moduleId {
        return;
      }
      bankToModule := bankToModule[bank := route.moduleId];
      routeSources := routeSources[bank := route.source];
    }

    method AddRoute(bank: int, moduleId: int) returns (error: Option<RouteError>)
      modifies this
      ensures (State(), error) == Apply(Add(bank, moduleId), old(State()))
    {
      if frozen {
        return Some(Frozen);
      }
      if bank in bankToModule {
        return Some(Duplicate);
      }
      bankToModule := bankToModule[bank := moduleId];
      error := None;
    }

    method GetModuleId(bank: int) returns (moduleId: int)
      modifies this`frozen
      ensures State() == Apply(Lookup(bank), old(State())).0
      ensures moduleId == if bank in bankToModule then bankToModule[bank] else -1
    {
      frozen := true;
      if bank !in bankToModule {
        return -1;
      }
      moduleId := bankToModule[bank];
    }
  }

  function PublishOne(reg: Registry, bank: int, route: Route): Registry {
    if bank in reg.modules && reg.modules[bank] == route.moduleId then reg
    else Registry(reg.modules[bank := route.moduleId], reg.sources[bank := route.source], reg.frozen)
  }

  // The routes of the first n banks of the given order.
  function FirstRoutes(routes: map<int, Route>, order: seq<int>, n: nat): map<int, Route>
    requires n <= |order| && forall b :: b in order ==> b in routes
  {
    if n == 0 then map[] else FirstRoutes(routes, order, n - 1)[order[n - 1] := routes[order[n - 1]]]
  }

  lemma {:induction false} FirstRoutesAre(routes: map<int, Route>, order: seq<int>, n: nat)
    requires n <= |order| && forall b :: b in order ==> b in routes
    ensures var first := FirstRoutes(routes, order, n);
      && (forall b :: b in first <==> b in order[..n])
      && (forall b :: b in first ==> b in routes && first[b] == routes[b])
  {
    if n > 0 {
      FirstRoutesAre(routes, order, n - 1);
      assert order[..n] == order[..n - 1] + [order[n - 1]];
    }
  }

  lemma FirstRoutesStep(routes: map<int, Route>, order: seq<int>, n: nat)
    requires n < |order| && IsOrderOf(order, routes.Keys)
    ensures order[n] in routes && order[n] !in FirstRoutes(routes, order, n)
    ensures FirstRoutes(routes, order, n + 1) == FirstRoutes(routes, order, n)[order[n] := routes[order[n]]]
  {
    assert order[n] in order;
    FirstRoutesAre(routes, order, n);
  }

  lemma AllRoutes(routes: map<int, Route>, order: seq<int>)
    requires IsOrderOf(order, routes.Keys)
    ensures FirstRoutes(routes, order, |order|) == routes
  {
    FirstRoutesAre(routes, order, |order|);
    assert order[..|order|] == order;
    var first := FirstRoutes(routes, order, |order|);
    forall b ensures b in first.Keys <==> b in routes.Keys {
      assert b in first <==> b in order;
    }
    assert first.Keys == routes.Keys;
    forall b | b in routes ensures first[b] == routes[b] {
      assert b in first;
    }
  }

  lemma NothingPublished(reg: Registry, routes: map<int, Route>, order: seq<int>)
    requires IsOrderOf(order, routes.Keys)
    ensures Publish(reg, FirstRoutes(routes, order, 0)) == reg
  {
    assert reg.modules + RouteModules(map[]) == reg.modules;
    assert reg.sources + NewSources(reg.modules, map[]) == reg.sources;
  }

  lemma OneMoreModule(modules: map<int, int>, done: map<int, Route>, bank: int, route: Route)
    ensures modules + RouteModules(done[bank := route]) == (modules + RouteModules(done))[bank := route.moduleId]
  {
  }

  lemma OneMoreSource(modules: map<int, int>, done: map<int, Route>, bank: int, route: Route)
    requires bank !in done
    ensures NewSources(modules, done[bank := route]) ==
      if bank in modules && modules[bank] == route.moduleId then NewSources(modules, done)
      else NewSources(modules, done)[bank := route.source]
  {
  }

  lemma OneMoreRoute(reg: Registry, done: map<int, Route>, bank: int, route: Route)
    requires bank !in done
    ensures Publish(reg, done[bank := route]) == PublishOne(Publish(reg, done), bank, route)
  {
    OneMoreModule(reg.modules, done, bank, route);
    OneMoreSource(reg.modules, done, bank, route);
    var now := Publish(reg, done);
    assert bank in now.modules <==> bank in reg.modules;
    assert bank in now.modules ==> now.modules[bank] == reg.modules[bank];
    hide NewSources, RouteModules;
    var news := NewSources(reg.modules, done);
    assert reg.sources + news[bank := route.source] == (reg.sources + news)[bank := route.source];
    assert bank in now.modules && now.modules[bank] == route.moduleId ==>
      now.modules[bank := route.moduleId] == now.modules;
  }

  method ReadLayer(filename: string, file: Option<File>) returns (r: Result<map<int, Route>, RouteError>)
    ensures r == Layer(filename, file)
  {
    if file.None? {
      return Failure(Unreadable);
    }
    var lines := file.value.lines;
    var routes: map<int, Route> := map[];
    for n := 0 to |lines|
      invariant LayerUpTo(filename, lines, n) == Success(routes)
    {
      var row := ReadRow(lines[n]);
      if row.Bad? {
        LayerFailed(filename, lines, n + 1);
        return Failure(Malformed);
      }
      if row.Empty? {
        continue;
      }
      if row.bank !in routes {
        routes := routes[row.bank := Route(row.moduleId, Source(filename, n + 1))];
      } else if routes[row.bank].moduleId != row.moduleId {
        LayerFailed(filename, lines, n + 1);
        return Failure(Conflict);
      }
    }
    if !file.value.complete {
      return Failure(Unreadable);
    }
    r := Success(routes);
  }

  lemma {:induction false} LayerFailed(filename: string, lines: seq<string>, n: nat)
    requires n <= |lines| && LayerUpTo(filename, lines, n).Failure?
    ensures LayerUpTo(filename, lines, |lines|) == LayerUpTo(filename, lines, n)
    decreases |lines| - n
  {
    hide ReadRow;
    if n < |lines| { LayerFailed(filename, lines, n + 1); }
  }
}
