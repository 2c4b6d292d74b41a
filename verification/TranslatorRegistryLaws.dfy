// The registry and its dump over every sequence of registrations, including
// those that fail, and of the operations that freeze it.
module TranslatorRegistryLaws {
  import opened Common
  import opened PathEncoding
  import opened Translators

  datatype Operation = Register(request: Request) | FreezeRoutes | DumpOutputs | TranslateEvents

  function Apply(op: Operation, reg: Registry, names: Demangler): (Registry, Option<RegistryError>) {
    match op
    case Register(request) => Add(reg, request, names)
    case FreezeRoutes => (reg.(frozen := true), None)
    case DumpOutputs => (reg.(frozen := true), None)
    case TranslateEvents => (reg.(frozen := true), None)
  }

  function After(ops: seq<Operation>, n: nat, names: Demangler): Registry
    requires n <= |ops|
  {
    if n == 0 then EMPTY_REGISTRY else Apply(ops[n - 1], After(ops, n - 1, names), names).0
  }

  // ----- Routes and outputs -----

  // The output describes the route: its names give the path.
  ghost predicate Describes(output: Output, reg: Registry, names: Demangler) {
    && HasRoute(reg, output.key.raw, output.key.detector)
    && Routes(reg, output.key.raw)[output.key.detector].digi == output.key.digi
    && IsByteString(output.key.detector)
    && names(output.key.raw).Some?
    && output.header != ""
    && Path(output) == GeneratedPath(output.key.detector, names(output.key.raw).value)
  }

  predicate IsByteString(s: string) {
    forall i :: 0 <= i < |s| ==> s[i] as int < 256
  }

  ghost predicate IsOutputOf(output: Output, raw: TypeId, detector: string) {
    output.key.raw == raw && output.key.detector == detector
  }

  // Exactly one output per route, and exactly one route per output.
  ghost predicate Bijective(reg: Registry, names: Demangler) {
    && (forall i :: 0 <= i < |reg.outputs| ==> Describes(reg.outputs[i], reg, names))
    && (forall i, j :: 0 <= i < j < |reg.outputs| ==> Path(reg.outputs[i]) != Path(reg.outputs[j]))
    && (forall path :: path in reg.paths <==> exists i :: 0 <= i < |reg.outputs| && Path(reg.outputs[i]) == path)
    && (forall raw, detector :: HasRoute(reg, raw, detector) ==>
      exists i :: 0 <= i < |reg.outputs| && IsOutputOf(reg.outputs[i], raw, detector))
  }

  // Two outputs of one route would have one path.
  lemma OutputUnique(reg: Registry, names: Demangler, i: nat, j: nat)
    requires Bijective(reg, names) && i < |reg.outputs| && j < |reg.outputs|
    requires reg.outputs[i].key.raw == reg.outputs[j].key.raw
    requires reg.outputs[i].key.detector == reg.outputs[j].key.detector
    ensures i == j
  {
    assert Describes(reg.outputs[i], reg, names) && Describes(reg.outputs[j], reg, names);
    assert Path(reg.outputs[i]) == Path(reg.outputs[j]);
  }

  // What a successful registration does.
  ghost predicate Registered(reg: Registry, next: Registry, request: Request, names: Demangler) {
    && |next.outputs| == |reg.outputs| + 1 && next.outputs[..|reg.outputs|] == reg.outputs
    && DescribesRequest(next.outputs[|reg.outputs|], request, names)
    && Path(next.outputs[|reg.outputs|]) !in reg.paths
    && next.paths == reg.paths + {Path(next.outputs[|reg.outputs|])}
    && !HasRoute(reg, request.raw, request.detector)
    && request.translator.Some?
    && Routes(next, request.raw) == Routes(reg, request.raw)[request.detector :=
      Route(request.digi, request.translator.value)]
    && forall raw :: raw != request.raw ==> Routes(next, raw) == Routes(reg, raw)
  }

  ghost predicate DescribesRequest(output: Output, request: Request, names: Demangler) {
    && output.key == RouteKey(request.raw, request.digi, request.detector)
    && output.header == request.header && request.writeRow == Some(output.writeRow)
    && names(request.raw).Some? && output.header != ""
    && Path(output) == GeneratedPath(request.detector, names(request.raw).value)
  }

  // A registration that succeeds adds one route and one output for it; one
  // that fails adds neither.
  lemma AddChanges(reg: Registry, request: Request, names: Demangler)
    ensures var (next, error) := Add(reg, request, names);
      if error.Some? then
        && next.outputs == reg.outputs && next.paths == reg.paths
        && forall raw :: Routes(next, raw) == Routes(reg, raw)
      else Registered(reg, next, request, names)
  {
    hide Encoded, GeneratedFilename;
  }

  lemma RegisteredPaths(reg: Registry, next: Registry, request: Request, names: Demangler)
    requires Bijective(reg, names) && Registered(reg, next, request, names)
    ensures forall i, j :: 0 <= i < j < |next.outputs| ==> Path(next.outputs[i]) != Path(next.outputs[j])
    ensures forall path :: path in next.paths <==>
      exists i :: 0 <= i < |next.outputs| && Path(next.outputs[i]) == path
  {
    hide Path, Describes, DescribesRequest, Routes, HasRoute;
    var n := |reg.outputs|;
    assert forall i :: 0 <= i < n ==> next.outputs[i] == reg.outputs[i];
    forall i | 0 <= i < n ensures Path(next.outputs[i]) != Path(next.outputs[n]) {
      assert Path(reg.outputs[i]) in reg.paths;
    }
    forall path ensures path in next.paths <==>
      exists i :: 0 <= i < |next.outputs| && Path(next.outputs[i]) == path
    {
      if path in reg.paths {
        var i :| 0 <= i < n && Path(reg.outputs[i]) == path;
        assert Path(next.outputs[i]) == path;
      }
      if path == Path(next.outputs[n]) {
        assert Path(next.outputs[n]) == path;
      }
    }
  }

  lemma RegisteredRoutes(reg: Registry, next: Registry, request: Request, names: Demangler)
    requires Bijective(reg, names) && Registered(reg, next, request, names)
    ensures forall i :: 0 <= i < |next.outputs| ==> Describes(next.outputs[i], next, names)
    ensures forall raw, detector :: HasRoute(next, raw, detector) ==>
      exists i :: 0 <= i < |next.outputs| && IsOutputOf(next.outputs[i], raw, detector)
  {
    hide GeneratedPath, Path, Routes;
    var n := |reg.outputs|;
    assert forall i :: 0 <= i < n ==> next.outputs[i] == reg.outputs[i];
    forall i | 0 <= i <= n ensures Describes(next.outputs[i], next, names) {
      if i < n {
        assert Describes(reg.outputs[i], reg, names);
      }
    }
    forall raw, detector | HasRoute(next, raw, detector)
      ensures exists i :: 0 <= i < |next.outputs| && IsOutputOf(next.outputs[i], raw, detector)
    {
      if raw == request.raw && detector == request.detector {
        assert IsOutputOf(next.outputs[n], raw, detector);
      } else {
        assert HasRoute(reg, raw, detector);
        var i :| 0 <= i < n && IsOutputOf(reg.outputs[i], raw, detector);
        assert IsOutputOf(next.outputs[i], raw, detector);
      }
    }
  }

  lemma AddKeepsBijection(reg: Registry, request: Request, names: Demangler)
    requires Bijective(reg, names)
    ensures Bijective(Add(reg, request, names).0, names)
  {
    AddChanges(reg, request, names);
    var (next, error) := Add(reg, request, names);
    hide Add, GeneratedPath, Path;
    var n := |reg.outputs|;
    if error.Some? {
      forall i | 0 <= i < n ensures Describes(next.outputs[i], next, names) {
        assert Describes(reg.outputs[i], reg, names);
      }
      forall raw, detector | HasRoute(next, raw, detector)
        ensures exists i :: 0 <= i < |next.outputs| && IsOutputOf(next.outputs[i], raw, detector)
      {
        assert HasRoute(reg, raw, detector);
      }
    } else {
      RegisteredPaths(reg, next, request, names);
      RegisteredRoutes(reg, next, request, names);
      hide Describes, Registered, HasRoute;
    }
  }

  // After every sequence of operations there is exactly one dump output per
  // route, and the other way round.
  lemma {:induction false} AlwaysBijective(ops: seq<Operation>, n: nat, names: Demangler)
    requires n <= |ops|
    ensures Bijective(After(ops, n, names), names)
  {
    if n > 0 {
      AlwaysBijective(ops, n - 1, names);
      var reg := After(ops, n - 1, names);
      if ops[n - 1].Register? {
        AddKeepsBijection(reg, ops[n - 1].request, names);
      } else {
        FreezeKeepsBijection(reg, names);
      }
    }
  }

  lemma FreezeKeepsBijection(reg: Registry, names: Demangler)
    requires Bijective(reg, names)
    ensures Bijective(reg.(frozen := true), names)
  {
    var next := reg.(frozen := true);
    assert forall raw :: Routes(next, raw) == Routes(reg, raw);
    forall i | 0 <= i < |next.outputs| ensures Describes(next.outputs[i], next, names) {
      assert Describes(reg.outputs[i], reg, names);
    }
    forall raw, detector | HasRoute(next, raw, detector)
      ensures exists i :: 0 <= i < |next.outputs| && IsOutputOf(next.outputs[i], raw, detector)
    {
      assert HasRoute(reg, raw, detector);
    }
  }

  // Any of the three freezing operations fixes everything for good: every
  // later registration fails and changes nothing.
  lemma {:induction false} FixedOnceFrozen(ops: seq<Operation>, i: nat, n: nat, names: Demangler)
    requires i < n <= |ops| && !ops[i].Register?
    ensures After(ops, n, names) == After(ops, i, names).(frozen := true)
    ensures forall k :: i < k < n && ops[k].Register? ==>
      Apply(ops[k], After(ops, k, names), names).1 == Some(Frozen)
    decreases n
  {
    hide WriterFor;
    if i < n - 1 {
      FixedOnceFrozen(ops, i, n - 1, names);
    }
  }

  // The checks that need nothing but the request.
  predicate Complete(request: Request, names: Demangler) {
    && request.detector != "" && request.translator.Some? && request.writeRow.Some? && request.header != ""
    && names(request.raw).Some?
  }

  lemma AddSucceeds(reg: Registry, request: Request, names: Demangler)
    ensures Add(reg, request, names).1.None? <==>
      && !reg.frozen && Complete(request, names) && !HasRoute(reg, request.raw, request.detector)
      && GeneratedPath(request.detector, names(request.raw).value) !in reg.paths
  {
    hide Encoded, GeneratedFilename;
  }

  // An output of the same detector whose raw type has the same name.
  ghost predicate SamePair(output: Output, request: Request, names: Demangler) {
    output.key.detector == request.detector && names(output.key.raw) == names(request.raw)
  }

  lemma SamePathIff(output: Output, reg: Registry, request: Request, names: Demangler)
    requires Describes(output, reg, names) && names(request.raw).Some?
    ensures Path(output) == GeneratedPath(request.detector, names(request.raw).value) <==>
      SamePair(output, request, names)
  {
    hide Path, GeneratedPath, HasRoute, Routes;
    PathsDistinct(output.key.detector, names(output.key.raw).value, request.detector, names(request.raw).value);
  }

  lemma RoutedIsPaired(reg: Registry, request: Request, names: Demangler)
    requires Bijective(reg, names) && HasRoute(reg, request.raw, request.detector)
    ensures exists i :: 0 <= i < |reg.outputs| && SamePair(reg.outputs[i], request, names)
  {
    hide Describes, Path, HasRoute;
    var i :| 0 <= i < |reg.outputs| && IsOutputOf(reg.outputs[i], request.raw, request.detector);
    assert SamePair(reg.outputs[i], request, names);
  }

  lemma PathTakenIff(reg: Registry, request: Request, names: Demangler)
    requires Bijective(reg, names) && names(request.raw).Some?
    ensures GeneratedPath(request.detector, names(request.raw).value) in reg.paths <==>
      exists i :: 0 <= i < |reg.outputs| && SamePair(reg.outputs[i], request, names)
  {
    hide Describes, Path, GeneratedPath, HasRoute, SamePair, IsOutputOf;
    forall i | 0 <= i < |reg.outputs|
      ensures Path(reg.outputs[i]) == GeneratedPath(request.detector, names(request.raw).value) <==>
        SamePair(reg.outputs[i], request, names)
    {
      SamePathIff(reg.outputs[i], reg, request, names);
    }
  }

  // Exactly when a registration succeeds.
  lemma RegistrationSucceeds(reg: Registry, request: Request, names: Demangler)
    requires Bijective(reg, names)
    ensures Add(reg, request, names).1.None? <==>
      && !reg.frozen && Complete(request, names)
      && forall i :: 0 <= i < |reg.outputs| ==> !SamePair(reg.outputs[i], request, names)
  {
    AddSucceeds(reg, request, names);
    hide Add, Bijective, GeneratedPath, SamePair, HasRoute;
    if names(request.raw).Some? {
      PathTakenIff(reg, request, names);
      if HasRoute(reg, request.raw, request.detector) {
        RoutedIsPaired(reg, request, names);
      }
    }
  }
}
