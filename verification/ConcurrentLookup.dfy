// Concurrent getTable calls as atomic steps. A thread tests the loaded flag,
// may enter call_once, reads the shared cache, searches, and writes the cache;
// steps of different threads interleave freely. Relaxed atomics are covered by
// letting a cache read return any value ever stored, and a flag test miss a
// flag that is already set.
module ConcurrentLookup {
  import opened Common
  import opened ConfigurationText
  import opened TranslationTables

  type Thread = nat

  datatype Once = NotRun | Running(t: Thread) | Done

  // Where a thread is in getTable. The states from Loading to Announced are
  // inside call_once.
  datatype Position =
    | Idle
    | Requested(run: UInt64)
    | AtOnce(run: UInt64)
    | Loading(run: UInt64)
    | Assigning(run: UInt64, list: seq<RunRangeTable>)
    | Assigned(run: UInt64)
    | Reset(run: UInt64)
    | Announced(run: UInt64)
    | Ready(run: UInt64)
    | Missed(run: UInt64)
    | Found(run: UInt64, index: nat)
    | Returned(run: UInt64, result: Option<TranslationTable>)
    | Threw(run: UInt64)
  {
    predicate InsideOnce() {
      Loading? || Assigning? || Assigned? || Reset? || Announced?
    }

    // Past the load: this thread may touch the tables.
    predicate PastLoad() {
      Ready? || Missed? || Found? || Returned?
    }

    predicate AfterAssignment() {
      Assigned? || Reset? || Announced?
    }
  }

  // `published` records every list ever assigned to m_run_tables and
  // `stores` every value ever stored in the cache. `fault` is raised when the
  // tables are touched while they are being assigned, or through a pointer
  // that is not an entry of the list.
  datatype State = State(
    positions: map<Thread, Position>,
    once: Once,
    loaded: bool,
    tables: seq<RunRangeTable>,
    published: seq<seq<RunRangeTable>>,
    stores: set<Option<nat>>,
    fault: bool)
  {
    function At(t: Thread): Position {
      if t in positions then positions[t] else Idle
    }

    function Move(t: Thread, p: Position): State {
      this.(positions := positions[t := p])
    }

    ghost predicate BeingAssigned() {
      exists t :: At(t).Assigning?
    }
  }

  const INITIAL := State(map[], NotRun, false, [], [], {None}, false)

  datatype Step =
    | Request(t: Thread, run: UInt64)
    | SeeLoaded(t: Thread)
    | SeeNotLoaded(t: Thread)
    | EnterOnce(t: Thread)
    | PassOnce(t: Thread)
    | LoadThrows(t: Thread)
    | LoadBuilds(t: Thread, list: seq<RunRangeTable>)
    | Assign(t: Thread)
    | ResetCache(t: Thread)
    | KeepCache(t: Thread)
    | Announce(t: Thread)
    | LeaveOnce(t: Thread)
    | ReadCache(t: Thread, value: Option<nat>)
    | Search(t: Thread)
    | StoreCache(t: Thread)

  ghost predicate WellBuilt(list: seq<RunRangeTable>) {
    && (forall i :: 0 <= i < |list| ==> list[i].runMin <= list[i].runMax)
    && (forall i, j :: 0 <= i < j < |list| ==> list[i].runMax < list[j].runMin)
  }

  // The sequential, uncached answer: the table of the first entry that covers
  // the run.
  function Uncached(list: seq<RunRangeTable>, run: UInt64): Option<TranslationTable> {
    if list == [] then None
    else if Within(list[0], run) then Some(list[0].table)
    else Uncached(list[1..], run)
  }

  function IndexOf(list: seq<RunRangeTable>, run: UInt64): (index: Option<nat>)
    ensures index.Some? ==> index.value < |list| && Within(list[index.value], run)
    ensures Uncached(list, run) == if index.None? then None else Some(list[index.value].table)
  {
    if list == [] then None
    else if Within(list[0], run) then Some(0)
    else
      match IndexOf(list[1..], run)
      case None => None
      case Some(i) => Some(i + 1)
  }

  // A step that is not enabled has no successor.
  ghost function Next(s: State, step: Step): Option<State> {
    var t, p := step.t, s.At(step.t);
    match step
    case Request(_, run) =>
      if p.Idle? || p.Returned? || p.Threw? then Some(s.Move(t, Requested(run))) else None
    case SeeLoaded(_) =>
      if p.Requested? && s.loaded then Some(s.Move(t, Ready(p.run))) else None
    case SeeNotLoaded(_) =>
      if p.Requested? then Some(s.Move(t, AtOnce(p.run))) else None
    case EnterOnce(_) =>
      if p.AtOnce? && s.once.NotRun? then Some(s.Move(t, Loading(p.run)).(once := Running(t))) else None
    case PassOnce(_) =>
      if p.AtOnce? && s.once.Done? then Some(s.Move(t, Ready(p.run))) else None
    case LoadThrows(_) =>
      if p.Loading? then Some(s.Move(t, Threw(p.run)).(once := NotRun)) else None
    case LoadBuilds(_, list) =>
      if p.Loading? && WellBuilt(list) then Some(s.Move(t, Assigning(p.run, list))) else None
    case Assign(_) =>
      if p.Assigning? then
        Some(s.Move(t, Assigned(p.run)).(tables := p.list, published := s.published + [p.list]))
      else None
    case ResetCache(_) =>
      if p.Assigned? then Some(s.Move(t, Reset(p.run)).(stores := s.stores + {None})) else None
    case KeepCache(_) =>
      if p.Assigned? then Some(s.Move(t, Reset(p.run))) else None
    case Announce(_) =>
      if p.Reset? then Some(s.Move(t, Announced(p.run)).(loaded := true)) else None
    case LeaveOnce(_) =>
      if p.Announced? then Some(s.Move(t, Ready(p.run)).(once := Done)) else None
    case ReadCache(_, value) =>
      if !p.Ready? || value !in s.stores then None
      else if value.None? then Some(s.Move(t, Missed(p.run)))
      else if s.BeingAssigned() || value.value >= |s.tables| then Some(s.(fault := true))
      else if Within(s.tables[value.value], p.run) then
        Some(s.Move(t, Returned(p.run, Some(s.tables[value.value].table))))
      else Some(s.Move(t, Missed(p.run)))
    case Search(_) =>
      if !p.Missed? then None
      else if s.BeingAssigned() then Some(s.(fault := true))
      else
        (match IndexOf(s.tables, p.run)
         case None => Some(s.Move(t, Returned(p.run, None)))
         case Some(i) => Some(s.Move(t, Found(p.run, i))))
    case StoreCache(_) =>
      if !p.Found? then None
      else if s.BeingAssigned() || p.index >= |s.tables| then Some(s.(fault := true))
      else
        Some(s.Move(t, Returned(p.run, Some(s.tables[p.index].table))).(stores := s.stores + {Some(p.index)}))
  }

  // ----- The invariant -----

  // Exactly the thread that call_once is running is inside it.
  ghost predicate OneInside(s: State) {
    forall t :: s.At(t).InsideOnce() <==> s.once == Running(t)
  }

  // A list has been published exactly when the load has got that far.
  ghost predicate PublishedOnce(s: State) {
    && |s.published| <= 1
    && (s.published != [] <==> s.once.Done? || (s.once.Running? && s.At(s.once.t).AfterAssignment()))
    && (s.published != [] ==> s.tables == s.published[0] && WellBuilt(s.tables))
    && (s.published == [] ==> s.tables == [] && s.stores == {None})
    && (s.loaded ==> s.published != [])
    && (s.loaded ==> s.once.Done? || (s.once.Running? && s.At(s.once.t).Announced?))
  }

  ghost predicate StoresValid(s: State) {
    forall v :: v in s.stores ==> v.None? || v.value < |s.tables|
  }

  ghost predicate PositionValid(s: State, p: Position) {
    && (p.PastLoad() ==> s.published != [])
    && (p.Assigning? ==> WellBuilt(p.list))
    && (p.Found? ==> p.index < |s.tables| && Uncached(s.tables, p.run) == Some(s.tables[p.index].table))
    && (p.Returned? ==> p.result == Uncached(s.tables, p.run))
  }

  ghost predicate Invariant(s: State) {
    && OneInside(s)
    && PublishedOnce(s)
    && StoresValid(s)
    && (forall t :: PositionValid(s, s.At(t)))
    && !s.fault
  }

  lemma InitialInvariant()
    ensures Invariant(INITIAL)
  {
  }

  // Entries are disjoint, so any entry that covers the run is the answer.
  lemma {:induction false} AnyCoveringEntryAnswers(list: seq<RunRangeTable>, run: UInt64, i: nat)
    requires WellBuilt(list) && i < |list| && Within(list[i], run)
    ensures Uncached(list, run) == Some(list[i].table)
  {
    if i > 0 {
      assert list[0].runMax < list[i].runMin;
      AnyCoveringEntryAnswers(list[1..], run, i - 1);
    }
  }

  // Nothing is being assigned while a published list exists.
  lemma NobodyAssigns(s: State)
    requires OneInside(s) && PublishedOnce(s) && s.published != []
    ensures !s.BeingAssigned()
  {
    forall t ensures !s.At(t).Assigning? {
      assert s.At(t).InsideOnce() <==> s.once == Running(t);
    }
  }

  lemma StepKeepsOneInside(s: State, step: Step)
    requires OneInside(s) && Next(s, step).Some?
    ensures OneInside(Next(s, step).value)
  {
    hide IndexOf, Uncached, WellBuilt;
    var next := Next(s, step).value;
    assert s.At(step.t).InsideOnce() <==> s.once == Running(step.t);
    forall u ensures next.At(u).InsideOnce() <==> next.once == Running(u) {
      assert s.At(u).InsideOnce() <==> s.once == Running(u);
    }
  }

  lemma StepKeepsPublishedOnce(s: State, step: Step)
    requires Invariant(s) && Next(s, step).Some?
    ensures PublishedOnce(Next(s, step).value) && StoresValid(Next(s, step).value)
  {
    hide IndexOf, Uncached, WellBuilt;
    assert PositionValid(s, s.At(step.t));
    assert s.At(step.t).InsideOnce() <==> s.once == Running(step.t);
  }

  // The thread that moves is where it claims to be, and no fault is raised.
  lemma StepIsSafe(s: State, step: Step)
    requires Invariant(s) && Next(s, step).Some?
    ensures PositionValid(Next(s, step).value, Next(s, step).value.At(step.t)) && !Next(s, step).value.fault
  {
    var t, p := step.t, s.At(step.t);
    assert PositionValid(s, p);
    assert p.InsideOnce() <==> s.once == Running(t);
    if s.published != [] { NobodyAssigns(s); }
    if step.ReadCache? && step.value.Some? && Within(s.tables[step.value.value], p.run) {
      AnyCoveringEntryAnswers(s.tables, p.run, step.value.value);
    }
  }

  // The list can only be replaced while no thread is past the load.
  lemma StepKeepsTables(s: State, step: Step)
    requires OneInside(s) && PublishedOnce(s) && Next(s, step).Some? && s.published != []
    ensures Next(s, step).value.tables == s.tables && Next(s, step).value.published == s.published
  {
    hide IndexOf, Uncached, WellBuilt;
    assert s.At(step.t).InsideOnce() <==> s.once == Running(step.t);
  }

  lemma StepKeepsInvariant(s: State, step: Step)
    requires Invariant(s) && Next(s, step).Some?
    ensures Invariant(Next(s, step).value)
  {
    var next := Next(s, step).value;
    StepKeepsOneInside(s, step);
    StepKeepsPublishedOnce(s, step);
    StepIsSafe(s, step);
    if s.published != [] { StepKeepsTables(s, step); }
    forall u | u != step.t ensures next.At(u) == s.At(u) {
      hide *;
      StepMovesOne(s, step, u);
    }
    hide Next, IndexOf, Uncached, WellBuilt, OneInside, PublishedOnce, StoresValid;
    forall u ensures PositionValid(next, next.At(u)) {
      assert PositionValid(s, s.At(u));
    }
  }

  lemma StepMovesOne(s: State, step: Step, u: Thread)
    requires Next(s, step).Some? && u != step.t
    ensures Next(s, step).value.At(u) == s.At(u)
  {
    hide IndexOf, Uncached, WellBuilt;
  }

  // ----- Whole runs -----

  ghost function Run(s: State, steps: seq<Step>): Option<State>
    decreases |steps|
  {
    if steps == [] then Some(s)
    else
      match Next(s, steps[0])
      case None => None
      case Some(next) => Run(next, steps[1..])
  }

  lemma {:induction false} RunKeepsInvariant(s: State, steps: seq<Step>)
    requires Invariant(s) && Run(s, steps).Some?
    ensures Invariant(Run(s, steps).value)
    decreases |steps|
  {
    hide Next, Invariant;
    if steps != [] {
      StepKeepsInvariant(s, steps[0]);
      RunKeepsInvariant(Next(s, steps[0]).value, steps[1..]);
    }
  }

  // Once a list is published it is the list for ever, whatever happens next.
  lemma {:induction false} PublishedListIsFinal(s: State, steps: seq<Step>)
    requires Invariant(s) && s.published != [] && Run(s, steps).Some?
    ensures Run(s, steps).value.tables == s.tables && Run(s, steps).value.published == s.published
    decreases |steps|
  {
    if steps != [] {
      StepKeepsTables(s, steps[0]);
      StepKeepsInvariant(s, steps[0]);
      hide Next, Invariant;
      PublishedListIsFinal(Next(s, steps[0]).value, steps[1..]);
    }
  }

  // Under every interleaving, no thread ever touches the tables while they are
  // assigned or follows a pointer outside the list; at most one list is ever
  // published; and every value returned by any thread is the sequential,
  // uncached answer on that list.
  lemma EveryInterleavingIsSequential(steps: seq<Step>, t: Thread)
    requires Run(INITIAL, steps).Some?
    ensures var s := Run(INITIAL, steps).value;
      && !s.fault
      && |s.published| <= 1
      && (forall v :: v in s.stores && v.Some? ==> s.published != [] && v.value < |s.published[0]|)
      && (s.At(t).Returned? ==> s.published != [] && s.At(t).result == Uncached(s.published[0], s.At(t).run))
      && (s.At(t).PastLoad() ==> s.published != [] && !s.BeingAssigned())
  {
    InitialInvariant();
    RunKeepsInvariant(INITIAL, steps);
    var s := Run(INITIAL, steps).value;
    hide Run, IndexOf, WellBuilt, Uncached;
    assert PositionValid(s, s.At(t));
    if s.published != [] { NobodyAssigns(s); }
  }

  // A list that is assigned or published is one that some load built.
  ghost predicate FromLoads(s: State, lists: set<seq<RunRangeTable>>) {
    && (forall list :: list in s.published ==> list in lists)
    && forall t: Thread :: s.At(t).Assigning? ==> s.At(t).list in lists
  }

  lemma StepFromLoads(s: State, step: Step, lists: set<seq<RunRangeTable>>)
    requires FromLoads(s, lists) && Next(s, step).Some? && (step.LoadBuilds? ==> step.list in lists)
    ensures FromLoads(Next(s, step).value, lists)
  {
    var next := Next(s, step).value;
    hide IndexOf, Uncached, WellBuilt;
    forall t: Thread | next.At(t).Assigning? ensures next.At(t).list in lists {
      if t != step.t { StepMovesOne(s, step, t); }
    }
  }

  lemma {:induction false} RunFromLoads(s: State, steps: seq<Step>, lists: set<seq<RunRangeTable>>)
    requires FromLoads(s, lists) && Run(s, steps).Some?
    requires forall step :: step in steps && step.LoadBuilds? ==> step.list in lists
    ensures FromLoads(Run(s, steps).value, lists)
    decreases |steps|
  {
    hide Next, FromLoads;
    if steps != [] {
      StepFromLoads(s, steps[0], lists);
      RunFromLoads(Next(s, steps[0]).value, steps[1..], lists);
    }
  }

  lemma PublishedWasBuilt(steps: seq<Step>) returns (step: Step)
    requires Run(INITIAL, steps).Some? && Run(INITIAL, steps).value.published != []
    ensures step in steps && step.LoadBuilds? && step.list == Run(INITIAL, steps).value.published[0]
  {
    var lists := set i | 0 <= i < |steps| && steps[i].LoadBuilds? :: steps[i].list;
    forall step | step in steps && step.LoadBuilds? ensures step.list in lists {
      var i :| 0 <= i < |steps| && steps[i] == step;
    }
    RunFromLoads(INITIAL, steps, lists);
    hide Run;
    assert Run(INITIAL, steps).value.published[0] in Run(INITIAL, steps).value.published;
    var i :| 0 <= i < |steps| && steps[i].LoadBuilds? && steps[i].list == Run(INITIAL, steps).value.published[0];
    step := steps[i];
  }

  // A load that throws publishes nothing, and the next thread waiting at
  // call_once can run the load again.
  lemma FailedLoadCanBeRetried(s: State, t: Thread, u: Thread)
    requires Invariant(s) && s.At(t).Loading? && s.At(u).AtOnce?
    ensures Next(s, LoadThrows(t)).Some?
    ensures var after := Next(s, LoadThrows(t)).value;
      && after.published == s.published == [] && after.tables == s.tables && after.stores == s.stores
      && !after.loaded && Next(after, EnterOnce(u)).Some?
  {
    assert s.At(t).InsideOnce() <==> s.once == Running(t);
  }

  // A lookup that finds no entry leaves the cache alone.
  lemma FailedLookupLeavesCache(s: State, t: Thread)
    requires Invariant(s) && s.At(t).Missed? && Uncached(s.tables, s.At(t).run) == None
    ensures Next(s, Search(t)).Some?
    ensures Next(s, Search(t)).value == s.Move(t, Returned(s.At(t).run, None))
  {
    assert PositionValid(s, s.At(t));
    NobodyAssigns(s);
  }
}
