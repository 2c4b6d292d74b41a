// EvioEventParser: the trigger bank, the filtering and routing of the banks
// to their parsers, and the consolidation of what they publish.
module EventParser {
  import opened Common
  import opened Words
  import opened EventMaps
  import opened BlockFraming
  import opened PhysicsEvents
  import Fadc
  import Mpd
  import Vftdc
  import Helicity
  import opened Consolidation
  import opened FilterIndex
  import opened BankRoutes

  // ----- An EVIO event -----

  datatype Segment = Segment(tag: Word, isUInt32: bool, ulongs: seq<nat>)

  datatype TriggerBank = TriggerBank(rocCount: nat, segments: seq<Segment>)

  datatype DmaBank = DmaBank(tag: Word, words: seq<Word>)

  datatype RocBank = RocBank(tag: Word, dmas: seq<DmaBank>)

  // No trigger bank when the event has no children.
  datatype EvioEvent = EvioEvent(trigger: Option<TriggerBank>, banks: seq<RocBank>)

  datatype ParserKind = FadcParser | MpdParser | VftdcParser | HelicityParser

  // The allow-list rows, the bank routes and the registered parsers.
  datatype Setup = Setup(rows: set<FilterRow>, modules: map<int, int>, parsers: map<int, ParserKind>)

  function RocId(bank: RocBank): Word {
    bank.tag & 0x0FFF
  }

  function BankId(dma: DmaBank): int {
    (dma.tag & 0xFFFF) as int
  }

  // ----- The trigger bank -----

  function RocSegments(segments: seq<Segment>): seq<Segment> {
    if segments == [] then []
    else
      RocSegments(segments[..|segments| - 1]) +
      if segments[|segments| - 1].isUInt32 then [segments[|segments| - 1]] else []
  }

  // The first event number and the ROC segments.
  function ReadTrigger(trigger: TriggerBank): Outcome<(nat, seq<Segment>)> {
    if trigger.segments == [] then Rejected
    else if trigger.segments[0].ulongs == [] then Undefined
    else
      var rocs := RocSegments(trigger.segments);
      if trigger.rocCount != |rocs| then Rejected else Decoded((trigger.segments[0].ulongs[0], rocs))
  }

  // ----- What each bank contributes -----

  function BankOutput(kind: ParserKind, words: seq<Word>, rocid: Word, first: nat): Outcome<seq<Summary>> {
    match kind
    case FadcParser =>
      (match Fadc.Decode(words, Fadc.InitialState(rocid), Counter64(first))
       case Decoded(st) => Decoded(Fadc.FadcPublication(st.events))
       case Rejected => Rejected
       case Undefined => Undefined)
    case MpdParser =>
      (match Mpd.Decode(words, rocid, first)
       case Decoded(st) => Decoded(Mpd.MpdPublication(st.events))
       case Rejected => Rejected
       case Undefined => Undefined)
    case VftdcParser =>
      (match Vftdc.Decode(words, rocid, first)
       case Decoded(st) => Decoded(Vftdc.VftdcPublication(st.events))
       case Rejected => Rejected
       case Undefined => Undefined)
    case HelicityParser =>
      (match Helicity.Decode(words, Helicity.InitialState(rocid))
       case Decoded(st) => Decoded(Helicity.HelicityPublication(st.delay.emitted, first))
       case Rejected => Rejected
       case Undefined => Undefined)
  }

  // Nothing when the filter or the routes leave the bank out.
  ghost function DmaOutput(dma: DmaBank, rocid: Word, first: nat, setup: Setup): Outcome<seq<Summary>> {
    if !BankAllowed(setup.rows, rocid as int, BankId(dma)) then Decoded([])
    else
      var moduleId := if BankId(dma) in setup.modules then setup.modules[BankId(dma)] else -1;
      if moduleId == -1 then Decoded([])
      else if moduleId !in setup.parsers then Rejected
      else BankOutput(setup.parsers[moduleId], dma.words, rocid, first)
  }

  function Joined(left: Outcome<seq<Summary>>, right: Outcome<seq<Summary>>): Outcome<seq<Summary>> {
    if !left.Decoded? then left
    else if !right.Decoded? then right
    else Decoded(left.value + right.value)
  }

  // The outputs of the first n banks in order, up to the first that fails.
  ghost function DmasOutput(dmas: seq<DmaBank>, n: nat, rocid: Word, first: nat, setup: Setup): Outcome<seq<Summary>>
    requires n <= |dmas|
  {
    if n == 0 then Decoded([])
    else Joined(DmasOutput(dmas, n - 1, rocid, first, setup), DmaOutput(dmas[n - 1], rocid, first, setup))
  }

  ghost function RocOutput(bank: RocBank, segment: Segment, first: nat, setup: Setup): Outcome<seq<Summary>> {
    if segment.tag != RocId(bank) then Rejected
    else if !RocAllowed(setup.rows, RocId(bank) as int) then Decoded([])
    else DmasOutput(bank.dmas, |bank.dmas|, RocId(bank), first, setup)
  }

  ghost function RocsOutput(banks: seq<RocBank>, segments: seq<Segment>, n: nat, first: nat, setup: Setup)
    : Outcome<seq<Summary>>
    requires n <= |banks| && n <= |segments|
  {
    if n == 0 then Decoded([])
    else
      Joined(RocsOutput(banks, segments, n - 1, first, setup), RocOutput(banks[n - 1], segments[n - 1], first, setup))
  }

  // Everything the parsers publish for an event, in order.
  ghost function Published(event: EvioEvent, setup: Setup): Outcome<seq<Summary>> {
    if event.trigger.None? then Rejected
    else
      match ReadTrigger(event.trigger.value)
      case Rejected => Rejected
      case Undefined => Undefined
      case Decoded(read) =>
        if |event.banks| != |read.1| then Rejected
        else RocsOutput(event.banks, read.1, |event.banks|, read.0, setup)
  }

  // ----- The parser itself -----

  // The list grows by events with the given state.
  ghost predicate Extends(after: seq<PhysicsEvent>, before: seq<PhysicsEvent>, out: seq<Summary>)
    reads after
  {
    && |after| >= |before| && after[..|before|] == before
    && Summaries(after[|before|..]) == out && NoRepeats(after[|before|..])
  }

  // A method ended as expected: failed in the same way, or with a list that
  // is extended by the expected events.
  ghost predicate Outputs(r: Outcome<seq<PhysicsEvent>>, before: seq<PhysicsEvent>, output: Outcome<seq<Summary>>)
    reads if r.Decoded? then r.value else []
  {
    match output
    case Rejected => r.Rejected?
    case Undefined => r.Undefined?
    case Decoded(out) => r.Decoded? && Extends(r.value, before, out)
  }

  // The parser of one bank.
  method ParseBank(kind: ParserKind, words: seq<Word>, rocid: Word, first: nat, events: seq<PhysicsEvent>)
    returns (r: Outcome<seq<PhysicsEvent>>)
    ensures Outputs(r, events, BankOutput(kind, words, rocid, first))
    ensures r.Decoded? ==> forall i :: |events| <= i < |r.value| ==> fresh(r.value[i])
  {
    hide Fadc.Decode, Mpd.Decode, Vftdc.Decode, Helicity.Decode, Publication, InOrder;
    hide Fadc.FadcPublication, Mpd.MpdPublication, Vftdc.VftdcPublication, Helicity.HelicityPublication;
    match kind {
      case FadcParser => r := Fadc.Parse(words, rocid, first, events);
      case MpdParser => r := Mpd.Parse(words, rocid, first, events);
      case VftdcParser => r := Vftdc.Parse(words, rocid, first, events);
      case HelicityParser => r := Helicity.Parse(words, rocid, first, events);
    }
  }

  // Two extensions in a row, the second by new objects.
  lemma ExtendsTwice(third: seq<PhysicsEvent>, second: seq<PhysicsEvent>, first: seq<PhysicsEvent>,
                     out: seq<Summary>, more: seq<Summary>)
    requires Extends(second, first, out) && Extends(third, second, more)
    requires forall i, j :: 0 <= i < |second| <= j < |third| ==> third[i] != third[j]
    ensures Extends(third, first, out + more)
  {
    var n, m := |first|, |second|;
    assert third[..n] == third[..m][..n];
    assert third[n..] == second[n..] + third[m..];
    assert Summaries(third[n..]) == Summaries(second[n..]) + Summaries(third[m..]);
    forall i, j | 0 <= i < j < |third[n..]| ensures third[n..][i] != third[n..][j] {
      if j < m - n {
        assert second[n..][i] != second[n..][j];
      } else if i >= m - n {
        assert third[m..][i - (m - n)] != third[m..][j - (m - n)];
      } else {
        assert third[n + i] != third[n + j];
      }
    }
  }

  lemma ExtendsPrefix(after: seq<PhysicsEvent>, before: seq<PhysicsEvent>, out: seq<Summary>)
    requires Extends(after, before, out)
    ensures |after| >= |before| && forall i :: 0 <= i < |before| ==> after[i] == before[i]
  {
    assert forall i :: 0 <= i < |before| ==> after[i] == after[..|before|][i];
  }

  lemma ExtendsNothing(events: seq<PhysicsEvent>)
    ensures Extends(events, events, [])
  {
    assert events[|events|..] == [];
  }

  function SetupOf(filter: FilterDB, routes: BankToModuleMap, parsers: map<int, ParserKind>): Setup
    reads filter`rows, routes`bankToModule
  {
    Setup(filter.rows, routes.bankToModule, parsers)
  }

  // The body of the loop over the DMA banks of a ROC.
  method ParseDma(dma: DmaBank, rocid: Word, first: nat, filter: FilterDB, routes: BankToModuleMap,
                  parsers: map<int, ParserKind>, events: seq<PhysicsEvent>)
    returns (r: Outcome<seq<PhysicsEvent>>)
    requires filter.Valid()
    modifies routes`frozen
    ensures Outputs(r, events, DmaOutput(dma, rocid, first, SetupOf(filter, routes, parsers)))
    ensures r.Decoded? ==> forall i :: |events| <= i < |r.value| ==> fresh(r.value[i])
  {
    hide BankOutput, BankAllowed;
    ExtendsNothing(events);
    var allowed := filter.IsBankAllowed(rocid as int, BankId(dma));
    if !allowed {
      return Decoded(events);
    }
    var moduleId := routes.GetModuleId(BankId(dma));
    if moduleId == -1 {
      return Decoded(events);
    }
    if moduleId !in parsers {
      return Rejected;
    }
    r := ParseBank(parsers[moduleId], dma.words, rocid, first, events);
  }

  method ParseDmas(dmas: seq<DmaBank>, rocid: Word, first: nat, filter: FilterDB, routes: BankToModuleMap,
                   parsers: map<int, ParserKind>, events: seq<PhysicsEvent>)
    returns (r: Outcome<seq<PhysicsEvent>>)
    requires filter.Valid()
    modifies routes`frozen
    ensures Outputs(r, events, DmasOutput(dmas, |dmas|, rocid, first, SetupOf(filter, routes, parsers)))
    ensures r.Decoded? ==> forall i :: |events| <= i < |r.value| ==> fresh(r.value[i])
  {
    hide DmaOutput, Extends;
    ghost var setup := SetupOf(filter, routes, parsers);
    var all := events;
    ExtendsNothing(events);
    for n := 0 to |dmas|
      invariant setup == SetupOf(filter, routes, parsers) && filter.Valid()
      invariant |all| >= |events| && forall i :: |events| <= i < |all| ==> fresh(all[i])
      invariant Outputs(Decoded(all), events, DmasOutput(dmas, n, rocid, first, setup))
    {
      var more := ParseDma(dmas[n], rocid, first, filter, routes, parsers, all);
      if !more.Decoded? {
        DmasFailed(dmas, n + 1, rocid, first, setup);
        return more;
      }
      ExtendsPrefix(more.value, all, DmaOutput(dmas[n], rocid, first, setup).value);
      ExtendsTwice(more.value, all, events, DmasOutput(dmas, n, rocid, first, setup).value,
        DmaOutput(dmas[n], rocid, first, setup).value);
      all := more.value;
    }
    r := Decoded(all);
  }

  lemma {:induction false} DmasFailed(dmas: seq<DmaBank>, n: nat, rocid: Word, first: nat, setup: Setup)
    requires n <= |dmas| && !DmasOutput(dmas, n, rocid, first, setup).Decoded?
    ensures DmasOutput(dmas, |dmas|, rocid, first, setup) == DmasOutput(dmas, n, rocid, first, setup)
    decreases |dmas| - n
  {
    hide DmaOutput;
    if n < |dmas| { DmasFailed(dmas, n + 1, rocid, first, setup); }
  }

  method ParseRocBanks(banks: seq<RocBank>, segments: seq<Segment>, first: nat, filter: FilterDB,
                       routes: BankToModuleMap, parsers: map<int, ParserKind>)
    returns (r: Outcome<seq<PhysicsEvent>>)
    requires filter.Valid()
    modifies routes`frozen
    ensures |banks| != |segments| ==> r.Rejected?
    ensures |banks| == |segments| ==>
      Outputs(r, [], RocsOutput(banks, segments, |banks|, first, SetupOf(filter, routes, parsers)))
    ensures r.Decoded? ==> forall e :: e in r.value ==> fresh(e)
  {
    hide RocOutput, Extends;
    if |banks| != |segments| {
      return Rejected;
    }
    ghost var setup := SetupOf(filter, routes, parsers);
    var all: seq<PhysicsEvent> := [];
    ExtendsNothing(all);
    for n := 0 to |banks|
      invariant setup == SetupOf(filter, routes, parsers) && filter.Valid()
      invariant forall i :: 0 <= i < |all| ==> fresh(all[i])
      invariant Outputs(Decoded(all), [], RocsOutput(banks, segments, n, first, setup))
    {
      var more := ParseRoc(banks[n], segments[n], first, filter, routes, parsers, all);
      if !more.Decoded? {
        RocsFailed(banks, segments, n + 1, first, setup);
        return more;
      }
      ExtendsPrefix(more.value, all, RocOutput(banks[n], segments[n], first, setup).value);
      ExtendsTwice(more.value, all, [], RocsOutput(banks, segments, n, first, setup).value,
        RocOutput(banks[n], segments[n], first, setup).value);
      all := more.value;
    }
    r := Decoded(all);
  }

  // The body of the loop over the ROC banks.
  method ParseRoc(bank: RocBank, segment: Segment, first: nat, filter: FilterDB, routes: BankToModuleMap,
                  parsers: map<int, ParserKind>, events: seq<PhysicsEvent>)
    returns (r: Outcome<seq<PhysicsEvent>>)
    requires filter.Valid()
    modifies routes`frozen
    ensures Outputs(r, events, RocOutput(bank, segment, first, SetupOf(filter, routes, parsers)))
    ensures r.Decoded? ==> forall i :: |events| <= i < |r.value| ==> fresh(r.value[i])
  {
    hide DmasOutput, RocAllowed;
    ExtendsNothing(events);
    var rocid := RocId(bank);
    if segment.tag != rocid {
      return Rejected;
    }
    var allowed := filter.IsRocAllowed(rocid as int);
    if !allowed {
      return Decoded(events);
    }
    r := ParseDmas(bank.dmas, rocid, first, filter, routes, parsers, events);
  }

  lemma {:induction false} RocsFailed(banks: seq<RocBank>, segments: seq<Segment>, n: nat, first: nat, setup: Setup)
    requires n <= |banks| && |banks| == |segments| && !RocsOutput(banks, segments, n, first, setup).Decoded?
    ensures RocsOutput(banks, segments, |banks|, first, setup) == RocsOutput(banks, segments, n, first, setup)
    decreases |banks| - n
  {
    hide RocOutput;
    if n < |banks| { RocsFailed(banks, segments, n + 1, first, setup); }
  }

  method ParseTriggerBank(trigger: TriggerBank) returns (r: Outcome<(nat, seq<Segment>)>)
    ensures r == ReadTrigger(trigger)
  {
    var segments := trigger.segments;
    if segments == [] {
      return Rejected;
    }
    if segments[0].ulongs == [] {
      return Undefined;
    }
    var first := segments[0].ulongs[0];
    var rocs: seq<Segment> := [];
    for n := 0 to |segments|
      invariant rocs == RocSegments(segments[..n])
    {
      assert segments[..n + 1][..n] == segments[..n];
      if segments[n].isUInt32 {
        rocs := rocs + [segments[n]];
      }
    }
    assert segments[..|segments|] == segments;
    if trigger.rocCount != |rocs| {
      return Rejected;
    }
    r := Decoded((first, rocs));
  }

  // EvioEventParser::parse: the consolidation of everything that the parsers
  // publish. An event for which nothing is published is rejected.
  method Parse(event: EvioEvent, filter: FilterDB, routes: BankToModuleMap, parsers: map<int, ParserKind>)
    returns (r: Outcome<seq<PhysicsEvent>>)
    requires filter.Valid()
    modifies routes`frozen
    ensures match Published(event, SetupOf(filter, routes, parsers))
      case Rejected => r.Rejected?
      case Undefined => r.Undefined?
      case Decoded(out) =>
        if out == [] then r.Rejected? else r.Decoded? && Summaries(r.value) == Consolidated(out) && NoRepeats(r.value)
  {
    hide RocsOutput, Consolidated, ReadTrigger;
    if event.trigger.None? {
      return Rejected;
    }
    var read := ParseTriggerBank(event.trigger.value);
    if read.Rejected? {
      return Rejected;
    }
    if read.Undefined? {
      return Undefined;
    }
    var events := ParseRocBanks(event.banks, read.value.1, read.value.0, filter, routes, parsers);
    if !events.Decoded? {
      return events;
    }
    assert events.value[0..] == events.value;
    var published := events.value;
    if published == [] {
      return Rejected;
    }
    assert forall e :: e in published ==> fresh(e);
    var kept, deleted := Consolidate(published);
    r := Decoded(kept);
  }
}
