// One EVIO event from end to end: encoded readouts of any kinds, distributed
// over banks and ROCs among banks that do not count, come out as one event per
// number that holds the containers of all banks.
module EventRoundTrip {
  import opened Common
  import opened Words
  import opened EventMaps
  import opened BlockFraming
  import opened HitTypes
  import opened PhysicsEvents
  import FadcRoundTrip
  import MpdRoundTrip
  import VftdcRoundTrip
  import HelicityRoundTrip
  import opened Consolidation
  import opened ConsolidationLaws
  import opened EventParser
  import opened EventParserLaws
  import opened EventFiltering

  // What a bank was encoded from. A helicity readout is a single block: more
  // of them are numbered wrongly.
  datatype Readout =
    | OfFadc(fadc: seq<FadcRoundTrip.Block>)
    | OfMpd(mpd: seq<MpdRoundTrip.Block>)
    | OfVftdc(vftdc: seq<VftdcRoundTrip.Block>)
    | OfHelicity(helicity: HelicityRoundTrip.Block)

  ghost predicate ReadoutFits(r: Readout) {
    match r
    case OfFadc(blocks) => forall i :: 0 <= i < |blocks| ==> FadcRoundTrip.BlockFits(blocks[i])
    case OfMpd(blocks) => forall i :: 0 <= i < |blocks| ==> MpdRoundTrip.BlockFits(blocks[i])
    case OfVftdc(blocks) => forall i :: 0 <= i < |blocks| ==> VftdcRoundTrip.BlockFits(blocks[i])
    case OfHelicity(block) => HelicityRoundTrip.BlockFits(block) && block.events != []
  }

  function KindOf(r: Readout): ParserKind {
    match r
    case OfFadc(_) => FadcParser
    case OfMpd(_) => MpdParser
    case OfVftdc(_) => VftdcParser
    case OfHelicity(_) => HelicityParser
  }

  ghost function Encoded(r: Readout): seq<Word>
    requires ReadoutFits(r)
  {
    match r
    case OfFadc(blocks) => FadcRoundTrip.EncodeBlocks(blocks)
    case OfMpd(blocks) => MpdRoundTrip.EncodeBlocks(blocks)
    case OfVftdc(blocks) => VftdcRoundTrip.EncodeBlocks(blocks)
    case OfHelicity(block) => HelicityRoundTrip.EncodeBlock(block)
  }

  // How many event numbers the readout covers.
  function EventCount(r: Readout, rocid: Word, first: nat): nat {
    match r
    case OfFadc(blocks) => Longest(FadcRoundTrip.Content(blocks, rocid))
    case OfMpd(blocks) => Longest(MpdRoundTrip.Content(blocks, rocid, first))
    case OfVftdc(blocks) => Longest(VftdcRoundTrip.Content(blocks, rocid))
    case OfHelicity(block) => |block.events|
  }

  // What it holds of the event first + k.
  function ContainerOf(r: Readout, rocid: Word, first: nat, k: nat): EventHits
    requires k < EventCount(r, rocid, first)
  {
    match r
    case OfFadc(blocks) => FadcEvent(KindLists(Collected(FadcRoundTrip.Content(blocks, rocid), k)))
    case OfMpd(blocks) => MpdEvent(Collected(MpdRoundTrip.Content(blocks, rocid, first), k))
    case OfVftdc(blocks) => VftdcEvent(Collected(VftdcRoundTrip.Content(blocks, rocid), k))
    case OfHelicity(block) =>
      var started := HelicityRoundTrip.BlockOrigin(block, Origin(0, 0, 0, rocid, 0, 0));
      HelicityEvent(HelicityRoundTrip.EventsRecords(block.events, started)[k])
  }

  // ----- Containers by event -----

  // The containers of the events first, first + 1, ... in bank order.
  type Table = seq<seq<EventHits>>

  function Row(table: Table, k: nat): seq<EventHits> {
    if k < |table| then table[k] else []
  }

  function TableOf(r: Readout, rocid: Word, first: nat): (table: Table)
    ensures |table| == EventCount(r, rocid, first)
    ensures forall k :: 0 <= k < |table| ==> table[k] == [ContainerOf(r, rocid, first, k)]
  {
    seq(EventCount(r, rocid, first), k requires 0 <= k < EventCount(r, rocid, first) =>
      [ContainerOf(r, rocid, first, k)])
  }

  // The containers of one bank after those of the banks before it.
  function Beside(left: Table, right: Table): (table: Table)
    ensures |table| == if |left| > |right| then |left| else |right|
    ensures forall k :: 0 <= k < |table| ==> table[k] == Row(left, k) + Row(right, k)
  {
    seq(if |left| > |right| then |left| else |right|, k requires 0 <= k => Row(left, k) + Row(right, k))
  }

  // The containers of the first n banks, in bank order.
  function OfReadouts(banks: seq<Delivered>, readouts: seq<Readout>, n: nat, first: nat): Table
    requires n <= |banks| && |banks| == |readouts|
  {
    if n == 0 then []
    else
      Beside(OfReadouts(banks, readouts, n - 1, first), TableOf(readouts[n - 1], banks[n - 1].rocid, first))
  }

  // The published events hold exactly these containers.
  ghost predicate Holds(out: seq<Summary>, first: nat, table: Table) {
    && (forall k: nat :: HitsOf(out, first + k) == Row(table, k))
    && (forall i :: 0 <= i < |out| ==> first <= out[i].number < first + |table|)
    && (forall k :: 0 <= k < |table| ==> table[k] != [])
  }

  // ----- One bank -----

  ghost predicate ComesOut(out: seq<Summary>, first: nat, table: Table) {
    && |out| == |table|
    && forall k :: 0 <= k < |out| ==> out[k] == Summary(first + k, table[k]) && table[k] != []
  }

  lemma ReadoutComesOut(r: Readout, rocid: Word, first: nat)
    requires ReadoutFits(r) && first + EventCount(r, rocid, first) <= 0x8000_0000
    ensures var output := BankOutput(KindOf(r), Encoded(r), rocid, first);
      output.Decoded? && ComesOut(output.value, first, TableOf(r, rocid, first))
  {
    hide BankOutput, Longest, Collected, KindLists, FadcRoundTrip.Content, MpdRoundTrip.Content, VftdcRoundTrip.Content;
    hide FadcRoundTrip.BlockFits, MpdRoundTrip.BlockFits, VftdcRoundTrip.BlockFits, HelicityRoundTrip.BlockFits;
    hide HelicityRoundTrip.EventsRecords, HelicityRoundTrip.BlockOrigin, HelicityRoundTrip.EncodeBlock;
    hide FadcRoundTrip.EncodeBlocks, MpdRoundTrip.EncodeBlocks, VftdcRoundTrip.EncodeBlocks;
    match r {
      case OfFadc(blocks) => FadcBankRoundTrip(blocks, rocid, first);
      case OfMpd(blocks) => MpdBankRoundTrip(blocks, rocid, first);
      case OfVftdc(blocks) => VftdcBankRoundTrip(blocks, rocid, first);
      case OfHelicity(block) => HelicityBankRoundTrip(block, rocid, first);
    }
  }

  // The containers of one number among the first n events of one bank.
  lemma {:induction false} HitsOfPrefix(out: seq<Summary>, first: nat, table: Table, n: nat, k: nat)
    requires ComesOut(out, first, table) && n <= |out|
    ensures HitsOf(out[..n], first + k) == if k < n then table[k] else []
  {
    if n > 0 {
      HitsOfPrefix(out, first, table, n - 1, k);
      assert out[..n][..n - 1] == out[..n - 1];
    }
  }

  lemma HoldsWhatComesOut(out: seq<Summary>, first: nat, table: Table)
    requires ComesOut(out, first, table)
    ensures Holds(out, first, table)
  {
    hide HitsOf;
    forall k: nat ensures HitsOf(out, first + k) == Row(table, k) {
      HitsOfPrefix(out, first, table, |out|, k);
      assert out[..|out|] == out;
    }
  }

  // The bank holds the encoded readout, and the parser that it is routed to
  // is the one for it.
  ghost predicate Carries(d: Delivered, r: Readout, first: nat, setup: Setup) {
    var bank := BankNumber(d.dma.tag);
    && ReadoutFits(r) && d.dma.words == Encoded(r) && first + EventCount(r, d.rocid, first) <= 0x8000_0000
    && bank in setup.modules && setup.modules[bank] in setup.parsers
    && setup.parsers[setup.modules[bank]] == KindOf(r)
  }

  lemma BankHolds(d: Delivered, r: Readout, first: nat, setup: Setup)
    requires Carries(d, r, first, setup)
    ensures var output := Parsed(d, first, setup);
      output.Decoded? && Holds(output.value, first, TableOf(r, d.rocid, first))
  {
    ReadoutComesOut(r, d.rocid, first);
    hide BankOutput, EventCount, ContainerOf, Encoded, ReadoutFits, HitsOf, KindOf, BankNumber;
    hide ComesOut, Holds, TableOf;
    HoldsWhatComesOut(Parsed(d, first, setup).value, first, TableOf(r, d.rocid, first));
  }

  // ----- All counting banks -----

  lemma HoldsBoth(left: seq<Summary>, right: seq<Summary>, first: nat, a: Table, b: Table)
    requires Holds(left, first, a) && Holds(right, first, b)
    ensures Holds(left + right, first, Beside(a, b))
  {
    hide HitsOf, Beside;
    forall k: nat ensures HitsOf(left + right, first + k) == Row(Beside(a, b), k) {
      HitsOfBanks(left, right, first + k);
      BesideRow(a, b, k);
    }
    forall k | 0 <= k < |Beside(a, b)| ensures Beside(a, b)[k] != [] {
      BesideRow(a, b, k);
    }
  }

  lemma BesideRow(a: Table, b: Table, k: nat)
    ensures Row(Beside(a, b), k) == Row(a, k) + Row(b, k)
  {
  }

  lemma NothingHeld(first: nat)
    ensures Holds([], first, [])
  {
  }

  ghost predicate CarriesAll(banks: seq<Delivered>, readouts: seq<Readout>, first: nat, setup: Setup) {
    && |banks| == |readouts|
    && forall i :: 0 <= i < |banks| ==> Carries(banks[i], readouts[i], first, setup)
  }

  lemma {:induction false} BanksHold(banks: seq<Delivered>, readouts: seq<Readout>, n: nat, first: nat, setup: Setup)
    requires CarriesAll(banks, readouts, first, setup) && n <= |banks|
    ensures var output := InTurn(banks[..n], first, setup);
      output.Decoded? && Holds(output.value, first, OfReadouts(banks, readouts, n, first))
  {
    hide Carries, Parsed, Holds, Beside, TableOf;
    if n == 0 {
      NothingHeld(first);
    } else {
      BanksHold(banks, readouts, n - 1, first, setup);
      BankHolds(banks[n - 1], readouts[n - 1], first, setup);
      assert banks[..n][..n - 1] == banks[..n - 1];
      HoldsBoth(InTurn(banks[..n - 1], first, setup).value, Parsed(banks[n - 1], first, setup).value,
        first, OfReadouts(banks, readouts, n - 1, first), TableOf(readouts[n - 1], banks[n - 1].rocid, first));
    }
  }

  // ----- The whole event -----

  // Encoded readouts of any kinds in the banks that count, with any words in
  // the banks that do not: the parser publishes, and its consolidation holds
  // one event for every number from the first on, as many as the longest
  // readout has, each with the containers of the counting banks in bank order.
  lemma EventComesOut(event: EvioEvent, first: nat, segments: seq<Segment>, readouts: seq<Readout>, setup: Setup)
    requires WellTagged(event, first, segments)
    requires CarriesAll(CountingBanks(event.banks, setup), readouts, first, setup)
    ensures Published(event, setup).Decoded?
    ensures var kept := Consolidated(Published(event, setup).value);
      var table := OfReadouts(CountingBanks(event.banks, setup), readouts, |readouts|, first);
      |kept| == |table| && forall k :: 0 <= k < |kept| ==> kept[k] == Summary(first + k, table[k])
  {
    var banks := CountingBanks(event.banks, setup);
    PublishedInTurn(event, first, segments, setup);
    BanksHold(banks, readouts, |readouts|, first, setup);
    assert banks[..|readouts|] == banks;
    hide Published, CountingBanks, InTurn, OfReadouts, Carries, Consolidated, Holds, WellTagged;
    HeldAfterConsolidation(Published(event, setup).value, first, OfReadouts(banks, readouts, |readouts|, first));
  }

  lemma HeldAfterConsolidation(out: seq<Summary>, first: nat, table: Table)
    requires Holds(out, first, table)
    ensures var kept := Consolidated(out);
      |kept| == |table| && forall k :: 0 <= k < |kept| ==> kept[k] == Summary(first + k, table[k])
  {
    hide HitsOf, InOrder;
    forall n ensures n in NumbersOf(out) <==> first <= n < first + |table| {
      if first <= n < first + |table| {
        assert HitsOf(out, first + (n - first)) == Row(table, n - first) == table[n - first];
        SomeNumber(out, n);
      }
    }
    OrderOfRange(NumbersOf(out), first, |table|);
    forall k | 0 <= k < |table| ensures Consolidated(out)[k] == Summary(first + k, table[k]) {
      assert HitsOf(out, first + k) == Row(table, k);
    }
  }

  lemma {:induction false} SomeNumber(out: seq<Summary>, n: int)
    requires HitsOf(out, n) != []
    ensures n in NumbersOf(out)
  {
    var last := out[|out| - 1];
    if last.number != n {
      SomeNumber(out[..|out| - 1], n);
    }
  }
}
