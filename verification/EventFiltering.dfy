// Which banks of an EVIO event count, and that no others matter: the parser
// publishes what the counting banks give, in order.
module EventFiltering {
  import opened Common
  import opened Words
  import opened BlockFraming
  import opened PhysicsEvents
  import opened FilterIndex
  import opened EventParser

  // ----- Counting banks -----

  // The ROC id is the low twelve bits of a tag, the bank id the low sixteen.
  function RocNumber(tag: Word): int {
    (tag % 4096) as int
  }

  function BankNumber(tag: Word): int {
    (tag % 65536) as int
  }

  // Some row of the allow-list names the ROC and the bank, or there are no
  // rows; and the bank is routed.
  ghost predicate Counts(rocTag: Word, dma: DmaBank, setup: Setup) {
    var rocid, bank := RocNumber(rocTag), BankNumber(dma.tag);
    && (setup.rows == {} || exists row :: row in setup.rows && row.rocid == rocid && row.bank == bank)
    && bank in setup.modules && setup.modules[bank] != -1
  }

  ghost function CountingOf(rocTag: Word, dmas: seq<DmaBank>, setup: Setup): seq<DmaBank> {
    if dmas == [] then []
    else
      CountingOf(rocTag, dmas[..|dmas| - 1], setup) +
      if Counts(rocTag, dmas[|dmas| - 1], setup) then [dmas[|dmas| - 1]] else []
  }

  // A bank together with the ROC that delivered it.
  datatype Delivered = Delivered(rocid: Word, dma: DmaBank)

  function FromRoc(rocid: Word, dmas: seq<DmaBank>): seq<Delivered> {
    Map((dma: DmaBank) => Delivered(rocid, dma), dmas)
  }

  // The counting banks of all ROCs, in order.
  ghost function CountingBanks(banks: seq<RocBank>, setup: Setup): seq<Delivered> {
    if banks == [] then []
    else
      var last := banks[|banks| - 1];
      CountingBanks(banks[..|banks| - 1], setup) +
      FromRoc(last.tag % 4096, CountingOf(last.tag, last.dmas, setup))
  }

  // What the registered parser makes of a bank.
  function Parsed(d: Delivered, first: nat, setup: Setup): Outcome<seq<Summary>> {
    var bank := BankNumber(d.dma.tag);
    if bank !in setup.modules || setup.modules[bank] !in setup.parsers then Rejected
    else BankOutput(setup.parsers[setup.modules[bank]], d.dma.words, d.rocid, first)
  }

  // The outputs in order, up to the first bank that fails.
  function InTurn(banks: seq<Delivered>, first: nat, setup: Setup): Outcome<seq<Summary>> {
    if banks == [] then Decoded([])
    else
      var before, last := InTurn(banks[..|banks| - 1], first, setup), Parsed(banks[|banks| - 1], first, setup);
      if !before.Decoded? then before
      else if !last.Decoded? then last
      else Decoded(before.value + last.value)
  }

  // ----- The parser looks at no other bank -----

  lemma TagBits(tag: Word)
    ensures tag & 0x0FFF == tag % 4096 && tag & 0xFFFF == tag % 65536
  {
  }

  lemma TagNumbers(tag: Word)
    ensures tag & 0x0FFF == tag % 4096 && (tag & 0x0FFF) as int == RocNumber(tag)
  {
    TagBits(tag);
  }

  lemma BankIdNumber(dma: DmaBank)
    ensures BankId(dma) == BankNumber(dma.tag)
  {
    var low := dma.tag & 0xFFFF;
    TagBits(dma.tag);
    assert BankId(dma) == low as int;
  }

  lemma RocIdNumber(bank: RocBank)
    ensures RocId(bank) == bank.tag & 0x0FFF == bank.tag % 4096 && RocId(bank) as int == RocNumber(bank.tag)
  {
    TagBits(bank.tag);
  }

  lemma CountsIff(rocTag: Word, dma: DmaBank, setup: Setup)
    ensures var bank := BankNumber(dma.tag);
      Counts(rocTag, dma, setup) <==>
      BankAllowed(setup.rows, RocNumber(rocTag), bank) && bank in setup.modules && setup.modules[bank] != -1
  {
    hide RocNumber, BankNumber;
  }

  lemma OutputByNumbers(dma: DmaBank, rocid: Word, first: nat, setup: Setup, roc: int, bank: int)
    requires rocid as int == roc && BankId(dma) == bank == BankNumber(dma.tag)
    ensures DmaOutput(dma, rocid, first, setup) ==
      if BankAllowed(setup.rows, roc, bank) && bank in setup.modules && setup.modules[bank] != -1 then
        Parsed(Delivered(rocid, dma), first, setup)
      else Decoded([])
  {
    hide BankNumber, BankId, BankOutput, BankAllowed;
  }

  lemma BankOrNothing(rocTag: Word, dma: DmaBank, first: nat, setup: Setup)
    ensures DmaOutput(dma, rocTag & 0x0FFF, first, setup) ==
      if Counts(rocTag, dma, setup) then Parsed(Delivered(rocTag % 4096, dma), first, setup) else Decoded([])
  {
    hide *;
    TagNumbers(rocTag);
    BankIdNumber(dma);
    CountsIff(rocTag, dma, setup);
    OutputByNumbers(dma, rocTag & 0x0FFF, first, setup, RocNumber(rocTag), BankNumber(dma.tag));
  }

  lemma InTurnNext(banks: seq<Delivered>, last: Delivered, first: nat, setup: Setup)
    ensures InTurn(banks + [last], first, setup) ==
      Joined(InTurn(banks, first, setup), Parsed(last, first, setup))
  {
    hide Parsed;
    assert (banks + [last])[..|banks|] == banks;
  }

  lemma JoinedInOrder(a: Outcome<seq<Summary>>, b: Outcome<seq<Summary>>, c: Outcome<seq<Summary>>)
    ensures Joined(Joined(a, b), c) == Joined(a, Joined(b, c))
    ensures Joined(a, Decoded([])) == a
  {
    if a.Decoded? {
      assert a.value + [] == a.value;
      if b.Decoded? && c.Decoded? {
        assert a.value + b.value + c.value == a.value + (b.value + c.value);
      }
    }
  }

  lemma CountingNext(rocTag: Word, dmas: seq<DmaBank>, dma: DmaBank, setup: Setup)
    ensures CountingOf(rocTag, dmas + [dma], setup) ==
      CountingOf(rocTag, dmas, setup) + if Counts(rocTag, dma, setup) then [dma] else []
  {
    hide Counts;
    assert (dmas + [dma])[..|dmas|] == dmas;
  }

  // The first n banks of a ROC, after the counting banks before them.
  lemma {:induction false} DmasInTurn(before: seq<Delivered>, rocTag: Word, dmas: seq<DmaBank>, n: nat, first: nat,
                                      setup: Setup)
    requires n <= |dmas|
    ensures Joined(InTurn(before, first, setup), DmasOutput(dmas, n, rocTag & 0x0FFF, first, setup)) ==
      InTurn(before + FromRoc(rocTag % 4096, CountingOf(rocTag, dmas[..n], setup)), first, setup)
  {
    hide Counts, DmaOutput, Parsed, InTurn, Joined;
    var done := FromRoc(rocTag % 4096, CountingOf(rocTag, dmas[..n], setup));
    if n == 0 {
      assert before + done == before;
      JoinedInOrder(InTurn(before, first, setup), Decoded([]), Decoded([]));
    } else {
      var dma := dmas[n - 1];
      DmasInTurn(before, rocTag, dmas, n - 1, first, setup);
      assert dmas[..n] == dmas[..n - 1] + [dma];
      CountingNext(rocTag, dmas[..n - 1], dma, setup);
      BankOrNothing(rocTag, dma, first, setup);
      JoinedInOrder(InTurn(before, first, setup), DmasOutput(dmas, n - 1, rocTag & 0x0FFF, first, setup),
        DmaOutput(dma, rocTag & 0x0FFF, first, setup));
      OneMoreDelivered(before, rocTag, dmas[..n - 1], dma, first, setup);
    }
  }

  lemma OneMoreDelivered(before: seq<Delivered>, rocTag: Word, dmas: seq<DmaBank>, dma: DmaBank, first: nat,
                         setup: Setup)
    ensures InTurn(before + FromRoc(rocTag % 4096, CountingOf(rocTag, dmas + [dma], setup)), first, setup) ==
      Joined(InTurn(before + FromRoc(rocTag % 4096, CountingOf(rocTag, dmas, setup)), first, setup),
        if Counts(rocTag, dma, setup) then Parsed(Delivered(rocTag % 4096, dma), first, setup) else Decoded([]))
  {
    hide Counts, Parsed, InTurn, Joined, CountingOf;
    CountingNext(rocTag, dmas, dma, setup);
    var done := before + FromRoc(rocTag % 4096, CountingOf(rocTag, dmas, setup));
    if Counts(rocTag, dma, setup) {
      InTurnNext(done, Delivered(rocTag % 4096, dma), first, setup);
      assert before + FromRoc(rocTag % 4096, CountingOf(rocTag, dmas + [dma], setup)) ==
        done + [Delivered(rocTag % 4096, dma)];
    } else {
      JoinedInOrder(InTurn(done, first, setup), Decoded([]), Decoded([]));
      assert CountingOf(rocTag, dmas, setup) + [] == CountingOf(rocTag, dmas, setup);
    }
  }

  // A ROC that no row names has no counting bank.
  lemma {:induction false} NothingFromRoc(rocTag: Word, dmas: seq<DmaBank>, setup: Setup)
    requires !RocAllowed(setup.rows, RocNumber(rocTag))
    ensures CountingOf(rocTag, dmas, setup) == []
  {
    hide RocNumber, BankNumber;
    if dmas != [] {
      NothingFromRoc(rocTag, dmas[..|dmas| - 1], setup);
    }
  }

  lemma RocInTurn(before: seq<Delivered>, bank: RocBank, segment: Segment, first: nat, setup: Setup)
    requires segment.tag == bank.tag % 4096
    ensures Joined(InTurn(before, first, setup), RocOutput(bank, segment, first, setup)) ==
      InTurn(before + FromRoc(bank.tag % 4096, CountingOf(bank.tag, bank.dmas, setup)), first, setup)
  {
    hide DmasOutput, InTurn, Joined, CountingOf, RocAllowed, RocNumber, RocId;
    RocIdNumber(bank);
    if RocAllowed(setup.rows, RocId(bank) as int) {
      DmasInTurn(before, bank.tag, bank.dmas, |bank.dmas|, first, setup);
      assert bank.dmas[..|bank.dmas|] == bank.dmas;
    } else {
      NothingFromRoc(bank.tag, bank.dmas, setup);
      JoinedInOrder(InTurn(before, first, setup), Decoded([]), Decoded([]));
      assert before + [] == before;
    }
  }

  // Every ROC bank has the tag of its segment.
  ghost predicate TagsMatch(banks: seq<RocBank>, segments: seq<Segment>) {
    && |banks| == |segments|
    && forall i :: 0 <= i < |banks| ==> segments[i].tag == banks[i].tag % 4096
  }

  lemma {:induction false} RocsInTurn(banks: seq<RocBank>, segments: seq<Segment>, n: nat, first: nat, setup: Setup)
    requires TagsMatch(banks, segments) && n <= |banks|
    ensures RocsOutput(banks, segments, n, first, setup) == InTurn(CountingBanks(banks[..n], setup), first, setup)
  {
    hide RocOutput, InTurn, Joined, CountingOf, FromRoc;
    if n == 0 {
      NothingInTurn(first, setup);
    } else {
      RocsInTurn(banks, segments, n - 1, first, setup);
      assert banks[..n][..n - 1] == banks[..n - 1];
      RocInTurn(CountingBanks(banks[..n - 1], setup), banks[n - 1], segments[n - 1], first, setup);
    }
  }

  lemma NothingInTurn(first: nat, setup: Setup)
    ensures InTurn([], first, setup) == Decoded([])
  {
  }

  // The trigger bank gives the first number and a segment for each ROC bank,
  // with its tag.
  ghost predicate WellTagged(event: EvioEvent, first: nat, segments: seq<Segment>) {
    && event.trigger.Some? && ReadTrigger(event.trigger.value) == Decoded((first, segments))
    && TagsMatch(event.banks, segments)
  }

  // What is published is what the counting banks give, in order.
  lemma PublishedInTurn(event: EvioEvent, first: nat, segments: seq<Segment>, setup: Setup)
    requires WellTagged(event, first, segments)
    ensures Published(event, setup) == InTurn(CountingBanks(event.banks, setup), first, setup)
  {
    hide ReadTrigger, RocsOutput, CountingBanks, InTurn;
    RocsInTurn(event.banks, segments, |event.banks|, first, setup);
    assert event.banks[..|event.banks|] == event.banks;
  }

  // ----- Removing what does not count -----

  // The ROCs that some row names, with their counting banks only.
  ghost function Kept(banks: seq<RocBank>, setup: Setup): seq<RocBank> {
    if banks == [] then []
    else
      var last := banks[|banks| - 1];
      Kept(banks[..|banks| - 1], setup) +
      if setup.rows == {} || exists row :: row in setup.rows && row.rocid == RocNumber(last.tag) then
        [last.(dmas := CountingOf(last.tag, last.dmas, setup))]
      else []
  }

  lemma {:induction false} CountingTwice(rocTag: Word, dmas: seq<DmaBank>, setup: Setup)
    ensures CountingOf(rocTag, CountingOf(rocTag, dmas, setup), setup) == CountingOf(rocTag, dmas, setup)
  {
    hide Counts;
    if dmas != [] {
      var front, last := dmas[..|dmas| - 1], dmas[|dmas| - 1];
      CountingTwice(rocTag, front, setup);
      if Counts(rocTag, last, setup) {
        CountingNext(rocTag, CountingOf(rocTag, front, setup), last, setup);
      } else {
        assert CountingOf(rocTag, front, setup) + [] == CountingOf(rocTag, front, setup);
      }
    }
  }

  lemma CountingBanksNext(banks: seq<RocBank>, last: RocBank, setup: Setup)
    ensures CountingBanks(banks + [last], setup) ==
      CountingBanks(banks, setup) + FromRoc(last.tag % 4096, CountingOf(last.tag, last.dmas, setup))
  {
    hide CountingOf;
    assert (banks + [last])[..|banks|] == banks;
  }

  lemma KeptCountsNext(banks: seq<RocBank>, last: RocBank, setup: Setup)
    requires CountingBanks(Kept(banks, setup), setup) == CountingBanks(banks, setup)
    ensures CountingBanks(Kept(banks + [last], setup), setup) == CountingBanks(banks + [last], setup)
  {
    hide CountingOf, CountingBanks, RocNumber;
    assert (banks + [last])[..|banks|] == banks;
    CountingBanksNext(banks, last, setup);
    CountingTwice(last.tag, last.dmas, setup);
    if RocAllowed(setup.rows, RocNumber(last.tag)) {
      CountingBanksNext(Kept(banks, setup), last.(dmas := CountingOf(last.tag, last.dmas, setup)), setup);
    } else {
      NothingFromRoc(last.tag, last.dmas, setup);
      assert Kept(banks, setup) + [] == Kept(banks, setup);
      assert CountingBanks(banks, setup) + [] == CountingBanks(banks, setup);
    }
  }

  lemma {:induction false} KeptCounts(banks: seq<RocBank>, setup: Setup)
    ensures CountingBanks(Kept(banks, setup), setup) == CountingBanks(banks, setup)
  {
    if banks != [] {
      KeptCounts(banks[..|banks| - 1], setup);
      hide CountingBanks, Kept;
      KeptCountsNext(banks[..|banks| - 1], banks[|banks| - 1], setup);
      assert banks[..|banks| - 1] + [banks[|banks| - 1]] == banks;
    }
  }

  // Removing every bank that no row names or that is not routed, and every
  // ROC that no row names, changes nothing of what is published.
  lemma OthersInvisible(event: EvioEvent, first: nat, segments: seq<Segment>, stripped: EvioEvent,
                        fewer: seq<Segment>, setup: Setup)
    requires WellTagged(event, first, segments) && WellTagged(stripped, first, fewer)
    requires stripped.banks == Kept(event.banks, setup)
    ensures Published(stripped, setup) == Published(event, setup)
  {
    hide WellTagged, Published, InTurn, CountingBanks, Kept;
    PublishedInTurn(event, first, segments, setup);
    PublishedInTurn(stripped, first, fewer, setup);
    KeptCounts(event.banks, setup);
  }

  // ----- When an event is accepted -----

  lemma {:induction false} InTurnAccepted(banks: seq<Delivered>, first: nat, setup: Setup)
    ensures InTurn(banks, first, setup).Decoded? <==>
      forall i :: 0 <= i < |banks| ==> Parsed(banks[i], first, setup).Decoded?
  {
    hide Parsed;
    if banks != [] {
      InTurnAccepted(banks[..|banks| - 1], first, setup);
    }
  }

  lemma {:induction false} TagsNeeded(banks: seq<RocBank>, segments: seq<Segment>, n: nat, first: nat, setup: Setup)
    requires n <= |banks| == |segments| && RocsOutput(banks, segments, n, first, setup).Decoded?
    ensures forall i :: 0 <= i < n ==> segments[i].tag == banks[i].tag % 4096
  {
    hide DmasOutput, RocAllowed;
    if n > 0 {
      TagsNeeded(banks, segments, n - 1, first, setup);
      TagBits(banks[n - 1].tag);
    }
  }

  // An event is accepted exactly when its trigger bank is, each ROC bank has
  // the tag of its segment, and for every counting bank a parser is registered
  // that accepts its words.
  lemma AcceptedIff(event: EvioEvent, setup: Setup)
    ensures Published(event, setup).Decoded? <==>
      && event.trigger.Some? && ReadTrigger(event.trigger.value).Decoded?
      && var (first, segments) := ReadTrigger(event.trigger.value).value;
      && TagsMatch(event.banks, segments)
      && forall i :: 0 <= i < |CountingBanks(event.banks, setup)| ==>
        Parsed(CountingBanks(event.banks, setup)[i], first, setup).Decoded?
  {
    hide ReadTrigger, RocsOutput, CountingBanks, InTurn, Parsed;
    if event.trigger.Some? && ReadTrigger(event.trigger.value).Decoded? {
      var (first, segments) := ReadTrigger(event.trigger.value).value;
      if TagsMatch(event.banks, segments) {
        PublishedInTurn(event, first, segments, setup);
        InTurnAccepted(CountingBanks(event.banks, setup), first, setup);
      } else if |event.banks| == |segments| && Published(event, setup).Decoded? {
        TagsNeeded(event.banks, segments, |event.banks|, first, setup);
      }
    }
  }
}
