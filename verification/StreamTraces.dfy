// Decoders that follow the block framing: what is observed at each word where
// their cursor stops, and what every such trace satisfies.
module StreamTraces {
  import opened Common
  import opened Words
  import opened EventMaps
  import opened BlockFraming

  // Which words must repeat the slot of their block.
  datatype SlotCheck = AtEventHeaders | AtTrailers {
    predicate Applies(mark: Mark) {
      if AtEventHeaders? then mark.EventHeader? else mark.BlockTrailer?
    }
  }

  // What is observed at one word: what it means, its slot bits and the hits
  // read from it and the words that belong to it; and after it the frame, the
  // open event numbers and the one under which hits are filed.
  datatype Visit<+R> = Visit(
    mark: Mark, slot: Word, hits: seq<R>, frame: Frame, numbers: set<nat>, number: nat)

  function Marks<R>(visits: seq<Visit<R>>): (r: seq<Mark>)
    ensures |r| == |visits|
    ensures forall n :: 0 <= n < |visits| ==> r[n] == visits[n].mark
  {
    Map((v: Visit<R>) => v.mark, visits)
  }

  function Slots<R>(visits: seq<Visit<R>>): (r: seq<Word>)
    ensures |r| == |visits|
    ensures forall n :: 0 <= n < |visits| ==> r[n] == visits[n].slot
  {
    Map((v: Visit<R>) => v.slot, visits)
  }

  // What a decoder carries from word to word.
  datatype Carried = Carried(frame: Frame, numbers: set<nat>, number: nat, slot: Word)

  // Each visit follows from the one before it.
  ghost predicate Chained<R>(before: Carried, counter: Counter, check: SlotCheck, visits: seq<Visit<R>>)
    decreases |visits|
  {
    visits == [] || (
      && Follows(before, counter, check, visits[0])
      && Chained(CarriedOn(before, visits[0]), counter, check, visits[1..]))
  }

  ghost predicate Follows<R>(before: Carried, counter: Counter, check: SlotCheck, visit: Visit<R>) {
    && before.frame.Next(visit.mark) == Some(visit.frame)
    && (visit.mark.EventHeader? ==>
      var n := EventNumber(counter, before.frame.index);
      visit.numbers == before.numbers + {n} && visit.number == n)
    && (!visit.mark.EventHeader? ==> visit.numbers == before.numbers && visit.number == before.number)
    && (visit.hits != [] ==> visit.mark.Payload? && before.number in before.numbers)
    && (check.Applies(visit.mark) ==> visit.slot == before.slot)
  }

  function CarriedOn<R>(before: Carried, visit: Visit<R>): Carried {
    Carried(visit.frame, visit.numbers, visit.number,
      if visit.mark.BlockHeader? then visit.slot else before.slot)
  }

  function CarriedAfter<R>(before: Carried, visits: seq<Visit<R>>): Carried
    decreases |visits|
  {
    if visits == [] then before else CarriedAfter(CarriedOn(before, visits[0]), visits[1..])
  }

  function Begin(slot: Word): Carried {
    Carried(START, {}, 0, slot)
  }

  // ----- What every trace satisfies -----

  ghost predicate CountedAt<R>(visits: seq<Visit<R>>, counter: Counter, n: nat)
    requires n < |visits|
  {
    var marks := Marks(visits);
    && visits[n].frame == Frame(RemainingAfter(marks, n + 1), IndexAfter(marks, n + 1), PeakAfter(marks, n + 1))
    && visits[n].numbers == Numbers(counter, PeakAfter(marks, n + 1))
  }

  // The word repeats the slot of the block header before it.
  ghost predicate SlotAgrees<R>(visits: seq<Visit<R>>, check: SlotCheck, p: nat)
    requires p < |visits|
  {
    check.Applies(visits[p].mark) ==>
      var h := LastBound(Marks(visits), p);
      h >= 0 && visits[h].mark.BlockHeader? && visits[h].slot == visits[p].slot
  }

  // Hits are filed under the event whose header came last.
  ghost predicate FiledAt<R>(visits: seq<Visit<R>>, counter: Counter, k: nat)
    requires k < |visits|
  {
    visits[k].hits != [] ==>
      var p := LastEventHeader(Marks(visits), k);
      && visits[k].mark.Payload? && visits[k].frame.remaining >= 0
      && p >= 0 && visits[k].number == EventNumber(counter, IndexAfter(Marks(visits), p))
  }

  // After every visit: the counter of remaining events is what the last block
  // header declared minus the events seen since, the event index counts the
  // headers since the last trailer, and the open events are the contiguous
  // numbers from the first on, as many as the largest index reached. Every
  // trailer closes a complete block, slots agree where they are checked, and
  // hits go to the event whose header came last.
  ghost predicate WellFramed<R>(visits: seq<Visit<R>>, counter: Counter, check: SlotCheck) {
    && (forall n :: 0 <= n < |visits| ==> CountedAt(visits, counter, n))
    && TrailersCloseBlocks(Marks(visits))
    && (forall p :: 0 <= p < |visits| ==> SlotAgrees(visits, check, p))
    && (forall k :: 0 <= k < |visits| ==> FiledAt(visits, counter, k))
  }

  // What is carried after the first k visits, as counts of what was seen.
  ghost predicate CarriedAt<R>(visits: seq<Visit<R>>, counter: Counter, k: nat, carried: Carried)
    requires k <= |visits|
  {
    && After(Marks(visits), k) == Some(carried.frame)
    && carried.frame.index <= carried.frame.peak && carried.numbers == Numbers(counter, carried.frame.peak)
    && SlotOfBlock(visits, k, carried.slot) && NumberOfEvent(visits, counter, k, carried)
  }

  // The slot carried is that of the block that is open.
  ghost predicate SlotOfBlock<R>(visits: seq<Visit<R>>, k: nat, slot: Word)
    requires k <= |visits|
  {
    var h := LastBound(Marks(visits), k);
    h >= 0 && visits[h].mark.BlockHeader? ==> visits[h].slot == slot
  }

  // The number carried is that of the last event header; before the first
  // one no event is open.
  ghost predicate NumberOfEvent<R>(visits: seq<Visit<R>>, counter: Counter, k: nat, carried: Carried)
    requires k <= |visits|
  {
    var p := LastEventHeader(Marks(visits), k);
    if p < 0 then carried.numbers == {}
    else carried.number in carried.numbers && carried.number == EventNumber(counter, IndexAfter(Marks(visits), p))
  }

  lemma SlotStep<R>(visits: seq<Visit<R>>, counter: Counter, check: SlotCheck, k: nat, before: Carried)
    requires k < |visits| && CarriedAt(visits, counter, k, before) && Follows(before, counter, check, visits[k])
    ensures SlotAgrees(visits, check, k)
    ensures SlotOfBlock(visits, k + 1, CarriedOn(before, visits[k]).slot)
  {
    hide EventHeaders, IndexAfter, PeakAfter, After, EventNumber, Numbers, LastEventHeader;
    CountersAreCounts(Marks(visits), k);
  }

  lemma NumberStep<R>(visits: seq<Visit<R>>, counter: Counter, check: SlotCheck, k: nat, before: Carried)
    requires k < |visits| && CarriedAt(visits, counter, k, before) && Follows(before, counter, check, visits[k])
    ensures FiledAt(visits, counter, k)
    ensures NumberOfEvent(visits, counter, k + 1, CarriedOn(before, visits[k]))
  {
    hide EventHeaders, IndexAfter, PeakAfter, After, EventNumber, Numbers, RemainingAfter, LastBound;
    CountersAreCounts(Marks(visits), k);
  }

  lemma OneMoreNumber(first: Counter, peak: nat, index: nat)
    requires index <= peak
    ensures Numbers(first, peak) + {EventNumber(first, index)} ==
      Numbers(first, if index + 1 > peak then index + 1 else peak)
  {
    assert EventNumber(first, index) in Numbers(first, index + 1);
    if index == peak {
      assert Numbers(first, peak + 1) == Numbers(first, peak) + {EventNumber(first, peak)};
    }
  }

  lemma FrameStep<R>(visits: seq<Visit<R>>, counter: Counter, check: SlotCheck, k: nat, before: Carried)
    requires k < |visits| && CarriedAt(visits, counter, k, before) && Follows(before, counter, check, visits[k])
    ensures var frame := visits[k].frame;
      && After(Marks(visits), k + 1) == Some(frame)
      && frame.index <= frame.peak && visits[k].numbers == Numbers(counter, frame.peak)
  {
    hide Numbers, EventNumber, SlotOfBlock, NumberOfEvent, After, Marks;
    AfterOneMore(Marks(visits), k);
    OneMoreNumber(counter, before.frame.peak, before.frame.index);
  }

  lemma CarriedStep<R>(visits: seq<Visit<R>>, counter: Counter, check: SlotCheck, k: nat, before: Carried)
    requires k < |visits| && CarriedAt(visits, counter, k, before) && Follows(before, counter, check, visits[k])
    ensures CarriedAt(visits, counter, k + 1, CarriedOn(before, visits[k]))
    ensures CountedAt(visits, counter, k) && SlotAgrees(visits, check, k) && FiledAt(visits, counter, k)
    ensures visits[k].mark.BlockTrailer? ==> ClosesBlock(Marks(visits), k)
  {
    SlotStep(visits, counter, check, k, before);
    NumberStep(visits, counter, check, k, before);
    FrameStep(visits, counter, check, k, before);
    hide Numbers, RemainingAfter, IndexAfter, PeakAfter, EventNumber, LastBound, EventHeaders, ClosesBlock;
    hide SlotAgrees, SlotOfBlock, FiledAt, NumberOfEvent, Follows, After;
    CountersAreCounts(Marks(visits), k + 1);
    if visits[k].mark.BlockTrailer? { TrailerClosesBlock(Marks(visits), k); }
  }

  // The visits from position k on are chained: all of them are accounted for.
  lemma {:induction false} ChainedFrom<R>(visits: seq<Visit<R>>, counter: Counter, check: SlotCheck, k: nat,
                                          before: Carried)
    requires k <= |visits| && CarriedAt(visits, counter, k, before)
    requires Chained(before, counter, check, visits[k..])
    ensures forall n :: k <= n < |visits| ==> CountedAt(visits, counter, n)
    ensures forall p :: k <= p < |visits| && visits[p].mark.BlockTrailer? ==> ClosesBlock(Marks(visits), p)
    ensures forall p :: k <= p < |visits| ==> SlotAgrees(visits, check, p)
    ensures forall p :: k <= p < |visits| ==> FiledAt(visits, counter, p)
    ensures CarriedAt(visits, counter, |visits|, CarriedAfter(before, visits[k..]))
    decreases |visits| - k
  {
    hide CountedAt, SlotAgrees, FiledAt, CarriedAt, ClosesBlock, Follows, CarriedOn;
    if k < |visits| {
      assert visits[k..][0] == visits[k] && visits[k..][1..] == visits[k + 1..];
      CarriedStep(visits, counter, check, k, before);
      ChainedFrom(visits, counter, check, k + 1, CarriedOn(before, visits[k]));
    }
  }

  lemma BeginCarried<R>(visits: seq<Visit<R>>, counter: Counter, slot: Word)
    ensures CarriedAt(visits, counter, 0, Begin(slot))
  {
    assert Numbers(counter, 0) == {};
  }

  lemma ChainedIsWellFramed<R>(visits: seq<Visit<R>>, counter: Counter, check: SlotCheck, slot: Word)
    requires Chained(Begin(slot), counter, check, visits)
    ensures WellFramed(visits, counter, check)
    ensures CarriedAt(visits, counter, |visits|, CarriedAfter(Begin(slot), visits))
  {
    hide CountedAt, ClosesBlock, Chained, SlotAgrees, FiledAt, CarriedAt, CarriedAfter, Begin;
    assert visits[0..] == visits;
    BeginCarried(visits, counter, slot);
    ChainedFrom(visits, counter, check, 0, Begin(slot));
  }

  // ----- Where reading stops -----

  // A block is open and complete as far as it was read.
  predicate InBlock(marks: seq<Mark>) {
    RemainingAfter(marks, |marks|) >= 0
  }

  predicate NoEventYet(marks: seq<Mark>) {
    LastEventHeader(marks, |marks|) < 0
  }

  // A word that the framing does not allow after what was seen: a trailer of
  // an incomplete block or outside a block, an event header beyond the
  // declared number, data outside a block, or a slot that is not the block's.
  predicate Misplaced(marks: seq<Mark>, slots: seq<Word>, check: SlotCheck, mark: Mark, slot: Word)
    requires |marks| == |slots|
  {
    var remaining, h := RemainingAfter(marks, |marks|), LastBound(marks, |marks|);
    || (mark.BlockTrailer? && remaining != 0)
    || (mark.EventHeader? && remaining <= 0)
    || (mark.Payload? && remaining < 0)
    || (check.Applies(mark) && h >= 0 && slots[h] != slot)
  }

  // The same, as the decoder decides it from what it carries.
  lemma MisplacedFromCarried<R>(visits: seq<Visit<R>>, counter: Counter, check: SlotCheck, carried: Carried, mark: Mark,
                                slot: Word)
    requires CarriedAt(visits, counter, |visits|, carried)
    ensures InBlock(Marks(visits)) <==> carried.frame.remaining >= 0
    ensures NoEventYet(Marks(visits)) <==> carried.numbers == {}
    ensures Misplaced(Marks(visits), Slots(visits), check, mark, slot) <==>
      carried.frame.Next(mark).None? || (check.Applies(mark) && carried.slot != slot)
  {
    hide EventHeaders, IndexAfter, PeakAfter, After, EventNumber, Numbers, LastEventHeader;
    CountersAreCounts(Marks(visits), |visits|);
  }

  // ----- Where hits go -----

  // The hits filed under one number, in the order in which they were read.
  function Gathered<R>(visits: seq<Visit<R>>, number: nat): seq<R> {
    if visits == [] then []
    else (if visits[0].number == number then visits[0].hits else []) + Gathered(visits[1..], number)
  }

  lemma GatheredFirst<R>(visit: Visit<R>, later: seq<Visit<R>>, number: nat, before: seq<R>)
    ensures before + Gathered([visit] + later, number) ==
      before + (if visit.number == number then visit.hits else []) + Gathered(later, number)
  {
    assert ([visit] + later)[1..] == later;
  }

  // The event to which the hits at k go has its header in the block of k.
  predicate InOwnBlock(marks: seq<Mark>, k: nat)
    requires k <= |marks|
  {
    LastBound(marks, k) < LastEventHeader(marks, k)
  }

  lemma {:induction false} HeadersSince(marks: seq<Mark>, low: nat, n: nat)
    requires low <= n <= |marks|
    ensures EventHeaders(marks, low, n) == 0 <==> LastEventHeader(marks, n) < low
  {
    if low < n { HeadersSince(marks, low, n - 1); }
  }

  lemma OwnBlockOfPayload(marks: seq<Mark>, k: nat)
    requires k < |marks| && marks[k].Payload? && RemainingAfter(marks, k + 1) >= 0
    ensures var h := LastBound(marks, k);
      && h >= 0 && marks[h].BlockHeader?
      && (InOwnBlock(marks, k) <==> RemainingAfter(marks, k + 1) < marks[h].declared)
  {
    HeadersSince(marks, LastBound(marks, k) + 1, k);
  }

  // Hits go to an event of their own block exactly when fewer events remain
  // than the block's header declared: until the first event header of the
  // block they go to the last event of an earlier one.
  lemma InOwnBlockIff<R>(visits: seq<Visit<R>>, counter: Counter, check: SlotCheck, k: nat)
    requires WellFramed(visits, counter, check) && k < |visits| && visits[k].hits != []
    ensures var marks := Marks(visits);
      && LastBound(marks, k) >= 0 && marks[LastBound(marks, k)].BlockHeader?
      && (InOwnBlock(marks, k) <==> visits[k].frame.remaining < marks[LastBound(marks, k)].declared)
  {
    hide IndexAfter, PeakAfter, Numbers, SlotAgrees, ClosesBlock, EventNumber, RemainingAfter, LastBound, InOwnBlock;
    hide TrailersCloseBlocks, LastEventHeader, Marks;
    assert CountedAt(visits, counter, k) && FiledAt(visits, counter, k);
    OwnBlockOfPayload(Marks(visits), k);
  }
}
