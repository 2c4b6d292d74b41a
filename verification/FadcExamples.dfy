// Concrete FADC250 streams that the decoder misreads, or of which it files a
// hit under another block's event.
module FadcExamples {
  import opened Words
  import opened EventMaps
  import opened BlockFraming
  import opened HitTypes
  import opened Fadc
  import opened FadcLaws
  import opened FadcRoundTrip

  const EMPTY_EVENT := Event(0, 0, [])

  function EmptyBlock(slot: Word, declared: Word, events: seq<Event>): Block {
    Block(slot, 0, 0, declared, events, 0)
  }

  // A hit before any event header, and a trigger time that ends the stream:
  // neither is rejected.
  lemma MisreadStreams(rocid: Word, first: Counter)
    ensures Decode([BlockHeaderWord(1, 0, 0, 1), IntegralWord(0, 0, 0)], InitialState(rocid), first) == Undefined
    ensures Decode([BlockHeaderWord(1, 0, 0, 1), DefiningWord(3, 0)], InitialState(rocid), first) == Undefined
  {
    IntegralBits(0, 0, 0);
    DefiningWordParts(3, 0);
    hide BlockHeaderWord, DefiningWord, IntegralWord, GetBitsInRange, DataType, Defining, Decode;
    MisreadSecond(IntegralWord(0, 0, 0), rocid, first);
    MisreadSecond(DefiningWord(3, 0), rocid, first);
  }

  lemma MisreadSecond(w: Word, rocid: Word, first: Counter)
    requires Defining(w) && (DataType(w) == 3 || DataType(w) == 7)
    ensures Decode([BlockHeaderWord(1, 0, 0, 1), w], InitialState(rocid), first) == Undefined
  {
    var b, st := EmptyBlock(1, 1, [EMPTY_EVENT]), InitialState(rocid);
    var begun := st.(frame := st.frame.(remaining := 1), origin := BlockOrigin(b, st.origin));
    StepStops([w], begun, first);
    hide BlockHeaderWord, GetBitsInRange, Defining, Step, BadWaveform;
    BlockHeaderDecoded(b, [w], st, first);
    assert [BlockHeaderWord(1, 0, 0, 1)] + [w] == [BlockHeaderWord(1, 0, 0, 1), w];
  }

  // The rest of a bank from a block header on, with a hit before the header
  // of the only event.
  function HitThenEvent(slot: Word): seq<Word> {
    [BlockHeaderWord(slot, 0, 0, 1)] + (EncodeDatum(IntegralData(0, 0, 0)) + EventThenTrailer(slot))
  }

  function EventThenTrailer(slot: Word): seq<Word> {
    EncodeEvents(slot, [EMPTY_EVENT]) + ([DefiningWord(1, 0)] + [])
  }

  // Such a hit goes to the event that was met last, in whatever block.
  lemma HitThenEventDecoded(slot: Word, st: DecoderState, first: Counter)
    requires slot < 32 && st.eventNumber in st.events
    ensures var r := Decode(HitThenEvent(slot), st, first);
      && r.Decoded?
      && r.value.events == Open(Append(st.events, st.eventNumber,
        [Integral(st.origin.(slot := slot, moduleId := 0), 0, 0, 0)]), EventNumber(first, st.frame.index))
  {
    var b, hit, later := EmptyBlock(slot, 1, [EMPTY_EVENT]), IntegralData(0, 0, 0), EventThenTrailer(slot);
    var begun := st.(frame := st.frame.(remaining := 1), origin := BlockOrigin(b, st.origin));
    TrailerStarts(0, []);
    EncodedEventsStart(slot, [EMPTY_EVENT], [DefiningWord(1, 0)] + []);
    hide Step, Decode, EncodeDatum, EncodeEvents, StartsDefining, BlockHeaderWord, DefiningWord, Open, Append;
    BlockHeaderDecoded(b, EncodeDatum(hit) + later, st, first);
    DecodeFirst(HitThenEvent(slot), st, first, begun, EncodeDatum(hit) + later);
    DatumDecoded(hit, later, begun, first);
    EncodedNonEmpty(hit, later);
    var pushed := AfterDatum(hit, begun);
    DecodeFirst(EncodeDatum(hit) + later, begun, first, pushed, later);
    EventsDecoded([EMPTY_EVENT], [DefiningWord(1, 0)] + [], pushed, first);
    var closing := AfterEvents([EMPTY_EVENT], pushed, first);
    assert [EMPTY_EVENT][1..] == [] && closing == AfterEvent(EMPTY_EVENT, pushed, first);
    TrailerDecoded(0, [], closing, first);
    var ended := closing.(frame := closing.frame.(remaining := -1, index := 0));
    DecodeFirst([DefiningWord(1, 0)] + [], closing, first, ended, []);
    DecodeNothing(ended, first);
    AppendNothing(Open(pushed.events, closing.eventNumber), closing.eventNumber);
  }

  lemma TrailerStarts(payload: Word, rest: seq<Word>)
    requires payload < 0x800_0000
    ensures StartsDefining([DefiningWord(1, payload)] + rest)
  {
    DefiningWordParts(1, payload);
    hide DefiningWord, Defining, DataType;
  }

  // Two events from slot 1, then such a hit from slot 2: it is accepted and
  // goes to the second event of slot 1.
  lemma EarlyHitMisfiled(rocid: Word, first: Counter)
    ensures var r := Decode(EncodeBlock(EmptyBlock(1, 2, [EMPTY_EVENT, EMPTY_EVENT])) + HitThenEvent(2),
        InitialState(rocid), first);
      && r.Decoded?
      && At(r.value.events, EventNumber(first, 1)) == [Integral(Origin(0, 0, 0, rocid, 2, 0), 0, 0, 0)]
  {
    var b, st := EmptyBlock(1, 2, [EMPTY_EVENT, EMPTY_EVENT]), InitialState(rocid);
    hide Decode, EncodeBlock, HitThenEvent, EventNumber;
    BlockDecoded(b, HitThenEvent(2), st, first);
    var begun := st.(frame := st.frame.(remaining := 2), origin := BlockOrigin(b, st.origin));
    assert b.events[1..] == [EMPTY_EVENT] && [EMPTY_EVENT][1..] == [];
    var one := AfterEvent(EMPTY_EVENT, begun, first);
    assert AfterEvents([EMPTY_EVENT], one, first) == AfterEvent(EMPTY_EVENT, one, first);
    assert AfterEvents(b.events, begun, first) == AfterEvent(EMPTY_EVENT, one, first);
    HitThenEventDecoded(2, AfterBlock(b, st, first), first);
    assert [] + [Integral(Origin(0, 0, 0, rocid, 2, 0), 0, 0, 0)] == [Integral(Origin(0, 0, 0, rocid, 2, 0), 0, 0, 0)];
  }
}
