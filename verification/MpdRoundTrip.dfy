// Encoding whole MPD readouts, and the proof that the decoder inverts it.
module MpdRoundTrip {
  import opened Common
  import opened Words
  import opened EventMaps
  import opened BlockFraming
  import opened HitTypes
  import opened Mpd
  import opened MpdLaws

  // ----- What a readout contains -----

  // Bits that the decoder ignores are given by upper and middle.
  datatype Datum =
    | TriggerTime(low: Word, high: Word, upper: Word)
    | FrameData(upper: Word, fiber: Word, middle: Word, mpdId: Word, triples: seq<ApvTriple>)
    | Filler(kind: Word, payload: Word)

  datatype Event = Event(header: Word, data: seq<Datum>)

  datatype Block = Block(slot: Word, moduleId: Word, number: Word, declared: Word, events: seq<Event>, trailer: Word)

  ghost predicate DatumFits(d: Datum) {
    match d
    case TriggerTime(low, high, upper) => low < 0x100_0000 && high < 0x100_0000 && upper < 256
    case FrameData(upper, fiber, middle, mpdId, triples) =>
      upper < 64 && fiber < 32 && middle < 2048 && mpdId < 32 && AllFit(triples)
    case Filler(kind, payload) => (kind == 4 || 6 <= kind < 16) && payload < 0x800_0000
  }

  ghost predicate EventFits(e: Event) {
    e.header < 0x800_0000 && forall i :: 0 <= i < |e.data| ==> DatumFits(e.data[i])
  }

  ghost predicate BlockFits(b: Block) {
    && b.slot < 32 && b.moduleId < 16 && b.number < 1024 && b.trailer < 0x40_0000
    && b.declared < 256 && b.declared as nat == |b.events|
    && forall i :: 0 <= i < |b.events| ==> EventFits(b.events[i])
  }

  // ----- Encoding -----

  function TrailerWord(slot: Word, rest: Word): Word {
    DefiningWord(1, SlotAnd(slot, rest))
  }

  function SlotAnd(slot: Word, rest: Word): Word {
    (slot << 22) | rest
  }

  ghost function EncodeDatum(d: Datum): (r: seq<Word>)
    requires DatumFits(d)
    ensures r != []
  {
    match d
    case TriggerTime(low, high, upper) => [DefiningWord(3, low), UpperAndTime(upper, high)]
    case FrameData(upper, fiber, middle, mpdId, triples) =>
      [FrameWord(upper, fiber, middle, mpdId)] + EncodeTriples(triples)
    case Filler(kind, payload) => [DefiningWord(kind, payload)]
  }

  ghost function EncodeData(data: seq<Datum>): seq<Word>
    requires forall i :: 0 <= i < |data| ==> DatumFits(data[i])
  {
    if data == [] then [] else EncodeDatum(data[0]) + EncodeData(data[1..])
  }

  ghost function EncodeEvent(e: Event): (r: seq<Word>)
    requires EventFits(e)
    ensures r != []
  {
    [DefiningWord(2, e.header)] + EncodeData(e.data)
  }

  ghost function EncodeEvents(events: seq<Event>): seq<Word>
    requires forall i :: 0 <= i < |events| ==> EventFits(events[i])
  {
    if events == [] then [] else EncodeEvent(events[0]) + EncodeEvents(events[1..])
  }

  ghost function EncodeBlock(b: Block): (r: seq<Word>)
    requires BlockFits(b)
  {
    [BlockHeaderWord(b.slot, b.moduleId, b.number, b.declared)] +
    (EncodeEvents(b.events) + [TrailerWord(b.slot, b.trailer)])
  }

  ghost function EncodeBlocks(blocks: seq<Block>): seq<Word>
    requires forall i :: 0 <= i < |blocks| ==> BlockFits(blocks[i])
  {
    if blocks == [] then [] else EncodeBlock(blocks[0]) + EncodeBlocks(blocks[1..])
  }

  // ----- What should be recovered -----

  // The trigger time persists into later events and blocks.
  function TimeAfterDatum(d: Datum, time: Word): Word {
    if d.TriggerTime? then Timestamp(d.low, d.high) else time
  }

  function TimeAfterData(data: seq<Datum>, time: Word): Word {
    if data == [] then time else TimeAfterData(data[1..], TimeAfterDatum(data[0], time))
  }

  function DatumHits(d: Datum, rocid: Word, slot: Word, number: nat, time: Word): seq<MpdHit> {
    if d.FrameData? then
      seq(|d.triples|, i requires 0 <= i < |d.triples| =>
        MpdHit(rocid, slot, number, time, d.mpdId, d.fiber,
          d.triples[i].channel, d.triples[i].apvId, d.triples[i].samples))
    else []
  }

  function DataHits(data: seq<Datum>, rocid: Word, slot: Word, number: nat, time: Word): seq<MpdHit> {
    if data == [] then []
    else
      DatumHits(data[0], rocid, slot, number, time) +
      DataHits(data[1..], rocid, slot, number, TimeAfterDatum(data[0], time))
  }

  function TimeAfterEvents(events: seq<Event>, time: Word): Word {
    if events == [] then time else TimeAfterEvents(events[1..], TimeAfterData(events[0].data, time))
  }

  // The hits of the events of a block, the first of them having index k.
  function EventsHits(events: seq<Event>, rocid: Word, slot: Word, first: Counter, k: nat, time: Word)
    : (r: seq<seq<MpdHit>>)
    ensures |r| == |events|
    decreases |events|
  {
    if events == [] then []
    else
      [DataHits(events[0].data, rocid, slot, EventNumber(first, k), time)] +
      EventsHits(events[1..], rocid, slot, first, k + 1, TimeAfterData(events[0].data, time))
  }

  function BlocksHits(blocks: seq<Block>, rocid: Word, first: Counter, time: Word): (r: seq<seq<seq<MpdHit>>>)
    ensures |r| == |blocks|
    ensures forall i :: 0 <= i < |blocks| ==> |r[i]| == |blocks[i].events|
  {
    if blocks == [] then []
    else
      [EventsHits(blocks[0].events, rocid, blocks[0].slot, first, 0, time)] +
      BlocksHits(blocks[1..], rocid, first, TimeAfterEvents(blocks[0].events, time))
  }

  // ----- One datum -----

  ghost predicate DefiningAt(words: seq<Word>, j: nat) {
    j < |words| && Defining(words[j])
  }

  lemma SlotAndBits(slot: Word, rest: Word)
    requires slot < 32 && rest < 0x40_0000
    ensures SlotAnd(slot, rest) < 0x800_0000 && SlotAnd(slot, rest) >> 22 == slot
  {
  }

  lemma SlotOfPayload(w: Word, payload: Word)
    requires w & 0x7FF_FFFF == payload
    ensures GetBitsInRange(w, 26, 22) == payload >> 22
  {
  }

  lemma TrailerBits(slot: Word, rest: Word)
    requires slot < 32 && rest < 0x40_0000
    ensures var d := TrailerWord(slot, rest);
      Defining(d) && DataType(d) == 1 && GetBitsInRange(d, 26, 22) == slot
  {
    hide GetBitsInRange, DefiningWord, Defining, DataType, SlotAnd;
    SlotAndBits(slot, rest);
    DefiningWordParts(1, SlotAnd(slot, rest));
    SlotOfPayload(TrailerWord(slot, rest), SlotAnd(slot, rest));
  }

  function AfterDatum(d: Datum, rocid: Word, st: DecoderState): DecoderState
    requires st.eventNumber in st.events
  {
    st.(timestamp := TimeAfterDatum(d, st.timestamp),
      events := Append(st.events, st.eventNumber, DatumHits(d, rocid, st.slot, st.eventNumber, st.timestamp)))
  }

  lemma TimeDecoded(words: seq<Word>, j: nat, d: Datum, rocid: Word, st: DecoderState, first: Counter)
    requires DatumFits(d) && d.TriggerTime? && FoundAt(words, j, EncodeDatum(d))
    requires st.frame.remaining >= 0 && st.eventNumber in st.events
    ensures j < |words| && Step(words, j, rocid, st, first) == Decoded((AfterDatum(d, rocid, st), j + 1))
  {
    AppendNothing(st.events, st.eventNumber);
    TriggerTimeBits(d.low, d.high, d.upper);
    AtFirst(words, j, DefiningWord(3, d.low), [UpperAndTime(d.upper, d.high)]);
    AtFirst(words, j + 1, UpperAndTime(d.upper, d.high), []);
    hide GetBitsInRange, DataType, Defining, DefiningWord, UpperAndTime, Append, Timestamp, TriplesFrom, FoundAt;
  }

  lemma FillerDecoded(words: seq<Word>, j: nat, d: Datum, rocid: Word, st: DecoderState, first: Counter)
    requires DatumFits(d) && d.Filler? && FoundAt(words, j, EncodeDatum(d))
    requires st.eventNumber in st.events
    ensures j < |words| && Step(words, j, rocid, st, first) == Decoded((AfterDatum(d, rocid, st), j))
  {
    AppendNothing(st.events, st.eventNumber);
    DefiningWordParts(d.kind, d.payload);
    AtFirst(words, j, DefiningWord(d.kind, d.payload), []);
    hide GetBitsInRange, DataType, Defining, DefiningWord, Append, TriplesFrom, FoundAt;
  }

  lemma FrameDatumHits(d: Datum, rocid: Word, slot: Word, number: nat, time: Word)
    requires d.FrameData?
    ensures DatumHits(d, rocid, slot, number, time) ==
      FrameHits(FrameOrigin(rocid, slot, number, time, d.mpdId, d.fiber), d.triples)
  {
  }

  lemma FrameDataDecoded(words: seq<Word>, j: nat, d: Datum, rocid: Word, st: DecoderState, first: Counter)
    requires DatumFits(d) && d.FrameData?
    requires FoundAt(words, j, EncodeDatum(d)) && DefiningAt(words, j + |EncodeDatum(d)|)
    requires st.frame.remaining >= 0 && st.eventNumber in st.events
    ensures j < |words|
    ensures Step(words, j, rocid, st, first) == Decoded((AfterDatum(d, rocid, st), j + 3 * |d.triples|))
  {
    hide GetBitsInRange, DataType, Defining, FrameWord, Append, EncodeTriples, FrameHits, AllFit, Step;
    AtFirst(words, j, FrameWord(d.upper, d.fiber, d.middle, d.mpdId), EncodeTriples(d.triples));
    FrameDatumHits(d, rocid, st.slot, st.eventNumber, st.timestamp);
    FrameRoundTrip(words, j, d.upper, d.fiber, d.middle, d.mpdId, d.triples, rocid, st, first);
  }

  // Each kind of datum decodes to its hits, and exactly its words are
  // consumed.
  lemma DatumDecoded(words: seq<Word>, j: nat, d: Datum, rocid: Word, st: DecoderState, first: Counter)
    requires DatumFits(d) && FoundAt(words, j, EncodeDatum(d)) && DefiningAt(words, j + |EncodeDatum(d)|)
    requires st.frame.remaining >= 0 && st.eventNumber in st.events
    ensures j < |words|
    ensures Step(words, j, rocid, st, first) == Decoded((AfterDatum(d, rocid, st), j + |EncodeDatum(d)| - 1))
  {
    hide Step, FoundAt, DefiningAt, AfterDatum;
    if d.TriggerTime? {
      TimeDecoded(words, j, d, rocid, st, first);
    } else if d.FrameData? {
      FrameDataDecoded(words, j, d, rocid, st, first);
    } else {
      FillerDecoded(words, j, d, rocid, st, first);
    }
  }

  // One step of the decoder followed by the rest.
  lemma DecodeFirst(words: seq<Word>, j: nat, rocid: Word, st: DecoderState, first: Counter, next: DecoderState, k: nat)
    requires j < |words| && k > 0 && Step(words, j, rocid, st, first) == Decoded((next, k - 1))
    ensures k <= |words| && DecodeFrom(words, j, rocid, st, first) == DecodeFrom(words, k, rocid, next, first)
  {
    hide Step;
  }

  lemma EncodedDatumStart(words: seq<Word>, j: nat, d: Datum)
    requires DatumFits(d) && FoundAt(words, j, EncodeDatum(d))
    ensures DefiningAt(words, j)
  {
    hide GetBitsInRange, DataType, DefiningWord, FrameWord, UpperAndTime, EncodeTriples, Defining;
    assert words[j..j + |EncodeDatum(d)|][0] == words[j];
    match d {
      case TriggerTime(low, high, upper) => TriggerTimeBits(low, high, upper);
      case FrameData(upper, fiber, middle, mpdId, triples) => FrameWordBits(upper, fiber, middle, mpdId);
      case Filler(kind, payload) => DefiningWordParts(kind, payload);
    }
  }

  lemma EncodedDataStart(words: seq<Word>, j: nat, data: seq<Datum>)
    requires (forall i :: 0 <= i < |data| ==> DatumFits(data[i])) && FoundAt(words, j, EncodeData(data))
    requires DefiningAt(words, j + |EncodeData(data)|)
    ensures DefiningAt(words, j)
  {
    if data != [] {
      hide EncodeDatum, DatumFits, FoundAt, DefiningAt;
      AtSplit(words, j, EncodeDatum(data[0]), EncodeData(data[1..]));
      EncodedDatumStart(words, j, data[0]);
    }
  }

  lemma {:induction false} DataDecoded(words: seq<Word>, j: nat, data: seq<Datum>, rocid: Word, st: DecoderState,
                                       first: Counter)
    requires (forall i :: 0 <= i < |data| ==> DatumFits(data[i])) && FoundAt(words, j, EncodeData(data))
    requires DefiningAt(words, j + |EncodeData(data)|)
    requires st.frame.remaining >= 0 && st.eventNumber in st.events
    ensures j <= |words| && j + |EncodeData(data)| <= |words|
    ensures DecodeFrom(words, j, rocid, st, first) == DecodeFrom(words, j + |EncodeData(data)|, rocid,
      st.(timestamp := TimeAfterData(data, st.timestamp),
        events := Append(st.events, st.eventNumber,
          DataHits(data, rocid, st.slot, st.eventNumber, st.timestamp))), first)
    decreases |data|
  {
    hide DatumFits, Append, DatumHits, Step, EncodeDatum, DecodeFrom, TimeAfterDatum;
    if data == [] {
      AppendNothing(st.events, st.eventNumber);
    } else {
      var d, rest, next := data[0], data[1..], AfterDatum(data[0], rocid, st);
      AtSplit(words, j, EncodeDatum(d), EncodeData(rest));
      hide FoundAt, DefiningAt;
      var k := j + |EncodeDatum(d)|;
      EncodedDataStart(words, k, rest);
      DatumDecoded(words, j, d, rocid, st, first);
      DecodeFirst(words, j, rocid, st, first, next, k);
      DataDecoded(words, k, rest, rocid, next, first);
      AppendTwice(st.events, st.eventNumber, DatumHits(d, rocid, st.slot, st.eventNumber, st.timestamp),
        DataHits(rest, rocid, st.slot, st.eventNumber, next.timestamp));
    }
  }

  // ----- Events and blocks -----

  function AfterEventHeader(st: DecoderState, first: Counter): DecoderState {
    var n := EventNumber(first, st.frame.index);
    st.(frame := Frame(st.frame.remaining - 1, st.frame.index + 1,
        if st.frame.index + 1 > st.frame.peak then st.frame.index + 1 else st.frame.peak),
      eventNumber := n, events := Open(st.events, n))
  }

  function AfterEvent(e: Event, rocid: Word, st: DecoderState, first: Counter): DecoderState {
    var n := EventNumber(first, st.frame.index);
    AfterEventHeader(st, first).(timestamp := TimeAfterData(e.data, st.timestamp),
      events := Deposit(st.events, n, DataHits(e.data, rocid, st.slot, n, st.timestamp)))
  }

  lemma EventHeaderDecoded(words: seq<Word>, j: nat, header: Word, rocid: Word, st: DecoderState, first: Counter)
    requires header < 0x800_0000 && j < |words| && words[j] == DefiningWord(2, header) && st.frame.remaining > 0
    ensures Step(words, j, rocid, st, first) == Decoded((AfterEventHeader(st, first), j))
  {
    DefiningWordParts(2, header);
    hide GetBitsInRange, DefiningWord, DataType, Defining, TriplesFrom, Open, EventNumber;
  }

  lemma EventDecoded(words: seq<Word>, j: nat, e: Event, rocid: Word, st: DecoderState, first: Counter)
    requires EventFits(e) && FoundAt(words, j, EncodeEvent(e)) && DefiningAt(words, j + |EncodeEvent(e)|)
    requires st.frame.remaining > 0
    ensures j <= |words| && j + |EncodeEvent(e)| <= |words|
    ensures DecodeFrom(words, j, rocid, st, first) ==
      DecodeFrom(words, j + |EncodeEvent(e)|, rocid, AfterEvent(e, rocid, st, first), first)
  {
    hide DatumFits, Append, Step, EncodeData, DecodeFrom, DataHits, TimeAfterData, DefiningWord, EventNumber, Open;
    AtFirst(words, j, DefiningWord(2, e.header), EncodeData(e.data));
    hide FoundAt, DefiningAt;
    EventHeaderDecoded(words, j, e.header, rocid, st, first);
    DecodeFirst(words, j, rocid, st, first, AfterEventHeader(st, first), j + 1);
    DataDecoded(words, j + 1, e.data, rocid, AfterEventHeader(st, first), first);
  }

  function AfterEvents(events: seq<Event>, rocid: Word, st: DecoderState, first: Counter): DecoderState
    decreases |events|
  {
    if events == [] then st else AfterEvents(events[1..], rocid, AfterEvent(events[0], rocid, st, first), first)
  }

  lemma EncodedEventsStart(words: seq<Word>, j: nat, events: seq<Event>)
    requires (forall i :: 0 <= i < |events| ==> EventFits(events[i])) && FoundAt(words, j, EncodeEvents(events))
    requires DefiningAt(words, j + |EncodeEvents(events)|)
    ensures DefiningAt(words, j)
  {
    if events != [] {
      var e := events[0];
      DefiningWordParts(2, e.header);
      hide DefiningWord, Defining, DataType, DatumFits, EncodeData;
      AtSplit(words, j, EncodeEvent(e), EncodeEvents(events[1..]));
      AtFirst(words, j, DefiningWord(2, e.header), EncodeData(e.data));
    }
  }

  lemma {:induction false} EventsDecoded(words: seq<Word>, j: nat, events: seq<Event>, rocid: Word, st: DecoderState,
                                         first: Counter)
    requires (forall i :: 0 <= i < |events| ==> EventFits(events[i])) && FoundAt(words, j, EncodeEvents(events))
    requires DefiningAt(words, j + |EncodeEvents(events)|) && st.frame.remaining >= |events|
    ensures j <= |words| && j + |EncodeEvents(events)| <= |words|
    ensures DecodeFrom(words, j, rocid, st, first) ==
      DecodeFrom(words, j + |EncodeEvents(events)|, rocid, AfterEvents(events, rocid, st, first), first)
    decreases |events|
  {
    hide EventFits, Deposit, DecodeFrom, EncodeEvent, DataHits, TimeAfterData, Step;
    if events != [] {
      var e, rest, next := events[0], events[1..], AfterEvent(events[0], rocid, st, first);
      AtSplit(words, j, EncodeEvent(e), EncodeEvents(rest));
      hide FoundAt, DefiningAt;
      var k := j + |EncodeEvent(e)|;
      EncodedEventsStart(words, k, rest);
      EventDecoded(words, j, e, rocid, st, first);
      EventsDecoded(words, k, rest, rocid, next, first);
    }
  }

  // The records of a block's events are deposited from the current index on.
  lemma {:induction false} EventsDeposited(events: seq<Event>, rocid: Word, st: DecoderState, first: Counter,
                                           block: seq<seq<MpdHit>>, k: nat)
    requires k + |events| == |block| && st.frame.index == k
    requires block[k..] == EventsHits(events, rocid, st.slot, first, k, st.timestamp)
    ensures var end := AfterEvents(events, rocid, st, first);
      && end.events == DepositBlock(st.events, first, block, k)
      && end.timestamp == TimeAfterEvents(events, st.timestamp)
      && end.frame.remaining == st.frame.remaining - |events|
      && end.slot == st.slot
    decreases |events|
  {
    hide Deposit, DataHits, TimeAfterData, EventNumber;
    if events != [] {
      var next := AfterEvent(events[0], rocid, st, first);
      assert block[k] == block[k..][0] && block[k..][1..] == block[k + 1..];
      EventsDeposited(events[1..], rocid, next, first, block, k + 1);
    }
  }

  function AfterBlock(b: Block, rocid: Word, st: DecoderState, first: Counter): DecoderState {
    var inside := AfterEvents(b.events, rocid, st.(frame := st.frame.(remaining := |b.events|), slot := b.slot), first);
    inside.(frame := inside.frame.(remaining := -1, index := 0))
  }

  lemma BlockHeaderDecoded(words: seq<Word>, j: nat, b: Block, rocid: Word, st: DecoderState, first: Counter)
    requires BlockFits(b) && j < |words|
    requires words[j] == BlockHeaderWord(b.slot, b.moduleId, b.number, b.declared)
    ensures Step(words, j, rocid, st, first) ==
      Decoded((st.(frame := st.frame.(remaining := |b.events|), slot := b.slot), j))
  {
    BlockHeaderBits(b.slot, b.moduleId, b.number, b.declared);
    hide GetBitsInRange, DefiningWord, DataType, Defining, BlockHeaderWord, TriplesFrom, Open, EventFits;
  }

  lemma TrailerDecoded(words: seq<Word>, j: nat, rest: Word, rocid: Word, st: DecoderState, first: Counter)
    requires rest < 0x40_0000 && st.slot < 32 && st.frame.remaining == 0
    requires j < |words| && words[j] == TrailerWord(st.slot, rest)
    ensures Step(words, j, rocid, st, first) == Decoded((st.(frame := st.frame.(remaining := -1, index := 0)), j))
    ensures DefiningAt(words, j)
  {
    TrailerBits(st.slot, rest);
    hide GetBitsInRange, DefiningWord, DataType, Defining, TrailerWord, TriplesFrom, Open;
  }

  lemma BlockDecoded(words: seq<Word>, j: nat, b: Block, rocid: Word, st: DecoderState, first: Counter)
    requires BlockFits(b) && FoundAt(words, j, EncodeBlock(b)) && st.frame.index == 0
    ensures j <= |words| && j + |EncodeBlock(b)| <= |words|
    ensures DecodeFrom(words, j, rocid, st, first) ==
      DecodeFrom(words, j + |EncodeBlock(b)|, rocid, AfterBlock(b, rocid, st, first), first)
    ensures var after := AfterBlock(b, rocid, st, first);
      && after.frame.index == 0
      && after.timestamp == TimeAfterEvents(b.events, st.timestamp)
      && after.events == DepositBlock(st.events, first, EventsHits(b.events, rocid, b.slot, first, 0, st.timestamp), 0)
  {
    hide EventFits, Step, DecodeFrom, EncodeEvents, EventsHits, AfterEvents, TimeAfterEvents, DepositBlock;
    hide BlockHeaderWord, TrailerWord;
    var header, trailer := BlockHeaderWord(b.slot, b.moduleId, b.number, b.declared), TrailerWord(b.slot, b.trailer);
    var begun := st.(frame := st.frame.(remaining := |b.events|), slot := b.slot);
    var hits := EventsHits(b.events, rocid, b.slot, first, 0, st.timestamp);
    var closing := AfterEvents(b.events, rocid, begun, first);
    AtFirst(words, j, header, EncodeEvents(b.events) + [trailer]);
    AtSplit(words, j + 1, EncodeEvents(b.events), [trailer]);
    var k := j + 1 + |EncodeEvents(b.events)|;
    AtFirst(words, k, trailer, []);
    assert hits[0..] == hits;
    hide FoundAt, DefiningAt;
    BlockHeaderDecoded(words, j, b, rocid, st, first);
    DecodeFirst(words, j, rocid, st, first, begun, j + 1);
    EventsDeposited(b.events, rocid, begun, first, hits, 0);
    TrailerDecoded(words, k, b.trailer, rocid, closing, first);
    EventsDecoded(words, j + 1, b.events, rocid, begun, first);
    DecodeFirst(words, k, rocid, closing, first, AfterBlock(b, rocid, st, first), k + 1);
  }

  lemma {:induction false} BlocksDecoded(words: seq<Word>, j: nat, blocks: seq<Block>, rocid: Word, st: DecoderState,
                                         first: Counter)
    requires (forall i :: 0 <= i < |blocks| ==> BlockFits(blocks[i])) && st.frame.index == 0
    requires FoundAt(words, j, EncodeBlocks(blocks)) && j + |EncodeBlocks(blocks)| == |words|
    ensures j <= |words| && DecodeFrom(words, j, rocid, st, first).Decoded?
    ensures DecodeFrom(words, j, rocid, st, first).value.events ==
      DepositBlocks(st.events, first, BlocksHits(blocks, rocid, first, st.timestamp))
    decreases |blocks|
  {
    hide BlockFits, EncodeBlock, AfterBlock, DepositBlock, EventsHits, TimeAfterEvents, Step;
    if blocks != [] {
      var b, rest := blocks[0], blocks[1..];
      AtSplit(words, j, EncodeBlock(b), EncodeBlocks(rest));
      hide FoundAt, DecodeFrom;
      BlockDecoded(words, j, b, rocid, st, first);
      BlocksDecoded(words, j + |EncodeBlock(b)|, rest, rocid, AfterBlock(b, rocid, st, first), first);
      var content := BlocksHits(blocks, rocid, first, st.timestamp);
      assert content[1..] == BlocksHits(rest, rocid, first, TimeAfterEvents(b.events, st.timestamp));
    }
  }

  // What a readout of the blocks contains, block by block and event by event.
  function Content(blocks: seq<Block>, rocid: Word, first: nat): seq<seq<seq<MpdHit>>> {
    BlocksHits(blocks, rocid, Counter32(first), 0)
  }

  // Decoding inverts encoding: every list of well-formed blocks is accepted,
  // the event numbers are the contiguous range from the first on, and the
  // event numbered first + k holds the in-order concatenation over the blocks
  // of the hits of their k-th events.
  lemma {:induction false} DecodeInvertsEncode(blocks: seq<Block>, rocid: Word, first: nat)
    requires forall i :: 0 <= i < |blocks| ==> BlockFits(blocks[i])
    ensures Decode(EncodeBlocks(blocks), rocid, first).Decoded?
    ensures var events := Decode(EncodeBlocks(blocks), rocid, first).value.events;
      && events.Keys == Numbers(Counter32(first), Longest(Content(blocks, rocid, first)))
      && forall k: nat :: k < Longest(Content(blocks, rocid, first)) ==>
        events[EventNumber(Counter32(first), k)] == Collected(Content(blocks, rocid, first), k)
  {
    var words := EncodeBlocks(blocks);
    assert words[0..|words|] == words;
    BlocksDecoded(words, 0, blocks, rocid, INITIAL, Counter32(first));
    hide EncodeBlocks, DecodeFrom, BlocksHits, DepositBlocks, Collected, Longest;
    FilledEvents(Counter32(first), Content(blocks, rocid, first));
  }

  // ----- Streams that go wrong -----

  // A frame that nothing ends is not rejected, nor is one that has a triple
  // before any event header.
  lemma MisreadStreams(t: ApvTriple, rocid: Word, first: nat)
    requires TripleFits(t)
    ensures Decode([BlockHeaderWord(1, 0, 0, 1), FrameWord(0, 0, 0, 0)], rocid, first) == Undefined
    ensures Decode([BlockHeaderWord(1, 0, 0, 1), FrameWord(0, 0, 0, 0)] + EncodeTriple(t) + [TrailerWord(1, 0)],
        rocid, first) == Undefined
  {
    var header, frame := BlockHeaderWord(1, 0, 0, 1), FrameWord(0, 0, 0, 0);
    MisreadFrame([header, frame], rocid, first);
    var words := [header, frame] + EncodeTriple(t) + [TrailerWord(1, 0)];
    TrailerBits(1, 0);
    TripleRecovered(t);
    hide BlockHeaderWord, FrameWord, TrailerWord, GetBitsInRange, DataType, Decode, TripleFields, EncodeTriple;
    TripleLength(t);
    assert words[2] == EncodeTriple(t)[0] && words[5] == TrailerWord(1, 0);
    assert TriplesFrom(words, 5) == Some([]);
    MisreadFrame(words, rocid, first);
  }

  lemma MisreadFrame(words: seq<Word>, rocid: Word, first: nat)
    requires |words| >= 2 && words[0] == BlockHeaderWord(1, 0, 0, 1) && words[1] == FrameWord(0, 0, 0, 0)
    requires TriplesFrom(words, 2).None? || TriplesFrom(words, 2).value != []
    ensures Decode(words, rocid, first) == Undefined
  {
    var b, counter := Block(1, 0, 0, 1, [Event(0, [])], 0), Counter32(first);
    FrameWordBits(0, 0, 0, 0);
    hide BlockHeaderWord, FrameWord, GetBitsInRange, DataType, Defining, TriplesFrom, FrameHits;
    var begun := INITIAL.(frame := INITIAL.frame.(remaining := 1), slot := 1);
    BlockHeaderDecoded(words, 0, b, rocid, INITIAL, counter);
    DecodeFirst(words, 0, rocid, INITIAL, counter, begun, 1);
    assert Step(words, 1, rocid, begun, counter) == Undefined;
  }
}
