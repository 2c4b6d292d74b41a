// Encoding whole VFTDC readouts, and the proof that the decoder inverts it.
module VftdcRoundTrip {
  import opened Words
  import opened EventMaps
  import opened BlockFraming
  import opened HitTypes
  import opened Vftdc
  import opened VftdcLaws

  // ----- What a readout contains -----

  datatype Datum =
    | TriggerTime(low: Word, high: Word, upper: Word)
    | HitData(group: Word, channel: Word, edge: Word, coarse: Word, twoNs: Word, fine: Word)
    | Filler(kind: Word, payload: Word)

  datatype Event = Event(time: Word, triggerNum: Word, data: seq<Datum>)

  datatype Block = Block(slot: Word, boardId: Word, number: Word, declared: Word, events: seq<Event>, trailer: Word)

  predicate DatumFits(d: Datum) {
    match d
    case TriggerTime(low, high, upper) => low < 0x100_0000 && high < 0x100_0000 && upper < 256
    case HitData(group, channel, edge, coarse, twoNs, fine) =>
      group < 8 && channel < 32 && edge < 2 && coarse < 1024 && twoNs < 2 && fine < 128
    case Filler(kind, payload) => (4 <= kind < 7 || 8 <= kind < 16) && payload < 0x800_0000
  }

  predicate EventFits(e: Event) {
    e.time < 1024 && e.triggerNum < 4096 && forall i :: 0 <= i < |e.data| ==> DatumFits(e.data[i])
  }

  predicate BlockFits(b: Block) {
    && b.slot < 32 && b.boardId < 16 && b.number < 1024 && b.trailer < 0x800_0000
    && b.declared < 256 && b.declared as nat == |b.events|
    && forall i :: 0 <= i < |b.events| ==> EventFits(b.events[i])
  }

  // ----- Encoding -----

  function EncodeDatum(d: Datum): (r: seq<Word>)
    ensures r != []
  {
    match d
    case TriggerTime(low, high, upper) => [DefiningWord(3, low), UpperAndTime(upper, high)]
    case HitData(group, channel, edge, coarse, twoNs, fine) => [DataWord(group, channel, edge, coarse, twoNs, fine)]
    case Filler(kind, payload) => [DefiningWord(kind, payload)]
  }

  function EncodeData(data: seq<Datum>): seq<Word> {
    if data == [] then [] else EncodeDatum(data[0]) + EncodeData(data[1..])
  }

  function EncodeEvent(slot: Word, e: Event): seq<Word> {
    [EventHeaderWord(slot, e.time, e.triggerNum)] + EncodeData(e.data)
  }

  function EncodeEvents(slot: Word, events: seq<Event>): seq<Word> {
    if events == [] then [] else EncodeEvent(slot, events[0]) + EncodeEvents(slot, events[1..])
  }

  function EncodeBlock(b: Block): seq<Word> {
    [BlockHeaderWord(b.slot, b.boardId, b.number, b.declared)] +
    (EncodeEvents(b.slot, b.events) + [DefiningWord(1, b.trailer)])
  }

  function EncodeBlocks(blocks: seq<Block>): seq<Word> {
    if blocks == [] then [] else EncodeBlock(blocks[0]) + EncodeBlocks(blocks[1..])
  }

  // ----- What should be recovered -----

  // What a hit copies from the decoder. The time persists into later events
  // and blocks.
  datatype Place = Place(rocid: Word, slot: Word, boardId: Word, time: Word)

  function PlaceAfterDatum(d: Datum, place: Place): Place {
    if d.TriggerTime? then place.(time := Timestamp(d.low, d.high)) else place
  }

  function DatumHits(d: Datum, o: Place): seq<VftdcHit> {
    if d.HitData? then
      [VftdcHit(o.rocid, o.slot, o.boardId, o.time, d.group, d.channel, d.edge, d.coarse, d.twoNs, d.fine)]
    else []
  }

  function PlaceAfterData(data: seq<Datum>, place: Place): Place {
    if data == [] then place else PlaceAfterData(data[1..], PlaceAfterDatum(data[0], place))
  }

  function DataHits(data: seq<Datum>, place: Place): seq<VftdcHit> {
    if data == [] then []
    else DatumHits(data[0], place) + DataHits(data[1..], PlaceAfterDatum(data[0], place))
  }

  function PlaceAfterEvents(events: seq<Event>, place: Place): Place {
    if events == [] then place else PlaceAfterEvents(events[1..], PlaceAfterData(events[0].data, place))
  }

  // The hits of each event of a block, in order.
  function EventsHits(events: seq<Event>, place: Place): (r: seq<seq<VftdcHit>>)
    ensures |r| == |events|
  {
    if events == [] then []
    else [DataHits(events[0].data, place)] + EventsHits(events[1..], PlaceAfterData(events[0].data, place))
  }

  function BlockPlace(b: Block, place: Place): Place {
    place.(slot := b.slot, boardId := b.boardId)
  }

  function BlocksHits(blocks: seq<Block>, place: Place): (r: seq<seq<seq<VftdcHit>>>)
    ensures |r| == |blocks|
    ensures forall i :: 0 <= i < |blocks| ==> |r[i]| == |blocks[i].events|
  {
    if blocks == [] then []
    else
      var started := BlockPlace(blocks[0], place);
      [EventsHits(blocks[0].events, started)] +
      BlocksHits(blocks[1..], PlaceAfterEvents(blocks[0].events, started))
  }

  // ----- One datum -----

  function PlaceOf(rocid: Word, st: DecoderState): Place {
    Place(rocid, st.slot, st.boardId, st.timestamp)
  }

  function AfterDatum(d: Datum, rocid: Word, st: DecoderState): DecoderState
    requires st.eventNumber in st.events
  {
    st.(timestamp := PlaceAfterDatum(d, PlaceOf(rocid, st)).time,
      events := Append(st.events, st.eventNumber, DatumHits(d, PlaceOf(rocid, st))))
  }

  lemma TimeDecoded(words: seq<Word>, j: nat, d: Datum, rocid: Word, st: DecoderState, first: Counter)
    requires DatumFits(d) && d.TriggerTime? && FoundAt(words, j, EncodeDatum(d))
    requires st.frame.remaining >= 0 && st.eventNumber in st.events
    ensures j < |words| && Step(words, j, rocid, st, first) == Decoded((AfterDatum(d, rocid, st), j + 1))
  {
    AppendNothing(st.events, st.eventNumber);
    TriggerTimeBits(d.low, d.high, d.upper);
    AtFirst(words, j, DefiningWord(3, d.low), [UpperAndTime(d.upper, d.high)]);
    AtFirst(words, j + 1, UpperAndTime(d.upper, d.high), []);
    hide GetBitsInRange, DataType, Defining, DefiningWord, UpperAndTime, Append, Timestamp, FoundAt;
  }

  lemma FillerDecoded(words: seq<Word>, j: nat, d: Datum, rocid: Word, st: DecoderState, first: Counter)
    requires DatumFits(d) && d.Filler? && FoundAt(words, j, EncodeDatum(d))
    requires st.eventNumber in st.events
    ensures j < |words| && Step(words, j, rocid, st, first) == Decoded((AfterDatum(d, rocid, st), j))
  {
    AppendNothing(st.events, st.eventNumber);
    DefiningWordParts(d.kind, d.payload);
    AtFirst(words, j, DefiningWord(d.kind, d.payload), []);
    hide GetBitsInRange, DataType, Defining, DefiningWord, Append, FoundAt;
  }

  lemma HitDecoded(words: seq<Word>, j: nat, d: Datum, rocid: Word, st: DecoderState, first: Counter)
    requires DatumFits(d) && d.HitData? && FoundAt(words, j, EncodeDatum(d))
    requires st.frame.remaining >= 0 && st.eventNumber in st.events
    ensures j < |words| && Step(words, j, rocid, st, first) == Decoded((AfterDatum(d, rocid, st), j))
  {
    hide GetBitsInRange, DataType, Defining, DataWord, Append, Step;
    AtFirst(words, j, DataWord(d.group, d.channel, d.edge, d.coarse, d.twoNs, d.fine), []);
    DataWordRoundTrip(words, j, rocid, st, first, d.group, d.channel, d.edge, d.coarse, d.twoNs, d.fine);
  }

  // Each kind of datum decodes to its hits, and exactly its words are
  // consumed.
  lemma DatumDecoded(words: seq<Word>, j: nat, d: Datum, rocid: Word, st: DecoderState, first: Counter)
    requires DatumFits(d) && FoundAt(words, j, EncodeDatum(d))
    requires st.frame.remaining >= 0 && st.eventNumber in st.events
    ensures j < |words|
    ensures Step(words, j, rocid, st, first) == Decoded((AfterDatum(d, rocid, st), j + |EncodeDatum(d)| - 1))
  {
    hide Step, FoundAt, AfterDatum, DatumFits;
    if d.TriggerTime? {
      TimeDecoded(words, j, d, rocid, st, first);
    } else if d.HitData? {
      HitDecoded(words, j, d, rocid, st, first);
    } else {
      FillerDecoded(words, j, d, rocid, st, first);
    }
  }

  // One step of the decoder followed by the rest.
  lemma DecodeFirst(words: seq<Word>, j: nat, rocid: Word, st: DecoderState, first: Counter, next: DecoderState, k: nat)
    requires j < |words| && k > 0 && Step(words, j, rocid, st, first) == Decoded((next, k - 1))
    ensures k <= |words| && DecodeFrom(words, j, rocid, st, first) == DecodeFrom(words, k, rocid, next, first)
  {
    hide Step;
  }

  lemma {:induction false} DataDecoded(words: seq<Word>, j: nat, data: seq<Datum>, rocid: Word, st: DecoderState,
                                       first: Counter)
    requires (forall i :: 0 <= i < |data| ==> DatumFits(data[i])) && FoundAt(words, j, EncodeData(data))
    requires st.frame.remaining >= 0 && st.eventNumber in st.events
    ensures j <= |words| && j + |EncodeData(data)| <= |words|
    ensures DecodeFrom(words, j, rocid, st, first) == DecodeFrom(words, j + |EncodeData(data)|, rocid,
      st.(timestamp := PlaceAfterData(data, PlaceOf(rocid, st)).time,
        events := Append(st.events, st.eventNumber, DataHits(data, PlaceOf(rocid, st)))), first)
    decreases |data|
  {
    hide DatumFits, Append, DatumHits, Step, EncodeDatum, DecodeFrom, Timestamp;
    if data == [] {
      AppendNothing(st.events, st.eventNumber);
    } else {
      var d, rest, next := data[0], data[1..], AfterDatum(data[0], rocid, st);
      AtSplit(words, j, EncodeDatum(d), EncodeData(rest));
      hide FoundAt;
      var k := j + |EncodeDatum(d)|;
      DatumDecoded(words, j, d, rocid, st, first);
      DecodeFirst(words, j, rocid, st, first, next, k);
      DataDecoded(words, k, rest, rocid, next, first);
      AppendTwice(st.events, st.eventNumber, DatumHits(d, PlaceOf(rocid, st)), DataHits(rest, PlaceOf(rocid, next)));
    }
  }

  // ----- Events and blocks -----

  function AfterEventHeader(st: DecoderState, first: Counter): DecoderState {
    var n := EventNumber(first, st.frame.index);
    st.(frame := Frame(st.frame.remaining - 1, st.frame.index + 1,
        if st.frame.index + 1 > st.frame.peak then st.frame.index + 1 else st.frame.peak),
      eventNumber := n, events := Open(st.events, n))
  }

  function AfterEvent(e: Event, rocid: Word, st: DecoderState, first: Counter): DecoderState {
    AfterEventHeader(st, first).(timestamp := PlaceAfterData(e.data, PlaceOf(rocid, st)).time,
      events := Deposit(st.events, EventNumber(first, st.frame.index), DataHits(e.data, PlaceOf(rocid, st))))
  }

  lemma EventHeaderDecoded(words: seq<Word>, j: nat, e: Event, rocid: Word, st: DecoderState, first: Counter)
    requires EventFits(e) && st.slot < 32 && st.frame.remaining > 0
    requires j < |words| && words[j] == EventHeaderWord(st.slot, e.time, e.triggerNum)
    ensures Step(words, j, rocid, st, first) == Decoded((AfterEventHeader(st, first), j))
  {
    EventHeaderBits(st.slot, e.time, e.triggerNum);
    hide GetBitsInRange, EventHeaderWord, DataType, Defining, Open, EventNumber, DatumFits;
  }

  lemma EventDecoded(words: seq<Word>, j: nat, e: Event, rocid: Word, st: DecoderState, first: Counter)
    requires EventFits(e) && FoundAt(words, j, EncodeEvent(st.slot, e)) && st.slot < 32 && st.frame.remaining > 0
    ensures j <= |words| && j + |EncodeEvent(st.slot, e)| <= |words|
    ensures DecodeFrom(words, j, rocid, st, first) ==
      DecodeFrom(words, j + |EncodeEvent(st.slot, e)|, rocid, AfterEvent(e, rocid, st, first), first)
  {
    hide DatumFits, Append, Step, EncodeData, DecodeFrom, DataHits, PlaceAfterData, EventHeaderWord, EventNumber, Open;
    AtFirst(words, j, EventHeaderWord(st.slot, e.time, e.triggerNum), EncodeData(e.data));
    hide FoundAt;
    EventHeaderDecoded(words, j, e, rocid, st, first);
    DecodeFirst(words, j, rocid, st, first, AfterEventHeader(st, first), j + 1);
    DataDecoded(words, j + 1, e.data, rocid, AfterEventHeader(st, first), first);
  }

  function AfterEvents(events: seq<Event>, rocid: Word, st: DecoderState, first: Counter): DecoderState
    decreases |events|
  {
    if events == [] then st else AfterEvents(events[1..], rocid, AfterEvent(events[0], rocid, st, first), first)
  }

  lemma {:induction false} EventsDecoded(words: seq<Word>, j: nat, events: seq<Event>, rocid: Word, st: DecoderState,
                                         first: Counter)
    requires forall i :: 0 <= i < |events| ==> EventFits(events[i])
    requires FoundAt(words, j, EncodeEvents(st.slot, events))
    requires st.slot < 32 && st.frame.remaining >= |events|
    ensures j <= |words| && j + |EncodeEvents(st.slot, events)| <= |words|
    ensures DecodeFrom(words, j, rocid, st, first) ==
      DecodeFrom(words, j + |EncodeEvents(st.slot, events)|, rocid, AfterEvents(events, rocid, st, first), first)
    decreases |events|
  {
    hide EventFits, Deposit, DecodeFrom, EncodeEvent, DataHits, PlaceAfterData, Step;
    if events != [] {
      var e, rest, next := events[0], events[1..], AfterEvent(events[0], rocid, st, first);
      AtSplit(words, j, EncodeEvent(st.slot, e), EncodeEvents(st.slot, rest));
      hide FoundAt;
      EventDecoded(words, j, e, rocid, st, first);
      EventsDecoded(words, j + |EncodeEvent(st.slot, e)|, rest, rocid, next, first);
    }
  }

  lemma {:induction false} PlaceKept(data: seq<Datum>, place: Place)
    ensures PlaceAfterData(data, place) == place.(time := PlaceAfterData(data, place).time)
  {
    hide Timestamp;
    if data != [] { PlaceKept(data[1..], PlaceAfterDatum(data[0], place)); }
  }

  // The records of a block's events are deposited from the current index on.
  lemma {:induction false} EventsDeposited(events: seq<Event>, rocid: Word, st: DecoderState, first: Counter,
                                           block: seq<seq<VftdcHit>>, k: nat)
    requires k + |events| == |block| && st.frame.index == k
    requires block[k..] == EventsHits(events, PlaceOf(rocid, st))
    ensures var end := AfterEvents(events, rocid, st, first);
      && end.events == DepositBlock(st.events, first, block, k)
      && PlaceOf(rocid, end) == PlaceAfterEvents(events, PlaceOf(rocid, st))
      && end.frame.remaining == st.frame.remaining - |events|
    decreases |events|
  {
    hide Deposit, DataHits, PlaceAfterData, EventNumber;
    if events != [] {
      var next := AfterEvent(events[0], rocid, st, first);
      assert block[k] == block[k..][0] && block[k..][1..] == block[k + 1..];
      PlaceKept(events[0].data, PlaceOf(rocid, st));
      EventsDeposited(events[1..], rocid, next, first, block, k + 1);
    }
  }

  function Begun(b: Block, st: DecoderState): DecoderState {
    st.(frame := st.frame.(remaining := |b.events|), slot := b.slot, boardId := b.boardId)
  }

  function AfterBlock(b: Block, rocid: Word, st: DecoderState, first: Counter): DecoderState {
    var inside := AfterEvents(b.events, rocid, Begun(b, st), first);
    inside.(frame := inside.frame.(remaining := -1, index := 0))
  }

  lemma BlockHeaderDecoded(words: seq<Word>, j: nat, b: Block, rocid: Word, st: DecoderState, first: Counter)
    requires BlockFits(b) && j < |words|
    requires words[j] == BlockHeaderWord(b.slot, b.boardId, b.number, b.declared)
    ensures Step(words, j, rocid, st, first) == Decoded((Begun(b, st), j))
  {
    BlockHeaderBits(b.slot, b.boardId, b.number, b.declared);
    hide GetBitsInRange, DefiningWord, DataType, Defining, BlockHeaderWord, Open, EventFits;
  }

  lemma TrailerDecoded(words: seq<Word>, j: nat, payload: Word, rocid: Word, st: DecoderState, first: Counter)
    requires payload < 0x800_0000 && st.frame.remaining == 0
    requires j < |words| && words[j] == DefiningWord(1, payload)
    ensures Step(words, j, rocid, st, first) == Decoded((st.(frame := st.frame.(remaining := -1, index := 0)), j))
  {
    DefiningWordParts(1, payload);
    hide GetBitsInRange, DefiningWord, DataType, Defining, Open;
  }

  lemma BlockDecoded(words: seq<Word>, j: nat, b: Block, rocid: Word, st: DecoderState, first: Counter)
    requires BlockFits(b) && FoundAt(words, j, EncodeBlock(b)) && st.frame.index == 0
    ensures j <= |words| && j + |EncodeBlock(b)| <= |words|
    ensures DecodeFrom(words, j, rocid, st, first) ==
      DecodeFrom(words, j + |EncodeBlock(b)|, rocid, AfterBlock(b, rocid, st, first), first)
    ensures var after, started := AfterBlock(b, rocid, st, first), BlockPlace(b, PlaceOf(rocid, st));
      && after.frame.index == 0
      && PlaceOf(rocid, after) == PlaceAfterEvents(b.events, started)
      && after.events == DepositBlock(st.events, first, EventsHits(b.events, started), 0)
  {
    hide EventFits, Step, DecodeFrom, EncodeEvents, EventsHits, AfterEvents, PlaceAfterEvents, DepositBlock;
    hide BlockHeaderWord, DefiningWord;
    var header, trailer := BlockHeaderWord(b.slot, b.boardId, b.number, b.declared), DefiningWord(1, b.trailer);
    var begun := Begun(b, st);
    var hits, closing := EventsHits(b.events, PlaceOf(rocid, begun)), AfterEvents(b.events, rocid, begun, first);
    AtFirst(words, j, header, EncodeEvents(b.slot, b.events) + [trailer]);
    AtSplit(words, j + 1, EncodeEvents(b.slot, b.events), [trailer]);
    var k := j + 1 + |EncodeEvents(b.slot, b.events)|;
    AtFirst(words, k, trailer, []);
    assert hits[0..] == hits;
    hide FoundAt;
    BlockHeaderDecoded(words, j, b, rocid, st, first);
    DecodeFirst(words, j, rocid, st, first, begun, j + 1);
    EventsDeposited(b.events, rocid, begun, first, hits, 0);
    TrailerDecoded(words, k, b.trailer, rocid, closing, first);
    EventsDecoded(words, j + 1, b.events, rocid, begun, first);
    DecodeFirst(words, k, rocid, closing, first, AfterBlock(b, rocid, st, first), k + 1);
  }

  lemma {:induction false} BlocksDecoded(words: seq<Word>, j: nat, blocks: seq<Block>, rocid: Word, st: DecoderState,
                                         first: Counter)
    requires (forall i :: 0 <= i < |blocks| ==> BlockFits(blocks[i])) && st.frame.index == 0
    requires FoundAt(words, j, EncodeBlocks(blocks)) && j + |EncodeBlocks(blocks)| == |words|
    ensures j <= |words| && DecodeFrom(words, j, rocid, st, first).Decoded?
    ensures DecodeFrom(words, j, rocid, st, first).value.events ==
      DepositBlocks(st.events, first, BlocksHits(blocks, PlaceOf(rocid, st)))
    decreases |blocks|
  {
    hide BlockFits, EncodeBlock, AfterBlock, DepositBlock, EventsHits, PlaceAfterEvents, Step;
    if blocks != [] {
      var b, rest := blocks[0], blocks[1..];
      AtSplit(words, j, EncodeBlock(b), EncodeBlocks(rest));
      hide FoundAt, DecodeFrom;
      BlockDecoded(words, j, b, rocid, st, first);
      BlocksDecoded(words, j + |EncodeBlock(b)|, rest, rocid, AfterBlock(b, rocid, st, first), first);
      var content := BlocksHits(blocks, PlaceOf(rocid, st));
      assert content[1..] ==
        BlocksHits(rest, PlaceAfterEvents(b.events, BlockPlace(b, PlaceOf(rocid, st))));
    }
  }

  // What a readout of the blocks contains, block by block and event by event.
  function Content(blocks: seq<Block>, rocid: Word): seq<seq<seq<VftdcHit>>> {
    BlocksHits(blocks, Place(rocid, 0, 0, 0))
  }

  // Decoding inverts encoding: every list of well-formed blocks is accepted,
  // the event numbers are the contiguous range from the first on, and the
  // event numbered first + k holds the in-order concatenation over the blocks
  // of the hits of their k-th events.
  lemma {:induction false} DecodeInvertsEncode(blocks: seq<Block>, rocid: Word, first: nat)
    requires forall i :: 0 <= i < |blocks| ==> BlockFits(blocks[i])
    ensures Decode(EncodeBlocks(blocks), rocid, first).Decoded?
    ensures var events := Decode(EncodeBlocks(blocks), rocid, first).value.events;
      && events.Keys == Numbers(Counter64(first), Longest(Content(blocks, rocid)))
      && forall k: nat :: k < Longest(Content(blocks, rocid)) ==>
        events[EventNumber(Counter64(first), k)] == Collected(Content(blocks, rocid), k)
  {
    var words := EncodeBlocks(blocks);
    assert words[0..|words|] == words;
    BlocksDecoded(words, 0, blocks, rocid, INITIAL, Counter64(first));
    hide EncodeBlocks, DecodeFrom, BlocksHits, DepositBlocks, Collected, Longest;
    FilledEvents(Counter64(first), Content(blocks, rocid));
  }

  // ----- Streams that go wrong -----

  // A data word before any event header, and a trigger time that ends the
  // stream: neither is rejected.
  lemma MisreadStreams(rocid: Word, first: nat)
    ensures Decode([BlockHeaderWord(1, 0, 0, 1), DataWord(0, 0, 0, 0, 0, 0)], rocid, first) == Undefined
    ensures Decode([BlockHeaderWord(1, 0, 0, 1), DefiningWord(3, 0)], rocid, first) == Undefined
  {
    DataWordBits(0, 0, 0, 0, 0, 0);
    DefiningWordParts(3, 0);
    hide DataWord, GetBitsInRange, DataType, Defining, DefiningWord, BlockHeaderWord;
    MisreadSecond([BlockHeaderWord(1, 0, 0, 1), DataWord(0, 0, 0, 0, 0, 0)], rocid, first);
    MisreadSecond([BlockHeaderWord(1, 0, 0, 1), DefiningWord(3, 0)], rocid, first);
  }

  lemma MisreadSecond(words: seq<Word>, rocid: Word, first: nat)
    requires |words| == 2 && words[0] == BlockHeaderWord(1, 0, 0, 1)
    requires Defining(words[1]) && (DataType(words[1]) == 3 || DataType(words[1]) == 7)
    ensures Decode(words, rocid, first) == Undefined
  {
    var b, counter := Block(1, 0, 0, 1, [Event(0, 0, [])], 0), Counter64(first);
    hide BlockHeaderWord, GetBitsInRange, DataType, Defining;
    BlockHeaderDecoded(words, 0, b, rocid, INITIAL, counter);
    DecodeFirst(words, 0, rocid, INITIAL, counter, Begun(b, INITIAL), 1);
    assert Step(words, 1, rocid, Begun(b, INITIAL), counter) == Undefined;
  }
}
