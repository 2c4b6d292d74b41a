// Encoding helicity decoder blocks, and what the decoder publishes for them.
module HelicityRoundTrip {
  import opened Common
  import opened Words
  import opened BlockFraming
  import opened HitTypes
  import opened Helicity
  import opened HelicityLaws

  // ----- What a readout contains -----

  // DecoderData carries any words, also words with bit 31 set: the decoder
  // skips them by count.
  datatype Datum =
    | TriggerTime(time1: Word, time2: Word, upper: Word)
    | DecoderData(upper: Word, declared: Word, payload: seq<Word>)
    | Filler(word: Word)

  datatype Event = Event(time: Word, triggerNum: Word, data: seq<Datum>)

  datatype Block = Block(slot: Word, moduleId: Word, number: Word, declared: Word, events: seq<Event>, trailer: Word)

  // Words that the decoder passes over.
  predicate Ignorable(w: Word) {
    !Defining(w) || DataType(w) !in {0, 1, 2, 3, 8}
  }

  predicate DatumFits(d: Datum) {
    match d
    case TriggerTime(t1, t2, upper) => t1 < 0x100_0000 && t2 < 0x100_0000 && upper < 256
    case DecoderData(upper, declared, payload) =>
      upper < 0x20_0000 && declared < 64 && declared as nat == |payload|
    case Filler(word) => Ignorable(word)
  }

  predicate EventFits(e: Event) {
    e.time < 1024 && e.triggerNum < 4096 && forall i :: 0 <= i < |e.data| ==> DatumFits(e.data[i])
  }

  predicate BlockFits(b: Block) {
    && b.slot < 32 && b.moduleId < 16 && b.number < 1024 && b.trailer < 0x800_0000
    && b.declared < 256 && b.declared as nat == |b.events|
    && forall i :: 0 <= i < |b.events| ==> EventFits(b.events[i])
  }

  // ----- Encoding -----

  function DecoderWord(upper: Word, declared: Word): Word {
    DefiningWord(8, AboveSixBits(upper, declared))
  }

  function AboveSixBits(upper: Word, declared: Word): Word {
    (upper << 6) | declared
  }

  function EncodeDatum(d: Datum): seq<Word> {
    match d
    case TriggerTime(t1, t2, upper) => [DefiningWord(3, t1), UpperAndTime(upper, t2)]
    case DecoderData(upper, declared, payload) => [DecoderWord(upper, declared)] + payload
    case Filler(word) => [word]
  }

  function EncodeData(data: seq<Datum>): seq<Word> {
    if data == [] then [] else EncodeDatum(data[0]) + EncodeData(data[1..])
  }

  function EncodeEvent(slot: Word, e: Event): seq<Word> {
    [EventHeaderWord(slot, e.time, e.triggerNum)] + EncodeData(e.data)
  }

  function EncodeEvents(slot: Word, events: seq<Event>): seq<Word> {
    if events == [] then [] else EncodeEvent(slot, events[0]) + EncodeEvents(slot, events[1..])
  }

  function EncodeBlock(b: Block): seq<Word> {
    [BlockHeaderWord(b.slot, b.moduleId, b.number, b.declared)] + EncodeEvents(b.slot, b.events) +
    [DefiningWord(1, b.trailer)]
  }

  function EncodeBlocks(blocks: seq<Block>): seq<Word> {
    if blocks == [] then [] else EncodeBlock(blocks[0]) + EncodeBlocks(blocks[1..])
  }

  // ----- What should be recovered -----

  function OriginAfterDatum(d: Datum, origin: Origin): Origin {
    if d.TriggerTime? then origin.(timestamp1 := d.time1, timestamp2 := d.time2) else origin
  }

  function DatumRecords(d: Datum, origin: Origin): Records {
    if d.DecoderData? then [RecordFrom(d.payload, |d.payload|, origin)] else []
  }

  function OriginAfterData(data: seq<Datum>, origin: Origin): Origin {
    if data == [] then origin else OriginAfterData(data[1..], OriginAfterDatum(data[0], origin))
  }

  function DataRecords(data: seq<Datum>, origin: Origin): Records {
    if data == [] then []
    else DatumRecords(data[0], origin) + DataRecords(data[1..], OriginAfterDatum(data[0], origin))
  }

  function OriginAfterEvents(events: seq<Event>, origin: Origin): Origin {
    if events == [] then origin
    else OriginAfterEvents(events[1..], OriginAfterData(events[0].data, origin.(triggerNum := events[0].triggerNum)))
  }

  // The records of each event of a block, in order.
  function EventsRecords(events: seq<Event>, origin: Origin): (r: seq<Records>)
    ensures |r| == |events|
  {
    if events == [] then []
    else
      var started := origin.(triggerNum := events[0].triggerNum);
      [DataRecords(events[0].data, started)] + EventsRecords(events[1..], OriginAfterData(events[0].data, started))
  }

  function BlockOrigin(b: Block, origin: Origin): Origin {
    origin.(slot := b.slot, moduleId := b.moduleId)
  }

  function BlocksRecords(blocks: seq<Block>, origin: Origin): (r: seq<seq<Records>>)
    ensures |r| == |blocks|
    ensures forall i :: 0 <= i < |blocks| ==> |r[i]| == |blocks[i].events|
  {
    if blocks == [] then []
    else
      var started := BlockOrigin(blocks[0], origin);
      [EventsRecords(blocks[0].events, started)] +
      BlocksRecords(blocks[1..], OriginAfterEvents(blocks[0].events, started))
  }

  function Content(blocks: seq<Block>, rocid: Word): seq<seq<Records>> {
    BlocksRecords(blocks, Origin(0, 0, 0, rocid, 0, 0))
  }

  // ----- Field by field -----

  lemma DecoderPayload(upper: Word, declared: Word)
    requires upper < 0x20_0000 && declared < 64
    ensures AboveSixBits(upper, declared) < 0x800_0000
    ensures AboveSixBits(upper, declared) & 63 == declared
  {
  }

  lemma LowBits(w: Word, payload: Word)
    requires w & 0x7FF_FFFF == payload
    ensures GetBitsInRange(w, 5, 0) == payload & 63
  {
  }

  lemma DecoderWordBits(upper: Word, declared: Word)
    requires upper < 0x20_0000 && declared < 64
    ensures var d := DecoderWord(upper, declared);
      Defining(d) && DataType(d) == 8 && GetBitsInRange(d, 5, 0) == declared
  {
    hide GetBitsInRange, DefiningWord, Defining, DataType, AboveSixBits;
    DecoderPayload(upper, declared);
    DefiningWordParts(8, AboveSixBits(upper, declared));
    LowBits(DecoderWord(upper, declared), AboveSixBits(upper, declared));
  }

  // The record depends only on the announced payload words.
  lemma PayloadRecovered(payload: seq<Word>, later: seq<Word>, origin: Origin)
    ensures RecordFrom(payload + later, |payload|, origin) == RecordFrom(payload, |payload|, origin)
    ensures Skip(payload + later, |payload|) == later
  {
    hide Flags;
    assert forall k: nat :: k > 0 ==>
      PayloadWord(payload + later, |payload|, k) == PayloadWord(payload, |payload|, k);
  }

  // ----- Records -----

  predicate FlagsFit(f: TriggerFlags) {
    && f.tstable < 2 && f.pattsync < 2 && f.pairsync < 2 && f.helicity < 2 && f.pat0Helicity < 2 && f.polarity < 2
    && f.patCount < 256
  }

  predicate RecordFits(r: HelicityRecord) {
    |r.counters| == 9 && |r.windows| == 4 && FlagsFit(r.flags)
  }

  function FlagBits(f: TriggerFlags): Word {
    f.tstable | (f.pattsync << 1) | (f.pairsync << 2) | (f.helicity << 3) | (f.pat0Helicity << 4) | (f.polarity << 5)
  }

  function CountBits(middle: Word, patCount: Word, upper: Word): Word {
    middle | (patCount << 2) | (upper << 10)
  }

  // The flags in their word; middle and upper are the bits that the decoder
  // ignores.
  function FlagsWord(f: TriggerFlags, middle: Word, upper: Word): Word {
    AboveSixBits(CountBits(middle, f.patCount, upper), FlagBits(f))
  }

  // The fourteen payload words of a record.
  function EncodeRecord(r: HelicityRecord, middle: Word, upper: Word): seq<Word> {
    r.counters + [FlagsWord(r.flags, middle, upper)] + r.windows
  }

  lemma FlagBitsRead(f: TriggerFlags)
    requires FlagsFit(f)
    ensures var w := FlagBits(f);
      && w < 64
      && GetBitsInRange(w, 0, 0) == f.tstable && GetBitsInRange(w, 1, 1) == f.pattsync
      && GetBitsInRange(w, 2, 2) == f.pairsync && GetBitsInRange(w, 3, 3) == f.helicity
      && GetBitsInRange(w, 4, 4) == f.pat0Helicity && GetBitsInRange(w, 5, 5) == f.polarity
  {
  }

  lemma CountBitsRead(middle: Word, patCount: Word, upper: Word)
    requires middle < 4 && patCount < 256 && upper < 0x1_0000
    ensures var w := CountBits(middle, patCount, upper);
      w < 0x400_0000 && GetBitsInRange(w, 9, 2) == patCount
  {
  }

  lemma HalvesRead(high: Word, low: Word)
    requires high < 0x400_0000 && low < 64
    ensures AboveSixBits(high, low) & 63 == low && AboveSixBits(high, low) >> 6 == high
  {
  }

  lemma BitsAbove(w: Word)
    ensures GetBitsInRange(w, 15, 8) == GetBitsInRange(w >> 6, 9, 2)
  {
  }

  lemma LowSixBits(w: Word)
    ensures GetBitsInRange(w, 0, 0) == GetBitsInRange(w & 63, 0, 0)
    ensures GetBitsInRange(w, 1, 1) == GetBitsInRange(w & 63, 1, 1)
    ensures GetBitsInRange(w, 2, 2) == GetBitsInRange(w & 63, 2, 2)
    ensures GetBitsInRange(w, 3, 3) == GetBitsInRange(w & 63, 3, 3)
    ensures GetBitsInRange(w, 4, 4) == GetBitsInRange(w & 63, 4, 4)
    ensures GetBitsInRange(w, 5, 5) == GetBitsInRange(w & 63, 5, 5)
  {
  }

  lemma FlagsRecovered(f: TriggerFlags, middle: Word, upper: Word)
    requires FlagsFit(f) && middle < 4 && upper < 0x1_0000
    ensures Flags(FlagsWord(f, middle, upper)) == f
  {
    hide GetBitsInRange, FlagBits, CountBits, AboveSixBits;
    FlagBitsRead(f);
    CountBitsRead(middle, f.patCount, upper);
    HalvesRead(CountBits(middle, f.patCount, upper), FlagBits(f));
    BitsAbove(FlagsWord(f, middle, upper));
    LowSixBits(FlagsWord(f, middle, upper));
  }

  lemma {:induction false} RecordRecovered(r: HelicityRecord, middle: Word, upper: Word)
    requires RecordFits(r) && middle < 4 && upper < 0x1_0000
    ensures RecordFrom(EncodeRecord(r, middle, upper), 14, r.origin) == r
  {
    RecordPartlyRecovered(r, middle, upper, [], 14);
    hide RecordFrom, Flags, FlagsWord, FlagsFit;
    var words, read := EncodeRecord(r, middle, upper), RecordFrom(EncodeRecord(r, middle, upper), 14, r.origin);
    assert words + [] == words && words[..14] == words;
    assert read.counters == r.counters && read.windows == r.windows;
  }

  // All nine counters, seven flags and four windows are read back as far as
  // the announced words go. Fields beyond them are zero, and words beyond the
  // record are passed over.
  lemma {:induction false} RecordPartlyRecovered(r: HelicityRecord, middle: Word, upper: Word, extra: seq<Word>, n: nat)
    requires RecordFits(r) && middle < 4 && upper < 0x1_0000 && n <= 14 + |extra|
    ensures var read := RecordFrom((EncodeRecord(r, middle, upper) + extra)[..n], n, r.origin);
      && read.origin == r.origin && |read.counters| == 9 && |read.windows| == 4
      && (forall i :: 0 <= i < 9 ==> read.counters[i] == if i < n then r.counters[i] else 0)
      && read.flags == (if 10 <= n then r.flags else TriggerFlags(0, 0, 0, 0, 0, 0, 0))
      && forall i :: 0 <= i < 4 ==> read.windows[i] == if i + 11 <= n then r.windows[i] else 0
  {
    FlagsRecovered(r.flags, middle, upper);
    NoFlags();
    hide Flags, FlagsWord, FlagsFit;
    var all := EncodeRecord(r, middle, upper) + extra;
    var words := all[..n];
    assert forall i :: 0 <= i < 9 && i < n ==> words[i] == all[i] == r.counters[i];
    assert n >= 10 ==> words[9] == all[9] == FlagsWord(r.flags, middle, upper);
    assert forall i :: 0 <= i < 4 && i + 11 <= n ==> words[i + 10] == all[i + 10] == r.windows[i];
  }

  lemma NoFlags()
    ensures Flags(0) == TriggerFlags(0, 0, 0, 0, 0, 0, 0)
  {
  }

  // ----- The decoder on encoded data -----

  // The state after a datum has been decoded inside an open event.
  function AfterDatum(d: Datum, st: DecoderState): DecoderState
    requires st.delay.pending.Some?
  {
    st.(origin := OriginAfterDatum(d, st.origin),
      delay := st.delay.(pending := Some(st.delay.pending.value + DatumRecords(d, st.origin))))
  }

  lemma TriggerTimeDecoded(d: Datum, rest: seq<Word>, st: DecoderState)
    requires DatumFits(d) && d.TriggerTime? && st.remaining >= 0 && st.delay.pending.Some?
    ensures Step(EncodeDatum(d) + rest, st) == Decoded((AfterDatum(d, st), rest))
  {
    hide GetBitsInRange, DefiningWord, DataType, Defining, UpperAndTime, RecordFrom;
    TriggerTimeBits(d.time1, d.time2, d.upper);
    var words := EncodeDatum(d) + rest;
    assert words[1..][0] == words[1] && words[1..][1..] == rest;
    assert st.delay.pending.value + [] == st.delay.pending.value;
  }

  lemma FillerDecoded(d: Datum, rest: seq<Word>, st: DecoderState)
    requires DatumFits(d) && d.Filler? && st.delay.pending.Some?
    ensures Step(EncodeDatum(d) + rest, st) == Decoded((AfterDatum(d, st), rest))
  {
    hide GetBitsInRange, DataType, Defining, RecordFrom;
    assert (EncodeDatum(d) + rest)[1..] == rest;
    assert st.delay.pending.value + [] == st.delay.pending.value;
  }

  lemma WordCountOf(d: Datum)
    requires DatumFits(d) && d.DecoderData?
    ensures var w := DecoderWord(d.upper, d.declared);
      Defining(w) && DataType(w) == 8 && WordCount(w) == |d.payload|
  {
    DecoderWordBits(d.upper, d.declared);
    hide GetBitsInRange, DefiningWord, DataType, Defining, DecoderWord;
  }

  lemma DecoderDataDecoded(d: Datum, rest: seq<Word>, st: DecoderState)
    requires DatumFits(d) && d.DecoderData? && st.remaining >= 0 && st.delay.pending.Some?
    ensures Step(EncodeDatum(d) + rest, st) == Decoded((AfterDatum(d, st), rest))
  {
    hide GetBitsInRange, DataType, Defining, RecordFrom, DecoderWord, WordCount, Skip, DatumFits;
    WordCountOf(d);
    PayloadRecovered(d.payload, rest, st.origin);
    assert (EncodeDatum(d) + rest)[1..] == d.payload + rest;
  }

  lemma DatumDecoded(d: Datum, rest: seq<Word>, st: DecoderState)
    requires DatumFits(d) && st.remaining >= 0 && st.delay.pending.Some?
    ensures EncodeDatum(d) + rest != [] && Step(EncodeDatum(d) + rest, st) == Decoded((AfterDatum(d, st), rest))
  {
    hide *;
    EncodedNonEmpty(d, rest);
    if d.TriggerTime? {
      TriggerTimeDecoded(d, rest, st);
    } else if d.DecoderData? {
      DecoderDataDecoded(d, rest, st);
    } else {
      FillerDecoded(d, rest, st);
    }
  }

  lemma EncodedNonEmpty(d: Datum, rest: seq<Word>)
    ensures EncodeDatum(d) + rest != []
  {
  }

  // One step of the decoder followed by the rest.
  lemma DecodeFirst(words: seq<Word>, st: DecoderState, next: DecoderState, rest: seq<Word>)
    requires words != [] && Step(words, st) == Decoded((next, rest))
    ensures Decode(words, st) == Decode(rest, next)
  {
    hide Step;
  }

  lemma {:induction false} DataDecoded(data: seq<Datum>, rest: seq<Word>, st: DecoderState)
    requires (forall i :: 0 <= i < |data| ==> DatumFits(data[i])) && st.remaining >= 0 && st.delay.pending.Some?
    ensures Decode(EncodeData(data) + rest, st) ==
      Decode(rest, st.(origin := OriginAfterData(data, st.origin),
        delay := st.delay.(pending := Some(st.delay.pending.value + DataRecords(data, st.origin)))))
  {
    hide DatumFits, DatumRecords, Step, EncodeDatum, Decode;
    var pending := st.delay.pending.value;
    if data == [] {
      assert pending + [] == pending;
      assert EncodeData(data) + rest == rest;
    } else {
      var later, next := EncodeData(data[1..]) + rest, AfterDatum(data[0], st);
      DatumDecoded(data[0], later, st);
      DecodeFirst(EncodeDatum(data[0]) + later, st, next, later);
      DataDecoded(data[1..], rest, next);
      var here, after := DatumRecords(data[0], st.origin), DataRecords(data[1..], next.origin);
      assert pending + here + after == pending + (here + after);
      assert EncodeData(data) + rest == EncodeDatum(data[0]) + later;
    }
  }

  // ----- Events and blocks -----

  function AfterEventHeader(e: Event, st: DecoderState): DecoderState {
    DecoderState(st.remaining - 1, st.origin.(triggerNum := e.triggerNum), st.delay.OpenEvent())
  }

  function AfterEvent(e: Event, st: DecoderState): DecoderState {
    var origin := st.origin.(triggerNum := e.triggerNum);
    DecoderState(st.remaining - 1, OriginAfterData(e.data, origin),
      st.delay.OpenEvent().(pending := Some(DataRecords(e.data, origin))))
  }

  lemma EventHeaderDecoded(e: Event, rest: seq<Word>, st: DecoderState)
    requires EventFits(e) && st.origin.slot < 32 && st.remaining > 0
    ensures Step([EventHeaderWord(st.origin.slot, e.time, e.triggerNum)] + rest, st) ==
      Decoded((AfterEventHeader(e, st), rest))
  {
    EventHeaderBits(st.origin.slot, e.time, e.triggerNum);
    hide GetBitsInRange, DefiningWord, DataType, Defining, EventHeaderWord, RecordFrom, EventFits;
    assert ([EventHeaderWord(st.origin.slot, e.time, e.triggerNum)] + rest)[1..] == rest;
  }

  lemma EventDecoded(e: Event, rest: seq<Word>, st: DecoderState)
    requires EventFits(e) && st.origin.slot < 32 && st.remaining > 0
    ensures Decode(EncodeEvent(st.origin.slot, e) + rest, st) == Decode(rest, AfterEvent(e, st))
  {
    hide DatumFits, Step, EncodeData, Decode, DataRecords, OriginAfterData, EventHeaderWord;
    var header, later := EventHeaderWord(st.origin.slot, e.time, e.triggerNum), EncodeData(e.data) + rest;
    assert EncodeEvent(st.origin.slot, e) + rest == [header] + later;
    EventHeaderDecoded(e, later, st);
    DecodeFirst([header] + later, st, AfterEventHeader(e, st), later);
    DataDecoded(e.data, rest, AfterEventHeader(e, st));
    var records := DataRecords(e.data, st.origin.(triggerNum := e.triggerNum));
    assert [] + records == records;
  }

  lemma {:induction false} SlotKept(data: seq<Datum>, origin: Origin)
    ensures OriginAfterData(data, origin).slot == origin.slot
  {
    if data != [] { SlotKept(data[1..], OriginAfterDatum(data[0], origin)); }
  }

  lemma {:induction false} EventsDecoded(events: seq<Event>, rest: seq<Word>, st: DecoderState)
    requires (forall i :: 0 <= i < |events| ==> EventFits(events[i]))
    requires st.origin.slot < 32 && st.remaining >= |events|
    ensures Decode(EncodeEvents(st.origin.slot, events) + rest, st) ==
      Decode(rest, DecoderState(st.remaining - |events|, OriginAfterEvents(events, st.origin),
        AfterEvents(st.delay, EventsRecords(events, st.origin))))
    decreases |events|
  {
    hide EventFits, Step, Decode, EncodeEvent, DataRecords, OriginAfterData;
    if events == [] {
      assert EncodeEvents(st.origin.slot, events) + rest == rest;
    } else {
      var slot, next := st.origin.slot, AfterEvent(events[0], st);
      var later := EncodeEvents(slot, events[1..]) + rest;
      EventDecoded(events[0], later, st);
      SlotKept(events[0].data, st.origin.(triggerNum := events[0].triggerNum));
      EventsDecoded(events[1..], rest, next);
      assert EncodeEvents(slot, events) + rest == EncodeEvent(slot, events[0]) + later;
      var records := EventsRecords(events, st.origin);
      assert records[1..] == EventsRecords(events[1..], next.origin);
    }
  }

  function AfterBlock(b: Block, st: DecoderState, last: bool): DecoderState {
    var started := BlockOrigin(b, st.origin);
    DecoderState(-1, OriginAfterEvents(b.events, started),
      AfterEvents(st.delay, EventsRecords(b.events, started)).CloseBlock(last))
  }

  lemma BlockHeaderDecoded(b: Block, rest: seq<Word>, st: DecoderState)
    requires BlockFits(b)
    ensures Step([BlockHeaderWord(b.slot, b.moduleId, b.number, b.declared)] + rest, st) ==
      Decoded((st.(remaining := |b.events|, origin := BlockOrigin(b, st.origin)), rest))
  {
    BlockHeaderBits(b.slot, b.moduleId, b.number, b.declared);
    hide GetBitsInRange, DefiningWord, DataType, Defining, BlockHeaderWord, RecordFrom, EventFits;
    assert ([BlockHeaderWord(b.slot, b.moduleId, b.number, b.declared)] + rest)[1..] == rest;
  }

  lemma TrailerDecoded(payload: Word, rest: seq<Word>, st: DecoderState)
    requires payload < 0x800_0000 && st.remaining == 0
    ensures Step([DefiningWord(1, payload)] + rest, st) ==
      Decoded((st.(remaining := -1, delay := st.delay.CloseBlock(rest == [])), rest))
  {
    DefiningWordParts(1, payload);
    hide GetBitsInRange, DefiningWord, DataType, Defining, RecordFrom;
    assert ([DefiningWord(1, payload)] + rest)[1..] == rest;
  }

  lemma BlockDecoded(b: Block, rest: seq<Word>, st: DecoderState)
    requires BlockFits(b)
    ensures Decode(EncodeBlock(b) + rest, st) == Decode(rest, AfterBlock(b, st, rest == []))
  {
    hide EventFits, Step, Decode, EncodeEvents, EventsRecords, AfterEvents, OriginAfterEvents;
    var header, trailer := BlockHeaderWord(b.slot, b.moduleId, b.number, b.declared), DefiningWord(1, b.trailer);
    hide BlockHeaderWord, DefiningWord;
    var begun := st.(remaining := |b.events|, origin := BlockOrigin(b, st.origin));
    var inner := EncodeEvents(b.slot, b.events) + ([trailer] + rest);
    assert EncodeBlock(b) + rest == [header] + inner;
    BlockHeaderDecoded(b, inner, st);
    DecodeFirst([header] + inner, st, begun, inner);
    EventsDecoded(b.events, [trailer] + rest, begun);
    var closing := DecoderState(0, OriginAfterEvents(b.events, begun.origin),
      AfterEvents(st.delay, EventsRecords(b.events, begun.origin)));
    TrailerDecoded(b.trailer, rest, closing);
    DecodeFirst([trailer] + rest, closing, AfterBlock(b, st, rest == []), rest);
  }

  lemma {:induction false} TailDecoded(tail: seq<Word>, st: DecoderState)
    requires forall i :: 0 <= i < |tail| ==> Ignorable(tail[i])
    ensures Decode(tail, st) == Decoded(st)
  {
    hide GetBitsInRange, Defining, DataType;
    if tail != [] { TailDecoded(tail[1..], st); }
  }

  lemma {:induction false} BlocksDecoded(blocks: seq<Block>, tail: seq<Word>, st: DecoderState)
    requires forall i :: 0 <= i < |blocks| ==> BlockFits(blocks[i])
    requires forall i :: 0 <= i < |tail| ==> Ignorable(tail[i])
    ensures var r := Decode(EncodeBlocks(blocks) + tail, st);
      r.Decoded? && r.value.delay == AfterBlocks(st.delay, BlocksRecords(blocks, st.origin), tail == [])
    decreases |blocks|
  {
    hide BlockFits, Ignorable, EncodeBlock, Decode, EventsRecords, OriginAfterEvents, AfterEvents;
    if blocks == [] {
      assert EncodeBlocks(blocks) + tail == tail;
      TailDecoded(tail, st);
    } else {
      var later := EncodeBlocks(blocks[1..]) + tail;
      EncodedEmpty(blocks[1..], tail);
      var next := AfterBlock(blocks[0], st, later == []);
      BlockDecoded(blocks[0], later, st);
      BlocksDecoded(blocks[1..], tail, next);
      assert EncodeBlocks(blocks) + tail == EncodeBlock(blocks[0]) + later;
      var content := BlocksRecords(blocks, st.origin);
      assert content[1..] == BlocksRecords(blocks[1..], next.origin);
    }
  }

  lemma EncodedEmpty(blocks: seq<Block>, tail: seq<Word>)
    ensures EncodeBlocks(blocks) + tail == [] <==> blocks == [] && tail == []
  {
  }

  // Every list of well-formed blocks, with any words after the last trailer
  // that the decoder passes over, is accepted, and these events come out.
  lemma {:induction false} DelayedEmission(blocks: seq<Block>, tail: seq<Word>, rocid: Word)
    requires forall i :: 0 <= i < |blocks| ==> BlockFits(blocks[i])
    requires forall i :: 0 <= i < |tail| ==> Ignorable(tail[i])
    ensures var r := Decode(EncodeBlocks(blocks) + tail, InitialState(rocid));
      r.Decoded? && r.value.delay.emitted == Emissions(Content(blocks, rocid), None, tail == [])
  {
    BlocksDecoded(blocks, tail, InitialState(rocid));
    hide EncodeBlocks, Decode, BlocksRecords, AfterBlocks, Emissions;
    BlocksEmitted(Delay(None, 0, []), Content(blocks, rocid), tail == []);
    var emissions := Emissions(Content(blocks, rocid), None, tail == []);
    assert [] + emissions == emissions;
  }

  // Exactly when the published events are those of the blocks, the k-th of
  // each block under the number first + k.
  lemma {:induction false} NumberedRightIff(blocks: seq<Block>, tail: seq<Word>, rocid: Word)
    requires forall i :: 0 <= i < |blocks| ==> BlockFits(blocks[i])
    requires forall i :: 0 <= i < |tail| ==> Ignorable(tail[i])
    ensures var r := Decode(EncodeBlocks(blocks) + tail, InitialState(rocid));
      && r.Decoded?
      && (r.value.delay.emitted == Expected(Content(blocks, rocid)) <==>
        NumberedRight(Content(blocks, rocid), tail == []))
  {
    hide *;
    DelayedEmission(blocks, tail, rocid);
    EmissionsRight(Content(blocks, rocid), tail == []);
  }

  // One block of n >= 1 events whose trailer is the last word: exactly n
  // events come out, numbered from the first on, each with its own records.
  lemma OneBlockRoundTrip(b: Block, rocid: Word)
    requires BlockFits(b) && b.events != []
    ensures var r := Decode(EncodeBlock(b), InitialState(rocid));
      && r.Decoded?
      && r.value.delay.emitted == Numbered(0, EventsRecords(b.events, BlockOrigin(b, Origin(0, 0, 0, rocid, 0, 0))))
  {
    hide BlockFits, EncodeBlock, Decode, EventsRecords;
    assert EncodeBlocks([b]) + [] == EncodeBlock(b) by {
      assert EncodeBlocks([b]) == EncodeBlock(b) + EncodeBlocks([]) == EncodeBlock(b);
    }
    NumberedRightIff([b], [], rocid);
    var content := Content([b], rocid);
    assert content[..0] == [];
    assert content == [EventsRecords(b.events, BlockOrigin(b, Origin(0, 0, 0, rocid, 0, 0)))];
    assert Expected(content) == Numbered(0, content[0]) + Expected(content[1..]);
    assert content[1..] == [] && Numbered(0, content[0]) + [] == Numbered(0, content[0]);
  }

  // ----- Streams that go wrong -----

  // Two blocks of one event each: the second event gets the number after the
  // first one's, although both are the first of their block.
  lemma TwoBlocksMisnumbered(b: Block, c: Block, rocid: Word)
    requires BlockFits(b) && BlockFits(c) && |b.events| == 1 && |c.events| == 1
    ensures var r, content := Decode(EncodeBlocks([b, c]), InitialState(rocid)), Content([b, c], rocid);
      && r.Decoded?
      && Expected(content) == [(0, content[0][0]), (0, content[1][0])]
      && r.value.delay.emitted == [(0, content[0][0]), (1, content[1][0])]
  {
    var content := Content([b, c], rocid);
    DelayedEmission([b, c], [], rocid);
    assert EncodeBlocks([b, c]) + [] == EncodeBlocks([b, c]);
    hide EncodeBlocks, Decode, BlocksRecords, BlockFits;
    SingleOf(content[0]);
    SingleOf(content[1]);
    assert content == [content[0], content[1]];
    TwoSingles(content[0][0], content[1][0]);
  }

  lemma SingleOf<T>(s: seq<T>)
    requires |s| == 1
    ensures s == [s[0]]
  {
  }

  lemma TwoSingles(r: Records, s: Records)
    ensures Expected([[r], [s]]) == [(0, r), (0, s)]
    ensures Emissions([[r], [s]], None, true) == [(0, r), (1, s)]
  {
    assert [[r], [s]][1..] == [[s]] && [[s]][1..] == [];
    ExpectedSingles(r, s);
    hide Expected;
    assert Emissions([[s]], Some(r), true) == [(0, r)] + Numbered(1, []) + [(1, s)];
    assert Emissions([[r], [s]], None, true) == [] + Numbered(0, []) + Emissions([[s]], Some(r), true);
  }

  lemma ExpectedSingles(r: Records, s: Records)
    ensures Expected([[r], [s]]) == [(0, r), (0, s)]
  {
    assert [[r], [s]][1..] == [[s]] && [[s]][1..] == [];
    assert Numbered(0, [r]) == [(0, r)] && Numbered(0, [s]) == [(0, s)];
    assert Expected([[s]]) == [(0, s)];
  }

  // One block with any word after its trailer that the decoder passes over:
  // the last event is never published.
  lemma LastEventLost(b: Block, w: Word, rocid: Word)
    requires BlockFits(b) && b.events != [] && Ignorable(w)
    ensures var r, content := Decode(EncodeBlock(b) + [w], InitialState(rocid)), Content([b], rocid);
      && r.Decoded?
      && r.value.delay.emitted == Numbered(0, AllButLast(content[0]))
      && Expected(content) == Numbered(0, content[0])
  {
    var content := Content([b], rocid);
    assert EncodeBlocks([b]) == EncodeBlock(b) + EncodeBlocks([]) == EncodeBlock(b);
    DelayedEmission([b], [w], rocid);
    hide EncodeBlocks, EncodeBlock, Decode, BlocksRecords, BlockFits, Ignorable;
    assert Emissions(content, None, false) == [] + Numbered(0, AllButLast(content[0])) + [];
    assert content[1..] == [] && Numbered(0, content[0]) + [] == Numbered(0, content[0]);
  }

  // Decoder data before any event header, and a trigger time that ends the
  // stream: neither is rejected.
  lemma MisreadStreams(rocid: Word)
    ensures Decode([BlockHeaderWord(1, 0, 0, 1), DecoderWord(0, 0)], InitialState(rocid)) == Undefined
    ensures Decode([BlockHeaderWord(1, 0, 0, 1), DefiningWord(3, 0)], InitialState(rocid)) == Undefined
  {
    DecoderWordBits(0, 0);
    DefiningWordParts(3, 0);
    hide DecoderWord, GetBitsInRange, DataType, Defining, DefiningWord, BlockHeaderWord, Decode;
    MisreadSecond(DecoderWord(0, 0), rocid);
    MisreadSecond(DefiningWord(3, 0), rocid);
  }

  lemma MisreadSecond(w: Word, rocid: Word)
    requires Defining(w) && (DataType(w) == 3 || DataType(w) == 8)
    ensures Decode([BlockHeaderWord(1, 0, 0, 1), w], InitialState(rocid)) == Undefined
  {
    var b, st := Block(1, 0, 0, 1, [Event(0, 0, [])], 0), InitialState(rocid);
    hide BlockHeaderWord, GetBitsInRange, DataType, Defining, RecordFrom;
    BlockHeaderDecoded(b, [w], st);
    assert [BlockHeaderWord(1, 0, 0, 1)] + [w] == [BlockHeaderWord(1, 0, 0, 1), w];
    assert Step([w], st.(remaining := 1, origin := BlockOrigin(b, st.origin))) == Undefined;
  }
}
