// Encoding FADC250 blocks, and the proof that the decoder inverts it.
module FadcRoundTrip {
  import opened Common
  import opened Words
  import opened EventMaps
  import opened BlockFraming
  import opened HitTypes
  import opened Fadc

  // ----- What a readout contains -----

  datatype Datum =
    | TriggerTime(time1: Word, time2: Word, upper: Word)
    | WaveformData(chan: Word, length: Word, samples: seq<Word>)
    | IntegralData(chan: Word, number: Word, integral: Word)
    | TimeData(chan: Word, number: Word, quality: Word, coarse: Word, fine: Word)
    | PulseData(eventBits: Word, chan: Word, quality: Word, sum: Word, pulses: seq<PulseMeasurement>)
    | PeakData(chan: Word, number: Word, vmin: Word, vpeak: Word)
    | Filler(kind: Word, payload: Word)

  datatype Event = Event(time: Word, triggerNum: Word, data: seq<Datum>)

  datatype Block = Block(slot: Word, moduleId: Word, number: Word, declared: Word, events: seq<Event>, trailer: Word)

  predicate SampleFits(s: Word) {
    s < 8192
  }

  predicate PulseFits(p: PulseMeasurement) {
    && p.integralSum < 0x4_0000 && p.integralQuality < 8 && p.nsamplesAboveTh < 512
    && p.coarseTime < 512 && p.fineTime < 64 && p.pulsePeak < 4096 && p.timeQuality < 8
  }

  predicate DatumFits(d: Datum) {
    match d
    case TriggerTime(t1, t2, upper) => t1 < 0x100_0000 && t2 < 0x100_0000 && upper < 256
    case WaveformData(chan, length, samples) =>
      && chan < 16 && length < 4096 && length as nat == |samples|
      && forall i :: 0 <= i < |samples| ==> SampleFits(samples[i])
    case IntegralData(chan, number, integral) => chan < 16 && number < 4 && integral < 0x20_0000
    case TimeData(chan, number, quality, coarse, fine) =>
      chan < 16 && number < 4 && quality < 4 && coarse < 1024 && fine < 64
    case PulseData(bits, chan, quality, sum, pulses) =>
      bits < 256 && chan < 16 && quality < 2 && sum < 16384 && forall i :: 0 <= i < |pulses| ==> PulseFits(pulses[i])
    case PeakData(chan, number, vmin, vpeak) => chan < 16 && number < 4 && vmin < 512 && vpeak < 4096
    case Filler(kind, payload) => (kind == 5 || kind == 6 || 11 <= kind < 16) && payload < 0x800_0000
  }

  predicate EventFits(e: Event) {
    e.time < 1024 && e.triggerNum < 4096 && forall i :: 0 <= i < |e.data| ==> DatumFits(e.data[i])
  }

  predicate BlockFits(b: Block) {
    && b.slot < 32 && b.moduleId < 16 && b.number < 1024 && b.trailer < 0x800_0000
    && b.declared < 256 && b.declared as nat == |b.events|
    && forall i :: 0 <= i < |b.events| ==> EventFits(b.events[i])
  }

  // ----- Encoding -----

  // Two samples a word, high half first; a missing second sample is flagged.
  function SampleWords(samples: seq<Word>): seq<Word>
  {
    if samples == [] then []
    else if |samples| == 1 then [LastSampleWord(samples[0])]
    else [SampleWord(samples[0], samples[1])] + SampleWords(samples[2..])
  }

  function SampleWord(s0: Word, s1: Word): Word {
    (s0 << 16) | s1
  }

  function LastSampleWord(s0: Word): Word {
    (s0 << 16) | 0x2000
  }

  function PulseWord2(p: PulseMeasurement): Word {
    (p.integralSum << 12) | (p.integralQuality << 9) | p.nsamplesAboveTh
  }

  function PulseWord3(p: PulseMeasurement): Word {
    (p.coarseTime << 21) | (p.fineTime << 15) | (p.pulsePeak << 3) | p.timeQuality
  }

  function PulseWords(pulses: seq<PulseMeasurement>): seq<Word> {
    if pulses == [] then []
    else [PulseWord2(pulses[0]), PulseWord3(pulses[0])] + PulseWords(pulses[1..])
  }

  function DatumKind(d: Datum): Word {
    match d
    case TriggerTime(_, _, _) => 3
    case WaveformData(_, _, _) => 4
    case IntegralData(_, _, _) => 7
    case TimeData(_, _, _, _, _) => 8
    case PulseData(_, _, _, _, _) => 9
    case PeakData(_, _, _, _) => 10
    case Filler(kind, _) => kind
  }

  function WaveformWord(chan: Word, length: Word): Word {
    DefiningWord(4, (chan << 23) | length)
  }

  function IntegralWord(chan: Word, number: Word, integral: Word): Word {
    DefiningWord(7, (chan << 23) | (number << 21) | integral)
  }

  function TimeWord(chan: Word, number: Word, quality: Word, coarse: Word, fine: Word): Word {
    DefiningWord(8, (chan << 23) | (number << 21) | (quality << 19) | (coarse << 6) | fine)
  }

  function PulseWord1(eventBits: Word, chan: Word, quality: Word, sum: Word): Word {
    DefiningWord(9, (eventBits << 19) | (chan << 15) | (quality << 14) | sum)
  }

  function PeakWord(chan: Word, number: Word, vmin: Word, vpeak: Word): Word {
    DefiningWord(10, (chan << 23) | (number << 21) | (vmin << 12) | vpeak)
  }

  function DatumWord(d: Datum): Word {
    match d
    case TriggerTime(t1, _, _) => DefiningWord(3, t1)
    case WaveformData(chan, length, _) => WaveformWord(chan, length)
    case IntegralData(chan, number, integral) => IntegralWord(chan, number, integral)
    case TimeData(chan, number, quality, coarse, fine) => TimeWord(chan, number, quality, coarse, fine)
    case PulseData(bits, chan, quality, sum, _) => PulseWord1(bits, chan, quality, sum)
    case PeakData(chan, number, vmin, vpeak) => PeakWord(chan, number, vmin, vpeak)
    case Filler(kind, payload) => DefiningWord(kind, payload)
  }

  function Continuation(d: Datum): seq<Word> {
    match d
    case TriggerTime(_, t2, upper) => [UpperAndTime(upper, t2)]
    case WaveformData(_, _, samples) => SampleWords(samples)
    case PulseData(_, _, _, _, pulses) => PulseWords(pulses)
    case _ => []
  }

  function EncodeDatum(d: Datum): seq<Word> {
    [DatumWord(d)] + Continuation(d)
  }

  function EncodeData(data: seq<Datum>): seq<Word> {
    if data == [] then [] else EncodeDatum(data[0]) + EncodeData(data[1..])
  }

  function EncodeEvent(slot: Word, e: Event): seq<Word> {
    [EventHeaderWord(slot, e.time, e.triggerNum)] + EncodeData(e.data)
  }

  function EncodeEvents(slot: Word, events: seq<Event>): seq<Word> {
    if events == [] then [] else EncodeEvent(slot, events[0]) + EncodeEvents(slot, events[1..])
  }

  function EncodeBlock(b: Block): seq<Word> {
    [BlockHeaderWord(b.slot, b.moduleId, b.number, b.declared)] + EncodeEvents(b.slot, b.events) +
    [DefiningWord(1, b.trailer)]
  }

  function EncodeBlocks(blocks: seq<Block>): seq<Word> {
    if blocks == [] then [] else EncodeBlock(blocks[0]) + EncodeBlocks(blocks[1..])
  }

  // ----- What should be recovered -----

  // The registers after a datum: only a trigger time changes them, and they
  // persist into later events and blocks.
  function OriginAfterDatum(d: Datum, origin: Origin): Origin {
    if d.TriggerTime? then origin.(timestamp1 := d.time1, timestamp2 := d.time2) else origin
  }

  function DatumHits(d: Datum, origin: Origin): seq<FadcHit> {
    match d
    case TriggerTime(_, _, _) => []
    case WaveformData(chan, _, samples) => [Waveform(origin, chan, samples)]
    case IntegralData(chan, number, integral) => [Integral(origin, chan, number, integral)]
    case TimeData(chan, number, quality, coarse, fine) => [Time(origin, chan, number, quality, coarse, fine)]
    case PulseData(_, chan, quality, sum, pulses) =>
      seq(|pulses|, i requires 0 <= i < |pulses| => Pulse(origin, chan, quality, sum, pulses[i]))
    case PeakData(chan, number, vmin, vpeak) => [Peak(origin, chan, number, vmin, vpeak)]
    case Filler(_, _) => []
  }

  function OriginAfterData(data: seq<Datum>, origin: Origin): Origin {
    if data == [] then origin else OriginAfterData(data[1..], OriginAfterDatum(data[0], origin))
  }

  function DataHits(data: seq<Datum>, origin: Origin): seq<FadcHit> {
    if data == [] then []
    else DatumHits(data[0], origin) + DataHits(data[1..], OriginAfterDatum(data[0], origin))
  }

  function OriginAfterEvents(events: seq<Event>, origin: Origin): Origin {
    if events == [] then origin
    else OriginAfterEvents(events[1..], OriginAfterData(events[0].data, origin.(triggerNum := events[0].triggerNum)))
  }

  // The hits of each event of a block, in order.
  function EventsHits(events: seq<Event>, origin: Origin): (r: seq<seq<FadcHit>>)
    ensures |r| == |events|
  {
    if events == [] then []
    else
      var started := origin.(triggerNum := events[0].triggerNum);
      [DataHits(events[0].data, started)] + EventsHits(events[1..], OriginAfterData(events[0].data, started))
  }

  function BlockOrigin(b: Block, origin: Origin): Origin {
    origin.(slot := b.slot, moduleId := b.moduleId)
  }

  function BlocksHits(blocks: seq<Block>, origin: Origin): (r: seq<seq<seq<FadcHit>>>)
    ensures |r| == |blocks|
    ensures forall i :: 0 <= i < |blocks| ==> |r[i]| == |blocks[i].events|
  {
    if blocks == [] then []
    else
      var started := BlockOrigin(blocks[0], origin);
      [EventsHits(blocks[0].events, started)] +
      BlocksHits(blocks[1..], OriginAfterEvents(blocks[0].events, started))
  }

  // ----- Field by field -----

  lemma SampleBits(s0: Word, s1: Word)
    requires SampleFits(s0) && SampleFits(s1)
    ensures GetBitsInRange(SampleWord(s0, s1), 31, 31) == 0
    ensures GetBitsInRange(SampleWord(s0, s1), 29, 29) == 0 && GetBitsInRange(SampleWord(s0, s1), 28, 16) == s0
    ensures GetBitsInRange(SampleWord(s0, s1), 13, 13) == 0 && GetBitsInRange(SampleWord(s0, s1), 12, 0) == s1
  {
  }

  lemma LastSampleBits(s0: Word)
    requires SampleFits(s0)
    ensures GetBitsInRange(LastSampleWord(s0), 31, 31) == 0
    ensures GetBitsInRange(LastSampleWord(s0), 29, 29) == 0 && GetBitsInRange(LastSampleWord(s0), 28, 16) == s0
    ensures GetBitsInRange(LastSampleWord(s0), 13, 13) == 1
  {
  }

  lemma SampleWordFields(s0: Word, s1: Word)
    requires SampleFits(s0) && SampleFits(s1)
    ensures GetBitsInRange(SampleWord(s0, s1), 31, 31) == 0 && WordSamples(SampleWord(s0, s1)) == [s0, s1]
    ensures GetBitsInRange(LastSampleWord(s0), 31, 31) == 0 && WordSamples(LastSampleWord(s0)) == [s0]
  {
    hide GetBitsInRange, SampleWord, LastSampleWord, SampleFits;
    SampleBits(s0, s1);
    LastSampleBits(s0);
  }

  lemma PulseWordFields(p: PulseMeasurement)
    requires PulseFits(p)
    ensures GetBitsInRange(PulseWord2(p), 31, 31) == 0 && GetBitsInRange(PulseWord3(p), 31, 31) == 0
    ensures PulseFields(PulseWord2(p), PulseWord3(p)) == p
  {
  }

  lemma IntegralBits(chan: Word, number: Word, integral: Word)
    requires chan < 16 && number < 4 && integral < 0x20_0000
    ensures var d := IntegralWord(chan, number, integral);
      && Defining(d) && DataType(d) == 7 && GetBitsInRange(d, 26, 23) == chan && GetBitsInRange(d, 22, 21) == number
      && GetBitsInRange(d, 20, 0) == integral
  {
  }

  lemma TimeBits(chan: Word, number: Word, quality: Word, coarse: Word, fine: Word)
    requires chan < 16 && number < 4 && quality < 4 && coarse < 1024 && fine < 64
    ensures var d := TimeWord(chan, number, quality, coarse, fine);
      && Defining(d) && DataType(d) == 8 && GetBitsInRange(d, 26, 23) == chan && GetBitsInRange(d, 22, 21) == number
      && GetBitsInRange(d, 20, 19) == quality && GetBitsInRange(d, 15, 6) == coarse && GetBitsInRange(d, 5, 0) == fine
  {
  }

  lemma PeakBits(chan: Word, number: Word, vmin: Word, vpeak: Word)
    requires chan < 16 && number < 4 && vmin < 512 && vpeak < 4096
    ensures var d := PeakWord(chan, number, vmin, vpeak);
      && Defining(d) && DataType(d) == 10 && GetBitsInRange(d, 26, 23) == chan && GetBitsInRange(d, 22, 21) == number
      && GetBitsInRange(d, 20, 12) == vmin && GetBitsInRange(d, 11, 0) == vpeak
  {
  }

  lemma WaveformBits(chan: Word, length: Word)
    requires chan < 16 && length < 4096
    ensures var d := WaveformWord(chan, length);
      Defining(d) && DataType(d) == 4 && GetBitsInRange(d, 26, 23) == chan && GetBitsInRange(d, 11, 0) == length
  {
  }

  lemma PulseBits(bits: Word, chan: Word, quality: Word, sum: Word)
    requires bits < 256 && chan < 16 && quality < 2 && sum < 16384
    ensures var d := PulseWord1(bits, chan, quality, sum);
      && Defining(d) && DataType(d) == 9 && GetBitsInRange(d, 26, 19) == bits && GetBitsInRange(d, 18, 15) == chan
      && GetBitsInRange(d, 14, 14) == quality && GetBitsInRange(d, 13, 0) == sum
  {
  }

  // What a datum's first word is, and what hits it describes together with
  // its continuation words.
  lemma DatumWordType(d: Datum)
    requires DatumFits(d)
    ensures Defining(DatumWord(d)) && DataType(DatumWord(d)) == DatumKind(d)
  {
    hide GetBitsInRange, DefiningWord, DataType, Defining;
    hide WaveformWord, IntegralWord, TimeWord, PulseWord1, PeakWord, UpperAndTime;
    match d
    case TriggerTime(t1, t2, upper) => TriggerTimeBits(t1, t2, upper);
    case WaveformData(chan, length, _) => WaveformBits(chan, length);
    case IntegralData(chan, number, integral) => IntegralBits(chan, number, integral);
    case TimeData(chan, number, quality, coarse, fine) => TimeBits(chan, number, quality, coarse, fine);
    case PulseData(bits, chan, quality, sum, _) => PulseBits(bits, chan, quality, sum);
    case PeakData(chan, number, vmin, vpeak) => PeakBits(chan, number, vmin, vpeak);
    case Filler(kind, payload) => DefiningWordParts(kind, payload);
  }

  lemma SingleWordHits(d: Datum, origin: Origin)
    requires DatumFits(d) && (d.IntegralData? || d.TimeData? || d.PeakData?)
    ensures [SingleWordHit(DatumWord(d), origin)] == DatumHits(d, origin)
  {
    hide GetBitsInRange, DefiningWord, DataType, IntegralWord, TimeWord, PeakWord;
    match d
    case IntegralData(chan, number, integral) => IntegralBits(chan, number, integral);
    case TimeData(chan, number, quality, coarse, fine) => TimeBits(chan, number, quality, coarse, fine);
    case PeakData(chan, number, vmin, vpeak) => PeakBits(chan, number, vmin, vpeak);
  }

  // ----- Continuation words -----

  // The words that follow a datum start with a defining word, if there are
  // any: the pulse parser would read on otherwise.
  ghost predicate StartsDefining(words: seq<Word>) {
    words == [] || Defining(words[0])
  }

  lemma TakeFirst(w: Word, more: seq<Word>, n: nat)
    requires GetBitsInRange(w, 31, 31) == 0 && n > 0
    ensures TakeSamples([w] + more, n) == Then(WordSamples(w), TakeSamples(more, n - 1))
  {
    hide GetBitsInRange, WordSamples;
    assert ([w] + more)[1..] == more;
  }

  lemma {:induction false} SampleWordCount(samples: seq<Word>)
    ensures |SampleWords(samples)| == (|samples| + 1) / 2
  {
    hide LastSampleWord, SampleWord;
    if |samples| > 1 { SampleWordCount(samples[2..]); }
  }

  lemma {:induction false} SamplesRecovered(samples: seq<Word>, rest: seq<Word>)
    requires forall i :: 0 <= i < |samples| ==> SampleFits(samples[i])
    ensures TakeSamples(SampleWords(samples) + rest, (|samples| + 1) / 2) == Some(samples)
  {
    hide GetBitsInRange, WordSamples, LastSampleWord, SampleWord, SampleFits;
    if |samples| == 1 {
      LastSampleTaken(samples[0], rest);
      assert samples == [samples[0]];
    } else if |samples| > 1 {
      hide TakeSamples;
      var w, later := SampleWord(samples[0], samples[1]), SampleWords(samples[2..]) + rest;
      assert SampleWords(samples) + rest == [w] + later;
      SamplesRecovered(samples[2..], rest);
      TakePair(samples[0], samples[1], later, samples[2..], (|samples| + 1) / 2);
      assert [samples[0], samples[1]] + samples[2..] == samples;
    }
  }

  lemma TakePair(s0: Word, s1: Word, later: seq<Word>, tail: seq<Word>, n: nat)
    requires SampleFits(s0) && SampleFits(s1) && n > 0
    requires TakeSamples(later, n - 1) == Some(tail)
    ensures TakeSamples([SampleWord(s0, s1)] + later, n) == Some([s0, s1] + tail)
  {
    hide GetBitsInRange, WordSamples, LastSampleWord, SampleWord, SampleFits, TakeSamples;
    SampleWordFields(s0, s1);
    TakeFirst(SampleWord(s0, s1), later, n);
  }

  lemma LastSampleTaken(s0: Word, rest: seq<Word>)
    requires SampleFits(s0)
    ensures TakeSamples(SampleWords([s0]) + rest, 1) == Some([s0])
  {
    SampleWordFields(s0, s0);
    hide GetBitsInRange, WordSamples, LastSampleWord, SampleWord, SampleFits;
    assert SampleWords([s0]) + rest == [LastSampleWord(s0)] + rest;
    TakeFirst(LastSampleWord(s0), rest, 1);
    assert [s0] + [] == [s0];
  }

  lemma NoPulses(rest: seq<Word>)
    requires StartsDefining(rest)
    ensures TakePulses(rest) == []
  {
  }

  lemma TakeFirstPulse(w2: Word, w3: Word, more: seq<Word>)
    requires GetBitsInRange(w2, 31, 31) == 0 && GetBitsInRange(w3, 31, 31) == 0
    ensures TakePulses([w2, w3] + more) == [PulseFields(w2, w3)] + TakePulses(more)
  {
    hide GetBitsInRange, PulseFields;
    assert ([w2, w3] + more)[2..] == more;
  }

  lemma TakePulse(p: PulseMeasurement, later: seq<Word>, tail: seq<PulseMeasurement>)
    requires PulseFits(p) && TakePulses(later) == tail
    ensures TakePulses([PulseWord2(p), PulseWord3(p)] + later) == [p] + tail
  {
    hide GetBitsInRange, PulseFields, PulseWord2, PulseWord3, PulseFits, TakePulses;
    PulseWordFields(p);
    TakeFirstPulse(PulseWord2(p), PulseWord3(p), later);
  }

  lemma {:induction false} PulsesRecovered(pulses: seq<PulseMeasurement>, rest: seq<Word>)
    requires forall i :: 0 <= i < |pulses| ==> PulseFits(pulses[i])
    requires StartsDefining(rest)
    ensures TakePulses(PulseWords(pulses) + rest) == pulses
    ensures |PulseWords(pulses)| == 2 * |pulses|
  {
    if pulses == [] {
      assert PulseWords(pulses) + rest == rest;
      NoPulses(rest);
    } else {
      hide GetBitsInRange, PulseFields, PulseWord2, PulseWord3, PulseFits, TakePulses, StartsDefining;
      PulsesRecovered(pulses[1..], rest);
      var w2, w3, later := PulseWord2(pulses[0]), PulseWord3(pulses[0]), PulseWords(pulses[1..]) + rest;
      assert PulseWords(pulses) + rest == [w2, w3] + later;
      TakePulse(pulses[0], later, pulses[1..]);
      assert [pulses[0]] + pulses[1..] == pulses;
    }
  }

  // ----- One datum -----

  lemma WaveformTaken(samples: seq<Word>, rest: seq<Word>)
    requires forall i :: 0 <= i < |samples| ==> SampleFits(samples[i])
    ensures WaveformAt(SampleWords(samples) + rest, |samples|) == Some(samples)
    ensures WaveformWords(|samples|) == |SampleWords(samples)|
  {
    hide TakeSamples, SampleWords, SampleFits;
    SamplesRecovered(samples, rest);
    SampleWordCount(samples);
  }

  lemma WaveformRecovered(d: Datum, origin: Origin, rest: seq<Word>)
    requires DatumFits(d) && d.WaveformData?
    ensures HitsAt(DatumWord(d), Continuation(d) + rest, origin) == Some((DatumHits(d, origin), |Continuation(d)|))
  {
    hide GetBitsInRange, DefiningWord, DataType, Defining, WaveformWord, SampleWords, SampleFits, WaveformAt;
    hide WaveformWords;
    WaveformTaken(d.samples, rest);
    WaveformBits(d.chan, d.length);
  }

  lemma PulseDatumHits(d: Datum, origin: Origin)
    requires d.PulseData?
    ensures DatumHits(d, origin) == PulseHits(d.pulses, origin, d.chan, d.quality, d.sum)
  {
  }

  lemma PulseDataRecovered(d: Datum, origin: Origin, rest: seq<Word>)
    requires DatumFits(d) && d.PulseData? && StartsDefining(rest)
    ensures HitsAt(DatumWord(d), Continuation(d) + rest, origin) == Some((DatumHits(d, origin), |Continuation(d)|))
  {
    PulseDatumHits(d, origin);
    hide GetBitsInRange, DefiningWord, DataType, Defining, PulseWord1, TakePulses, PulseWords, PulseHits, PulseFits;
    PulsesRecovered(d.pulses, rest);
    PulseBits(d.eventBits, d.chan, d.quality, d.sum);
  }

  lemma SingleRecovered(d: Datum, origin: Origin, rest: seq<Word>)
    requires DatumFits(d) && (d.IntegralData? || d.TimeData? || d.PeakData?)
    ensures HitsAt(DatumWord(d), Continuation(d) + rest, origin) == Some((DatumHits(d, origin), |Continuation(d)|))
  {
    DatumWordType(d);
    SingleWordHits(d, origin);
    hide GetBitsInRange, DefiningWord, DataType, Defining, IntegralWord, TimeWord, PeakWord, SingleWordHit;
  }

  // The hits and the number of continuation words that a datum decodes to.
  lemma HitsRecovered(d: Datum, origin: Origin, rest: seq<Word>)
    requires DatumFits(d) && StartsDefining(rest) && !d.TriggerTime? && !d.Filler?
    ensures CarriesHits(DatumWord(d))
    ensures HitsAt(DatumWord(d), Continuation(d) + rest, origin) == Some((DatumHits(d, origin), |Continuation(d)|))
  {
    hide GetBitsInRange, DatumWord, Continuation, DataType, Defining, HitsAt, StartsDefining;
    DatumWordType(d);
    if d.WaveformData? {
      WaveformRecovered(d, origin, rest);
    } else if d.PulseData? {
      PulseDataRecovered(d, origin, rest);
    } else {
      SingleRecovered(d, origin, rest);
    }
  }

  // ----- The decoder on encoded data -----

  // The state after a datum has been decoded inside an open event.
  function AfterDatum(d: Datum, st: DecoderState): DecoderState
    requires st.eventNumber in st.events
  {
    st.(origin := OriginAfterDatum(d, st.origin), events := Append(st.events, st.eventNumber, DatumHits(d, st.origin)))
  }

  lemma DatumMark(d: Datum)
    requires DatumFits(d)
    ensures MarkOf(DatumWord(d)) == if d.Filler? then Ignored else Payload
  {
    DatumWordType(d);
    hide GetBitsInRange, DatumWord, DataType, Defining;
  }

  lemma TriggerTimeDecoded(d: Datum, rest: seq<Word>, st: DecoderState, first: Counter)
    requires DatumFits(d) && d.TriggerTime? && st.frame.remaining >= 0 && st.eventNumber in st.events
    ensures Step(EncodeDatum(d) + rest, st, first) == Decoded((AfterDatum(d, st), rest))
  {
    hide GetBitsInRange, DefiningWord, DataType, Defining, UpperAndTime, HitsAt, Append;
    TriggerTimeBits(d.time1, d.time2, d.upper);
    AppendNothing(st.events, st.eventNumber);
    var words := EncodeDatum(d) + rest;
    assert words[1..] == Continuation(d) + rest && words[1..][1..] == rest;
  }

  lemma FillerDecoded(d: Datum, rest: seq<Word>, st: DecoderState, first: Counter)
    requires DatumFits(d) && d.Filler? && st.eventNumber in st.events
    ensures Step(EncodeDatum(d) + rest, st, first) == Decoded((AfterDatum(d, st), rest))
  {
    hide GetBitsInRange, DefiningWord, DataType, Defining, HitsAt, Append;
    DatumWordType(d);
    DatumMark(d);
    AppendNothing(st.events, st.eventNumber);
    assert (EncodeDatum(d) + rest)[1..] == rest;
  }

  lemma HitsDecoded(d: Datum, rest: seq<Word>, st: DecoderState, first: Counter)
    requires DatumFits(d) && StartsDefining(rest) && !d.TriggerTime? && !d.Filler?
    requires st.frame.remaining >= 0 && st.eventNumber in st.events
    ensures Step(EncodeDatum(d) + rest, st, first) == Decoded((AfterDatum(d, st), rest))
  {
    hide GetBitsInRange, DatumWord, DataType, Defining, HitsAt, Append, DatumHits, Continuation, CarriesHits;
    hide StartsDefining, DatumFits, MarkOf;
    HitsRecovered(d, st.origin, rest);
    DatumMark(d);
    AppendNothing(st.events, st.eventNumber);
    var words := EncodeDatum(d) + rest;
    assert words[1..] == Continuation(d) + rest && words[1..][|Continuation(d)|..] == rest;
  }

  lemma DatumDecoded(d: Datum, rest: seq<Word>, st: DecoderState, first: Counter)
    requires DatumFits(d) && StartsDefining(rest)
    requires st.frame.remaining >= 0 && st.eventNumber in st.events
    ensures Step(EncodeDatum(d) + rest, st, first) == Decoded((AfterDatum(d, st), rest))
  {
    hide *;
    if d.TriggerTime? {
      TriggerTimeDecoded(d, rest, st, first);
    } else if d.Filler? {
      FillerDecoded(d, rest, st, first);
    } else {
      HitsDecoded(d, rest, st, first);
    }
  }

  // ----- Events and blocks -----

  lemma EncodedDataStart(data: seq<Datum>, rest: seq<Word>)
    requires (forall i :: 0 <= i < |data| ==> DatumFits(data[i])) && StartsDefining(rest)
    ensures StartsDefining(EncodeData(data) + rest)
  {
    if data == [] {
      assert EncodeData(data) + rest == rest;
    } else {
      DatumWordType(data[0]);
      hide DatumWord, Defining, DataType, DatumFits;
      assert (EncodeData(data) + rest)[0] == DatumWord(data[0]);
    }
  }

  // One step of the decoder followed by the rest.
  lemma DecodeFirst(words: seq<Word>, st: DecoderState, first: Counter, next: DecoderState, rest: seq<Word>)
    requires words != [] && Step(words, st, first) == Decoded((next, rest))
    ensures Decode(words, st, first) == Decode(rest, next, first)
  {
    hide Step;
  }

  lemma {:induction false} DataDecoded(data: seq<Datum>, rest: seq<Word>, st: DecoderState, first: Counter)
    requires (forall i :: 0 <= i < |data| ==> DatumFits(data[i])) && StartsDefining(rest)
    requires st.frame.remaining >= 0 && st.eventNumber in st.events
    ensures Decode(EncodeData(data) + rest, st, first) ==
      Decode(rest, st.(origin := OriginAfterData(data, st.origin),
        events := Append(st.events, st.eventNumber, DataHits(data, st.origin))), first)
  {
    hide StartsDefining, DatumFits, Append, DatumHits, Step, EncodeDatum, Decode;
    if data == [] {
      AppendNothing(st.events, st.eventNumber);
      assert EncodeData(data) + rest == rest;
    } else {
      var later, next := EncodeData(data[1..]) + rest, AfterDatum(data[0], st);
      EncodedDataStart(data[1..], rest);
      DatumDecoded(data[0], later, st, first);
      EncodedNonEmpty(data[0], later);
      DecodeFirst(EncodeDatum(data[0]) + later, st, first, next, later);
      DataDecoded(data[1..], rest, next, first);
      AppendTwice(st.events, st.eventNumber, DatumHits(data[0], st.origin),
        DataHits(data[1..], OriginAfterDatum(data[0], st.origin)));
      assert EncodeData(data) + rest == EncodeDatum(data[0]) + later;
    }
  }

  lemma EncodedNonEmpty(d: Datum, rest: seq<Word>)
    ensures EncodeDatum(d) + rest != []
  {
  }

  // The state after an event: one more header counted, its records deposited.
  function AfterEvent(e: Event, st: DecoderState, first: Counter): DecoderState {
    var n := EventNumber(first, st.frame.index);
    var origin := st.origin.(triggerNum := e.triggerNum);
    DecoderState(
      Frame(st.frame.remaining - 1, st.frame.index + 1,
        if st.frame.index + 1 > st.frame.peak then st.frame.index + 1 else st.frame.peak),
      OriginAfterData(e.data, origin), n, Deposit(st.events, n, DataHits(e.data, origin)))
  }

  function AfterEventHeader(e: Event, st: DecoderState, first: Counter): DecoderState {
    var n := EventNumber(first, st.frame.index);
    DecoderState(
      Frame(st.frame.remaining - 1, st.frame.index + 1,
        if st.frame.index + 1 > st.frame.peak then st.frame.index + 1 else st.frame.peak),
      st.origin.(triggerNum := e.triggerNum), n, Open(st.events, n))
  }

  lemma EventHeaderDecoded(e: Event, rest: seq<Word>, st: DecoderState, first: Counter)
    requires EventFits(e) && st.origin.slot < 32 && st.frame.remaining > 0
    ensures Step([EventHeaderWord(st.origin.slot, e.time, e.triggerNum)] + rest, st, first) ==
      Decoded((AfterEventHeader(e, st, first), rest))
  {
    EventHeaderBits(st.origin.slot, e.time, e.triggerNum);
    hide GetBitsInRange, DefiningWord, DataType, Defining, EventHeaderWord, HitsAt, Append, Open, EventFits, DatumFits;
    assert ([EventHeaderWord(st.origin.slot, e.time, e.triggerNum)] + rest)[1..] == rest;
  }

  lemma EventDecoded(e: Event, rest: seq<Word>, st: DecoderState, first: Counter)
    requires EventFits(e) && StartsDefining(rest) && st.origin.slot < 32 && st.frame.remaining > 0
    ensures Decode(EncodeEvent(st.origin.slot, e) + rest, st, first) == Decode(rest, AfterEvent(e, st, first), first)
  {
    hide StartsDefining, DatumFits, Append, Step, EncodeData, Decode, DataHits, OriginAfterData, EventHeaderWord, Open;
    var header, later := EventHeaderWord(st.origin.slot, e.time, e.triggerNum), EncodeData(e.data) + rest;
    assert EncodeEvent(st.origin.slot, e) + rest == [header] + later;
    EventHeaderDecoded(e, later, st, first);
    DecodeFirst([header] + later, st, first, AfterEventHeader(e, st, first), later);
    DataDecoded(e.data, rest, AfterEventHeader(e, st, first), first);
  }

  lemma {:induction false} SlotKept(data: seq<Datum>, origin: Origin)
    ensures OriginAfterData(data, origin).slot == origin.slot
  {
    if data != [] { SlotKept(data[1..], OriginAfterDatum(data[0], origin)); }
  }

  function AfterEvents(events: seq<Event>, st: DecoderState, first: Counter): DecoderState
    decreases |events|
  {
    if events == [] then st else AfterEvents(events[1..], AfterEvent(events[0], st, first), first)
  }

  lemma EncodedEventsStart(slot: Word, events: seq<Event>, rest: seq<Word>)
    requires slot < 32 && (forall i :: 0 <= i < |events| ==> EventFits(events[i])) && StartsDefining(rest)
    ensures StartsDefining(EncodeEvents(slot, events) + rest)
  {
    if events == [] {
      assert EncodeEvents(slot, events) + rest == rest;
    } else {
      EventHeaderBits(slot, events[0].time, events[0].triggerNum);
      hide EventHeaderWord, Defining, DataType, DatumFits, EncodeData;
      assert (EncodeEvents(slot, events) + rest)[0] == EventHeaderWord(slot, events[0].time, events[0].triggerNum);
    }
  }

  lemma {:induction false} EventsDecoded(events: seq<Event>, rest: seq<Word>, st: DecoderState, first: Counter)
    requires (forall i :: 0 <= i < |events| ==> EventFits(events[i])) && StartsDefining(rest)
    requires st.origin.slot < 32 && st.frame.remaining >= |events|
    ensures Decode(EncodeEvents(st.origin.slot, events) + rest, st, first) ==
      Decode(rest, AfterEvents(events, st, first), first)
    decreases |events|
  {
    hide StartsDefining, EventFits, Deposit, Step, Decode, EncodeEvent;
    if events == [] {
      assert EncodeEvents(st.origin.slot, events) + rest == rest;
    } else {
      var slot, next := st.origin.slot, AfterEvent(events[0], st, first);
      var later := EncodeEvents(slot, events[1..]) + rest;
      EncodedEventsStart(slot, events[1..], rest);
      EventDecoded(events[0], later, st, first);
      SlotKept(events[0].data, st.origin.(triggerNum := events[0].triggerNum));
      EventsDecoded(events[1..], rest, next, first);
      assert EncodeEvents(slot, events) + rest == EncodeEvent(slot, events[0]) + later;
    }
  }

  // The records of a block's events are deposited from the current index on.
  lemma {:induction false} EventsDeposited(events: seq<Event>, st: DecoderState, first: Counter,
                                           block: seq<seq<FadcHit>>, k: nat)
    requires k + |events| == |block| && st.frame.index == k
    requires forall i :: 0 <= i < |events| ==> EventsHits(events, st.origin)[i] == block[k + i]
    ensures var end := AfterEvents(events, st, first);
      && end.events == DepositBlock(st.events, first, block, k)
      && end.origin == OriginAfterEvents(events, st.origin)
      && end.frame.remaining == st.frame.remaining - |events|
    decreases |events|
  {
    hide Deposit, DataHits, OriginAfterData;
    if events != [] {
      var next := AfterEvent(events[0], st, first);
      assert EventsHits(events, st.origin)[0] == block[k];
      assert forall i :: 0 <= i < |events[1..]| ==>
        EventsHits(events[1..], next.origin)[i] == EventsHits(events, st.origin)[i + 1];
      EventsDeposited(events[1..], next, first, block, k + 1);
    }
  }

  function AfterBlock(b: Block, st: DecoderState, first: Counter): DecoderState {
    var inside := AfterEvents(b.events,
      st.(frame := st.frame.(remaining := |b.events|), origin := BlockOrigin(b, st.origin)), first);
    inside.(frame := inside.frame.(remaining := -1, index := 0))
  }

  lemma BlockHeaderDecoded(b: Block, rest: seq<Word>, st: DecoderState, first: Counter)
    requires BlockFits(b)
    ensures Step([BlockHeaderWord(b.slot, b.moduleId, b.number, b.declared)] + rest, st, first) ==
      Decoded((st.(frame := st.frame.(remaining := |b.events|), origin := BlockOrigin(b, st.origin)), rest))
  {
    BlockHeaderBits(b.slot, b.moduleId, b.number, b.declared);
    hide GetBitsInRange, DefiningWord, DataType, Defining, BlockHeaderWord, HitsAt, Append, Open, EventFits;
    assert ([BlockHeaderWord(b.slot, b.moduleId, b.number, b.declared)] + rest)[1..] == rest;
  }

  lemma TrailerDecoded(payload: Word, rest: seq<Word>, st: DecoderState, first: Counter)
    requires payload < 0x800_0000 && st.frame.remaining == 0
    ensures Step([DefiningWord(1, payload)] + rest, st, first) ==
      Decoded((st.(frame := st.frame.(remaining := -1, index := 0)), rest))
    ensures StartsDefining([DefiningWord(1, payload)] + rest)
  {
    DefiningWordParts(1, payload);
    hide GetBitsInRange, DefiningWord, DataType, Defining, HitsAt, Append, Open;
    assert ([DefiningWord(1, payload)] + rest)[1..] == rest;
  }

  lemma {:induction false} BlockDecoded(b: Block, rest: seq<Word>, st: DecoderState, first: Counter)
    requires BlockFits(b) && st.frame.index == 0
    ensures Decode(EncodeBlock(b) + rest, st, first) == Decode(rest, AfterBlock(b, st, first), first)
    ensures var after := AfterBlock(b, st, first);
      && after.frame.index == 0
      && after.origin == OriginAfterEvents(b.events, BlockOrigin(b, st.origin))
      && after.events == DepositBlock(st.events, first, EventsHits(b.events, BlockOrigin(b, st.origin)), 0)
  {
    hide StartsDefining, EventFits, Deposit, Step, Decode, EncodeEvents, EventsHits, AfterEvents, OriginAfterEvents;
    var header, trailer := BlockHeaderWord(b.slot, b.moduleId, b.number, b.declared), DefiningWord(1, b.trailer);
    hide BlockHeaderWord, DefiningWord;
    var begun := st.(frame := st.frame.(remaining := |b.events|), origin := BlockOrigin(b, st.origin));
    var inner := EncodeEvents(b.slot, b.events) + ([trailer] + rest);
    assert EncodeBlock(b) + rest == [header] + inner;
    BlockHeaderDecoded(b, inner, st, first);
    DecodeFirst([header] + inner, st, first, begun, inner);
    EventsDeposited(b.events, begun, first, EventsHits(b.events, begun.origin), 0);
    var closing := AfterEvents(b.events, begun, first);
    TrailerDecoded(b.trailer, rest, closing, first);
    EventsDecoded(b.events, [trailer] + rest, begun, first);
    DecodeFirst([trailer] + rest, closing, first, AfterBlock(b, st, first), rest);
  }

  function AfterBlocks(blocks: seq<Block>, st: DecoderState, first: Counter): DecoderState
    decreases |blocks|
  {
    if blocks == [] then st else AfterBlocks(blocks[1..], AfterBlock(blocks[0], st, first), first)
  }

  lemma {:induction false} BlocksDecoded(blocks: seq<Block>, st: DecoderState, first: Counter)
    requires (forall i :: 0 <= i < |blocks| ==> BlockFits(blocks[i])) && st.frame.index == 0
    ensures Decode(EncodeBlocks(blocks), st, first) == Decoded(AfterBlocks(blocks, st, first))
    ensures AfterBlocks(blocks, st, first).events ==
      DepositBlocks(st.events, first, BlocksHits(blocks, st.origin))
    decreases |blocks|
  {
    hide BlockFits, EncodeBlock, AfterBlock, Decode, DepositBlock, EventsHits, OriginAfterEvents;
    if blocks == [] {
      DecodeNothing(st, first);
    } else {
      BlockDecoded(blocks[0], EncodeBlocks(blocks[1..]), st, first);
      BlocksDecoded(blocks[1..], AfterBlock(blocks[0], st, first), first);
      var content := BlocksHits(blocks, st.origin);
      assert content[1..] ==
        BlocksHits(blocks[1..], OriginAfterEvents(blocks[0].events, BlockOrigin(blocks[0], st.origin)));
    }
  }

  // What a readout of the blocks contains, block by block and event by event.
  function Content(blocks: seq<Block>, rocid: Word): seq<seq<seq<FadcHit>>> {
    BlocksHits(blocks, Origin(0, 0, 0, rocid, 0, 0))
  }

  // Decoding inverts encoding: every list of well-formed blocks is accepted,
  // the event numbers are the contiguous range from the first on, and the
  // event numbered first + k holds the in-order concatenation over the blocks
  // of the hits of their k-th events, with every field recovered.
  lemma {:induction false} DecodeInvertsEncode(blocks: seq<Block>, rocid: Word, first: nat)
    requires forall i :: 0 <= i < |blocks| ==> BlockFits(blocks[i])
    ensures Decode(EncodeBlocks(blocks), InitialState(rocid), Counter64(first)).Decoded?
    ensures var events := Decode(EncodeBlocks(blocks), InitialState(rocid), Counter64(first)).value.events;
      && events.Keys == Numbers(Counter64(first), Longest(Content(blocks, rocid)))
      && forall k: nat :: k < Longest(Content(blocks, rocid)) ==>
        events[EventNumber(Counter64(first), k)] == Collected(Content(blocks, rocid), k)
  {
    BlocksDecoded(blocks, InitialState(rocid), Counter64(first));
    hide EncodeBlocks, Decode, BlocksHits, DepositBlocks, Collected, Longest;
    FilledEvents(Counter64(first), Content(blocks, rocid));
  }
}
