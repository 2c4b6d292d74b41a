// The FADC250 decoder: ModuleParser_FADC::parse and its two sub-parsers.
module Fadc {
  import opened Common
  import opened Words
  import opened EventMaps
  import opened BlockFraming
  import opened HitTypes
  import opened PhysicsEvents

  datatype DecoderState = DecoderState(
    frame: Frame, origin: Origin, eventNumber: nat, events: Events<FadcHit>)

  function MarkOf(d: Word): Mark {
    if !Defining(d) then Ignored
    else if DataType(d) == 0 then BlockHeader(GetBitsInRange(d, 7, 0) as nat)
    else if DataType(d) == 1 then BlockTrailer
    else if DataType(d) == 2 then EventHeader
    else if DataType(d) in {3, 4, 7, 8, 9, 10} then Payload
    else Ignored
  }

  // ----- Waveform continuation words -----

  // The valid samples of one word, high half first.
  function WordSamples(w: Word): seq<Word> {
    (if GetBitsInRange(w, 29, 29) == 0 then [GetBitsInRange(w, 28, 16)] else []) +
    (if GetBitsInRange(w, 13, 13) == 0 then [GetBitsInRange(w, 12, 0)] else [])
  }

  // The samples of up to n words; None when one of them is a defining word.
  function TakeSamples(words: seq<Word>, n: nat): (r: Option<seq<Word>>)
    ensures r.Some? ==> |r.value| <= 2 * n && |r.value| <= 2 * |words|
    decreases n
  {
    if n == 0 || words == [] then Some([])
    else if GetBitsInRange(words[0], 31, 31) != 0 then None
    else
      var rest := TakeSamples(words[1..], n - 1);
      Then(WordSamples(words[0]), rest)
  }

  function WaveformWords(length: nat): nat {
    (length + 1) / 2
  }

  // A complete waveform of the announced length at the head of the words.
  function WaveformAt(words: seq<Word>, length: nat): (r: Option<seq<Word>>)
    ensures r.Some? ==> WaveformWords(length) <= |words| && |r.value| == length
  {
    var samples := TakeSamples(words, WaveformWords(length));
    if samples.None? || |samples.value| != length then None else samples
  }

  // ----- Pulse continuation words -----

  function PulseFields(w2: Word, w3: Word): PulseMeasurement {
    PulseMeasurement(
      GetBitsInRange(w2, 29, 12), GetBitsInRange(w2, 11, 9), GetBitsInRange(w2, 8, 0),
      GetBitsInRange(w3, 29, 21), GetBitsInRange(w3, 20, 15), GetBitsInRange(w3, 14, 3), GetBitsInRange(w3, 2, 0))
  }

  // Pairs of continuation words, as long as both are present and both are
  // continuation words.
  function TakePulses(words: seq<Word>): (r: seq<PulseMeasurement>)
    ensures 2 * |r| <= |words|
  {
    if |words| < 2 || GetBitsInRange(words[0], 31, 31) != 0 || GetBitsInRange(words[1], 31, 31) != 0 then []
    else [PulseFields(words[0], words[1])] + TakePulses(words[2..])
  }

  function PulseHits(measured: seq<PulseMeasurement>, origin: Origin, chan: Word, quality: Word, sum: Word)
    : (hits: seq<FadcHit>)
    ensures |hits| == |measured|
  {
    seq(|measured|, i requires 0 <= i < |measured| => Pulse(origin, chan, quality, sum, measured[i]))
  }

  // ----- One word -----

  // Hall B integral, time and peak words.
  function SingleWordHit(d: Word, origin: Origin): FadcHit {
    var chan, number := GetBitsInRange(d, 26, 23), GetBitsInRange(d, 22, 21);
    if DataType(d) == 7 then Integral(origin, chan, number, GetBitsInRange(d, 20, 0))
    else if DataType(d) == 8 then
      Time(origin, chan, number, GetBitsInRange(d, 20, 19), GetBitsInRange(d, 15, 6), GetBitsInRange(d, 5, 0))
    else Peak(origin, chan, number, GetBitsInRange(d, 20, 12), GetBitsInRange(d, 11, 0))
  }

  predicate CarriesHits(d: Word) {
    Defining(d) && DataType(d) in {4, 7, 8, 9, 10}
  }

  function WaveformHit(d: Word, rest: seq<Word>, origin: Origin): (r: Option<(seq<FadcHit>, nat)>)
    ensures r.Some? ==> r.value.1 <= |rest|
  {
    var length := GetBitsInRange(d, 11, 0) as nat;
    var samples := WaveformAt(rest, length);
    if samples.None? then None
    else Some(([Waveform(origin, GetBitsInRange(d, 26, 23), samples.value)], WaveformWords(length)))
  }

  function MeasuredPulses(d: Word, rest: seq<Word>, origin: Origin): (r: (seq<FadcHit>, nat))
    ensures r.1 <= |rest|
  {
    var measured := TakePulses(rest);
    (PulseHits(measured, origin, GetBitsInRange(d, 18, 15), GetBitsInRange(d, 14, 14), GetBitsInRange(d, 13, 0)),
      2 * |measured|)
  }

  // The hits that a data word and the continuation words after it describe,
  // and how many continuation words those are. None when they are malformed.
  function HitsAt(d: Word, rest: seq<Word>, origin: Origin): (r: Option<(seq<FadcHit>, nat)>)
    ensures r.Some? ==> r.value.1 <= |rest|
  {
    if DataType(d) == 4 then WaveformHit(d, rest, origin)
    else if DataType(d) == 9 then Some(MeasuredPulses(d, rest, origin))
    else Some(([SingleWordHit(d, origin)], 0))
  }

  // The state and the words that remain after the first word and whatever
  // continuation words belong to it.
  function Step(words: seq<Word>, st: DecoderState, first: Counter): (r: Outcome<(DecoderState, seq<Word>)>)
    requires words != []
    ensures r.Decoded? ==> |r.value.1| < |words|
  {
    var d, rest := words[0], words[1..];
    match st.frame.Next(MarkOf(d))
    case None => Rejected
    case Some(frame) =>
      var framed := st.(frame := frame);
      if CarriesHits(d) then
        var hits := HitsAt(d, rest, st.origin);
        if hits.None? then Rejected
        else if hits.value.0 == [] then Decoded((framed, rest[hits.value.1..]))
        else if st.eventNumber !in st.events then Undefined
        else
          Decoded((framed.(events := Append(st.events, st.eventNumber, hits.value.0)), rest[hits.value.1..]))
      else if Defining(d) && DataType(d) == 0 then
        Decoded((framed.(origin := st.origin.(
          slot := GetBitsInRange(d, 26, 22), moduleId := GetBitsInRange(d, 21, 18))), rest))
      else if Defining(d) && DataType(d) == 2 then
        if GetBitsInRange(d, 26, 22) != st.origin.slot then Rejected
        else
          var n := EventNumber(first, st.frame.index);
          Decoded((framed.(origin := st.origin.(triggerNum := GetBitsInRange(d, 11, 0)),
            eventNumber := n, events := Open(st.events, n)), rest))
      else if Defining(d) && DataType(d) == 3 then
        if rest == [] then Undefined
        else
          Decoded((framed.(origin := st.origin.(timestamp1 := GetBitsInRange(d, 23, 0),
            timestamp2 := GetBitsInRange(rest[0], 23, 0))), rest[1..]))
      else Decoded((framed, rest))
  }

  function Decode(words: seq<Word>, st: DecoderState, first: Counter): Outcome<DecoderState>
    decreases |words|
  {
    if words == [] then Decoded(st)
    else
      match Step(words, st, first)
      case Decoded(next) => Decode(next.1, next.0, first)
      case Rejected => Rejected
      case Undefined => Undefined
  }

  function InitialState(rocid: Word): DecoderState {
    DecoderState(START, Origin(0, 0, 0, rocid, 0, 0), 0, map[])
  }

  // ----- The parser itself -----

  // The same reads by position, as the sub-parsers make them.
  function SamplesFrom(words: seq<Word>, k: nat, n: nat): Option<seq<Word>>
    requires k <= |words|
    decreases n
  {
    if n == 0 || k == |words| then Some([])
    else if GetBitsInRange(words[k], 31, 31) != 0 then None
    else Then(WordSamples(words[k]), SamplesFrom(words, k + 1, n - 1))
  }

  lemma {:induction false} SamplesByPosition(words: seq<Word>, k: nat, n: nat)
    requires k <= |words|
    ensures SamplesFrom(words, k, n) == TakeSamples(words[k..], n)
    decreases n
  {
    hide GetBitsInRange, WordSamples;
    if n > 0 && k < |words| {
      assert words[k..][0] == words[k] && words[k..][1..] == words[k + 1..];
      SamplesByPosition(words, k + 1, n - 1);
    }
  }

  function PulsesFrom(words: seq<Word>, k: nat): seq<PulseMeasurement>
    requires k <= |words|
    decreases |words| - k
  {
    if k + 1 >= |words| || GetBitsInRange(words[k], 31, 31) != 0 || GetBitsInRange(words[k + 1], 31, 31) != 0 then []
    else [PulseFields(words[k], words[k + 1])] + PulsesFrom(words, k + 2)
  }

  lemma {:induction false} PulsesByPosition(words: seq<Word>, k: nat)
    requires k <= |words|
    ensures PulsesFrom(words, k) == TakePulses(words[k..])
    decreases |words| - k
  {
    hide GetBitsInRange, PulseFields;
    if k + 1 < |words| {
      assert words[k..][0] == words[k] && words[k..][1] == words[k + 1] && words[k..][2..] == words[k + 2..];
      PulsesByPosition(words, k + 2);
    }
  }

  // Adds the samples of one word that are flagged valid.
  method AddSamples(samples: seq<Word>, w: Word) returns (r: seq<Word>)
    ensures r == samples + WordSamples(w)
  {
    hide GetBitsInRange;
    r := samples;
    if GetBitsInRange(w, 29, 29) == 0 {
      r := r + [GetBitsInRange(w, 28, 16)];
    }
    if GetBitsInRange(w, 13, 13) == 0 {
      r := r + [GetBitsInRange(w, 12, 0)];
    }
  }

  // Reads samples from the words after `index` and moves `index` past them.
  method ParseWaveformData(words: seq<Word>, index: nat, length: nat)
    returns (r: Option<seq<Word>>, newIndex: nat)
    requires index < |words|
    ensures r == WaveformAt(words[index + 1..], length)
    ensures newIndex == if r.Some? then index + WaveformWords(length) else index
    ensures newIndex < |words|
  {
    var n := WaveformWords(length);
    SamplesByPosition(words, index + 1, n);
    hide GetBitsInRange, TakeSamples, WaveformWords, WordSamples;
    var samples := ReadSamples(words, index + 1, n);
    if samples.None? || |samples.value| != length {
      return None, index;
    }
    newIndex := index + n;
    r := samples;
  }

  method ReadSamples(words: seq<Word>, start: nat, n: nat) returns (r: Option<seq<Word>>)
    requires start <= |words|
    ensures r == SamplesFrom(words, start, n)
  {
    hide GetBitsInRange, WordSamples;
    var samples: seq<Word> := [];
    ghost var all := SamplesFrom(words, start, n);
    assert all.Some? ==> [] + all.value == all.value;
    var k := start;
    while k < start + n && k < |words|
      invariant start <= k <= start + n && k <= |words|
      invariant all == Then(samples, SamplesFrom(words, k, start + n - k))
    {
      var w := words[k];
      if GetBitsInRange(w, 31, 31) != 0 {
        return None;
      }
      ThenInOrder(samples, WordSamples(w), SamplesFrom(words, k + 1, start + n - k - 1));
      samples := AddSamples(samples, w);
      k := k + 1;
    }
    assert samples + [] == samples;
    r := Some(samples);
  }

  // Reads pairs of continuation words and moves `index` past them, going back
  // over a pair that turns out not to be one.
  method ParsePulseData(words: seq<Word>, index: nat, origin: Origin, chan: Word, quality: Word, sum: Word)
    returns (hits: seq<FadcHit>, newIndex: nat)
    requires index < |words|
    ensures hits == PulseHits(TakePulses(words[index + 1..]), origin, chan, quality, sum)
    ensures newIndex == index + 2 * |TakePulses(words[index + 1..])|
    ensures newIndex < |words|
  {
    PulsesByPosition(words, index + 1);
    hide GetBitsInRange, PulseFields, TakePulses;
    ghost var all := PulsesFrom(words, index + 1);
    var i := index;
    hits := [];
    assert all[0..] == all;
    while i + 2 < |words|
      invariant index <= i < |words| && i == index + 2 * |hits| && |hits| <= |all|
      invariant all[|hits|..] == PulsesFrom(words, i + 1)
      invariant forall k :: 0 <= k < |hits| ==> hits[k] == Pulse(origin, chan, quality, sum, all[k])
    {
      var w2, w3 := words[i + 1], words[i + 2];
      if GetBitsInRange(w2, 31, 31) != 0 || GetBitsInRange(w3, 31, 31) != 0 {
        break;
      }
      assert all[|hits|] == all[|hits|..][0];
      assert all[|hits| + 1..] == all[|hits|..][1..] == PulsesFrom(words, i + 3);
      hits := hits + [Pulse(origin, chan, quality, sum, PulseFields(w2, w3))];
      i := i + 2;
    }
    assert PulsesFrom(words, i + 1) == [];
    newIndex := i;
  }

  // The five lists of each event, in step with the hits in arrival order.
  ghost predicate Tracks(hitsMap: map<nat, FadcHits>, events: Events<FadcHit>) {
    && hitsMap.Keys == events.Keys
    && forall n :: n in events ==> hitsMap[n] == KindLists(events[n])
  }

  // The push_back calls for one word: nothing is touched when there is no hit.
  method PushHits(hitsMap: map<nat, FadcHits>, n: nat, hits: seq<FadcHit>, ghost events: Events<FadcHit>)
    returns (r: Option<map<nat, FadcHits>>)
    requires Tracks(hitsMap, events)
    ensures r.None? <==> hits != [] && n !in events
    ensures r.Some? ==> Tracks(r.value, if hits == [] then events else Append(events, n, hits))
  {
    hide AddFadcHit, KindLists;
    var updated := hitsMap;
    assert n in events ==> events[n] + hits[..0] == events[n];
    for i := 0 to |hits|
      invariant i > 0 ==> n in events
      invariant updated.Keys == hitsMap.Keys
      invariant forall m :: m in events && m != n ==> updated[m] == hitsMap[m]
      invariant n in events ==> updated[n] == KindLists(events[n] + hits[..i])
    {
      if n !in updated {
        return None;
      }
      KindListsNext(events[n] + hits[..i], hits[i]);
      assert events[n] + hits[..i + 1] == events[n] + hits[..i] + [hits[i]];
      updated := updated[n := AddFadcHit(updated[n], hits[i])];
    }
    assert hits[..|hits|] == hits;
    r := Some(updated);
  }

  lemma StepSlices(words: seq<Word>, j: nat)
    requires j < |words|
    ensures words[j..][0] == words[j] && words[j..][1..] == words[j + 1..]
    ensures forall n {:trigger words[j + 1..][n..]} :: 0 <= n && j + 1 + n <= |words| ==>
      words[j + 1..][n..] == words[j + 1 + n..]
  {
  }

  lemma DecodeStep(words: seq<Word>, j: nat, st: DecoderState, first: Counter)
    requires j < |words|
    ensures Decode(words[j..], st, first) ==
      (match Step(words[j..], st, first)
       case Decoded(next) => Decode(next.1, next.0, first)
       case Rejected => Rejected
       case Undefined => Undefined)
  {
    hide Step;
    assert words[j..] != [];
  }

  // The branches for words that carry hits.
  method ParseHits(words: seq<Word>, j: nat, origin: Origin) returns (r: Option<seq<FadcHit>>, newIndex: nat)
    requires j < |words| && CarriesHits(words[j])
    ensures newIndex < |words|
    ensures r.None? <==> HitsAt(words[j], words[j + 1..], origin).None?
    ensures r.Some? ==> HitsAt(words[j], words[j + 1..], origin) == Some((r.value, newIndex - j))
  {
    hide GetBitsInRange, TakePulses, TakeSamples, WaveformAt, WaveformWords, PulseHits, SingleWordHit;
    var d := words[j];
    newIndex := j;
    if DataType(d) == 4 {
      var samples;
      samples, newIndex := ParseWaveformData(words, j, GetBitsInRange(d, 11, 0) as nat);
      if samples.None? {
        return None, newIndex;
      }
      r := Some([Waveform(origin, GetBitsInRange(d, 26, 23), samples.value)]);
    } else if DataType(d) == 9 {
      var hits;
      hits, newIndex := ParsePulseData(words, j, origin,
        GetBitsInRange(d, 18, 15), GetBitsInRange(d, 14, 14), GetBitsInRange(d, 13, 0));
      r := Some(hits);
    } else {
      r := Some([SingleWordHit(d, origin)]);
    }
  }

  // The local variables that the word loop carries from word to word.
  datatype Registers = Registers(origin: Origin, eventNumber: nat, blockNevents: int, eventIndex: nat)

  ghost function StateOf(regs: Registers, peak: nat, events: Events<FadcHit>): DecoderState {
    DecoderState(Frame(regs.blockNevents, regs.eventIndex, peak), regs.origin, regs.eventNumber, events)
  }

  // What the loop body must do with the word at position j: the same as the
  // decoder's step, with newIndex the last position consumed.
  ghost predicate FollowsStep(words: seq<Word>, j: nat, st: DecoderState, first: Counter,
                              r: Outcome<(Registers, map<nat, FadcHits>)>, newIndex: nat)
    requires j < |words|
  {
    && j <= newIndex < |words|
    && match Step(words[j..], st, first)
      case Rejected => r.Rejected?
      case Undefined => r.Undefined?
      case Decoded(step) =>
        && r.Decoded? && step.1 == words[newIndex + 1..]
        && step.0 == StateOf(r.value.0, step.0.frame.peak, step.0.events) && Tracks(r.value.1, step.0.events)
  }

  method ParseHitWord(words: seq<Word>, j: nat, first: Counter, regs: Registers, hitsMap: map<nat, FadcHits>,
                      ghost st: DecoderState)
    returns (r: Outcome<(Registers, map<nat, FadcHits>)>, newIndex: nat)
    requires j < |words| && CarriesHits(words[j]) && Tracks(hitsMap, st.events)
    requires st == StateOf(regs, st.frame.peak, st.events)
    ensures FollowsStep(words, j, st, first, r, newIndex)
  {
    hide GetBitsInRange, HitsAt, Open, Append, EventNumber, Tracks;
    StepSlices(words, j);
    newIndex := j;
    if regs.blockNevents < 0 {
      return Rejected, j;
    }
    var hits;
    hits, newIndex := ParseHits(words, j, regs.origin);
    if hits.None? {
      return Rejected, j;
    }
    var pushed := PushHits(hitsMap, regs.eventNumber, hits.value, st.events);
    if pushed.None? {
      return Undefined, j;
    }
    r := Decoded((regs, pushed.value));
  }

  method ParseFramingWord(words: seq<Word>, j: nat, first: Counter, regs: Registers, hitsMap: map<nat, FadcHits>,
                          ghost st: DecoderState)
    returns (r: Outcome<(Registers, map<nat, FadcHits>)>, newIndex: nat)
    requires j < |words| && !CarriesHits(words[j]) && Tracks(hitsMap, st.events)
    requires st == StateOf(regs, st.frame.peak, st.events)
    ensures FollowsStep(words, j, st, first, r, newIndex)
  {
    hide GetBitsInRange, HitsAt, Open, Append, EventNumber, Tracks;
    StepSlices(words, j);
    var d := words[j];
    newIndex := j;
    if !Defining(d) {
      return Decoded((regs, hitsMap)), j;
    }
    var dataType := DataType(d);
    var updated, updatedMap := regs, hitsMap;
    if dataType == 0 {
      updated := regs.(origin := regs.origin.(
        slot := GetBitsInRange(d, 26, 22), moduleId := GetBitsInRange(d, 21, 18)),
        blockNevents := GetBitsInRange(d, 7, 0) as int);
    } else if dataType == 1 {
      if regs.blockNevents != 0 {
        return Rejected, j;
      }
      updated := regs.(blockNevents := -1, eventIndex := 0);
    } else if dataType == 2 {
      if regs.blockNevents <= 0 {
        return Rejected, j;
      }
      if GetBitsInRange(d, 26, 22) != regs.origin.slot {
        return Rejected, j;
      }
      var n := EventNumber(first, regs.eventIndex);
      updated := Registers(regs.origin.(triggerNum := GetBitsInRange(d, 11, 0)), n,
        regs.blockNevents - 1, regs.eventIndex + 1);
      TrackedOpen(hitsMap, st.events, n);
      if n !in hitsMap {
        updatedMap := hitsMap[n := NO_FADC_HITS];
      }
    } else if dataType == 3 {
      if regs.blockNevents < 0 {
        return Rejected, j;
      }
      if j + 1 >= |words| {
        return Undefined, j;
      }
      newIndex := j + 1;
      updated := regs.(origin := regs.origin.(
        timestamp1 := GetBitsInRange(d, 23, 0), timestamp2 := GetBitsInRange(words[j + 1], 23, 0)));
    }
    r := Decoded((updated, updatedMap));
  }

  // The word loop of ModuleParser_FADC::parse.
  method ParseWords(words: seq<Word>, rocid: Word, first: Counter)
    returns (r: Outcome<map<nat, FadcHits>>, ghost events: Events<FadcHit>)
    ensures r.Rejected? <==> Decode(words, InitialState(rocid), first).Rejected?
    ensures r.Undefined? <==> Decode(words, InitialState(rocid), first).Undefined?
    ensures r.Decoded? ==>
      events == Decode(words, InitialState(rocid), first).value.events && Tracks(r.value, events)
  {
    hide Step, Tracks, Decode;
    var regs := Registers(Origin(0, 0, 0, rocid, 0, 0), 0, -1, 0);
    var hitsMap: map<nat, FadcHits> := map[];
    ghost var st := InitialState(rocid);
    events := map[];
    NothingTracked();
    assert words[0..] == words;
    var j := 0;
    while j < |words|
      invariant j <= |words| && st == StateOf(regs, st.frame.peak, st.events) && Tracks(hitsMap, st.events)
      invariant Decode(words, InitialState(rocid), first) == Decode(words[j..], st, first)
    {
      DecodeStep(words, j, st, first);
      ghost var decoded := Step(words[j..], st, first);
      var step;
      if CarriesHits(words[j]) {
        step, j := ParseHitWord(words, j, first, regs, hitsMap, st);
      } else {
        step, j := ParseFramingWord(words, j, first, regs, hitsMap, st);
      }
      if step.Rejected? {
        return Rejected, events;
      }
      if step.Undefined? {
        return Undefined, events;
      }
      regs, hitsMap, st := step.value.0, step.value.1, decoded.value.0;
      j := j + 1;
    }
    DecodeNothing(st, first);
    assert words[j..] == [];
    events := st.events;
    r := Decoded(hitsMap);
  }

  lemma DecodeNothing(st: DecoderState, first: Counter)
    ensures Decode([], st, first) == Decoded(st)
  {
  }

  // ModuleParser_FADC::parse. The stream is rejected, or misread, exactly when
  // the decoder says so; otherwise one event per number is published after
  // those of earlier banks.
  method Parse(words: seq<Word>, rocid: Word, first: nat, physicsEvents: seq<PhysicsEvent>)
    returns (r: Outcome<seq<PhysicsEvent>>)
    ensures r.Rejected? <==> Decode(words, InitialState(rocid), Counter64(first)).Rejected?
    ensures r.Undefined? <==> Decode(words, InitialState(rocid), Counter64(first)).Undefined?
    ensures r.Decoded? ==> |r.value| >= |physicsEvents| && r.value[..|physicsEvents|] == physicsEvents
    ensures r.Decoded? ==>
      Summaries(r.value[|physicsEvents|..]) ==
        FadcPublication(Decode(words, InitialState(rocid), Counter64(first)).value.events)
    ensures r.Decoded? ==> forall i :: |physicsEvents| <= i < |r.value| ==> fresh(r.value[i])
    ensures r.Decoded? ==> NoRepeats(r.value[|physicsEvents|..])
  {
    hide KindLists, InOrder, Decode;
    var hitsMap, events := ParseWords(words, rocid, Counter64(first));
    if hitsMap.Rejected? {
      return Rejected;
    }
    if hitsMap.Undefined? {
      return Undefined;
    }
    var containers: map<nat, EventHits> := map n | n in hitsMap.value :: FadcEvent(hitsMap.value[n]);
    assert containers == FadcContainers(events);
    var published := Publish(containers, physicsEvents);
    r := Decoded(published);
  }

  lemma NothingTracked()
    ensures Tracks(map[], map[])
  {
  }

  lemma TrackedOpen(hitsMap: map<nat, FadcHits>, events: Events<FadcHit>, n: nat)
    requires Tracks(hitsMap, events)
    ensures n in hitsMap <==> n in events
    ensures Tracks(if n in hitsMap then hitsMap else hitsMap[n := NO_FADC_HITS], Open(events, n))
  {
  }

  // The events that the parser publishes for the decoded hits.
  function FadcContainers(events: Events<FadcHit>): (r: map<nat, EventHits>)
    ensures r.Keys == events.Keys
  {
    map n | n in events :: FadcEvent(KindLists(events[n]))
  }

  function FadcPublication(events: Events<FadcHit>): seq<Summary> {
    Publication(InOrder(events.Keys), FadcContainers(events))
  }
}
