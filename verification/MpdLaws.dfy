// What the MPD decoder guarantees: frames round trip, and the framing of the
// blocks.
module MpdLaws {
  import opened Common
  import opened Words
  import opened EventMaps
  import opened BlockFraming
  import opened StreamTraces
  import opened HitTypes
  import opened Mpd

  // ----- Encoding a frame -----

  predicate SampleFits(s: Word) {
    s < 8192
  }

  predicate TripleFits(t: ApvTriple) {
    && t.channel < 1024 && t.apvId < 32 && |t.samples| == 6
    && forall i :: 0 <= i < 6 ==> SampleFits(t.samples[i])
  }

  function ApvWord(top: Word, high: Word, low: Word): Word {
    (top << 26) | (high << 13) | low
  }

  // The ten bits of the channel are split over the first two words.
  function EncodeTriple(t: ApvTriple): seq<Word>
    requires TripleFits(t)
  {
    [ApvWord(t.channel & 31, t.samples[1], t.samples[0]), ApvWord(t.channel >> 5, t.samples[3], t.samples[2]),
      ApvWord(t.apvId, t.samples[5], t.samples[4])]
  }

  ghost predicate AllFit(triples: seq<ApvTriple>) {
    forall i :: 0 <= i < |triples| ==> TripleFits(triples[i])
  }

  ghost function EncodeTriples(triples: seq<ApvTriple>): (r: seq<Word>)
    requires AllFit(triples)
    ensures |r| == 3 * |triples|
  {
    if triples == [] then [] else EncodeTriple(triples[0]) + EncodeTriples(triples[1..])
  }

  // A frame word; upper and middle are the bits that the decoder ignores.
  function FrameWord(upper: Word, fiber: Word, middle: Word, mpdId: Word): Word {
    DefiningWord(5, (upper << 21) | (fiber << 16) | (middle << 5) | mpdId)
  }

  // ----- Field by field -----

  lemma ApvWordBits(top: Word, high: Word, low: Word)
    requires top < 32 && SampleFits(high) && SampleFits(low)
    ensures var w := ApvWord(top, high, low);
      && GetBitsInRange(w, 31, 31) == 0 && GetBitsInRange(w, 30, 26) == top
      && GetBitsInRange(w, 25, 13) == high && GetBitsInRange(w, 12, 0) == low
  {
  }

  lemma ChannelHalves(channel: Word)
    requires channel < 1024
    ensures channel & 31 < 32 && channel >> 5 < 32
    ensures ((channel >> 5) << 5) | (channel & 31) == channel
  {
  }

  lemma FrameWordBits(upper: Word, fiber: Word, middle: Word, mpdId: Word)
    requires upper < 64 && fiber < 32 && middle < 2048 && mpdId < 32
    ensures var d := FrameWord(upper, fiber, middle, mpdId);
      && Defining(d) && DataType(d) == 5
      && GetBitsInRange(d, 20, 16) == fiber && GetBitsInRange(d, 4, 0) == mpdId
  {
  }

  lemma TripleRecovered(t: ApvTriple)
    requires TripleFits(t)
    ensures GetBitsInRange(EncodeTriple(t)[0], 31, 31) == 0
    ensures TripleFields(EncodeTriple(t)[0], EncodeTriple(t)[1], EncodeTriple(t)[2]) == t
  {
    ChannelHalves(t.channel);
    hide GetBitsInRange, ApvWord, SampleFits;
    ApvWordBits(t.channel & 31, t.samples[1], t.samples[0]);
    ApvWordBits(t.channel >> 5, t.samples[3], t.samples[2]);
    ApvWordBits(t.apvId, t.samples[5], t.samples[4]);
    assert t.samples == [t.samples[0], t.samples[1], t.samples[2], t.samples[3], t.samples[4], t.samples[5]];
  }

  // ----- Frames -----

  // Encoded triples at position k, followed by a defining word or by the end
  // of the bank.
  lemma {:induction false} TriplesRecovered(words: seq<Word>, k: nat, triples: seq<ApvTriple>)
    requires AllFit(triples) && k + 3 * |triples| <= |words|
    requires words[k..k + 3 * |triples|] == EncodeTriples(triples)
    requires k + 3 * |triples| < |words| ==> Defining(words[k + 3 * |triples|])
    ensures TriplesFrom(words, k) == if k + 3 * |triples| < |words| then Some(triples) else None
    decreases |triples|
  {
    hide GetBitsInRange, TripleFields, EncodeTriple, TripleFits;
    if triples == [] {
      assert k < |words| ==> GetBitsInRange(words[k], 31, 31) != 0 by {
        assert k + 0 == k;
      }
    } else {
      var encoded := EncodeTriples(triples);
      TripleRecovered(triples[0]);
      TripleLength(triples[0]);
      assert encoded == EncodeTriple(triples[0]) + EncodeTriples(triples[1..]);
      assert words[k] == encoded[0] && words[k + 1] == encoded[1] && words[k + 2] == encoded[2];
      assert words[k + 3..k + 3 * |triples|] == encoded[3..] == EncodeTriples(triples[1..]);
      TriplesRecovered(words, k + 3, triples[1..]);
      assert [triples[0]] + triples[1..] == triples;
    }
  }

  lemma TripleLength(t: ApvTriple)
    requires TripleFits(t)
    ensures |EncodeTriple(t)| == 3
  {
  }

  lemma FrameMark(d: Word)
    requires Defining(d) && DataType(d) == 5
    ensures MarkOf(d) == Payload
  {
  }

  lemma FrameOriginAt(upper: Word, fiber: Word, middle: Word, mpdId: Word, rocid: Word,
                      st: DecoderState)
    requires upper < 64 && fiber < 32 && middle < 2048 && mpdId < 32
    ensures OriginAt(FrameWord(upper, fiber, middle, mpdId), rocid, st) ==
      FrameOrigin(rocid, st.slot, st.eventNumber, st.timestamp, mpdId, fiber)
  {
    hide GetBitsInRange, FrameWord;
    FrameWordBits(upper, fiber, middle, mpdId);
  }

  lemma FrameDecoded(words: seq<Word>, j: nat, triples: seq<ApvTriple>, rocid: Word, st: DecoderState, first: Counter)
    requires j < |words| && Defining(words[j]) && DataType(words[j]) == 5
    requires TriplesFrom(words, j + 1) == Some(triples)
    requires st.frame.remaining >= 0 && st.eventNumber in st.events
    ensures Step(words, j, rocid, st, first) ==
      Decoded((st.(events := Append(st.events, st.eventNumber, FrameHits(OriginAt(words[j], rocid, st), triples))),
        j + 3 * |triples|))
  {
    hide GetBitsInRange, Defining, DataType, MarkOf, FrameHits, TriplesFrom, OriginAt;
    FrameMark(words[j]);
    if triples == [] {
      var hits := FrameHits(OriginAt(words[j], rocid, st), triples);
      assert st.events[st.eventNumber] + hits == st.events[st.eventNumber];
      assert Append(st.events, st.eventNumber, hits) == st.events;
    }
  }

  lemma FrameRunsOut(words: seq<Word>, j: nat, rocid: Word, st: DecoderState, first: Counter)
    requires j < |words| && Defining(words[j]) && DataType(words[j]) == 5
    requires TriplesFrom(words, j + 1) == None && st.frame.remaining >= 0
    ensures Step(words, j, rocid, st, first) == Undefined
  {
    hide GetBitsInRange, Defining, DataType, MarkOf, TriplesFrom;
    FrameMark(words[j]);
  }

  // A frame with any number of APV triples, met inside an open event, decodes
  // to one hit per triple, in order, with every field recovered, and decoding
  // resumes exactly at the defining word that follows. Without such a word
  // the parser reads beyond the end of the bank.
  lemma {:induction false} FrameRoundTrip(words: seq<Word>, j: nat, upper: Word, fiber: Word, middle: Word, mpdId: Word,
                                          triples: seq<ApvTriple>, rocid: Word, st: DecoderState, first: Counter)
    requires upper < 64 && fiber < 32 && middle < 2048 && mpdId < 32 && AllFit(triples)
    requires j + 1 + 3 * |triples| <= |words|
    requires words[j] == FrameWord(upper, fiber, middle, mpdId)
    requires words[j + 1..j + 1 + 3 * |triples|] == EncodeTriples(triples)
    requires j + 1 + 3 * |triples| < |words| ==> Defining(words[j + 1 + 3 * |triples|])
    requires st.frame.remaining >= 0 && st.eventNumber in st.events
    ensures Step(words, j, rocid, st, first) ==
      if j + 1 + 3 * |triples| == |words| then Undefined
      else
        var origin := FrameOrigin(rocid, st.slot, st.eventNumber, st.timestamp, mpdId, fiber);
        Decoded((st.(events := Append(st.events, st.eventNumber, FrameHits(origin, triples))), j + 3 * |triples|))
  {
    hide *;
    FrameOriginAt(upper, fiber, middle, mpdId, rocid, st);
    FrameWordBits(upper, fiber, middle, mpdId);
    TriplesRecovered(words, j + 1, triples);
    if j + 1 + 3 * |triples| < |words| {
      FrameDecoded(words, j, triples, rocid, st, first);
    } else {
      FrameRunsOut(words, j, rocid, st, first);
    }
  }

  // ----- Framing -----

  // The hits that the word at position j and the words of its frame describe.
  function HitsRead(words: seq<Word>, j: nat, rocid: Word, st: DecoderState): seq<MpdHit>
    requires j < |words|
  {
    if !Defining(words[j]) || DataType(words[j]) != 5 then []
    else
      match TriplesFrom(words, j + 1)
      case None => []
      case Some(triples) => FrameHits(OriginAt(words[j], rocid, st), triples)
  }

  function VisitOf(words: seq<Word>, j: nat, rocid: Word, st: DecoderState, next: DecoderState): Visit<MpdHit>
    requires j < |words|
  {
    Visit(MarkOf(words[j]), GetBitsInRange(words[j], 26, 22), HitsRead(words, j, rocid, st),
      next.frame, next.events.Keys, next.eventNumber)
  }

  function CarriedBy(st: DecoderState): Carried {
    Carried(st.frame, st.events.Keys, st.eventNumber, st.slot)
  }

  // What is observed at each word where the cursor stops, up to the end of
  // the stream or to where it is rejected.
  function Trace(words: seq<Word>, j: nat, rocid: Word, st: DecoderState, first: Counter): seq<Visit<MpdHit>>
    requires j <= |words|
    decreases |words| - j
  {
    if j == |words| then []
    else
      match Step(words, j, rocid, st, first)
      case Decoded(next) =>
        [VisitOf(words, j, rocid, st, next.0)] + Trace(words, next.1 + 1, rocid, next.0, first)
      case Rejected => []
      case Undefined => []
  }

  // Where reading stops: the state there and the position, which is the end
  // of the stream if it is accepted.
  function Stop(words: seq<Word>, j: nat, rocid: Word, st: DecoderState, first: Counter): (r: (DecoderState, nat))
    requires j <= |words|
    ensures r.1 <= |words|
    decreases |words| - j
  {
    if j == |words| then (st, j)
    else
      match Step(words, j, rocid, st, first)
      case Decoded(next) => Stop(words, next.1 + 1, rocid, next.0, first)
      case Rejected => (st, j)
      case Undefined => (st, j)
  }

  lemma StepFollowsFraming(words: seq<Word>, j: nat, rocid: Word, st: DecoderState, first: Counter)
    requires j < |words| && Step(words, j, rocid, st, first).Decoded?
    ensures var next := Step(words, j, rocid, st, first).value.0;
      && Follows(CarriedBy(st), first, AtTrailers, VisitOf(words, j, rocid, st, next))
      && CarriedOn(CarriedBy(st), VisitOf(words, j, rocid, st, next)) == CarriedBy(next)
  {
    hide GetBitsInRange, Defining, DataType, EventNumber, TriplesFrom, FrameHits;
  }

  // A step adds the hits it reads to the event under which they are filed.
  lemma StepFiles(words: seq<Word>, j: nat, rocid: Word, st: DecoderState, first: Counter, n: nat)
    requires j < |words| && Step(words, j, rocid, st, first).Decoded?
    ensures var next := Step(words, j, rocid, st, first).value.0;
      At(next.events, n) ==
        At(st.events, n) + if next.eventNumber == n then HitsRead(words, j, rocid, st) else []
  {
    hide GetBitsInRange, Defining, DataType, EventNumber, TriplesFrom, FrameHits;
    assert At(st.events, n) + [] == At(st.events, n);
  }

  // One step of the decoder followed by the rest.
  lemma TraceFirst(words: seq<Word>, j: nat, rocid: Word, st: DecoderState, first: Counter)
    requires j < |words| && Step(words, j, rocid, st, first).Decoded?
    ensures var next := Step(words, j, rocid, st, first).value;
      && Trace(words, j, rocid, st, first) ==
        [VisitOf(words, j, rocid, st, next.0)] + Trace(words, next.1 + 1, rocid, next.0, first)
      && Stop(words, j, rocid, st, first) == Stop(words, next.1 + 1, rocid, next.0, first)
      && DecodeFrom(words, j, rocid, st, first) == DecodeFrom(words, next.1 + 1, rocid, next.0, first)
  {
    hide Step, VisitOf;
  }

  lemma {:induction false} TraceIsChained(words: seq<Word>, j: nat, rocid: Word, st: DecoderState, first: Counter)
    requires j <= |words|
    ensures Chained(CarriedBy(st), first, AtTrailers, Trace(words, j, rocid, st, first))
    ensures CarriedBy(Stop(words, j, rocid, st, first).0) ==
      CarriedAfter(CarriedBy(st), Trace(words, j, rocid, st, first))
    decreases |words| - j
  {
    hide Step, Follows, CarriedOn, VisitOf, CarriedBy;
    if j < |words| && Step(words, j, rocid, st, first).Decoded? {
      hide Trace, Stop;
      StepFollowsFraming(words, j, rocid, st, first);
      var next := Step(words, j, rocid, st, first).value;
      TraceIsChained(words, next.1 + 1, rocid, next.0, first);
      TraceFirst(words, j, rocid, st, first);
      assert Trace(words, j, rocid, st, first)[1..] == Trace(words, next.1 + 1, rocid, next.0, first);
    }
  }

  lemma {:induction false} DecodeStops(words: seq<Word>, j: nat, rocid: Word, st: DecoderState, first: Counter)
    requires j <= |words|
    ensures var (end, k) := Stop(words, j, rocid, st, first);
      && DecodeFrom(words, j, rocid, st, first) ==
        (if k == |words| then Decoded(end)
         else if Step(words, k, rocid, end, first).Rejected? then Rejected
         else Undefined)
      && (k < |words| ==> !Step(words, k, rocid, end, first).Decoded?)
    decreases |words| - j
  {
    hide Step;
    if j < |words| && Step(words, j, rocid, st, first).Decoded? {
      TraceFirst(words, j, rocid, st, first);
      var next := Step(words, j, rocid, st, first).value;
      hide DecodeFrom, Stop;
      DecodeStops(words, next.1 + 1, rocid, next.0, first);
    }
  }

  lemma {:induction false} TraceFiles(words: seq<Word>, j: nat, rocid: Word, st: DecoderState, first: Counter, n: nat)
    requires j <= |words|
    ensures At(Stop(words, j, rocid, st, first).0.events, n) ==
      At(st.events, n) + Gathered(Trace(words, j, rocid, st, first), n)
    decreases |words| - j
  {
    hide Step, HitsRead, At, MarkOf, GetBitsInRange;
    if j < |words| && Step(words, j, rocid, st, first).Decoded? {
      TraceFirst(words, j, rocid, st, first);
      StepFiles(words, j, rocid, st, first, n);
      var next := Step(words, j, rocid, st, first).value;
      TraceFiles(words, next.1 + 1, rocid, next.0, first, n);
      hide Trace, Stop, Gathered;
      GatheredFirst(VisitOf(words, j, rocid, st, next.0), Trace(words, next.1 + 1, rocid, next.0, first), n,
        At(st.events, n));
    } else {
      assert At(st.events, n) + [] == At(st.events, n);
    }
  }

  // Every stream is well framed as far as it is read, slots included, and the
  // event numbers of an accepted stream are the contiguous range from the first
  // on, as many as the largest number of event headers between trailers.
  lemma MpdFraming(words: seq<Word>, rocid: Word, first: nat)
    ensures var visits := Trace(words, 0, rocid, INITIAL, Counter32(first));
      && WellFramed(visits, Counter32(first), AtTrailers)
      && (Decode(words, rocid, first).Decoded? ==>
        Decode(words, rocid, first).value.events.Keys ==
          Numbers(Counter32(first), PeakAfter(Marks(visits), |visits|)))
  {
    assert CarriedBy(INITIAL) == Begin(0);
    TraceIsChained(words, 0, rocid, INITIAL, Counter32(first));
    DecodeStops(words, 0, rocid, INITIAL, Counter32(first));
    hide DecodeFrom, Trace, Stop, Step, Chained, PeakAfter, IndexAfter, RemainingAfter, WellFramed;
    var visits := Trace(words, 0, rocid, INITIAL, Counter32(first));
    ChainedIsWellFramed(visits, Counter32(first), AtTrailers, 0);
    CountersAreCounts(Marks(visits), |visits|);
  }

  // Every hit of an accepted stream is in exactly one place: the event whose
  // header came last before it, after the hits read earlier.
  lemma HitsFiled(words: seq<Word>, rocid: Word, first: nat, n: nat)
    requires Decode(words, rocid, first).Decoded?
    ensures At(Decode(words, rocid, first).value.events, n) ==
      Gathered(Trace(words, 0, rocid, INITIAL, Counter32(first)), n)
  {
    DecodeStops(words, 0, rocid, INITIAL, Counter32(first));
    TraceFiles(words, 0, rocid, INITIAL, Counter32(first), n);
    hide DecodeFrom, Trace, Stop, Step, Gathered;
    assert [] + Gathered(Trace(words, 0, rocid, INITIAL, Counter32(first)), n) ==
      Gathered(Trace(words, 0, rocid, INITIAL, Counter32(first)), n);
  }

  // ----- Rejected and misread streams -----

  // A trigger time without its second word.
  predicate TimeCut(words: seq<Word>, k: nat)
    requires k < |words|
  {
    Defining(words[k]) && DataType(words[k]) == 3 && k + 1 == |words|
  }

  // A frame that no defining word ends: of the words after its header, no
  // first word of a triple is one.
  ghost predicate FrameCut(words: seq<Word>, k: nat)
    requires k < |words|
  {
    Defining(words[k]) && DataType(words[k]) == 5 && NoEnd(words, k + 1)
  }

  ghost predicate NoEnd(words: seq<Word>, k: nat) {
    forall i: nat {:trigger TripleStart(k, i)} :: TripleStart(k, i) < |words| ==>
      GetBitsInRange(words[TripleStart(k, i)], 31, 31) == 0
  }

  function TripleStart(k: nat, i: nat): nat {
    k + 3 * i
  }

  // A frame with at least one triple.
  predicate DescribesHits(words: seq<Word>, k: nat)
    requires k < |words|
  {
    && Defining(words[k]) && DataType(words[k]) == 5
    && k + 1 < |words| && GetBitsInRange(words[k + 1], 31, 31) == 0
  }

  lemma {:induction false} RunsOutIff(words: seq<Word>, k: nat)
    ensures TriplesFrom(words, k).None? <==> NoEnd(words, k)
    decreases |words| - k
  {
    hide GetBitsInRange, TripleFields;
    if k < |words| {
      assert TripleStart(k, 0) == k;
      if GetBitsInRange(words[k], 31, 31) == 0 {
        RunsOutIff(words, k + 3);
        assert forall i: nat {:trigger TripleStart(k + 3, i)} :: TripleStart(k, i + 1) == TripleStart(k + 3, i);
        assert forall i: nat :: i > 0 ==> TripleStart(k, i) == TripleStart(k + 3, i - 1);
      }
    }
  }

  // Why a stream is rejected: the word at which reading stops is not allowed
  // there by the framing.
  predicate Refused(visits: seq<Visit<MpdHit>>, words: seq<Word>, k: nat)
    requires k < |words|
  {
    Misplaced(Marks(visits), Slots(visits), AtTrailers, MarkOf(words[k]), GetBitsInRange(words[k], 26, 22))
  }

  // Why a stream is misread: inside a block reading stops at a trigger time
  // that ends the stream, at a frame that nothing ends, or at a frame with
  // triples before any event header.
  ghost predicate Misread(visits: seq<Visit<MpdHit>>, words: seq<Word>, k: nat)
    requires k < |words|
  {
    && InBlock(Marks(visits))
    && (TimeCut(words, k) || FrameCut(words, k) || (DescribesHits(words, k) && NoEventYet(Marks(visits))))
  }

  lemma StepStops(words: seq<Word>, k: nat, rocid: Word, st: DecoderState, first: Counter)
    requires k < |words|
    ensures Step(words, k, rocid, st, first).Rejected? <==>
      || st.frame.Next(MarkOf(words[k])).None?
      || (MarkOf(words[k]).BlockTrailer? && GetBitsInRange(words[k], 26, 22) != st.slot)
    ensures Step(words, k, rocid, st, first).Undefined? <==>
      && st.frame.remaining >= 0
      && (TimeCut(words, k) || FrameCut(words, k) || (DescribesHits(words, k) && st.eventNumber !in st.events))
  {
    RunsOutIff(words, k + 1);
    hide GetBitsInRange, Defining, EventNumber, FrameHits, TripleFields, NoEnd, Timestamp;
  }

  // How every stream ends: accepted when all of it is read, and otherwise
  // rejected or misread for exactly these reasons.
  lemma HowItEnds(words: seq<Word>, rocid: Word, first: nat)
    ensures var counter := Counter32(first);
      var visits, k := Trace(words, 0, rocid, INITIAL, counter), Stop(words, 0, rocid, INITIAL, counter).1;
      && (Decode(words, rocid, first).Decoded? <==> k == |words|)
      && (Decode(words, rocid, first).Rejected? <==> k < |words| && Refused(visits, words, k))
      && (Decode(words, rocid, first).Undefined? <==> k < |words| && Misread(visits, words, k))
  {
    var counter := Counter32(first);
    assert CarriedBy(INITIAL) == Begin(0);
    TraceIsChained(words, 0, rocid, INITIAL, counter);
    DecodeStops(words, 0, rocid, INITIAL, counter);
    var visits := Trace(words, 0, rocid, INITIAL, counter);
    var (end, k) := Stop(words, 0, rocid, INITIAL, counter);
    hide Decode, DecodeFrom, Trace, Chained, Stop, Step, WellFramed, Misplaced, TimeCut, FrameCut, DescribesHits, Begin;
    ChainedIsWellFramed(visits, counter, AtTrailers, 0);
    if k < |words| {
      StepStops(words, k, rocid, end, counter);
      MisplacedFromCarried(visits, counter, AtTrailers, CarriedBy(end), MarkOf(words[k]),
        GetBitsInRange(words[k], 26, 22));
    }
  }
}
