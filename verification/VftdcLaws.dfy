// What the VFTDC decoder guarantees: data words round trip, the framing of the
// blocks, and how streams end.
module VftdcLaws {
  import opened Words
  import opened EventMaps
  import opened BlockFraming
  import opened StreamTraces
  import opened HitTypes
  import opened Vftdc

  // ----- Data words -----

  function DataWord(group: Word, channel: Word, edge: Word, coarse: Word, twoNs: Word, fine: Word): Word {
    DefiningWord(7, (group << 24) | (channel << 19) | (edge << 18) | (coarse << 8) | (twoNs << 7) | fine)
  }

  lemma DataWordBits(group: Word, channel: Word, edge: Word, coarse: Word, twoNs: Word, fine: Word)
    requires group < 8 && channel < 32 && edge < 2 && coarse < 1024 && twoNs < 2 && fine < 128
    ensures var d := DataWord(group, channel, edge, coarse, twoNs, fine);
      && Defining(d) && DataType(d) == 7
      && GetBitsInRange(d, 26, 24) == group && GetBitsInRange(d, 23, 19) == channel && GetBitsInRange(d, 18, 18) == edge
      && GetBitsInRange(d, 17, 8) == coarse && GetBitsInRange(d, 7, 7) == twoNs && GetBitsInRange(d, 6, 0) == fine
  {
  }

  // A data word met inside an open event adds one hit to it, with all six
  // fields of its 27-bit payload recovered.
  lemma DataWordRoundTrip(words: seq<Word>, j: nat, rocid: Word, st: DecoderState, first: Counter,
      group: Word, channel: Word, edge: Word, coarse: Word, twoNs: Word, fine: Word)
    requires group < 8 && channel < 32 && edge < 2 && coarse < 1024 && twoNs < 2 && fine < 128
    requires j < |words| && words[j] == DataWord(group, channel, edge, coarse, twoNs, fine)
    requires st.frame.remaining >= 0 && st.eventNumber in st.events
    ensures Step(words, j, rocid, st, first) ==
      Decoded((st.(events := Append(st.events, st.eventNumber,
        [VftdcHit(rocid, st.slot, st.boardId, st.timestamp, group, channel, edge, coarse, twoNs, fine)])), j))
  {
    DataWordBits(group, channel, edge, coarse, twoNs, fine);
    hide GetBitsInRange, Defining, DataType, DataWord, Append;
  }

  // ----- Framing -----

  // The hit that the word at position j describes, if any.
  function HitsRead(words: seq<Word>, j: nat, rocid: Word, st: DecoderState): seq<VftdcHit>
    requires j < |words|
  {
    if Defining(words[j]) && DataType(words[j]) == 7 then [HitAt(words[j], rocid, st)] else []
  }

  function VisitOf(words: seq<Word>, j: nat, rocid: Word, st: DecoderState, next: DecoderState): Visit<VftdcHit>
    requires j < |words|
  {
    Visit(MarkOf(words[j]), GetBitsInRange(words[j], 26, 22), HitsRead(words, j, rocid, st),
      next.frame, next.events.Keys, next.eventNumber)
  }

  function CarriedBy(st: DecoderState): Carried {
    Carried(st.frame, st.events.Keys, st.eventNumber, st.slot)
  }

  // What is observed at each word where the cursor stops, up to the end of
  // the stream or to where it is rejected.
  function Trace(words: seq<Word>, j: nat, rocid: Word, st: DecoderState, first: Counter): seq<Visit<VftdcHit>>
    requires j <= |words|
    decreases |words| - j
  {
    if j == |words| then []
    else
      match Step(words, j, rocid, st, first)
      case Decoded(next) =>
        [VisitOf(words, j, rocid, st, next.0)] + Trace(words, next.1 + 1, rocid, next.0, first)
      case Rejected => []
      case Undefined => []
  }

  // Where reading stops: the state there and the position, which is the end
  // of the stream if it is accepted.
  function Stop(words: seq<Word>, j: nat, rocid: Word, st: DecoderState, first: Counter): (r: (DecoderState, nat))
    requires j <= |words|
    ensures r.1 <= |words|
    decreases |words| - j
  {
    if j == |words| then (st, j)
    else
      match Step(words, j, rocid, st, first)
      case Decoded(next) => Stop(words, next.1 + 1, rocid, next.0, first)
      case Rejected => (st, j)
      case Undefined => (st, j)
  }

  lemma StepFollowsFraming(words: seq<Word>, j: nat, rocid: Word, st: DecoderState, first: Counter)
    requires j < |words| && Step(words, j, rocid, st, first).Decoded?
    ensures var next := Step(words, j, rocid, st, first).value.0;
      && Follows(CarriedBy(st), first, AtEventHeaders, VisitOf(words, j, rocid, st, next))
      && CarriedOn(CarriedBy(st), VisitOf(words, j, rocid, st, next)) == CarriedBy(next)
  {
    hide GetBitsInRange, Defining, DataType, EventNumber;
  }

  // A step adds the hits it reads to the event under which they are filed.
  lemma StepFiles(words: seq<Word>, j: nat, rocid: Word, st: DecoderState, first: Counter, n: nat)
    requires j < |words| && Step(words, j, rocid, st, first).Decoded?
    ensures var next := Step(words, j, rocid, st, first).value.0;
      At(next.events, n) ==
        At(st.events, n) + if next.eventNumber == n then HitsRead(words, j, rocid, st) else []
  {
    hide GetBitsInRange, Defining, DataType, EventNumber;
    assert At(st.events, n) + [] == At(st.events, n);
  }

  // One step of the decoder followed by the rest.
  lemma TraceFirst(words: seq<Word>, j: nat, rocid: Word, st: DecoderState, first: Counter)
    requires j < |words| && Step(words, j, rocid, st, first).Decoded?
    ensures var next := Step(words, j, rocid, st, first).value;
      && Trace(words, j, rocid, st, first) ==
        [VisitOf(words, j, rocid, st, next.0)] + Trace(words, next.1 + 1, rocid, next.0, first)
      && Stop(words, j, rocid, st, first) == Stop(words, next.1 + 1, rocid, next.0, first)
      && DecodeFrom(words, j, rocid, st, first) == DecodeFrom(words, next.1 + 1, rocid, next.0, first)
  {
    hide Step, VisitOf;
  }

  lemma {:induction false} TraceIsChained(words: seq<Word>, j: nat, rocid: Word, st: DecoderState, first: Counter)
    requires j <= |words|
    ensures Chained(CarriedBy(st), first, AtEventHeaders, Trace(words, j, rocid, st, first))
    ensures CarriedBy(Stop(words, j, rocid, st, first).0) ==
      CarriedAfter(CarriedBy(st), Trace(words, j, rocid, st, first))
    decreases |words| - j
  {
    hide Step, Follows, CarriedOn, VisitOf, CarriedBy;
    if j < |words| && Step(words, j, rocid, st, first).Decoded? {
      hide Trace, Stop;
      StepFollowsFraming(words, j, rocid, st, first);
      var next := Step(words, j, rocid, st, first).value;
      TraceIsChained(words, next.1 + 1, rocid, next.0, first);
      TraceFirst(words, j, rocid, st, first);
      assert Trace(words, j, rocid, st, first)[1..] == Trace(words, next.1 + 1, rocid, next.0, first);
    }
  }

  lemma {:induction false} DecodeStops(words: seq<Word>, j: nat, rocid: Word, st: DecoderState, first: Counter)
    requires j <= |words|
    ensures var (end, k) := Stop(words, j, rocid, st, first);
      && DecodeFrom(words, j, rocid, st, first) ==
        (if k == |words| then Decoded(end)
         else if Step(words, k, rocid, end, first).Rejected? then Rejected
         else Undefined)
      && (k < |words| ==> !Step(words, k, rocid, end, first).Decoded?)
    decreases |words| - j
  {
    hide Step;
    if j < |words| && Step(words, j, rocid, st, first).Decoded? {
      TraceFirst(words, j, rocid, st, first);
      var next := Step(words, j, rocid, st, first).value;
      hide DecodeFrom, Stop;
      DecodeStops(words, next.1 + 1, rocid, next.0, first);
    }
  }

  lemma {:induction false} TraceFiles(words: seq<Word>, j: nat, rocid: Word, st: DecoderState, first: Counter, n: nat)
    requires j <= |words|
    ensures At(Stop(words, j, rocid, st, first).0.events, n) ==
      At(st.events, n) + Gathered(Trace(words, j, rocid, st, first), n)
    decreases |words| - j
  {
    hide Step, HitsRead, At, MarkOf, GetBitsInRange;
    if j < |words| && Step(words, j, rocid, st, first).Decoded? {
      TraceFirst(words, j, rocid, st, first);
      StepFiles(words, j, rocid, st, first, n);
      var next := Step(words, j, rocid, st, first).value;
      TraceFiles(words, next.1 + 1, rocid, next.0, first, n);
      hide Trace, Stop, Gathered;
      GatheredFirst(VisitOf(words, j, rocid, st, next.0), Trace(words, next.1 + 1, rocid, next.0, first), n,
        At(st.events, n));
    } else {
      assert At(st.events, n) + [] == At(st.events, n);
    }
  }

  // Every stream is well framed as far as it is read, slots included, and the
  // event numbers of an accepted stream are the contiguous range from the first
  // on, as many as the largest number of event headers between trailers.
  lemma {:induction false} VftdcFraming(words: seq<Word>, rocid: Word, first: nat)
    ensures var visits := Trace(words, 0, rocid, INITIAL, Counter64(first));
      && WellFramed(visits, Counter64(first), AtEventHeaders)
      && (Decode(words, rocid, first).Decoded? ==>
        Decode(words, rocid, first).value.events.Keys ==
          Numbers(Counter64(first), PeakAfter(Marks(visits), |visits|)))
  {
    assert CarriedBy(INITIAL) == Begin(0);
    TraceIsChained(words, 0, rocid, INITIAL, Counter64(first));
    DecodeStops(words, 0, rocid, INITIAL, Counter64(first));
    hide DecodeFrom, Trace, Stop, Step, Chained, PeakAfter, IndexAfter, RemainingAfter, WellFramed;
    var visits := Trace(words, 0, rocid, INITIAL, Counter64(first));
    ChainedIsWellFramed(visits, Counter64(first), AtEventHeaders, 0);
    CountersAreCounts(Marks(visits), |visits|);
  }

  // Every hit of an accepted stream is in exactly one place: the event whose
  // header came last before it, after the hits read earlier.
  lemma HitsFiled(words: seq<Word>, rocid: Word, first: nat, n: nat)
    requires Decode(words, rocid, first).Decoded?
    ensures At(Decode(words, rocid, first).value.events, n) ==
      Gathered(Trace(words, 0, rocid, INITIAL, Counter64(first)), n)
  {
    DecodeStops(words, 0, rocid, INITIAL, Counter64(first));
    TraceFiles(words, 0, rocid, INITIAL, Counter64(first), n);
    hide DecodeFrom, Trace, Stop, Step, Gathered;
    assert [] + Gathered(Trace(words, 0, rocid, INITIAL, Counter64(first)), n) ==
      Gathered(Trace(words, 0, rocid, INITIAL, Counter64(first)), n);
  }

  // ----- Rejected and misread streams -----

  // A trigger time without its second word.
  predicate TimeCut(words: seq<Word>, k: nat)
    requires k < |words|
  {
    Defining(words[k]) && DataType(words[k]) == 3 && k + 1 == |words|
  }

  predicate DescribesHits(words: seq<Word>, k: nat)
    requires k < |words|
  {
    Defining(words[k]) && DataType(words[k]) == 7
  }

  // Why a stream is rejected: the word at which reading stops is not allowed
  // there by the framing.
  predicate Refused(visits: seq<Visit<VftdcHit>>, words: seq<Word>, k: nat)
    requires k < |words|
  {
    Misplaced(Marks(visits), Slots(visits), AtEventHeaders, MarkOf(words[k]), GetBitsInRange(words[k], 26, 22))
  }

  // Why a stream is misread: inside a block reading stops at a trigger time
  // that ends the stream, or at a data word before any event header.
  predicate Misread(visits: seq<Visit<VftdcHit>>, words: seq<Word>, k: nat)
    requires k < |words|
  {
    && InBlock(Marks(visits))
    && (TimeCut(words, k) || (DescribesHits(words, k) && NoEventYet(Marks(visits))))
  }

  lemma StepStops(words: seq<Word>, k: nat, rocid: Word, st: DecoderState, first: Counter)
    requires k < |words|
    ensures Step(words, k, rocid, st, first).Rejected? <==>
      || st.frame.Next(MarkOf(words[k])).None?
      || (MarkOf(words[k]).EventHeader? && GetBitsInRange(words[k], 26, 22) != st.slot)
    ensures Step(words, k, rocid, st, first).Undefined? <==>
      && st.frame.remaining >= 0
      && (TimeCut(words, k) || (DescribesHits(words, k) && st.eventNumber !in st.events))
  {
    hide GetBitsInRange, Defining, EventNumber, Timestamp;
  }

  // How every stream ends: accepted when all of it is read, and otherwise
  // rejected or misread for exactly these reasons.
  lemma {:induction false} HowItEnds(words: seq<Word>, rocid: Word, first: nat)
    ensures var counter := Counter64(first);
      var visits, k := Trace(words, 0, rocid, INITIAL, counter), Stop(words, 0, rocid, INITIAL, counter).1;
      && (Decode(words, rocid, first).Decoded? <==> k == |words|)
      && (Decode(words, rocid, first).Rejected? <==> k < |words| && Refused(visits, words, k))
      && (Decode(words, rocid, first).Undefined? <==> k < |words| && Misread(visits, words, k))
  {
    var counter := Counter64(first);
    assert CarriedBy(INITIAL) == Begin(0);
    TraceIsChained(words, 0, rocid, INITIAL, counter);
    DecodeStops(words, 0, rocid, INITIAL, counter);
    var visits := Trace(words, 0, rocid, INITIAL, counter);
    var (end, k) := Stop(words, 0, rocid, INITIAL, counter);
    hide Decode, DecodeFrom, Trace, Chained, Stop, Step, WellFramed, Misplaced, TimeCut, DescribesHits, Begin;
    ChainedIsWellFramed(visits, counter, AtEventHeaders, 0);
    if k < |words| {
      StepStops(words, k, rocid, end, counter);
      MisplacedFromCarried(visits, counter, AtEventHeaders, CarriedBy(end), MarkOf(words[k]),
        GetBitsInRange(words[k], 26, 22));
    }
  }
}
