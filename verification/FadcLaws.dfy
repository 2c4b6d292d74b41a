// What every accepted FADC250 stream satisfies: cursor safety of the two
// sub-parsers, and the framing of the blocks.
module FadcLaws {
  import opened Words
  import opened EventMaps
  import opened BlockFraming
  import opened StreamTraces
  import opened HitTypes
  import opened Fadc

  // ----- Waveforms -----

  predicate Continues(w: Word) {
    GetBitsInRange(w, 31, 31) == 0
  }

  // How many of the two samples of a word are flagged invalid.
  function InvalidFlags(w: Word): nat {
    (if GetBitsInRange(w, 29, 29) == 0 then 0 else 1) + (if GetBitsInRange(w, 13, 13) == 0 then 0 else 1)
  }

  function InvalidSamples(words: seq<Word>, n: nat): nat
    requires n <= |words|
  {
    if n == 0 then 0 else InvalidFlags(words[0]) + InvalidSamples(words[1..], n - 1)
  }

  lemma WordSampleCount(w: Word)
    ensures |WordSamples(w)| + InvalidFlags(w) == 2
  {
    hide GetBitsInRange;
  }

  lemma {:induction false} SamplesTaken(words: seq<Word>, n: nat)
    requires n <= |words|
    ensures TakeSamples(words, n).Some? <==> forall i :: 0 <= i < n ==> Continues(words[i])
    ensures TakeSamples(words, n).Some? ==>
      |TakeSamples(words, n).value| + InvalidSamples(words, n) == 2 * n
    decreases n
  {
    hide GetBitsInRange, WordSamples, InvalidFlags;
    if n > 0 {
      WordSampleCount(words[0]);
      SamplesTaken(words[1..], n - 1);
      assert forall i :: 0 < i < n ==> words[i] == words[1..][i - 1];
    }
  }

  // A waveform of the announced length is accepted exactly when its words are
  // all present, all continuation words, and flag one sample invalid if the
  // length is odd and none if it is even. Input that ends early is rejected.
  lemma WaveformAccepted(words: seq<Word>, length: nat)
    ensures var n := WaveformWords(length);
      WaveformAt(words, length).Some? <==>
        n <= |words| && (forall i :: 0 <= i < n ==> Continues(words[i])) && InvalidSamples(words, n) == length % 2
  {
    hide GetBitsInRange, WordSamples, InvalidFlags, TakeSamples, InvalidSamples;
    var n := WaveformWords(length);
    if n <= |words| {
      SamplesTaken(words, n);
    } else {
      assert WaveformAt(words, length).None?;
    }
  }

  // ----- Pulses -----

  // The pulse parser takes the longest run of complete continuation pairs:
  // everything it took was in range and a continuation word, and it stopped
  // only before a defining word or with fewer than two words left.
  lemma {:induction false} PulsesTaken(words: seq<Word>)
    ensures var n := 2 * |TakePulses(words)|;
      && n <= |words|
      && (forall i :: 0 <= i < n ==> Continues(words[i]))
      && (n + 1 < |words| ==> !Continues(words[n]) || !Continues(words[n + 1]))
    ensures forall k :: 0 <= k < |TakePulses(words)| ==>
      TakePulses(words)[k] == PulseFields(words[2 * k], words[2 * k + 1])
    decreases |words|
  {
    hide GetBitsInRange, PulseFields;
    if |words| >= 2 && Continues(words[0]) && Continues(words[1]) {
      var rest := words[2..];
      PulsesTaken(rest);
      assert TakePulses(words) == [PulseFields(words[0], words[1])] + TakePulses(rest);
      assert forall i :: 2 <= i < |words| ==> words[i] == rest[i - 2];
      forall k | 0 < k < |TakePulses(words)|
        ensures TakePulses(words)[k] == PulseFields(words[2 * k], words[2 * k + 1])
      {
        assert TakePulses(words)[k] == TakePulses(rest)[k - 1];
      }
    }
  }

  // ----- Framing -----

  // The hits that the first word and its continuation words describe.
  function HitsRead(words: seq<Word>, origin: Origin): seq<FadcHit>
    requires words != []
  {
    if !CarriesHits(words[0]) then []
    else
      match HitsAt(words[0], words[1..], origin)
      case None => []
      case Some(hits) => hits.0
  }

  function VisitOf(words: seq<Word>, st: DecoderState, next: DecoderState): Visit<FadcHit>
    requires words != []
  {
    Visit(MarkOf(words[0]), GetBitsInRange(words[0], 26, 22), HitsRead(words, st.origin),
      next.frame, next.events.Keys, next.eventNumber)
  }

  function CarriedBy(st: DecoderState): Carried {
    Carried(st.frame, st.events.Keys, st.eventNumber, st.origin.slot)
  }

  // What is observed at each word where the cursor stops, up to the end of
  // the stream or to where it is rejected.
  function Trace(words: seq<Word>, st: DecoderState, first: Counter): seq<Visit<FadcHit>>
    decreases |words|
  {
    if words == [] then []
    else
      match Step(words, st, first)
      case Decoded(next) => [VisitOf(words, st, next.0)] + Trace(next.1, next.0, first)
      case Rejected => []
      case Undefined => []
  }

  // Where reading stops: the state there and the words left, none of them if
  // the stream is accepted.
  function Stop(words: seq<Word>, st: DecoderState, first: Counter): (DecoderState, seq<Word>)
    decreases |words|
  {
    if words == [] then (st, [])
    else
      match Step(words, st, first)
      case Decoded(next) => Stop(next.1, next.0, first)
      case Rejected => (st, words)
      case Undefined => (st, words)
  }

  function Unread(words: seq<Word>, st: DecoderState, first: Counter): seq<Word> {
    Stop(words, st, first).1
  }

  lemma StepFollowsFraming(words: seq<Word>, st: DecoderState, first: Counter)
    requires words != [] && Step(words, st, first).Decoded?
    ensures var next := Step(words, st, first).value.0;
      && Follows(CarriedBy(st), first, AtEventHeaders, VisitOf(words, st, next))
      && CarriedOn(CarriedBy(st), VisitOf(words, st, next)) == CarriedBy(next)
  {
    hide GetBitsInRange, Defining, DataType, HitsAt, EventNumber;
  }

  // A step adds the hits it reads to the event under which they are filed.
  lemma StepFiles(words: seq<Word>, st: DecoderState, first: Counter, n: nat)
    requires words != [] && Step(words, st, first).Decoded?
    ensures var next := Step(words, st, first).value.0;
      At(next.events, n) == At(st.events, n) + if next.eventNumber == n then HitsRead(words, st.origin) else []
  {
    hide GetBitsInRange, Defining, DataType, HitsAt, EventNumber;
    assert At(st.events, n) + [] == At(st.events, n);
  }

  lemma {:induction false} TraceIsChained(words: seq<Word>, st: DecoderState, first: Counter)
    ensures Chained(CarriedBy(st), first, AtEventHeaders, Trace(words, st, first))
    ensures CarriedBy(Stop(words, st, first).0) == CarriedAfter(CarriedBy(st), Trace(words, st, first))
    decreases |words|
  {
    hide Step, MarkOf, GetBitsInRange, Follows, CarriedOn, VisitOf, CarriedBy;
    if words != [] && Step(words, st, first).Decoded? {
      StepFollowsFraming(words, st, first);
      var next := Step(words, st, first).value;
      TraceIsChained(next.1, next.0, first);
      assert Trace(words, st, first)[1..] == Trace(next.1, next.0, first);
    }
  }

  lemma {:induction false} DecodeStops(words: seq<Word>, st: DecoderState, first: Counter)
    ensures var (end, rest) := Stop(words, st, first);
      Decode(words, st, first) ==
        if rest == [] then Decoded(end) else if Step(rest, end, first).Rejected? then Rejected else Undefined
    ensures var (end, rest) := Stop(words, st, first);
      rest != [] ==> !Step(rest, end, first).Decoded?
    decreases |words|
  {
    hide Step;
    if words != [] && Step(words, st, first).Decoded? {
      var next := Step(words, st, first).value;
      DecodeStops(next.1, next.0, first);
    }
  }

  lemma {:induction false} TraceFiles(words: seq<Word>, st: DecoderState, first: Counter, n: nat)
    ensures At(Stop(words, st, first).0.events, n) == At(st.events, n) + Gathered(Trace(words, st, first), n)
    decreases |words|
  {
    hide Step, HitsRead, At, MarkOf, GetBitsInRange;
    if words != [] && Step(words, st, first).Decoded? {
      StepFiles(words, st, first, n);
      var next := Step(words, st, first).value;
      TraceFiles(next.1, next.0, first, n);
      GatheredFirst(VisitOf(words, st, next.0), Trace(next.1, next.0, first), n, At(st.events, n));
    } else {
      assert At(st.events, n) + [] == At(st.events, n);
    }
  }

  // Every stream is well framed as far as it is read, slots included, and the
  // event numbers of an accepted stream are the contiguous range from the first
  // on, as many as the largest number of event headers between trailers.
  lemma {:induction false} FadcFraming(words: seq<Word>, rocid: Word, first: Counter)
    ensures var visits := Trace(words, InitialState(rocid), first);
      && WellFramed(visits, first, AtEventHeaders)
      && (Decode(words, InitialState(rocid), first).Decoded? ==>
        Decode(words, InitialState(rocid), first).value.events.Keys ==
          Numbers(first, PeakAfter(Marks(visits), |visits|)))
  {
    assert CarriedBy(InitialState(rocid)) == Begin(0);
    TraceIsChained(words, InitialState(rocid), first);
    DecodeStops(words, InitialState(rocid), first);
    var visits := Trace(words, InitialState(rocid), first);
    hide Decode, Trace, Chained, Stop, Step, WellFramed, PeakAfter, IndexAfter, RemainingAfter;
    ChainedIsWellFramed(visits, first, AtEventHeaders, 0);
    CountersAreCounts(Marks(visits), |visits|);
  }

  // Every hit of an accepted stream is in exactly one place: the event whose
  // header came last before it, after the hits read earlier.
  lemma HitsFiled(words: seq<Word>, rocid: Word, first: Counter, n: nat)
    requires Decode(words, InitialState(rocid), first).Decoded?
    ensures At(Decode(words, InitialState(rocid), first).value.events, n) ==
      Gathered(Trace(words, InitialState(rocid), first), n)
  {
    DecodeStops(words, InitialState(rocid), first);
    TraceFiles(words, InitialState(rocid), first, n);
    hide Decode, Trace, Stop, Step, Gathered;
    assert [] + Gathered(Trace(words, InitialState(rocid), first), n) ==
      Gathered(Trace(words, InitialState(rocid), first), n);
  }

  // ----- Rejected and misread streams -----

  // A waveform that is cut short, interrupted, or of another length than
  // announced.
  predicate BadWaveform(words: seq<Word>)
    requires words != []
  {
    Defining(words[0]) && DataType(words[0]) == 4 &&
    WaveformAt(words[1..], GetBitsInRange(words[0], 11, 0) as nat).None?
  }

  // A trigger time without its second word.
  predicate TimeCut(words: seq<Word>)
    requires words != []
  {
    Defining(words[0]) && DataType(words[0]) == 3 && |words| == 1
  }

  // A data word that describes at least one hit.
  predicate DescribesHits(words: seq<Word>)
    requires words != []
  {
    Defining(words[0]) && (
      || DataType(words[0]) in {7, 8, 10}
      || (DataType(words[0]) == 4 && !BadWaveform(words))
      || (DataType(words[0]) == 9 && |words| > 2 && Continues(words[1]) && Continues(words[2])))
  }

  lemma HitsDescribed(words: seq<Word>, origin: Origin)
    requires words != []
    ensures DescribesHits(words) <==> HitsRead(words, origin) != []
    ensures BadWaveform(words) <==> CarriesHits(words[0]) && HitsAt(words[0], words[1..], origin).None?
  {
    hide GetBitsInRange, Defining, WaveformAt, SingleWordHit;
  }

  // Why a stream is rejected: where reading stops stands a word that the
  // framing does not allow there, or a malformed waveform.
  predicate Refused(visits: seq<Visit<FadcHit>>, rest: seq<Word>)
    requires rest != []
  {
    || Misplaced(Marks(visits), Slots(visits), AtEventHeaders, MarkOf(rest[0]), GetBitsInRange(rest[0], 26, 22))
    || BadWaveform(rest)
  }

  // Why a stream is misread: inside a block reading stops at a trigger time
  // that ends the stream, or at hits before any event header.
  predicate Misread(visits: seq<Visit<FadcHit>>, rest: seq<Word>)
    requires rest != []
  {
    InBlock(Marks(visits)) && (TimeCut(rest) || (DescribesHits(rest) && NoEventYet(Marks(visits))))
  }

  lemma StepStops(words: seq<Word>, st: DecoderState, first: Counter)
    requires words != []
    ensures Step(words, st, first).Rejected? <==>
      || st.frame.Next(MarkOf(words[0])).None?
      || (MarkOf(words[0]).EventHeader? && GetBitsInRange(words[0], 26, 22) != st.origin.slot)
      || BadWaveform(words)
    ensures Step(words, st, first).Undefined? <==>
      && st.frame.remaining >= 0
      && (TimeCut(words) || (DescribesHits(words) && st.eventNumber !in st.events))
  {
    HitsDescribed(words, st.origin);
    hide GetBitsInRange, Defining, HitsAt, EventNumber, WaveformAt;
  }

  // How every stream ends: accepted when all of it is read, and otherwise
  // rejected or misread for exactly these reasons.
  lemma {:induction false} HowItEnds(words: seq<Word>, rocid: Word, first: Counter)
    ensures var st := InitialState(rocid);
      var visits, rest := Trace(words, st, first), Unread(words, st, first);
      && (Decode(words, st, first).Decoded? <==> rest == [])
      && (Decode(words, st, first).Rejected? <==> rest != [] && Refused(visits, rest))
      && (Decode(words, st, first).Undefined? <==> rest != [] && Misread(visits, rest))
  {
    var st := InitialState(rocid);
    assert CarriedBy(st) == Begin(0);
    TraceIsChained(words, st, first);
    DecodeStops(words, st, first);
    var visits, rest, end := Trace(words, st, first), Unread(words, st, first), Stop(words, st, first).0;
    hide Decode, Trace, Chained, Stop, Step, WellFramed, Misplaced, BadWaveform, TimeCut, DescribesHits, Begin;
    ChainedIsWellFramed(visits, first, AtEventHeaders, 0);
    if rest != [] {
      StepStops(rest, end, first);
      MisplacedFromCarried(visits, first, AtEventHeaders, CarriedBy(end), MarkOf(rest[0]),
        GetBitsInRange(rest[0], 26, 22));
    }
  }
}
