// The framing of the helicity decoder's blocks, and how its streams end.
module HelicityFraming {
  import opened Common
  import opened Words
  import opened BlockFraming
  import opened StreamTraces
  import opened Helicity

  function MarkOf(d: Word): Mark {
    if !Defining(d) then Ignored
    else if DataType(d) == 0 then BlockHeader(GetBitsInRange(d, 7, 0) as nat)
    else if DataType(d) == 1 then BlockTrailer
    else if DataType(d) == 2 then EventHeader
    else if DataType(d) in {3, 8} then Payload
    else Ignored
  }

  // What a word means to the framing, with its slot bits.
  datatype Heading = Heading(mark: Mark, slot: Word)

  function HeadingOf(d: Word): Heading {
    Heading(MarkOf(d), GetBitsInRange(d, 26, 22))
  }

  function HeadingMarks(seen: seq<Heading>): (r: seq<Mark>)
    ensures |r| == |seen| && forall n :: 0 <= n < |seen| ==> r[n] == seen[n].mark
  {
    Map((h: Heading) => h.mark, seen)
  }

  function HeadingSlots(seen: seq<Heading>): (r: seq<Word>)
    ensures |r| == |seen| && forall n :: 0 <= n < |seen| ==> r[n] == seen[n].slot
  {
    Map((h: Heading) => h.slot, seen)
  }

  // The words where the cursor stops, up to the end of the stream or to where
  // it is rejected.
  function Trace(words: seq<Word>, st: DecoderState): seq<Heading>
    decreases |words|
  {
    if words == [] then []
    else
      match Step(words, st)
      case Decoded(next) => [HeadingOf(words[0])] + Trace(next.1, next.0)
      case Rejected => []
      case Undefined => []
  }

  // Where reading stops: the state there and the words left, none of them if
  // the stream is accepted.
  function Stop(words: seq<Word>, st: DecoderState): (DecoderState, seq<Word>)
    decreases |words|
  {
    if words == [] then (st, [])
    else
      match Step(words, st)
      case Decoded(next) => Stop(next.1, next.0)
      case Rejected => (st, words)
      case Undefined => (st, words)
  }

  lemma {:induction false} DecodeStops(words: seq<Word>, st: DecoderState)
    ensures var (end, rest) := Stop(words, st);
      && Decode(words, st) ==
        (if rest == [] then Decoded(end) else if Step(rest, end).Rejected? then Rejected else Undefined)
      && (rest != [] ==> !Step(rest, end).Decoded?)
    decreases |words|
  {
    hide Step;
    if words != [] && Step(words, st).Decoded? {
      var next := Step(words, st).value;
      DecodeStops(next.1, next.0);
    }
  }

  // The decoder's registers after k words, as counts of what was seen.
  ghost predicate Matches(seen: seq<Heading>, k: nat, st: DecoderState)
    requires k <= |seen|
  {
    var marks := HeadingMarks(seen);
    var h := LastBound(marks, k);
    && st.remaining == RemainingAfter(marks, k)
    && (h >= 0 && marks[h].BlockHeader? ==> seen[h].slot == st.origin.slot)
    && (st.delay.pending.None? <==> LastEventHeader(marks, k) < 0)
  }

  // What a step does to these registers.
  lemma StepRegisters(words: seq<Word>, st: DecoderState)
    requires words != [] && Step(words, st).Decoded?
    ensures var d, next := words[0], Step(words, st).value.0;
      match MarkOf(d)
      case BlockHeader(n) =>
        next.remaining == n && next.origin.slot == GetBitsInRange(d, 26, 22)
        && next.delay.pending == st.delay.pending
      case BlockTrailer =>
        next.remaining == -1 && next.origin.slot == st.origin.slot && next.delay.pending == st.delay.pending
      case EventHeader =>
        next.remaining == st.remaining - 1 >= 0 && next.origin.slot == st.origin.slot && next.delay.pending.Some?
      case _ =>
        next.remaining == st.remaining && next.origin.slot == st.origin.slot
        && next.delay.pending.Some? == st.delay.pending.Some?
  {
    hide GetBitsInRange, Defining, RecordFrom, WordCount, Skip;
  }

  lemma StepMatches(seen: seq<Heading>, k: nat, words: seq<Word>, st: DecoderState)
    requires k < |seen| && Matches(seen, k, st)
    requires words != [] && Step(words, st).Decoded? && seen[k] == HeadingOf(words[0])
    ensures Matches(seen, k + 1, Step(words, st).value.0)
  {
    StepRegisters(words, st);
    hide Step, RemainingAfter, MarkOf, GetBitsInRange;
    RemainingStep(HeadingMarks(seen), k);
  }

  lemma {:induction false} TraceMatches(seen: seq<Heading>, k: nat, words: seq<Word>, st: DecoderState)
    requires k <= |seen| && seen[k..] == Trace(words, st) && Matches(seen, k, st)
    ensures Matches(seen, |seen|, Stop(words, st).0)
    decreases |words|
  {
    hide Step, Matches, HeadingOf;
    if words != [] && Step(words, st).Decoded? {
      var next := Step(words, st).value;
      assert seen[k] == seen[k..][0] && seen[k + 1..] == seen[k..][1..] == Trace(next.1, next.0);
      StepMatches(seen, k, words, st);
      TraceMatches(seen, k + 1, next.1, next.0);
    }
  }

  // A trigger time without its second word.
  predicate TimeCut(words: seq<Word>)
    requires words != []
  {
    Defining(words[0]) && DataType(words[0]) == 3 && |words| == 1
  }

  predicate HasDecoderData(words: seq<Word>)
    requires words != []
  {
    Defining(words[0]) && DataType(words[0]) == 8
  }

  // Why a stream is rejected: the word at which reading stops is not allowed
  // there by the framing.
  predicate Refused(seen: seq<Heading>, rest: seq<Word>)
    requires rest != []
  {
    Misplaced(HeadingMarks(seen), HeadingSlots(seen), AtEventHeaders, MarkOf(rest[0]), GetBitsInRange(rest[0], 26, 22))
  }

  // Why a stream is misread: inside a block reading stops at a trigger time
  // that ends the stream, or at decoder data before any event header.
  predicate Misread(seen: seq<Heading>, rest: seq<Word>)
    requires rest != []
  {
    InBlock(HeadingMarks(seen)) && (TimeCut(rest) || (HasDecoderData(rest) && NoEventYet(HeadingMarks(seen))))
  }

  lemma StepStops(seen: seq<Heading>, rest: seq<Word>, st: DecoderState)
    requires rest != [] && Matches(seen, |seen|, st)
    ensures Step(rest, st).Rejected? <==> Refused(seen, rest)
    ensures Step(rest, st).Undefined? <==> Misread(seen, rest)
  {
    hide GetBitsInRange, Defining, RecordFrom, WordCount, Skip, EventHeaders, LastEventHeader;
  }

  // How every stream ends: accepted when all of it is read, and otherwise
  // rejected or misread for exactly these reasons.
  lemma {:induction false} HowItEnds(words: seq<Word>, rocid: Word)
    ensures var st := InitialState(rocid);
      var seen, rest := Trace(words, st), Stop(words, st).1;
      && (Decode(words, st).Decoded? <==> rest == [])
      && (Decode(words, st).Rejected? <==> rest != [] && Refused(seen, rest))
      && (Decode(words, st).Undefined? <==> rest != [] && Misread(seen, rest))
  {
    var st := InitialState(rocid);
    var seen, rest, end := Trace(words, st), Stop(words, st).1, Stop(words, st).0;
    assert seen[0..] == seen;
    TraceMatches(seen, 0, words, st);
    DecodeStops(words, st);
    hide Decode, Trace, Stop, Step, Matches, Refused, Misread;
    if rest != [] { StepStops(seen, rest, end); }
  }
}
