// The VFTDC decoder: ModuleParser_VFTDC::parse.
module Vftdc {
  import opened Common
  import opened Words
  import opened EventMaps
  import opened BlockFraming
  import opened HitTypes
  import opened PhysicsEvents

  datatype DecoderState = DecoderState(
    frame: Frame, slot: Word, boardId: Word, timestamp: Word, eventNumber: nat, events: Events<VftdcHit>)

  function MarkOf(d: Word): Mark {
    if !Defining(d) then Ignored
    else if DataType(d) == 0 then BlockHeader(GetBitsInRange(d, 7, 0) as nat)
    else if DataType(d) == 1 then BlockTrailer
    else if DataType(d) == 2 then EventHeader
    else if DataType(d) in {3, 7} then Payload
    else Ignored
  }

  function HitAt(d: Word, rocid: Word, st: DecoderState): VftdcHit {
    VftdcHit(rocid, st.slot, st.boardId, st.timestamp,
      GetBitsInRange(d, 26, 24), GetBitsInRange(d, 23, 19), GetBitsInRange(d, 18, 18), GetBitsInRange(d, 17, 8),
      GetBitsInRange(d, 7, 7), GetBitsInRange(d, 6, 0))
  }

  // The state after the word at position j, and the last position consumed.
  function Step(words: seq<Word>, j: nat, rocid: Word, st: DecoderState, first: Counter)
    : (r: Outcome<(DecoderState, nat)>)
    requires j < |words|
    ensures r.Decoded? ==> j <= r.value.1 < |words|
  {
    var d := words[j];
    match st.frame.Next(MarkOf(d))
    case None => Rejected
    case Some(frame) =>
      var framed := st.(frame := frame);
      if !Defining(d) then Decoded((framed, j))
      else if DataType(d) == 0 then
        Decoded((framed.(slot := GetBitsInRange(d, 26, 22), boardId := GetBitsInRange(d, 21, 18)), j))
      else if DataType(d) == 2 then
        if GetBitsInRange(d, 26, 22) != st.slot then Rejected
        else
          var n := EventNumber(first, st.frame.index);
          Decoded((framed.(eventNumber := n, events := Open(st.events, n)), j))
      else if DataType(d) == 3 then
        if j + 1 == |words| then Undefined
        else
          Decoded((framed.(timestamp :=
            Timestamp(GetBitsInRange(d, 23, 0), GetBitsInRange(words[j + 1], 23, 0))), j + 1))
      else if DataType(d) == 7 then
        if st.eventNumber !in st.events then Undefined
        else Decoded((framed.(events := Append(st.events, st.eventNumber, [HitAt(d, rocid, st)])), j))
      else Decoded((framed, j))
  }

  function DecodeFrom(words: seq<Word>, j: nat, rocid: Word, st: DecoderState, first: Counter): Outcome<DecoderState>
    requires j <= |words|
    decreases |words| - j
  {
    if j == |words| then Decoded(st)
    else
      match Step(words, j, rocid, st, first)
      case Decoded(next) => DecodeFrom(words, next.1 + 1, rocid, next.0, first)
      case Rejected => Rejected
      case Undefined => Undefined
  }

  const INITIAL := DecoderState(START, 0, 0, 0, 0, map[])

  function Decode(words: seq<Word>, rocid: Word, first: nat): Outcome<DecoderState> {
    DecodeFrom(words, 0, rocid, INITIAL, Counter64(first))
  }

  // ----- The parser itself -----

  // The local variables of the word loop.
  datatype Registers = Registers(slot: Word, boardId: Word, timestamp: Word, eventNumber: nat, blockNevents: int,
                                 eventIndex: nat, hitsMap: Events<VftdcHit>)

  ghost function StateOf(regs: Registers, peak: nat): DecoderState {
    DecoderState(Frame(regs.blockNevents, regs.eventIndex, peak),
      regs.slot, regs.boardId, regs.timestamp, regs.eventNumber, regs.hitsMap)
  }

  // What the body of the word loop must do with the word at position j: the
  // same as the decoder's step, with newIndex the last position consumed.
  ghost predicate FollowsStep(words: seq<Word>, j: nat, rocid: Word, st: DecoderState, first: Counter,
                              r: Outcome<Registers>, newIndex: nat)
    requires j < |words|
  {
    match Step(words, j, rocid, st, first)
    case Rejected => r.Rejected?
    case Undefined => r.Undefined?
    case Decoded(step) => r.Decoded? && step.0 == StateOf(r.value, step.0.frame.peak) && step.1 == newIndex
  }

  // Block headers, trailers and event headers.
  method ParseFramingWord(words: seq<Word>, j: nat, rocid: Word, first: Counter, regs: Registers,
      ghost st: DecoderState)
    returns (r: Outcome<Registers>, newIndex: nat)
    requires j < |words| && st == StateOf(regs, st.frame.peak)
    requires Defining(words[j]) && DataType(words[j]) != 3 && DataType(words[j]) != 7
    ensures FollowsStep(words, j, rocid, st, first, r, newIndex)
  {
    hide GetBitsInRange, EventNumber, Defining;
    var d := words[j];
    newIndex := j;
    var updated := regs;
    var dataType := DataType(d);
    if dataType == 0 {
      updated := regs.(slot := GetBitsInRange(d, 26, 22), boardId := GetBitsInRange(d, 21, 18),
        blockNevents := GetBitsInRange(d, 7, 0) as int);
    } else if dataType == 1 {
      if regs.blockNevents != 0 {
        return Rejected, j;
      }
      updated := regs.(blockNevents := -1, eventIndex := 0);
    } else if dataType == 2 {
      if regs.blockNevents <= 0 {
        return Rejected, j;
      }
      if GetBitsInRange(d, 26, 22) != regs.slot {
        return Rejected, j;
      }
      var n := EventNumber(first, regs.eventIndex);
      updated := regs.(blockNevents := regs.blockNevents - 1, eventNumber := n, eventIndex := regs.eventIndex + 1);
      if n !in regs.hitsMap {
        updated := updated.(hitsMap := regs.hitsMap[n := []]);
      }
    }
    r := Decoded(updated);
  }

  // Trigger times and data words.
  method ParseDataWord(words: seq<Word>, j: nat, rocid: Word, first: Counter, regs: Registers, ghost st: DecoderState)
    returns (r: Outcome<Registers>, newIndex: nat)
    requires j < |words| && st == StateOf(regs, st.frame.peak)
    requires Defining(words[j]) && (DataType(words[j]) == 3 || DataType(words[j]) == 7)
    ensures FollowsStep(words, j, rocid, st, first, r, newIndex)
  {
    hide GetBitsInRange, EventNumber, Timestamp, Defining, Open;
    var d := words[j];
    newIndex := j;
    if regs.blockNevents < 0 {
      return Rejected, j;
    }
    var updated := regs;
    if DataType(d) == 3 {
      if j + 1 >= |words| {
        return Undefined, j;
      }
      newIndex := j + 1;
      updated := regs.(timestamp := Timestamp(GetBitsInRange(d, 23, 0), GetBitsInRange(words[j + 1], 23, 0)));
    } else {
      var n := regs.eventNumber;
      if n !in regs.hitsMap {
        return Undefined, j;
      }
      var hit := VftdcHit(rocid, regs.slot, regs.boardId, regs.timestamp,
        GetBitsInRange(d, 26, 24), GetBitsInRange(d, 23, 19), GetBitsInRange(d, 18, 18),
        GetBitsInRange(d, 17, 8), GetBitsInRange(d, 7, 7), GetBitsInRange(d, 6, 0));
      updated := regs.(hitsMap := regs.hitsMap[n := regs.hitsMap[n] + [hit]]);
    }
    r := Decoded(updated);
  }

  lemma OtherWordStep(words: seq<Word>, j: nat, rocid: Word, st: DecoderState, first: Counter)
    requires j < |words| && !Defining(words[j])
    ensures Step(words, j, rocid, st, first) == Decoded((st, j))
  {
    hide GetBitsInRange;
  }

  method ParseWords(words: seq<Word>, rocid: Word, first: nat) returns (r: Outcome<Events<VftdcHit>>)
    ensures r == match Decode(words, rocid, first)
      case Decoded(st) => Decoded(st.events)
      case Rejected => Rejected
      case Undefined => Undefined
  {
    hide Step;
    var regs := Registers(0, 0, 0, 0, -1, 0, map[]);
    ghost var st := INITIAL;
    var j := 0;
    while j < |words|
      invariant j <= |words| && st == StateOf(regs, st.frame.peak)
      invariant Decode(words, rocid, first) == DecodeFrom(words, j, rocid, st, Counter64(first))
    {
      ghost var decoded := Step(words, j, rocid, st, Counter64(first));
      var step := Decoded(regs);
      if !Defining(words[j]) {
        OtherWordStep(words, j, rocid, st, Counter64(first));
      } else if DataType(words[j]) == 3 || DataType(words[j]) == 7 {
        step, j := ParseDataWord(words, j, rocid, Counter64(first), regs, st);
      } else {
        step, j := ParseFramingWord(words, j, rocid, Counter64(first), regs, st);
      }
      if step.Rejected? {
        return Rejected;
      }
      if step.Undefined? {
        return Undefined;
      }
      regs, st := step.value, decoded.value.0;
      j := j + 1;
    }
    r := Decoded(regs.hitsMap);
  }

  // The events that the parser publishes for the decoded hits.
  function VftdcContainers(events: Events<VftdcHit>): (r: map<nat, EventHits>)
    ensures r.Keys == events.Keys
  {
    map n | n in events :: VftdcEvent(events[n])
  }

  function VftdcPublication(events: Events<VftdcHit>): seq<Summary> {
    Publication(InOrder(events.Keys), VftdcContainers(events))
  }

  // ModuleParser_VFTDC::parse. The stream is rejected, or misread, exactly
  // when the decoder says so; otherwise one event per number is published
  // after those of earlier banks.
  method Parse(words: seq<Word>, rocid: Word, first: nat, physicsEvents: seq<PhysicsEvent>)
    returns (r: Outcome<seq<PhysicsEvent>>)
    ensures r.Rejected? <==> Decode(words, rocid, first).Rejected?
    ensures r.Undefined? <==> Decode(words, rocid, first).Undefined?
    ensures r.Decoded? ==> |r.value| >= |physicsEvents| && r.value[..|physicsEvents|] == physicsEvents
    ensures r.Decoded? ==>
      Summaries(r.value[|physicsEvents|..]) == VftdcPublication(Decode(words, rocid, first).value.events)
    ensures r.Decoded? ==> forall i :: |physicsEvents| <= i < |r.value| ==> fresh(r.value[i])
    ensures r.Decoded? ==> NoRepeats(r.value[|physicsEvents|..])
  {
    hide InOrder, Decode;
    var hitsMap := ParseWords(words, rocid, first);
    if hitsMap.Rejected? {
      return Rejected;
    }
    if hitsMap.Undefined? {
      return Undefined;
    }
    var published := Publish(VftdcContainers(hitsMap.value), physicsEvents);
    r := Decoded(published);
  }
}
