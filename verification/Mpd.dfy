// The MPD decoder: ModuleParser_MPD::parse.
module Mpd {
  import opened Common
  import opened Words
  import opened EventMaps
  import opened BlockFraming
  import opened HitTypes
  import opened PhysicsEvents

  datatype DecoderState = DecoderState(
    frame: Frame, slot: Word, eventNumber: nat, timestamp: Word, events: Events<MpdHit>)

  function MarkOf(d: Word): Mark {
    if !Defining(d) then Ignored
    else if DataType(d) == 0 then BlockHeader(GetBitsInRange(d, 7, 0) as nat)
    else if DataType(d) == 1 then BlockTrailer
    else if DataType(d) == 2 then EventHeader
    else if DataType(d) in {3, 5} then Payload
    else Ignored
  }

  // ----- Frames -----

  // What three APV words say about one hit.
  datatype ApvTriple = ApvTriple(channel: Word, apvId: Word, samples: seq<Word>)

  function TripleFields(w2: Word, w3: Word, w4: Word): ApvTriple {
    ApvTriple((GetBitsInRange(w3, 30, 26) << 5) | GetBitsInRange(w2, 30, 26), GetBitsInRange(w4, 30, 26),
      [GetBitsInRange(w2, 12, 0), GetBitsInRange(w2, 25, 13), GetBitsInRange(w3, 12, 0), GetBitsInRange(w3, 25, 13),
        GetBitsInRange(w4, 12, 0), GetBitsInRange(w4, 25, 13)])
  }

  // The triples from position k up to a defining word. Only the first word of
  // each is looked at to find the end. None when the words run out first: the
  // next one is then read beyond the end.
  function TriplesFrom(words: seq<Word>, k: nat): (r: Option<seq<ApvTriple>>)
    ensures r.Some? ==> k + 3 * |r.value| < |words|
    decreases |words| - k
  {
    if k >= |words| then None
    else if GetBitsInRange(words[k], 31, 31) != 0 then Some([])
    else if k + 2 >= |words| then None
    else Then([TripleFields(words[k], words[k + 1], words[k + 2])], TriplesFrom(words, k + 3))
  }

  // What a frame's hits share.
  datatype FrameOrigin = FrameOrigin(rocid: Word, slot: Word, eventNumber: nat, time: Word, mpdId: Word, fiberId: Word)

  function TripleHit(origin: FrameOrigin, t: ApvTriple): MpdHit {
    MpdHit(origin.rocid, origin.slot, origin.eventNumber, origin.time, origin.mpdId, origin.fiberId,
      t.channel, t.apvId, t.samples)
  }

  function FrameHits(origin: FrameOrigin, triples: seq<ApvTriple>): (r: seq<MpdHit>)
    ensures |r| == |triples|
  {
    seq(|triples|, i requires 0 <= i < |triples| => TripleHit(origin, triples[i]))
  }

  function OriginAt(d: Word, rocid: Word, st: DecoderState): FrameOrigin {
    FrameOrigin(rocid, st.slot, st.eventNumber, st.timestamp, GetBitsInRange(d, 4, 0), GetBitsInRange(d, 20, 16))
  }

  // ----- One word -----

  // The state after the word at position j, and the last position consumed.
  function Step(words: seq<Word>, j: nat, rocid: Word, st: DecoderState, first: Counter)
    : (r: Outcome<(DecoderState, nat)>)
    requires j < |words|
    ensures r.Decoded? ==> j <= r.value.1 < |words|
  {
    var d := words[j];
    match st.frame.Next(MarkOf(d))
    case None => Rejected
    case Some(frame) =>
      var framed := st.(frame := frame);
      if Defining(d) && DataType(d) == 0 then
        Decoded((framed.(slot := GetBitsInRange(d, 26, 22)), j))
      else if Defining(d) && DataType(d) == 1 then
        if GetBitsInRange(d, 26, 22) != st.slot then Rejected else Decoded((framed, j))
      else if Defining(d) && DataType(d) == 2 then
        var n := EventNumber(first, st.frame.index);
        Decoded((framed.(eventNumber := n, events := Open(st.events, n)), j))
      else if Defining(d) && DataType(d) == 3 then
        if j + 1 == |words| then Undefined
        else
          Decoded((framed.(timestamp :=
            Timestamp(GetBitsInRange(d, 23, 0), GetBitsInRange(words[j + 1], 23, 0))), j + 1))
      else if Defining(d) && DataType(d) == 5 then
        match TriplesFrom(words, j + 1)
        case None => Undefined
        case Some(triples) =>
          if triples == [] then Decoded((framed, j))
          else if st.eventNumber !in st.events then Undefined
          else
            Decoded((framed.(events := Append(st.events, st.eventNumber, FrameHits(OriginAt(d, rocid, st), triples))),
              j + 3 * |triples|))
      else Decoded((framed, j))
  }

  function DecodeFrom(words: seq<Word>, j: nat, rocid: Word, st: DecoderState, first: Counter): Outcome<DecoderState>
    requires j <= |words|
    decreases |words| - j
  {
    if j == |words| then Decoded(st)
    else
      match Step(words, j, rocid, st, first)
      case Decoded(next) => DecodeFrom(words, next.1 + 1, rocid, next.0, first)
      case Rejected => Rejected
      case Undefined => Undefined
  }

  const INITIAL := DecoderState(START, 0, 0, 0, map[])

  // Event numbers are kept in a 32-bit variable.
  function Decode(words: seq<Word>, rocid: Word, first: nat): Outcome<DecoderState> {
    DecodeFrom(words, 0, rocid, INITIAL, Counter32(first))
  }

  // ----- The parser itself -----

  ghost predicate Pushed(before: Events<MpdHit>, after: Events<MpdHit>, n: nat, hits: seq<MpdHit>) {
    if hits == [] then after == before
    else n in before && after == Append(before, n, hits)
  }

  lemma NothingPushed(events: Events<MpdHit>, n: nat, origin: FrameOrigin)
    ensures Pushed(events, events, n, FrameHits(origin, []))
  {
  }

  lemma PushedOneMore(before: Events<MpdHit>, after: Events<MpdHit>, n: nat, hits: seq<MpdHit>, hit: MpdHit)
    requires Pushed(before, after, n, hits) && n in after
    ensures Pushed(before, after[n := after[n] + [hit]], n, hits + [hit])
  {
    var pushed := after[n := after[n] + [hit]];
    if hits == [] {
      assert hits + [hit] == [hit];
    } else {
      assert before[n] + hits + [hit] == before[n] + (hits + [hit]);
    }
    assert pushed == Append(before, n, hits + [hit]);
  }

  lemma FrameHitsOneMore(origin: FrameOrigin, triples: seq<ApvTriple>, t: ApvTriple)
    ensures FrameHits(origin, triples + [t]) == FrameHits(origin, triples) + [TripleHit(origin, t)]
  {
  }

  // The loop over the APV words of a frame: it moves j past them.
  method ParseFrame(words: seq<Word>, j: nat, origin: FrameOrigin, hitsMap: Events<MpdHit>)
    returns (r: Outcome<Events<MpdHit>>, newIndex: nat)
    requires j < |words|
    ensures j <= newIndex < |words|
    ensures var triples := TriplesFrom(words, j + 1);
      if triples.None? || (triples.value != [] && origin.eventNumber !in hitsMap) then r.Undefined?
      else
        && r.Decoded? && newIndex == j + 3 * |triples.value|
        && Pushed(hitsMap, r.value, origin.eventNumber, FrameHits(origin, triples.value))
  {
    hide GetBitsInRange, TripleFields, Pushed, FrameHits;
    ghost var done: seq<ApvTriple> := [];
    ghost var all := TriplesFrom(words, j + 1);
    assert all.Some? ==> [] + all.value == all.value;
    var updated, n := hitsMap, origin.eventNumber;
    NothingPushed(hitsMap, n, origin);
    newIndex := j;
    if newIndex + 1 >= |words| {
      return Undefined, j;
    }
    var w2 := words[newIndex + 1];
    while GetBitsInRange(w2, 31, 31) == 0
      invariant newIndex == j + 3 * |done| && newIndex + 1 < |words| && w2 == words[newIndex + 1]
      invariant all == Then(done, TriplesFrom(words, newIndex + 1))
      invariant Pushed(hitsMap, updated, n, FrameHits(origin, done))
      invariant done != [] ==> n in hitsMap
      invariant updated.Keys == hitsMap.Keys
      decreases |words| - newIndex
    {
      if newIndex + 3 >= |words| {
        return Undefined, newIndex;
      }
      var t := TripleFields(w2, words[newIndex + 2], words[newIndex + 3]);
      ThenInOrder(done, [t], TriplesFrom(words, newIndex + 4));
      if n !in updated {
        return Undefined, newIndex;
      }
      PushedOneMore(hitsMap, updated, n, FrameHits(origin, done), TripleHit(origin, t));
      FrameHitsOneMore(origin, done, t);
      updated := updated[n := updated[n] + [TripleHit(origin, t)]];
      done := done + [t];
      newIndex := newIndex + 3;
      if newIndex + 1 >= |words| {
        return Undefined, newIndex;
      }
      w2 := words[newIndex + 1];
    }
    assert done + [] == done;
    r := Decoded(updated);
  }

  // What the body of the word loop must do with the word at position j: the
  // same as the decoder's step, with newIndex the last position consumed.
  ghost predicate FollowsStep(words: seq<Word>, j: nat, rocid: Word, st: DecoderState, first: Counter,
                              r: Outcome<Registers>, newIndex: nat)
    requires j < |words|
  {
    match Step(words, j, rocid, st, first)
    case Rejected => r.Rejected?
    case Undefined => r.Undefined?
    case Decoded(step) => r.Decoded? && step.0 == StateOf(r.value, step.0.frame.peak) && step.1 == newIndex
  }

  // The local variables of the word loop.
  datatype Registers = Registers(slot: Word, blockNevents: int, eventNumber: nat, timestamp: Word,
                                 eventIndex: nat, hitsMap: Events<MpdHit>)

  ghost function StateOf(regs: Registers, peak: nat): DecoderState {
    DecoderState(Frame(regs.blockNevents, regs.eventIndex, peak),
      regs.slot, regs.eventNumber, regs.timestamp, regs.hitsMap)
  }

  method ParseFrameWord(words: seq<Word>, j: nat, rocid: Word, first: Counter, regs: Registers, ghost st: DecoderState)
    returns (r: Outcome<Registers>, newIndex: nat)
    requires j < |words| && Defining(words[j]) && DataType(words[j]) == 5
    requires st == StateOf(regs, st.frame.peak)
    ensures FollowsStep(words, j, rocid, st, first, r, newIndex)
  {
    hide GetBitsInRange, TriplesFrom, FrameHits, Append, Open, EventNumber;
    var d := words[j];
    newIndex := j;
    if regs.blockNevents < 0 {
      return Rejected, j;
    }
    var origin := FrameOrigin(rocid, regs.slot, regs.eventNumber, regs.timestamp,
      GetBitsInRange(d, 4, 0), GetBitsInRange(d, 20, 16));
    var pushed;
    pushed, newIndex := ParseFrame(words, j, origin, regs.hitsMap);
    if !pushed.Decoded? {
      return Undefined, j;
    }
    r := Decoded(regs.(hitsMap := pushed.value));
  }

  method ParseFramingWord(words: seq<Word>, j: nat, rocid: Word, first: Counter, regs: Registers,
      ghost st: DecoderState)
    returns (r: Outcome<Registers>, newIndex: nat)
    requires j < |words| && !(Defining(words[j]) && DataType(words[j]) == 5)
    requires st == StateOf(regs, st.frame.peak)
    ensures FollowsStep(words, j, rocid, st, first, r, newIndex)
  {
    hide GetBitsInRange, TriplesFrom, FrameHits, Append, EventNumber, Timestamp;
    var d := words[j];
    newIndex := j;
    var updated := regs;
    if Defining(d) {
      var dataType := DataType(d);
      if dataType == 0 {
        updated := regs.(slot := GetBitsInRange(d, 26, 22), blockNevents := GetBitsInRange(d, 7, 0) as int);
      } else if dataType == 1 {
        if regs.blockNevents != 0 {
          return Rejected, j;
        }
        if GetBitsInRange(d, 26, 22) != regs.slot {
          return Rejected, j;
        }
        updated := regs.(blockNevents := -1, eventIndex := 0);
      } else if dataType == 2 {
        if regs.blockNevents <= 0 {
          return Rejected, j;
        }
        var n := EventNumber(first, regs.eventIndex);
        updated := regs.(blockNevents := regs.blockNevents - 1, eventNumber := n, eventIndex := regs.eventIndex + 1);
        if n !in regs.hitsMap {
          updated := updated.(hitsMap := regs.hitsMap[n := []]);
        }
      } else if dataType == 3 {
        if regs.blockNevents < 0 {
          return Rejected, j;
        }
        if j + 1 >= |words| {
          return Undefined, j;
        }
        newIndex := j + 1;
        updated := regs.(timestamp := Timestamp(GetBitsInRange(d, 23, 0), GetBitsInRange(words[j + 1], 23, 0)));
      }
    }
    r := Decoded(updated);
  }

  // The word loop of ModuleParser_MPD::parse.
  method ParseWords(words: seq<Word>, rocid: Word, first: nat) returns (r: Outcome<Events<MpdHit>>)
    ensures r == match Decode(words, rocid, first)
      case Decoded(st) => Decoded(st.events)
      case Rejected => Rejected
      case Undefined => Undefined
  {
    hide Step;
    var regs := Registers(0, -1, 0, 0, 0, map[]);
    ghost var st := INITIAL;
    var j := 0;
    while j < |words|
      invariant j <= |words| && st == StateOf(regs, st.frame.peak)
      invariant Decode(words, rocid, first) == DecodeFrom(words, j, rocid, st, Counter32(first))
    {
      ghost var decoded := Step(words, j, rocid, st, Counter32(first));
      var step;
      if Defining(words[j]) && DataType(words[j]) == 5 {
        step, j := ParseFrameWord(words, j, rocid, Counter32(first), regs, st);
      } else {
        step, j := ParseFramingWord(words, j, rocid, Counter32(first), regs, st);
      }
      if step.Rejected? {
        return Rejected;
      }
      if step.Undefined? {
        return Undefined;
      }
      regs, st := step.value, decoded.value.0;
      j := j + 1;
    }
    r := Decoded(regs.hitsMap);
  }

  // The events that the parser publishes for the decoded hits.
  function MpdContainers(events: Events<MpdHit>): (r: map<nat, EventHits>)
    ensures r.Keys == events.Keys
  {
    map n | n in events :: MpdEvent(events[n])
  }

  function MpdPublication(events: Events<MpdHit>): seq<Summary> {
    Publication(InOrder(events.Keys), MpdContainers(events))
  }

  // ModuleParser_MPD::parse. The stream is rejected, or misread, exactly when
  // the decoder says so; otherwise one event per number is published after
  // those of earlier banks.
  method Parse(words: seq<Word>, rocid: Word, first: nat, physicsEvents: seq<PhysicsEvent>)
    returns (r: Outcome<seq<PhysicsEvent>>)
    ensures r.Rejected? <==> Decode(words, rocid, first).Rejected?
    ensures r.Undefined? <==> Decode(words, rocid, first).Undefined?
    ensures r.Decoded? ==> |r.value| >= |physicsEvents| && r.value[..|physicsEvents|] == physicsEvents
    ensures r.Decoded? ==>
      Summaries(r.value[|physicsEvents|..]) == MpdPublication(Decode(words, rocid, first).value.events)
    ensures r.Decoded? ==> forall i :: |physicsEvents| <= i < |r.value| ==> fresh(r.value[i])
    ensures r.Decoded? ==> NoRepeats(r.value[|physicsEvents|..])
  {
    hide InOrder, Decode;
    var hitsMap := ParseWords(words, rocid, first);
    if hitsMap.Rejected? {
      return Rejected;
    }
    if hitsMap.Undefined? {
      return Undefined;
    }
    var published := Publish(MpdContainers(hitsMap.value), physicsEvents);
    r := Decoded(published);
  }
}
