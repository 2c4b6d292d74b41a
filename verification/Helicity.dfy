// The helicity decoder: ModuleParser_HelicityDecoder::parse and
// parseDecoderData. An event is published only when the next event header is
// met, or at a trailer that is the last word.
module Helicity {
  import opened Common
  import opened Words
  import opened EventMaps
  import opened BlockFraming
  import opened HitTypes
  import opened PhysicsEvents

  // The event that waits to be published, the index that it will get, and
  // what has been published so far.
  datatype Delay = Delay(pending: Option<seq<HelicityRecord>>, index: nat, emitted: seq<(nat, seq<HelicityRecord>)>) {
    function Emit(): Delay {
      if pending.None? then this else this.(emitted := emitted + [(index, pending.value)])
    }

    // At an event header: the previous event goes out, a new one starts.
    function OpenEvent(): Delay {
      Emit().(index := if pending.None? then index else index + 1, pending := Some([]))
    }

    // At a block trailer.
    function CloseBlock(last: bool): Delay {
      (if last then Emit() else this).(index := 0)
    }
  }

  datatype DecoderState = DecoderState(remaining: int, origin: Origin, delay: Delay)

  // ----- Payload words -----

  // The k-th payload word, counted from 1; zero when it was not supplied.
  function PayloadWord(rest: seq<Word>, n: nat, k: nat): Word
    requires k > 0
  {
    if k <= n && k <= |rest| then rest[k - 1] else 0
  }

  function Flags(w: Word): TriggerFlags {
    TriggerFlags(GetBitsInRange(w, 0, 0), GetBitsInRange(w, 1, 1), GetBitsInRange(w, 2, 2), GetBitsInRange(w, 3, 3),
      GetBitsInRange(w, 4, 4), GetBitsInRange(w, 5, 5), GetBitsInRange(w, 15, 8))
  }

  function RecordFrom(rest: seq<Word>, n: nat, origin: Origin): HelicityRecord {
    HelicityRecord(origin, seq(9, i requires 0 <= i < 9 => PayloadWord(rest, n, i + 1)),
      Flags(PayloadWord(rest, n, 10)), seq(4, i requires 0 <= i < 4 => PayloadWord(rest, n, i + 11)))
  }

  // ----- One word -----

  function WordCount(d: Word): nat {
    GetBitsInRange(d, 5, 0) as nat
  }

  // The state and the words that remain after the first word and whatever it
  // makes the cursor skip. The count of payload words may reach past the end.
  function Step(words: seq<Word>, st: DecoderState): (r: Outcome<(DecoderState, seq<Word>)>)
    requires words != []
    ensures r.Decoded? ==> |r.value.1| < |words|
  {
    var d, rest := words[0], words[1..];
    if !Defining(d) then Decoded((st, rest))
    else if DataType(d) == 0 then
      Decoded((st.(remaining := GetBitsInRange(d, 7, 0) as int,
        origin := st.origin.(slot := GetBitsInRange(d, 26, 22), moduleId := GetBitsInRange(d, 21, 18))), rest))
    else if DataType(d) == 1 then
      if st.remaining != 0 then Rejected
      else Decoded((st.(remaining := -1, delay := st.delay.CloseBlock(rest == [])), rest))
    else if DataType(d) == 2 then
      if st.remaining <= 0 || GetBitsInRange(d, 26, 22) != st.origin.slot then Rejected
      else
        Decoded((DecoderState(st.remaining - 1, st.origin.(triggerNum := GetBitsInRange(d, 11, 0)),
          st.delay.OpenEvent()), rest))
    else if DataType(d) == 3 then
      if st.remaining < 0 then Rejected
      else if rest == [] then Undefined
      else
        Decoded((st.(origin := st.origin.(timestamp1 := GetBitsInRange(d, 23, 0),
          timestamp2 := GetBitsInRange(rest[0], 23, 0))), rest[1..]))
    else if DataType(d) == 8 then
      if st.remaining < 0 then Rejected
      else if st.delay.pending.None? then Undefined
      else
        var n := WordCount(d);
        Decoded((st.(delay := st.delay.(pending :=
          Some(st.delay.pending.value + [RecordFrom(rest, n, st.origin)]))), Skip(rest, n)))
    else Decoded((st, rest))
  }

  function Skip(rest: seq<Word>, n: nat): (r: seq<Word>)
    ensures |r| <= |rest|
  {
    if n <= |rest| then rest[n..] else []
  }

  function Decode(words: seq<Word>, st: DecoderState): Outcome<DecoderState>
    decreases |words|
  {
    if words == [] then Decoded(st)
    else
      match Step(words, st)
      case Decoded(next) => Decode(next.1, next.0)
      case Rejected => Rejected
      case Undefined => Undefined
  }

  function InitialState(rocid: Word): DecoderState {
    DecoderState(-1, Origin(0, 0, 0, rocid, 0, 0), Delay(None, 0, []))
  }

  // What is published for the emissions.
  function HelicityPublication(emitted: seq<(nat, seq<HelicityRecord>)>, first: nat): (r: seq<Summary>)
    ensures |r| == |emitted|
  {
    seq(|emitted|, i requires 0 <= i < |emitted| =>
      Summary(ToInt32(EventNumber(Counter64(first), emitted[i].0)), [HelicityEvent(emitted[i].1)]))
  }

  // ----- The parser itself -----

  method ParseDecoderData(words: seq<Word>, index: nat, origin: Origin, nwords: nat)
    returns (hit: HelicityRecord, newIndex: nat)
    requires index < |words|
    ensures hit == RecordFrom(words[index + 1..], nwords, origin)
    ensures newIndex == index + nwords
  {
    hide GetBitsInRange;
    var counters, flags, windows := [0, 0, 0, 0, 0, 0, 0, 0, 0], Flags(0), [0, 0, 0, 0];
    ghost var rest := words[index + 1..];
    var k := 1;
    while k <= nwords && index + k < |words|
      invariant 1 <= k <= nwords + 1 && k <= |rest| + 1
      invariant |counters| == 9 && |windows| == 4
      invariant forall i :: 0 <= i < 9 ==> counters[i] == PayloadWord(rest, k - 1, i + 1)
      invariant flags == Flags(PayloadWord(rest, k - 1, 10))
      invariant forall i :: 0 <= i < 4 ==> windows[i] == PayloadWord(rest, k - 1, i + 11)
    {
      var w := words[index + k];
      assert rest[k - 1] == w;
      if k <= 9 {
        counters := counters[k - 1 := w];
      } else if k == 10 {
        flags := Flags(w);
      } else if k <= 14 {
        windows := windows[k - 11 := w];
      }
      k := k + 1;
    }
    hit := HelicityRecord(origin, counters, flags, windows);
    newIndex := index + nwords;
  }

  // The local variables of the word loop.
  datatype Registers = Registers(
    origin: Origin, blockNevents: int, eventIndex: nat, eventHits: Option<seq<HelicityRecord>>)

  ghost function StateOf(regs: Registers, emitted: seq<(nat, seq<HelicityRecord>)>): DecoderState {
    DecoderState(regs.blockNevents, regs.origin, Delay(regs.eventHits, regs.eventIndex, emitted))
  }

  // The words after position j, which may lie past the end.
  ghost function Beyond(words: seq<Word>, j: nat): seq<Word> {
    Skip(words, j)
  }

  // What the body of the word loop must do with the word at position j: the
  // same as the decoder's step. out holds the event it publishes, if any.
  ghost predicate FollowsStep(words: seq<Word>, j: nat, regs: Registers, emitted: seq<(nat, seq<HelicityRecord>)>,
                              r: Outcome<Registers>, newIndex: nat, out: seq<(nat, seq<HelicityRecord>)>)
    requires j < |words|
  {
    match Step(words[j..], StateOf(regs, emitted))
    case Rejected => r.Rejected?
    case Undefined => r.Undefined?
    case Decoded(next) =>
      r.Decoded? && next == (StateOf(r.value, emitted + out), Beyond(words, newIndex + 1)) && newIndex >= j
  }

  method ParseHeaderWord(words: seq<Word>, j: nat, regs: Registers, ghost emitted: seq<(nat, seq<HelicityRecord>)>)
    returns (r: Outcome<Registers>, out: seq<(nat, seq<HelicityRecord>)>)
    requires j < |words| && Defining(words[j]) && DataType(words[j]) in {0, 1, 2}
    ensures FollowsStep(words, j, regs, emitted, r, j, out) && |out| <= 1
  {
    hide GetBitsInRange, Defining, RecordFrom;
    assert words[j..][0] == words[j] && words[j..][1..] == words[j + 1..];
    assert emitted + [] == emitted;
    var d := words[j];
    out := [];
    if DataType(d) == 0 {
      r := Decoded(regs.(blockNevents := GetBitsInRange(d, 7, 0) as int,
        origin := regs.origin.(slot := GetBitsInRange(d, 26, 22), moduleId := GetBitsInRange(d, 21, 18))));
    } else if DataType(d) == 1 {
      if regs.blockNevents != 0 {
        return Rejected, out;
      }
      if j == |words| - 1 && regs.eventHits.Some? {
        out := [(regs.eventIndex, regs.eventHits.value)];
      }
      r := Decoded(regs.(blockNevents := -1, eventIndex := 0));
    } else {
      var index := regs.eventIndex;
      if regs.eventHits.Some? {
        out := [(index, regs.eventHits.value)];
        index := index + 1;
      }
      if regs.blockNevents <= 0 {
        return Rejected, out;
      }
      if GetBitsInRange(d, 26, 22) != regs.origin.slot {
        return Rejected, out;
      }
      r := Decoded(Registers(regs.origin.(triggerNum := GetBitsInRange(d, 11, 0)), regs.blockNevents - 1, index,
        Some([])));
    }
  }

  method ParseTriggerTime(words: seq<Word>, j: nat, regs: Registers, ghost emitted: seq<(nat, seq<HelicityRecord>)>)
    returns (r: Outcome<Registers>, newIndex: nat)
    requires j < |words| && Defining(words[j]) && DataType(words[j]) == 3
    ensures FollowsStep(words, j, regs, emitted, r, newIndex, [])
  {
    hide GetBitsInRange, Defining, DataType, RecordFrom, WordCount;
    assert words[j..][0] == words[j] && words[j..][1..] == words[j + 1..];
    assert emitted + [] == emitted;
    var d := words[j];
    newIndex := j;
    if regs.blockNevents < 0 {
      return Rejected, j;
    }
    if j + 1 >= |words| {
      return Undefined, j;
    }
    newIndex := j + 1;
    assert words[j + 1..][0] == words[j + 1] && words[j + 1..][1..] == words[j + 2..];
    r := Decoded(regs.(origin := regs.origin.(
      timestamp1 := GetBitsInRange(d, 23, 0), timestamp2 := GetBitsInRange(words[j + 1], 23, 0))));
  }

  method ParseDecoderWord(words: seq<Word>, j: nat, regs: Registers, ghost emitted: seq<(nat, seq<HelicityRecord>)>)
    returns (r: Outcome<Registers>, newIndex: nat)
    requires j < |words| && Defining(words[j]) && DataType(words[j]) == 8
    ensures FollowsStep(words, j, regs, emitted, r, newIndex, [])
  {
    hide GetBitsInRange, Defining, DataType, RecordFrom, WordCount;
    assert words[j..][0] == words[j] && words[j..][1..] == words[j + 1..];
    assert emitted + [] == emitted;
    newIndex := j;
    if regs.blockNevents < 0 {
      return Rejected, j;
    }
    var nwords := WordCount(words[j]);
    var hit;
    hit, newIndex := ParseDecoderData(words, j, regs.origin, nwords);
    if regs.eventHits.None? {
      return Undefined, newIndex;
    }
    assert Skip(words[j + 1..], nwords) == Beyond(words, newIndex + 1);
    r := Decoded(regs.(eventHits := Some(regs.eventHits.value + [hit])));
  }

  lemma OtherWordStep(words: seq<Word>, j: nat, st: DecoderState)
    requires j < |words| && (!Defining(words[j]) || DataType(words[j]) !in {0, 1, 2, 3, 8})
    ensures Step(words[j..], st) == Decoded((st, words[j + 1..]))
  {
    hide GetBitsInRange;
    assert words[j..][0] == words[j] && words[j..][1..] == words[j + 1..];
  }

  lemma DecodeStep(words: seq<Word>, st: DecoderState)
    requires words != []
    ensures Decode(words, st) ==
      (match Step(words, st)
       case Decoded(next) => Decode(next.1, next.0)
       case Rejected => Rejected
       case Undefined => Undefined)
  {
    hide Step;
  }

  // new PhysicsEvent and push_back for the event that goes out, if any.
  method PublishPending(published: seq<PhysicsEvent>, first: nat, out: seq<(nat, seq<HelicityRecord>)>,
                        ghost emitted: seq<(nat, seq<HelicityRecord>)>)
    returns (r: seq<PhysicsEvent>)
    requires |out| <= 1 && NoRepeats(published)
    requires Summaries(published) == HelicityPublication(emitted, first)
    ensures Summaries(r) == HelicityPublication(emitted + out, first)
    ensures NoRepeats(r) && forall event :: event in r ==> event in published || fresh(event)
  {
    r := published;
    assert emitted + [] == emitted;
    if out != [] {
      var event := new PhysicsEvent(ToInt32(EventNumber(Counter64(first), out[0].0)), HelicityEvent(out[0].1));
      r := published + [event];
      assert Summaries(r) == HelicityPublication(emitted + out, first);
    } else {
      assert out == [];
    }
  }

  // The word loop of ModuleParser_HelicityDecoder::parse.
  method ParseWords(words: seq<Word>, rocid: Word, first: nat) returns (r: Outcome<seq<PhysicsEvent>>)
    ensures r.Rejected? <==> Decode(words, InitialState(rocid)).Rejected?
    ensures r.Undefined? <==> Decode(words, InitialState(rocid)).Undefined?
    ensures r.Decoded? ==>
      Summaries(r.value) == HelicityPublication(Decode(words, InitialState(rocid)).value.delay.emitted, first)
    ensures r.Decoded? ==> NoRepeats(r.value) && forall event :: event in r.value ==> fresh(event)
  {
    hide Step, HelicityPublication, Decode, Defining, DataType;
    var regs := Registers(Origin(0, 0, 0, rocid, 0, 0), -1, 0, None);
    ghost var emitted: seq<(nat, seq<HelicityRecord>)> := [];
    var published: seq<PhysicsEvent> := [];
    NothingPublished(first);
    assert Beyond(words, 0) == words;
    var j := 0;
    while j < |words|
      invariant Decode(words, InitialState(rocid)) == Decode(Beyond(words, j), StateOf(regs, emitted))
      invariant Summaries(published) == HelicityPublication(emitted, first)
      invariant NoRepeats(published) && forall event :: event in published ==> fresh(event)
      decreases |words| - j
    {
      var step, out := Decoded(regs), [];
      DecodeStep(words[j..], StateOf(regs, emitted));
      if Defining(words[j]) && DataType(words[j]) in {0, 1, 2} {
        step, out := ParseHeaderWord(words, j, regs, emitted);
      } else if Defining(words[j]) && DataType(words[j]) == 3 {
        step, j := ParseTriggerTime(words, j, regs, emitted);
      } else if Defining(words[j]) && DataType(words[j]) == 8 {
        step, j := ParseDecoderWord(words, j, regs, emitted);
      } else {
        OtherWordStep(words, j, StateOf(regs, emitted));
        assert emitted + [] == emitted;
      }
      if step.Rejected? {
        return Rejected;
      }
      if step.Undefined? {
        return Undefined;
      }
      published := PublishPending(published, first, out, emitted);
      regs, emitted := step.value, emitted + out;
      j := j + 1;
    }
    assert Beyond(words, j) == [];
    DecodeNothing(StateOf(regs, emitted));
    r := Decoded(published);
  }

  lemma DecodeNothing(st: DecoderState)
    ensures Decode([], st) == Decoded(st)
  {
  }

  lemma NothingPublished(first: nat)
    ensures HelicityPublication([], first) == []
  {
  }

  // ModuleParser_HelicityDecoder::parse. The stream is rejected, or misread,
  // exactly when the decoder says so; otherwise its emissions are published
  // after the events of earlier banks.
  method Parse(words: seq<Word>, rocid: Word, first: nat, physicsEvents: seq<PhysicsEvent>)
    returns (r: Outcome<seq<PhysicsEvent>>)
    ensures r.Rejected? <==> Decode(words, InitialState(rocid)).Rejected?
    ensures r.Undefined? <==> Decode(words, InitialState(rocid)).Undefined?
    ensures r.Decoded? ==> |r.value| >= |physicsEvents| && r.value[..|physicsEvents|] == physicsEvents
    ensures r.Decoded? ==>
      var emitted := Decode(words, InitialState(rocid)).value.delay.emitted;
      Summaries(r.value[|physicsEvents|..]) == HelicityPublication(emitted, first)
    ensures r.Decoded? ==> forall i :: |physicsEvents| <= i < |r.value| ==> fresh(r.value[i])
    ensures r.Decoded? ==> NoRepeats(r.value[|physicsEvents|..])
  {
    hide Decode, HelicityPublication;
    var published := ParseWords(words, rocid, first);
    match published
    case Rejected => r := Rejected;
    case Undefined => r := Undefined;
    case Decoded(events) =>
      var all := physicsEvents + events;
      assert all[|physicsEvents|..] == events;
      assert forall i :: |physicsEvents| <= i < |all| ==> all[i] in events;
      r := Decoded(all);
  }
}
