// From the words of a bank to the published events, and on to the hits of
// each event after consolidation.
module EventParserLaws {
  import opened Common
  import opened Words
  import opened EventMaps
  import opened BlockFraming
  import opened HitTypes
  import opened PhysicsEvents
  import Fadc
  import FadcRoundTrip
  import Mpd
  import MpdRoundTrip
  import Vftdc
  import VftdcRoundTrip
  import Helicity
  import HelicityRoundTrip
  import opened Consolidation
  import opened ConsolidationLaws
  import opened EventParser

  function UpFrom(first: nat, count: nat): (r: seq<int>)
    ensures |r| == count && forall i :: 0 <= i < count ==> r[i] == first + i
  {
    seq(count, i requires 0 <= i < count => first + i)
  }

  // The two widths in which decoders count events give the same int numbers.
  lemma WidthInvisible(first: nat, k: nat)
    ensures ToInt32(EventNumber(Counter64(first), k)) == ToInt32(EventNumber(Counter32(first), k))
  {
    var n, wide := first + k, 0x1_0000_0000_0000_0000;
    assert n == n / wide * wide + n % wide;
    assert n % 0x1_0000_0000 == n % wide % 0x1_0000_0000;
  }

  lemma SmallNumber(counter: Counter, k: nat)
    requires counter.first + k < 0x8000_0000
    ensures EventNumber(counter, k) == counter.first + k && ToInt32(counter.first + k) == counter.first + k
  {
  }

  lemma SmallNumbers(counter: Counter, count: nat, n: nat)
    requires counter.first + count <= 0x8000_0000
    ensures n in Numbers(counter, count) <==> counter.first <= n < counter.first + count
  {
    hide EventNumber;
    if counter.first <= n < counter.first + count {
      SmallNumber(counter, n - counter.first);
      assert EventNumber(counter, n - counter.first) == n;
    }
    if n in Numbers(counter, count) {
      var i :| 0 <= i < count && n == EventNumber(counter, i);
      SmallNumber(counter, i);
    }
  }

  // As long as the numbers fit in the int of a PhysicsEvent, they are
  // published in the order in which they were counted.
  lemma ContiguousOrder(counter: Counter, count: nat)
    requires counter.first + count <= 0x8000_0000
    ensures InOrder(Numbers(counter, count)) == UpFrom(counter.first, count)
  {
    var numbers := Numbers(counter, count);
    hide Numbers;
    forall n ensures n in numbers <==> counter.first <= n < counter.first + count {
      if n >= 0 { SmallNumbers(counter, count, n); }
    }
    OrderOfRange(numbers, counter.first, count);
  }

  lemma OrderOfRange(numbers: set<int>, first: nat, count: nat)
    requires forall n :: n in numbers <==> first <= n < first + count
    ensures InOrder(numbers) == UpFrom(first, count)
  {
    var order, expected := InOrder(numbers), UpFrom(first, count);
    forall n ensures n in order <==> n in expected {
      if first <= n < first + count {
        assert expected[n - first] == n;
      }
    }
    SameLength(order, expected);
    AscendingUnique(order, expected);
  }

  lemma Empty(s: seq<int>)
    requires forall x :: x !in s
    ensures s == []
  {
    forall x ensures multiset(s)[x] == 0 {
      assert x in multiset(s) <==> x in s;
    }
    assert multiset(s) == multiset{};
    assert |s| == |multiset(s)|;
  }

  lemma {:induction false} SameLength(left: seq<int>, right: seq<int>)
    requires Ascending(left) && Ascending(right) && forall x :: x in left <==> x in right
    ensures |left| == |right|
  {
    if left == [] {
      Empty(right);
    } else if right == [] {
      Empty(left);
    } else {
      assert left[0] in left && right[0] in right;
      forall x ensures x in left[1..] <==> x in right[1..] {
        assert x in left[1..] <==> x in left && x != left[0];
        assert x in right[1..] <==> x in right && x != right[0];
      }
      SameLength(left[1..], right[1..]);
    }
  }

  // What is published for contiguous numbers.
  lemma PublishedAt(hits: map<nat, EventHits>, order: seq<int>, counter: Counter, count: nat, k: nat)
    requires order == UpFrom(counter.first, count) && k < count && counter.first + count <= 0x8000_0000
    requires forall n :: n in order ==> n in hits
    ensures counter.first + k in hits
    ensures Publication(order, hits)[k] == Summary(counter.first + k, [hits[counter.first + k]])
  {
    SmallNumber(counter, k);
    hide ToInt32;
    assert order[k] in order;
  }

  // What a parser publishes for the containers of contiguous numbers.
  lemma PublishedContiguous(hits: map<nat, EventHits>, counter: Counter, count: nat, k: nat)
    requires hits.Keys == Numbers(counter, count) && counter.first + count <= 0x8000_0000 && k < count
    ensures InOrder(hits.Keys) == UpFrom(counter.first, count) && counter.first + k in hits
    ensures Publication(InOrder(hits.Keys), hits)[k] == Summary(counter.first + k, [hits[counter.first + k]])
  {
    hide *;
    ContiguousOrder(counter, count);
    KeysInOrder(hits);
    PublishedAt(hits, InOrder(hits.Keys), counter, count, k);
  }

  lemma KeysInOrder(hits: map<nat, EventHits>)
    ensures forall n :: n in InOrder(hits.Keys) ==> n in hits
  {
    hide InOrder;
  }

  lemma FadcOutput(words: seq<Word>, rocid: Word, first: nat)
    requires Fadc.Decode(words, Fadc.InitialState(rocid), Counter64(first)).Decoded?
    ensures var events := Fadc.Decode(words, Fadc.InitialState(rocid), Counter64(first)).value.events;
      && BankOutput(FadcParser, words, rocid, first) == Decoded(Fadc.FadcPublication(events))
      && |Fadc.FadcPublication(events)| == |InOrder(events.Keys)|
  {
    hide Fadc.Decode, InOrder;
  }

  lemma FadcPublicationAt(events: Events<FadcHit>, counter: Counter, count: nat, k: nat)
    requires events.Keys == Numbers(counter, count) && counter.first + count <= 0x8000_0000 && k < count
    ensures |Fadc.FadcPublication(events)| == count && counter.first + k in events
    ensures Fadc.FadcPublication(events)[k] ==
      Summary(counter.first + k, [FadcEvent(KindLists(events[counter.first + k]))])
  {
    PublishedContiguous(Fadc.FadcContainers(events), counter, count, k);
    hide InOrder, Numbers, Publication, KindLists;
  }

  // The bank of an FADC readout publishes one event per number: the k-th
  // holds the hits of the k-th events of all blocks, by type.
  lemma {:induction false} FadcBankRoundTrip(blocks: seq<FadcRoundTrip.Block>, rocid: Word, first: nat)
    requires forall i :: 0 <= i < |blocks| ==> FadcRoundTrip.BlockFits(blocks[i])
    requires first + Longest(FadcRoundTrip.Content(blocks, rocid)) <= 0x8000_0000
    ensures var content := FadcRoundTrip.Content(blocks, rocid);
      var output := BankOutput(FadcParser, FadcRoundTrip.EncodeBlocks(blocks), rocid, first);
      && output.Decoded?
      && |output.value| == Longest(content)
      && forall k :: 0 <= k < Longest(content) ==>
        output.value[k] == Summary(first + k, [FadcEvent(KindLists(Collected(content, k)))])
  {
    hide *;
    FadcRoundTrip.DecodeInvertsEncode(blocks, rocid, first);
    var content, words := FadcRoundTrip.Content(blocks, rocid), FadcRoundTrip.EncodeBlocks(blocks);
    var events := Fadc.Decode(words, Fadc.InitialState(rocid), Counter64(first)).value.events;
    FadcOutput(words, rocid, first);
    ContiguousOrder(Counter64(first), Longest(content));
    forall k: nat | k < Longest(content)
      ensures Fadc.FadcPublication(events)[k] == Summary(first + k, [FadcEvent(KindLists(Collected(content, k)))])
    {
      SmallNumber(Counter64(first), k);
      FadcPublicationAt(events, Counter64(first), Longest(content), k);
    }
  }

  lemma MpdOutput(words: seq<Word>, rocid: Word, first: nat)
    requires Mpd.Decode(words, rocid, first).Decoded?
    ensures var events := Mpd.Decode(words, rocid, first).value.events;
      && BankOutput(MpdParser, words, rocid, first) == Decoded(Mpd.MpdPublication(events))
      && |Mpd.MpdPublication(events)| == |InOrder(events.Keys)|
  {
    hide Mpd.Decode, InOrder;
  }

  lemma MpdPublicationAt(events: Events<MpdHit>, counter: Counter, count: nat, k: nat)
    requires events.Keys == Numbers(counter, count) && counter.first + count <= 0x8000_0000 && k < count
    ensures |Mpd.MpdPublication(events)| == count && counter.first + k in events
    ensures Mpd.MpdPublication(events)[k] ==
      Summary(counter.first + k, [MpdEvent(events[counter.first + k])])
  {
    PublishedContiguous(Mpd.MpdContainers(events), counter, count, k);
    hide InOrder, Numbers, Publication, KindLists;
  }

  // The same for an MPD readout, whose decoder counts in 32 bits.
  lemma MpdBankRoundTrip(blocks: seq<MpdRoundTrip.Block>, rocid: Word, first: nat)
    requires forall i :: 0 <= i < |blocks| ==> MpdRoundTrip.BlockFits(blocks[i])
    requires first + Longest(MpdRoundTrip.Content(blocks, rocid, first)) <= 0x8000_0000
    ensures var content := MpdRoundTrip.Content(blocks, rocid, first);
      var output := BankOutput(MpdParser, MpdRoundTrip.EncodeBlocks(blocks), rocid, first);
      && output.Decoded?
      && |output.value| == Longest(content)
      && forall k :: 0 <= k < Longest(content) ==>
        output.value[k] == Summary(first + k, [MpdEvent(Collected(content, k))])
  {
    hide *;
    MpdRoundTrip.DecodeInvertsEncode(blocks, rocid, first);
    var content, words := MpdRoundTrip.Content(blocks, rocid, first), MpdRoundTrip.EncodeBlocks(blocks);
    var events := Mpd.Decode(words, rocid, first).value.events;
    MpdOutput(words, rocid, first);
    ContiguousOrder(Counter32(first), Longest(content));
    forall k: nat | k < Longest(content)
      ensures Mpd.MpdPublication(events)[k] == Summary(first + k, [MpdEvent(Collected(content, k))])
    {
      SmallNumber(Counter32(first), k);
      MpdPublicationAt(events, Counter32(first), Longest(content), k);
    }
  }

  lemma VftdcOutput(words: seq<Word>, rocid: Word, first: nat)
    requires Vftdc.Decode(words, rocid, first).Decoded?
    ensures var events := Vftdc.Decode(words, rocid, first).value.events;
      && BankOutput(VftdcParser, words, rocid, first) == Decoded(Vftdc.VftdcPublication(events))
      && |Vftdc.VftdcPublication(events)| == |InOrder(events.Keys)|
  {
    hide Vftdc.Decode, InOrder;
  }

  lemma VftdcPublicationAt(events: Events<VftdcHit>, counter: Counter, count: nat, k: nat)
    requires events.Keys == Numbers(counter, count) && counter.first + count <= 0x8000_0000 && k < count
    ensures |Vftdc.VftdcPublication(events)| == count && counter.first + k in events
    ensures Vftdc.VftdcPublication(events)[k] ==
      Summary(counter.first + k, [VftdcEvent(events[counter.first + k])])
  {
    PublishedContiguous(Vftdc.VftdcContainers(events), counter, count, k);
    hide InOrder, Numbers, Publication, KindLists;
  }

  // The same for a VFTDC readout.
  lemma VftdcBankRoundTrip(blocks: seq<VftdcRoundTrip.Block>, rocid: Word, first: nat)
    requires forall i :: 0 <= i < |blocks| ==> VftdcRoundTrip.BlockFits(blocks[i])
    requires first + Longest(VftdcRoundTrip.Content(blocks, rocid)) <= 0x8000_0000
    ensures var content := VftdcRoundTrip.Content(blocks, rocid);
      var output := BankOutput(VftdcParser, VftdcRoundTrip.EncodeBlocks(blocks), rocid, first);
      && output.Decoded?
      && |output.value| == Longest(content)
      && forall k :: 0 <= k < Longest(content) ==>
        output.value[k] == Summary(first + k, [VftdcEvent(Collected(content, k))])
  {
    hide *;
    VftdcRoundTrip.DecodeInvertsEncode(blocks, rocid, first);
    var content, words := VftdcRoundTrip.Content(blocks, rocid), VftdcRoundTrip.EncodeBlocks(blocks);
    var events := Vftdc.Decode(words, rocid, first).value.events;
    VftdcOutput(words, rocid, first);
    ContiguousOrder(Counter64(first), Longest(content));
    forall k: nat | k < Longest(content)
      ensures Vftdc.VftdcPublication(events)[k] == Summary(first + k, [VftdcEvent(Collected(content, k))])
    {
      SmallNumber(Counter64(first), k);
      VftdcPublicationAt(events, Counter64(first), Longest(content), k);
    }
  }

  // The bank of one helicity decoder block publishes each of its events.
  lemma HelicityBankRoundTrip(b: HelicityRoundTrip.Block, rocid: Word, first: nat)
    requires HelicityRoundTrip.BlockFits(b) && b.events != []
    requires first + |b.events| <= 0x8000_0000
    ensures var started := HelicityRoundTrip.BlockOrigin(b, Origin(0, 0, 0, rocid, 0, 0));
      var records := HelicityRoundTrip.EventsRecords(b.events, started);
      var output := BankOutput(HelicityParser, HelicityRoundTrip.EncodeBlock(b), rocid, first);
      && output.Decoded?
      && |output.value| == |b.events|
      && forall k :: 0 <= k < |b.events| ==> output.value[k] == Summary(first + k, [HelicityEvent(records[k])])
  {
    HelicityRoundTrip.OneBlockRoundTrip(b, rocid);
    hide HelicityRoundTrip.EncodeBlock, HelicityRoundTrip.BlockFits, Helicity.Decode, HelicityRoundTrip.EventsRecords;
    hide EventNumber, ToInt32;
    forall k: nat | k < |b.events|
      ensures EventNumber(Counter64(first), k) == first + k && ToInt32(first + k) == first + k
    {
      SmallNumber(Counter64(first), k);
    }
  }

  // Banks that publish the same numbers: the consolidated event holds the
  // containers of the earlier banks before those of the later ones.
  lemma HitsBankByBank(dmas: seq<DmaBank>, n: nat, rocid: Word, first: nat, setup: Setup, number: int)
    requires 0 < n <= |dmas| && DmasOutput(dmas, n, rocid, first, setup).Decoded?
    ensures DmasOutput(dmas, n - 1, rocid, first, setup).Decoded?
    ensures DmaOutput(dmas[n - 1], rocid, first, setup).Decoded?
    ensures HitsOf(DmasOutput(dmas, n, rocid, first, setup).value, number) ==
      HitsOf(DmasOutput(dmas, n - 1, rocid, first, setup).value, number) +
      HitsOf(DmaOutput(dmas[n - 1], rocid, first, setup).value, number)
  {
    hide DmaOutput, HitsOf;
    HitsOfBanks(DmasOutput(dmas, n - 1, rocid, first, setup).value,
      DmaOutput(dmas[n - 1], rocid, first, setup).value, number);
  }

  // ----- The trigger bank -----

  function UInt32Positions(segments: seq<Segment>, n: nat): set<int>
    requires n <= |segments|
  {
    set i | 0 <= i < n && segments[i].isUInt32
  }

  lemma PositionsNext(segments: seq<Segment>, n: nat)
    requires n < |segments|
    ensures |UInt32Positions(segments, n + 1)| ==
      |UInt32Positions(segments, n)| + if segments[n].isUInt32 then 1 else 0
  {
    var before, after := UInt32Positions(segments, n), UInt32Positions(segments, n + 1);
    if segments[n].isUInt32 {
      assert after == before + {n};
      assert n !in before;
    } else {
      assert after == before;
    }
  }

  lemma RocSegmentsNext(segments: seq<Segment>, n: nat)
    requires n < |segments|
    ensures RocSegments(segments[..n + 1]) ==
      RocSegments(segments[..n]) + if segments[n].isUInt32 then [segments[n]] else []
  {
    assert segments[..n + 1][..n] == segments[..n];
  }

  lemma {:induction false} RocSegmentsAre(segments: seq<Segment>, n: nat)
    requires n <= |segments|
    ensures |RocSegments(segments[..n])| == |UInt32Positions(segments, n)|
    ensures forall i :: 0 <= i < n && segments[i].isUInt32 ==> RocSegmentAt(segments, n, i)
  {
    if n == 0 {
      assert UInt32Positions(segments, 0) == {};
    } else {
      hide RocSegments, UInt32Positions;
      RocSegmentsAre(segments, n - 1);
      PositionsNext(segments, n - 1);
      RocSegmentsNext(segments, n - 1);
      hide RocSegmentAt;
      forall i | 0 <= i < n && segments[i].isUInt32 ensures RocSegmentAt(segments, n, i) {
        if i < n - 1 { StillAt(segments, n, i); } else { NowAt(segments, n); }
      }
    }
  }

  // Segment i is the ROC segment with as many before it as are UInt32.
  predicate RocSegmentAt(segments: seq<Segment>, n: nat, i: nat)
    requires i < n <= |segments|
  {
    var rocs, k := RocSegments(segments[..n]), |UInt32Positions(segments, i)|;
    k < |rocs| && rocs[k] == segments[i]
  }

  lemma StillAt(segments: seq<Segment>, n: nat, i: nat)
    requires i + 1 < n <= |segments| && RocSegmentAt(segments, n - 1, i)
    ensures RocSegmentAt(segments, n, i)
  {
    hide RocSegments, UInt32Positions;
    RocSegmentsNext(segments, n - 1);
  }

  lemma NowAt(segments: seq<Segment>, n: nat)
    requires 0 < n <= |segments| && segments[n - 1].isUInt32
    requires |RocSegments(segments[..n - 1])| == |UInt32Positions(segments, n - 1)|
    ensures RocSegmentAt(segments, n, n - 1)
  {
    hide RocSegments, UInt32Positions;
    RocSegmentsNext(segments, n - 1);
  }

  // A trigger bank is accepted exactly when its first segment has a number
  // and as many of its segments are UInt32 as it announces ROCs; the k-th of
  // these is the segment of the k-th ROC. Without that number it is misread.
  lemma TriggerAcceptedIff(trigger: TriggerBank)
    ensures var segments, r := trigger.segments, ReadTrigger(trigger);
      && (r.Undefined? <==> segments != [] && segments[0].ulongs == [])
      && (r.Decoded? <==>
        && segments != [] && segments[0].ulongs != []
        && |UInt32Positions(segments, |segments|)| == trigger.rocCount)
      && (r.Decoded? ==>
        && r.value.0 == segments[0].ulongs[0] && |r.value.1| == trigger.rocCount
        && forall i :: 0 <= i < |segments| && segments[i].isUInt32 ==>
          |UInt32Positions(segments, i)| < |r.value.1| && r.value.1[|UInt32Positions(segments, i)|] == segments[i])
  {
    var segments := trigger.segments;
    RocSegmentsAre(segments, |segments|);
    assert segments[..|segments|] == segments;
    hide RocSegments, UInt32Positions;
    forall i | 0 <= i < |segments| && segments[i].isUInt32
      ensures |UInt32Positions(segments, i)| < |RocSegments(segments)|
      ensures RocSegments(segments)[|UInt32Positions(segments, i)|] == segments[i]
    {
      assert RocSegmentAt(segments, |segments|, i);
    }
  }
}
