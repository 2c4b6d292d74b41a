// The raw hit types that the module parsers publish, and the per-event
// containers that hold them.
module HitTypes {
  import opened Common
  import opened Words

  // ----- FADC250 -----

  // The registers that every FADC hit and helicity record copies.
  datatype Origin = Origin(triggerNum: Word, timestamp1: Word, timestamp2: Word,
                           rocid: Word, slot: Word, moduleId: Word)

  datatype PulseMeasurement = PulseMeasurement(
    integralSum: Word, integralQuality: Word, nsamplesAboveTh: Word,
    coarseTime: Word, fineTime: Word, pulsePeak: Word, timeQuality: Word)

  datatype FadcHit =
    | Waveform(origin: Origin, chan: Word, samples: seq<Word>)
    | Pulse(origin: Origin, chan: Word, pedestalQuality: Word, pedestalSum: Word, measured: PulseMeasurement)
    | Integral(origin: Origin, chan: Word, pulseNumber: Word, pulseIntegral: Word)
    | Time(origin: Origin, chan: Word, pulseNumber: Word, qualityFactor: Word, coarseTime: Word, fineTime: Word)
    | Peak(origin: Origin, chan: Word, pulseNumber: Word, vmin: Word, vpeak: Word)

  // EventHits_FADC: one list per hit type, each in arrival order.
  datatype FadcHits = FadcHits(
    waveforms: seq<FadcHit>, pulses: seq<FadcHit>, integrals: seq<FadcHit>,
    times: seq<FadcHit>, peaks: seq<FadcHit>)

  const NO_FADC_HITS := FadcHits([], [], [], [], [])

  function AddFadcHit(hits: FadcHits, hit: FadcHit): FadcHits {
    match hit
    case Waveform(_, _, _) => hits.(waveforms := hits.waveforms + [hit])
    case Pulse(_, _, _, _, _) => hits.(pulses := hits.pulses + [hit])
    case Integral(_, _, _, _) => hits.(integrals := hits.integrals + [hit])
    case Time(_, _, _, _, _, _) => hits.(times := hits.times + [hit])
    case Peak(_, _, _, _, _) => hits.(peaks := hits.peaks + [hit])
  }

  // The hits of each kind, in arrival order.
  function KindLists(hits: seq<FadcHit>): FadcHits {
    FadcHits(
      Filter((h: FadcHit) => h.Waveform?, hits), Filter((h: FadcHit) => h.Pulse?, hits),
      Filter((h: FadcHit) => h.Integral?, hits), Filter((h: FadcHit) => h.Time?, hits),
      Filter((h: FadcHit) => h.Peak?, hits))
  }

  lemma KindListsNext(hits: seq<FadcHit>, hit: FadcHit)
    ensures KindLists(hits + [hit]) == AddFadcHit(KindLists(hits), hit)
  {
    assert (hits + [hit])[..|hits|] == hits;
    assert forall list: seq<FadcHit> :: list + [] == list;
  }

  // Every hit is in exactly one of the lists.
  lemma {:induction false} KindListsComplete(hits: seq<FadcHit>)
    ensures var lists := KindLists(hits);
      |lists.waveforms| + |lists.pulses| + |lists.integrals| + |lists.times| + |lists.peaks| == |hits|
  {
    if hits != [] {
      var front, last := hits[..|hits| - 1], hits[|hits| - 1];
      KindListsComplete(front);
      KindListsNext(front, last);
      assert hits == front + [last];
    }
  }

  // ----- MPD -----

  datatype MpdHit = MpdHit(
    rocid: Word, slot: Word, triggerNum: nat, triggerTime: Word, mpdId: Word, fiberId: Word,
    apvChannel: Word, apvId: Word, apvSamples: seq<Word>)

  // ----- VFTDC -----

  datatype VftdcHit = VftdcHit(
    rocid: Word, slot: Word, boardId: Word, timestamp: Word, groupNum: Word, channelNum: Word,
    edgeType: Word, coarseTime: Word, twoNs: Word, fineTime: Word)

  // ----- Helicity decoder -----

  datatype TriggerFlags = TriggerFlags(
    tstable: Word, pattsync: Word, pairsync: Word, helicity: Word, pat0Helicity: Word, polarity: Word, patCount: Word)

  // HelicityDecoderData: counters are the payload words 1 to 9, flags the bit
  // fields of word 10, and windows the words 11 to 14.
  datatype HelicityRecord = HelicityRecord(origin: Origin, counters: seq<Word>, flags: TriggerFlags, windows: seq<Word>)

  // ----- The polymorphic per-event container -----

  datatype EventHits =
    | FadcEvent(fadc: FadcHits)
    | MpdEvent(mpd: seq<MpdHit>)
    | VftdcEvent(vftdc: seq<VftdcHit>)
    | HelicityEvent(helicity: seq<HelicityRecord>)
}
