// The framing shared by the FADC, VFTDC and MPD decoders: block headers that
// declare a number of events, event headers that count down, and trailers that
// require the count to be exhausted.
module BlockFraming {
  import opened Common

  // How a stream can end: decoded, rejected by an exception, or with a use
  // of an event that no header opened or of a word beyond the end.
  datatype Outcome<+T> = Decoded(value: T) | Rejected | Undefined

  // What a word means to the framing. Payload words are those that require a
  // block header to have been seen.
  datatype Mark = BlockHeader(declared: nat) | BlockTrailer | EventHeader | Payload | Ignored

  // remaining is -1 outside a block. peak is the largest index reached.
  datatype Frame = Frame(remaining: int, index: nat, peak: nat) {
    // None when the stream is rejected.
    function Next(mark: Mark): Option<Frame> {
      match mark
      case BlockHeader(n) => Some(this.(remaining := n))
      case BlockTrailer => if remaining != 0 then None else Some(this.(remaining := -1, index := 0))
      case EventHeader =>
        if remaining <= 0 then None
        else Some(Frame(remaining - 1, index + 1, if index + 1 > peak then index + 1 else peak))
      case Payload => if remaining < 0 then None else Some(this)
      case Ignored => Some(this)
    }
  }

  const START := Frame(-1, 0, 0)

  // The frame after the first n marks of a stream.
  function After(marks: seq<Mark>, n: nat): Option<Frame>
    requires n <= |marks|
  {
    if n == 0 then Some(START)
    else
      match After(marks, n - 1)
      case None => None
      case Some(before) => before.Next(marks[n - 1])
  }

  lemma AfterOneMore(marks: seq<Mark>, n: nat)
    requires n < |marks| && After(marks, n).Some?
    ensures After(marks, n + 1) == After(marks, n).value.Next(marks[n])
  {
  }

  // ----- The framing seen from outside -----

  // How many of the marks from position low up to high are event headers.
  function EventHeaders(marks: seq<Mark>, low: nat, high: nat): nat
    requires high <= |marks|
  {
    if high <= low then 0
    else EventHeaders(marks, low, high - 1) + if marks[high - 1].EventHeader? then 1 else 0
  }

  // The position of the last block header or trailer before n, or -1.
  function LastBound(marks: seq<Mark>, n: nat): (p: int)
    requires n <= |marks|
    ensures -1 <= p < n
    ensures p >= 0 ==> marks[p].BlockHeader? || marks[p].BlockTrailer?
    ensures forall q :: p < q < n ==> !marks[q].BlockHeader? && !marks[q].BlockTrailer?
  {
    if n == 0 then -1
    else if marks[n - 1].BlockHeader? || marks[n - 1].BlockTrailer? then n - 1
    else LastBound(marks, n - 1)
  }

  // The position of the last trailer before n, or -1.
  function LastTrailer(marks: seq<Mark>, n: nat): (p: int)
    requires n <= |marks|
    ensures -1 <= p < n
    ensures p >= 0 ==> marks[p].BlockTrailer?
    ensures forall q :: p < q < n ==> !marks[q].BlockTrailer?
  {
    if n == 0 then -1
    else if marks[n - 1].BlockTrailer? then n - 1
    else LastTrailer(marks, n - 1)
  }

  // The position of the last event header before n, or -1.
  function LastEventHeader(marks: seq<Mark>, n: nat): (p: int)
    requires n <= |marks|
    ensures -1 <= p < n
    ensures p >= 0 ==> marks[p].EventHeader?
    ensures forall q :: p < q < n ==> !marks[q].EventHeader?
  {
    if n == 0 then -1
    else if marks[n - 1].EventHeader? then n - 1
    else LastEventHeader(marks, n - 1)
  }

  // Events since the last trailer.
  function IndexAfter(marks: seq<Mark>, n: nat): nat
    requires n <= |marks|
  {
    EventHeaders(marks, LastTrailer(marks, n) + 1, n)
  }

  // Inside a block: what its header declared minus the events seen since.
  // Outside: -1.
  function RemainingAfter(marks: seq<Mark>, n: nat): int
    requires n <= |marks|
  {
    var p := LastBound(marks, n);
    if p < 0 || marks[p].BlockTrailer? then -1
    else marks[p].declared - EventHeaders(marks, p + 1, n)
  }

  // The largest number of events seen between trailers at any point.
  function PeakAfter(marks: seq<Mark>, n: nat): nat
    requires n <= |marks|
  {
    if n == 0 then 0
    else if IndexAfter(marks, n) > PeakAfter(marks, n - 1) then IndexAfter(marks, n)
    else PeakAfter(marks, n - 1)
  }

  lemma {:induction false} PeakBoundsIndex(marks: seq<Mark>, n: nat, m: nat)
    requires m <= n <= |marks|
    ensures IndexAfter(marks, m) <= PeakAfter(marks, n)
  {
    if m < n { PeakBoundsIndex(marks, n - 1, m); }
  }

  lemma {:induction false} PeakIsReached(marks: seq<Mark>, n: nat) returns (m: nat)
    requires n <= |marks|
    ensures m <= n && IndexAfter(marks, m) == PeakAfter(marks, n)
  {
    if n == 0 {
      m := 0;
    } else {
      m := PeakIsReached(marks, n - 1);
      if IndexAfter(marks, n) > PeakAfter(marks, n - 1) { m := n; }
    }
  }

  // In every accepted stream the counters are exactly these functions of what
  // was seen, at every point of it.
  lemma {:induction false} CountersAreCounts(marks: seq<Mark>, n: nat)
    requires n <= |marks| && After(marks, n).Some?
    ensures After(marks, n).value == Frame(RemainingAfter(marks, n), IndexAfter(marks, n), PeakAfter(marks, n))
  {
    if n > 0 {
      CountersAreCounts(marks, n - 1);
      PeakBoundsIndex(marks, n - 1, n - 1);
    }
  }

  // The counter of remaining events from one mark to the next.
  lemma RemainingStep(marks: seq<Mark>, n: nat)
    requires n < |marks| && (marks[n].EventHeader? ==> RemainingAfter(marks, n) > 0)
    ensures RemainingAfter(marks, n + 1) ==
      match marks[n]
      case BlockHeader(declared) => declared
      case BlockTrailer => -1
      case EventHeader => RemainingAfter(marks, n) - 1
      case _ => RemainingAfter(marks, n)
  {
  }

  // Each trailer closes a block that holds exactly the declared number of
  // events.
  ghost predicate TrailersCloseBlocks(marks: seq<Mark>) {
    forall p :: 0 <= p < |marks| && marks[p].BlockTrailer? ==> ClosesBlock(marks, p)
  }

  predicate ClosesBlock(marks: seq<Mark>, p: nat)
    requires p < |marks|
  {
    var h := LastBound(marks, p);
    h >= 0 && marks[h].BlockHeader? && EventHeaders(marks, h + 1, p) == marks[h].declared
  }

  lemma TrailerClosesBlock(marks: seq<Mark>, p: nat)
    requires p < |marks| && marks[p].BlockTrailer? && After(marks, p + 1).Some?
    ensures ClosesBlock(marks, p)
  {
    CountersAreCounts(marks, p);
  }
}
