// Per-event collections filled block by block: the k-th event of every block
// adds its records to the event numbered first + k.
module EventMaps {

  type Events<R> = map<nat, seq<R>>

  // Event numbers count from the first one of the EVIO block, in 64-bit
  // unsigned arithmetic, or in 32-bit arithmetic where the decoder keeps them
  // in a 32-bit variable.
  datatype Counter = Counter64(first: nat) | Counter32(first: nat)

  function EventNumber(counter: Counter, index: nat): nat {
    if counter.Counter64? then (counter.first + index) % 0x1_0000_0000_0000_0000
    else (counter.first + index) % 0x1_0000_0000
  }

  lemma EventNumbersDistinct(first: Counter, i: nat, j: nat)
    requires i < 0x1_0000_0000 && j < 0x1_0000_0000
    ensures EventNumber(first, i) == EventNumber(first, j) <==> i == j
  {
  }

  // The entry for an event, created when its header is first met.
  function Open<R>(events: Events<R>, n: nat): (r: Events<R>)
    ensures r.Keys == events.Keys + {n}
  {
    if n in events then events else events[n := []]
  }

  function Append<R>(events: Events<R>, n: nat, records: seq<R>): (r: Events<R>)
    requires n in events
    ensures r.Keys == events.Keys
  {
    events[n := events[n] + records]
  }

  lemma AppendNothing<R>(events: Events<R>, n: nat)
    requires n in events
    ensures Append(events, n, []) == events
  {
    assert events[n] + [] == events[n];
  }

  lemma AppendTwice<R>(events: Events<R>, n: nat, a: seq<R>, b: seq<R>)
    requires n in events
    ensures Append(Append(events, n, a), n, b) == Append(events, n, a + b)
  {
    assert events[n] + a + b == events[n] + (a + b);
  }

  function Deposit<R>(events: Events<R>, n: nat, records: seq<R>): Events<R> {
    Append(Open(events, n), n, records)
  }

  // One block: the records of its events, in order, from event index k on.
  function DepositBlock<R>(events: Events<R>, first: Counter, block: seq<seq<R>>, k: nat): Events<R>
    requires k <= |block|
    decreases |block| - k
  {
    if k == |block| then events
    else DepositBlock(Deposit(events, EventNumber(first, k), block[k]), first, block, k + 1)
  }

  function DepositBlocks<R>(events: Events<R>, first: Counter, blocks: seq<seq<seq<R>>>): Events<R>
    decreases |blocks|
  {
    if blocks == [] then events
    else DepositBlocks(DepositBlock(events, first, blocks[0], 0), first, blocks[1..])
  }

  // ----- What the collections end up holding -----

  // The records of the k-th events, concatenated over the blocks in order.
  function Collected<R>(blocks: seq<seq<seq<R>>>, k: nat): seq<R> {
    if blocks == [] then []
    else (if k < |blocks[0]| then blocks[0][k] else []) + Collected(blocks[1..], k)
  }

  // The length of the longest block.
  function Longest<R>(blocks: seq<seq<seq<R>>>): nat {
    if blocks == [] then 0
    else
      var rest := Longest(blocks[1..]);
      if |blocks[0]| > rest then |blocks[0]| else rest
  }

  function At<R>(events: Events<R>, n: nat): seq<R> {
    if n in events then events[n] else []
  }

  ghost function Numbers(first: Counter, count: nat): set<nat> {
    set i | 0 <= i < count :: EventNumber(first, i)
  }

  lemma {:induction false} DepositedBlock<R>(events: Events<R>, first: Counter, block: seq<seq<R>>, k: nat)
    requires k <= |block| < 0x1_0000_0000
    ensures var r := DepositBlock(events, first, block, k);
      && (forall i :: k <= i < |block| ==>
        EventNumber(first, i) in r && r[EventNumber(first, i)] == At(events, EventNumber(first, i)) + block[i])
      && (forall n :: n !in (set i | k <= i < |block| :: EventNumber(first, i)) ==>
        At(r, n) == At(events, n) && (n in r <==> n in events))
    decreases |block| - k
  {
    if k < |block| {
      var n := EventNumber(first, k);
      var next := Deposit(events, n, block[k]);
      DepositedBlock(next, first, block, k + 1);
      var r := DepositBlock(events, first, block, k);
      assert n !in (set i | k + 1 <= i < |block| :: EventNumber(first, i)) by {
        forall i | k + 1 <= i < |block| ensures EventNumber(first, i) != n {
          EventNumbersDistinct(first, i, k);
        }
      }
      forall i | k <= i < |block|
        ensures EventNumber(first, i) in r
        ensures r[EventNumber(first, i)] == At(events, EventNumber(first, i)) + block[i]
      {
        EventNumbersDistinct(first, i, k);
      }
    }
  }

  ghost predicate BlocksShort<R>(blocks: seq<seq<seq<R>>>) {
    forall b :: 0 <= b < |blocks| ==> |blocks[b]| < 0x1_0000_0000
  }

  lemma DepositedBlockAt<R>(events: Events<R>, first: Counter, block: seq<seq<R>>, k: nat)
    requires |block| < 0x1_0000_0000 && k < 0x1_0000_0000
    ensures At(DepositBlock(events, first, block, 0), EventNumber(first, k)) ==
      At(events, EventNumber(first, k)) + if k < |block| then block[k] else []
    ensures EventNumber(first, k) in DepositBlock(events, first, block, 0) <==>
      EventNumber(first, k) in events || k < |block|
  {
    DepositedBlock(events, first, block, 0);
    if k >= |block| {
      assert EventNumber(first, k) !in (set i | 0 <= i < |block| :: EventNumber(first, i)) by {
        forall i | 0 <= i < |block| ensures EventNumber(first, i) != EventNumber(first, k) {
          EventNumbersDistinct(first, i, k);
        }
      }
    }
  }

  lemma {:induction false} DepositedBlocksAt<R>(events: Events<R>, first: Counter, blocks: seq<seq<seq<R>>>, k: nat)
    requires BlocksShort(blocks) && k < 0x1_0000_0000
    ensures At(DepositBlocks(events, first, blocks), EventNumber(first, k)) ==
      At(events, EventNumber(first, k)) + Collected(blocks, k)
    ensures EventNumber(first, k) in DepositBlocks(events, first, blocks) <==>
      EventNumber(first, k) in events || k < Longest(blocks)
    decreases |blocks|
  {
    if blocks == [] {
      assert At(events, EventNumber(first, k)) + [] == At(events, EventNumber(first, k));
    } else {
      DepositedBlockAt(events, first, blocks[0], k);
      DepositedBlocksAt(DepositBlock(events, first, blocks[0], 0), first, blocks[1..], k);
      var here := if k < |blocks[0]| then blocks[0][k] else [];
      assert At(events, EventNumber(first, k)) + here + Collected(blocks[1..], k) ==
        At(events, EventNumber(first, k)) + (here + Collected(blocks[1..], k));
    }
  }

  lemma {:induction false} OnlyNumbered<R>(events: Events<R>, first: Counter, blocks: seq<seq<seq<R>>>)
    requires BlocksShort(blocks)
    ensures DepositBlocks(events, first, blocks).Keys <= events.Keys + Numbers(first, Longest(blocks))
    decreases |blocks|
  {
    if blocks != [] {
      var next := DepositBlock(events, first, blocks[0], 0);
      DepositedBlock(events, first, blocks[0], 0);
      forall n | n in next ensures n in events.Keys + Numbers(first, Longest(blocks)) {
        if n !in events {
          var i :| 0 <= i < |blocks[0]| && n == EventNumber(first, i);
        }
      }
      OnlyNumbered(next, first, blocks[1..]);
      assert Numbers(first, Longest(blocks[1..])) <= Numbers(first, Longest(blocks));
    }
  }

  // Filled from nothing, the collections hold exactly the contiguous numbers
  // first, first + 1, ... and each holds the records of its events over all
  // blocks, in block order.
  lemma FilledEvents<R>(first: Counter, blocks: seq<seq<seq<R>>>)
    requires BlocksShort(blocks)
    ensures DepositBlocks(map[], first, blocks).Keys == Numbers(first, Longest(blocks))
    ensures forall k: nat :: k < Longest(blocks) ==>
      DepositBlocks(map[], first, blocks)[EventNumber(first, k)] == Collected(blocks, k)
  {
    var r := DepositBlocks(map[], first, blocks);
    OnlyNumbered(map[], first, blocks);
    LongestShort(blocks);
    forall k: nat | k < Longest(blocks)
      ensures EventNumber(first, k) in r && r[EventNumber(first, k)] == Collected(blocks, k)
    {
      DepositedBlocksAt(map[], first, blocks, k);
    }
  }

  lemma {:induction false} LongestShort<R>(blocks: seq<seq<seq<R>>>)
    requires BlocksShort(blocks)
    ensures Longest(blocks) < 0x1_0000_0000
    decreases |blocks|
  {
    if blocks != [] {
      LongestShort(blocks[1..]);
    }
  }
}
