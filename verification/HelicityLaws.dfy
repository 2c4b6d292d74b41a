// What the helicity decoder publishes for encoded blocks, and exactly when
// that is one event per event header under its right number.
module HelicityLaws {
  import opened Common
  import opened HitTypes
  import opened Helicity

  type Records = seq<HelicityRecord>

  // ----- The delay, seen from outside -----

  // Events k, k + 1, ... with their records.
  function Numbered(k: nat, events: seq<Records>): (r: seq<(nat, Records)>)
    ensures |r| == |events|
  {
    seq(|events|, i requires 0 <= i < |events| => (k + i, events[i]))
  }

  // What should come out: the k-th event of each block under index k.
  function Expected(blocks: seq<seq<Records>>): seq<(nat, Records)> {
    if blocks == [] then [] else Numbered(0, blocks[0]) + Expected(blocks[1..])
  }

  // What does come out. The last event of a block goes out at the next event
  // header, under index 0, or at the end if the last trailer is the last word.
  function Emissions(blocks: seq<seq<Records>>, pending: Option<Records>, last: bool): seq<(nat, Records)>
    decreases |blocks|, 1
  {
    if blocks == [] then []
    else if blocks[0] == [] then
      if |blocks| == 1 then (if last then Opening(pending) else [])
      else Emissions(blocks[1..], pending, last)
    else
      Opening(pending) + Numbered(|Opening(pending)|, AllButLast(blocks[0])) +
      Closing(blocks, |Opening(pending)| + |blocks[0]| - 1, last)
  }

  function Opening(pending: Option<Records>): seq<(nat, Records)> {
    if pending.Some? then [(0, pending.value)] else []
  }

  function Last(block: seq<Records>): Records
    requires block != []
  {
    block[|block| - 1]
  }

  function AllButLast(block: seq<Records>): seq<Records>
    requires block != []
  {
    block[..|block| - 1]
  }

  // From the last event of the first block on; index is what that event gets
  // at a trailer.
  function Closing(blocks: seq<seq<Records>>, index: nat, last: bool): seq<(nat, Records)>
    requires blocks != [] && blocks[0] != []
    decreases |blocks|, 0
  {
    if |blocks| == 1 then (if last then [(index, Last(blocks[0]))] else [])
    else Emissions(blocks[1..], Some(Last(blocks[0])), last)
  }

  predicate NoEvents(blocks: seq<seq<Records>>) {
    forall b :: 0 <= b < |blocks| ==> blocks[b] == []
  }

  // Either the last block is the only one with events, or the last block is
  // empty and no block has more than one event; and nothing follows the last
  // trailer. Or there are no events at all.
  predicate NumberedRight(blocks: seq<seq<Records>>, last: bool) {
    || NoEvents(blocks)
    || (last && blocks != [] && blocks[|blocks| - 1] != [] && NoEvents(blocks[..|blocks| - 1]))
    || (last && blocks != [] && blocks[|blocks| - 1] == [] && SinglesAtMost(blocks))
  }

  predicate SinglesAtMost(blocks: seq<seq<Records>>) {
    forall b :: 0 <= b < |blocks| ==> |blocks[b]| <= 1
  }

  lemma CancelFront<T>(front: seq<T>, a: seq<T>, b: seq<T>)
    ensures front + a == front + b <==> a == b
  {
    assert (front + a)[|front|..] == a && (front + b)[|front|..] == b;
  }

  lemma FirstDiffers<T>(x: T, a: seq<T>, y: T, b: seq<T>)
    requires x != y
    ensures [x] + a != [y] + b
  {
    assert ([x] + a)[0] == x && ([y] + b)[0] == y;
  }

  // With an event pending that belongs under index x.
  lemma {:induction false} PendingRight(blocks: seq<seq<Records>>, r: Records, x: nat, last: bool)
    ensures Emissions(blocks, Some(r), last) == [(x, r)] + Expected(blocks) <==>
      last && x == 0 && blocks != [] && blocks[|blocks| - 1] == [] && SinglesAtMost(blocks)
    decreases |blocks|, 2
  {
    if blocks != [] {
      var block, rest := blocks[0], blocks[1..];
      if block == [] {
        assert Numbered(0, block) + Expected(rest) == Expected(rest);
        PendingRight(rest, r, x, last);
        SinglesSplit(blocks);
        if |blocks| == 1 {
          assert Expected(rest) == [];
        }
      } else {
        PendingBlockRight(blocks, r, x, last);
      }
    }
  }

  lemma SinglesSplit(blocks: seq<seq<Records>>)
    requires blocks != []
    ensures SinglesAtMost(blocks) <==> |blocks[0]| <= 1 && SinglesAtMost(blocks[1..])
    ensures |blocks| > 1 ==> blocks[1..][|blocks| - 2] == blocks[|blocks| - 1]
  {
    if |blocks[0]| <= 1 && SinglesAtMost(blocks[1..]) {
      forall b | 0 <= b < |blocks| ensures |blocks[b]| <= 1 {
        assert b > 0 ==> blocks[b] == blocks[1..][b - 1];
      }
    }
  }

  lemma PendingBlockRight(blocks: seq<seq<Records>>, r: Records, x: nat, last: bool)
    requires blocks != [] && blocks[0] != []
    ensures Emissions(blocks, Some(r), last) == [(x, r)] + Expected(blocks) <==>
      last && x == 0 && blocks[|blocks| - 1] == [] && SinglesAtMost(blocks)
    decreases |blocks|, 1
  {
    hide *;
    EmissionsFirst(blocks, r, last);
    SinglesSplit(blocks);
    var later := AfterPending(blocks, last);
    if x != 0 {
      FirstDiffers((0, r), later, (x, r), Expected(blocks));
    } else {
      CancelFront([(x, r)], later, Expected(blocks));
      if |blocks[0]| > 1 {
        LongerDiffers(blocks, last);
      } else {
        SingleRight(blocks, last);
      }
    }
  }

  // The second event of a block would have to be the first.
  lemma LongerDiffers(blocks: seq<seq<Records>>, last: bool)
    requires blocks != [] && |blocks[0]| > 1
    ensures AfterPending(blocks, last) != Expected(blocks)
  {
    hide *;
    EmissionsFirst(blocks, [], last);
    ExpectedFirst(blocks);
  }

  lemma SingleRight(blocks: seq<seq<Records>>, last: bool)
    requires blocks != [] && |blocks[0]| == 1
    ensures AfterPending(blocks, last) == Expected(blocks) <==>
      last && blocks[|blocks| - 1] == [] && SinglesAtMost(blocks)
    decreases |blocks|, 0
  {
    hide *;
    EmissionsFirst(blocks, [], last);
    SinglesSplit(blocks);
    SingleClosing(blocks, last);
    if |blocks| > 1 {
      PendingRight(blocks[1..], blocks[0][0], 0, last);
    }
  }

  // What follows a pending event when the first block is not empty.
  function AfterPending(blocks: seq<seq<Records>>, last: bool): seq<(nat, Records)>
    requires blocks != [] && blocks[0] != []
  {
    Numbered(1, AllButLast(blocks[0])) + Closing(blocks, |blocks[0]|, last)
  }

  lemma EmissionsFirst(blocks: seq<seq<Records>>, r: Records, last: bool)
    requires blocks != [] && blocks[0] != []
    ensures Emissions(blocks, Some(r), last) == [(0, r)] + AfterPending(blocks, last)
    ensures |blocks[0]| > 1 ==>
      AfterPending(blocks, last) != [] && AfterPending(blocks, last)[0] == (1, blocks[0][0])
    ensures |blocks[0]| == 1 ==> AfterPending(blocks, last) == Closing(blocks, 1, last)
  {
    hide Closing;
    var inner, tail := Numbered(1, AllButLast(blocks[0])), Closing(blocks, |blocks[0]|, last);
    assert [(0, r)] + inner + tail == [(0, r)] + (inner + tail);
    if |blocks[0]| > 1 {
      assert inner[0] == (1, blocks[0][0]);
    } else {
      assert inner + tail == tail;
    }
  }

  lemma ExpectedFirst(blocks: seq<seq<Records>>)
    requires blocks != [] && blocks[0] != []
    ensures Expected(blocks) ==
      Numbered(0, AllButLast(blocks[0])) + ([(|blocks[0]| - 1, Last(blocks[0]))] + Expected(blocks[1..]))
    ensures Expected(blocks) != [] && Expected(blocks)[0] == (0, blocks[0][0])
  {
    var block := blocks[0];
    assert Numbered(0, block) == Numbered(0, AllButLast(block)) + [(|block| - 1, Last(block))];
    assert Numbered(0, block)[0] == (0, block[0]);
  }

  // A block of one event that goes out at its own trailer gets index 1.
  lemma SingleClosing(blocks: seq<seq<Records>>, last: bool)
    requires blocks != [] && |blocks[0]| == 1
    ensures |blocks| == 1 ==> Closing(blocks, 1, last) != Expected(blocks)
    ensures |blocks| > 1 ==> Closing(blocks, 1, last) == Emissions(blocks[1..], Some(blocks[0][0]), last)
    ensures Expected(blocks) == [(0, blocks[0][0])] + Expected(blocks[1..])
  {
    hide Emissions;
    assert Numbered(0, blocks[0]) == [(0, blocks[0][0])];
    if |blocks| == 1 {
      assert Expected(blocks)[0] == (0, blocks[0][0]);
    }
  }

  lemma NoEventsSplit(blocks: seq<seq<Records>>)
    requires blocks != []
    ensures NoEvents(blocks) <==> blocks[0] == [] && NoEvents(blocks[1..])
    ensures |blocks| > 1 ==>
      (NoEvents(blocks[..|blocks| - 1]) <==> blocks[0] == [] && NoEvents(blocks[1..][..|blocks| - 2]))
  {
    var front, rest := blocks[..|blocks| - 1], blocks[1..];
    if blocks[0] == [] && NoEvents(rest) {
      forall b | 0 <= b < |blocks| ensures blocks[b] == [] {
        assert b > 0 ==> blocks[b] == rest[b - 1];
      }
    }
    if |blocks| > 1 {
      assert front[1..] == rest[..|blocks| - 2];
      if blocks[0] == [] && NoEvents(rest[..|blocks| - 2]) {
        forall b | 0 <= b < |front| ensures front[b] == [] {
          assert b > 0 ==> front[b] == front[1..][b - 1];
        }
      }
      if NoEvents(front) {
        assert front[0] == blocks[0];
        assert forall b :: 0 <= b < |blocks| - 2 ==> front[1..][b] == front[b + 1];
      }
    }
  }

  // Exactly when the emissions are the events under their right indexes.
  lemma {:induction false} EmissionsRight(blocks: seq<seq<Records>>, last: bool)
    ensures Emissions(blocks, None, last) == Expected(blocks) <==> NumberedRight(blocks, last)
  {
    if blocks != [] {
      var block, rest := blocks[0], blocks[1..];
      NoEventsSplit(blocks);
      SinglesSplit(blocks);
      if block == [] {
        assert Numbered(0, block) + Expected(rest) == Expected(rest);
        EmissionsRight(rest, last);
        if |blocks| == 1 {
          assert Expected(rest) == [];
        }
      } else {
        BlockRight(blocks, last);
      }
    }
  }

  lemma RightFromFirst(blocks: seq<seq<Records>>, last: bool)
    requires blocks != [] && blocks[0] != []
    ensures NumberedRight(blocks, last) <==>
      last && (|blocks| == 1 || (blocks[|blocks| - 1] == [] && SinglesAtMost(blocks)))
  {
    if |blocks| > 1 {
      assert blocks[..|blocks| - 1][0] == blocks[0];
    }
  }

  lemma BlockRight(blocks: seq<seq<Records>>, last: bool)
    requires blocks != [] && blocks[0] != []
    ensures Emissions(blocks, None, last) == Expected(blocks) <==> NumberedRight(blocks, last)
  {
    RightFromFirst(blocks, last);
    hide NumberedRight, SinglesAtMost;
    var block, rest := blocks[0], blocks[1..];
    var front, tail := Numbered(0, AllButLast(block)), Closing(blocks, |block| - 1, last);
    assert Emissions(blocks, None, last) == front + tail;
    ExpectedFirst(blocks);
    hide Expected, Emissions, Numbered;
    CancelFront(front, tail, [(|block| - 1, Last(block))] + Expected(rest));
    if |blocks| == 1 {
      ExpectedNothing();
      assert rest == [];
    } else {
      SinglesSplit(blocks);
      PendingRight(rest, Last(block), |block| - 1, last);
    }
  }

  lemma ExpectedNothing()
    ensures Expected([]) == []
  {
  }

  // ----- The decoder's own bookkeeping -----

  function AfterEvents(delay: Delay, events: seq<Records>): Delay
    decreases |events|
  {
    if events == [] then delay
    else AfterEvents(delay.OpenEvent().(pending := Some(events[0])), events[1..])
  }

  function AfterBlocks(delay: Delay, blocks: seq<seq<Records>>, last: bool): Delay
    decreases |blocks|
  {
    if blocks == [] then delay
    else AfterBlocks(AfterEvents(delay, blocks[0]).CloseBlock(|blocks| == 1 && last), blocks[1..], last)
  }

  lemma {:induction false} LaterEvents(delay: Delay, events: seq<Records>)
    requires delay.pending.Some?
    ensures var end := AfterEvents(delay, events);
      && end.index == delay.index + |events|
      && end.pending == Some(if events == [] then delay.pending.value else events[|events| - 1])
      && end.emitted == delay.emitted + Numbered(delay.index, ([delay.pending.value] + events)[..|events|])
    decreases |events|
  {
    if events == [] {
      assert delay.emitted + [] == delay.emitted;
    } else {
      var next := delay.OpenEvent().(pending := Some(events[0]));
      LaterEvents(next, events[1..]);
      var now, later := Numbered(delay.index, [delay.pending.value]), ([events[0]] + events[1..])[..|events| - 1];
      assert ([delay.pending.value] + events)[..|events|] == [delay.pending.value] + later;
      assert Numbered(delay.index, [delay.pending.value] + later) == now + Numbered(delay.index + 1, later);
      assert delay.emitted + now + Numbered(delay.index + 1, later) ==
        delay.emitted + (now + Numbered(delay.index + 1, later));
    }
  }

  lemma {:induction false} BlocksEmitted(delay: Delay, blocks: seq<seq<Records>>, last: bool)
    requires delay.index == 0
    ensures AfterBlocks(delay, blocks, last).emitted == delay.emitted + Emissions(blocks, delay.pending, last)
    decreases |blocks|
  {
    if blocks == [] {
      assert delay.emitted + [] == delay.emitted;
    } else {
      var end := AfterEvents(delay, blocks[0]);
      var next := end.CloseBlock(|blocks| == 1 && last);
      BlocksEmitted(next, blocks[1..], last);
      BlockEmitted(delay, blocks, last);
    }
  }

  lemma BlockEvents(delay: Delay, block: seq<Records>)
    requires delay.index == 0 && block != []
    ensures var end, k := AfterEvents(delay, block), |Opening(delay.pending)|;
      && end.index == k + |block| - 1 && end.pending == Some(Last(block))
      && end.emitted == delay.emitted + (Opening(delay.pending) + Numbered(k, AllButLast(block)))
  {
    var started := delay.OpenEvent().(pending := Some(block[0]));
    LaterEvents(started, block[1..]);
    assert ([block[0]] + block[1..])[..|block| - 1] == AllButLast(block);
    assert started.emitted == delay.emitted + Opening(delay.pending);
    hide AfterEvents, Numbered, Opening;
    assert AfterEvents(delay, block) == AfterEvents(started, block[1..]) by {
      AfterFirst(delay, block);
    }
    assert delay.emitted + Opening(delay.pending) + Numbered(started.index, AllButLast(block)) ==
      delay.emitted + (Opening(delay.pending) + Numbered(started.index, AllButLast(block)));
  }

  lemma AfterFirst(delay: Delay, block: seq<Records>)
    requires block != []
    ensures AfterEvents(delay, block) == AfterEvents(delay.OpenEvent().(pending := Some(block[0])), block[1..])
  {
  }

  lemma BlockEmitted(delay: Delay, blocks: seq<seq<Records>>, last: bool)
    requires delay.index == 0 && blocks != []
    ensures var next := AfterEvents(delay, blocks[0]).CloseBlock(|blocks| == 1 && last);
      next.emitted + Emissions(blocks[1..], next.pending, last) ==
        delay.emitted + Emissions(blocks, delay.pending, last)
  {
    var block, rest := blocks[0], blocks[1..];
    var end := AfterEvents(delay, block);
    if block != [] {
      BlockEvents(delay, block);
      hide AfterEvents, Numbered;
      var front := Opening(delay.pending) + Numbered(|Opening(delay.pending)|, AllButLast(block));
      var tail := Closing(blocks, |Opening(delay.pending)| + |block| - 1, last);
      assert delay.emitted + front + tail == delay.emitted + (front + tail);
      assert Emissions(blocks, delay.pending, last) == front + tail;
      if |blocks| == 1 {
        assert Emissions(rest, end.pending, last) == [];
        assert delay.emitted + front + [] == delay.emitted + front;
      }
    }
  }
}
