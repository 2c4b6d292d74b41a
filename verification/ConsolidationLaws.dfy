// What consolidation guarantees: the numbers, the conservation of hits, and
// the little that the order of the banks decides.
module ConsolidationLaws {
  import opened Common
  import opened HitTypes
  import opened PhysicsEvents
  import opened Consolidation

  // Strictly increasing numbers, and exactly those of the input.
  lemma ConsolidatedNumbers(events: seq<Summary>)
    ensures var r := Consolidated(events);
      && (forall i, j :: 0 <= i < j < |r| ==> r[i].number < r[j].number)
      && NumbersOf(r) == NumbersOf(events)
  {
    var r, order := Consolidated(events), InOrder(NumbersOf(events));
    hide InOrder, HitsOf;
    forall n ensures n in NumbersOf(r) <==> n in NumbersOf(events) {
      if n in NumbersOf(events) {
        assert n in order;
        var i :| 0 <= i < |order| && order[i] == n;
        assert r[i].number == n;
      }
      if n in NumbersOf(r) {
        var i :| 0 <= i < |r| && r[i].number == n;
        assert order[i] in order;
      }
    }
  }

  // ----- Conservation -----

  function AllHits(events: seq<Summary>): seq<EventHits> {
    if events == [] then [] else AllHits(events[..|events| - 1]) + events[|events| - 1].hits
  }

  // The hits of the events with the given numbers.
  function HitsOver(events: seq<Summary>, numbers: seq<int>): seq<EventHits> {
    if numbers == [] then []
    else HitsOver(events, numbers[..|numbers| - 1]) + HitsOf(events, numbers[|numbers| - 1])
  }

  lemma {:induction false} OneMoreEvent(events: seq<Summary>, k: nat, numbers: seq<int>)
    requires k < |events| && Ascending(numbers)
    ensures multiset(HitsOver(events[..k + 1], numbers)) ==
      multiset(HitsOver(events[..k], numbers)) +
      (if events[k].number in numbers then multiset(events[k].hits) else multiset{})
    decreases |numbers|
  {
    if numbers != [] {
      hide HitsOf;
      var front, last := numbers[..|numbers| - 1], numbers[|numbers| - 1];
      assert numbers == front + [last];
      OneMoreEvent(events, k, front);
      HitsOfNext(events, k, last);
    }
  }

  lemma {:induction false} NothingOver(numbers: seq<int>)
    ensures HitsOver([], numbers) == []
  {
    if numbers != [] { NothingOver(numbers[..|numbers| - 1]); }
  }

  lemma {:induction false} HitsGrouped(events: seq<Summary>, k: nat, numbers: seq<int>)
    requires k <= |events| && Ascending(numbers)
    requires forall i :: 0 <= i < |events| ==> events[i].number in numbers
    ensures Permutation(HitsOver(events[..k], numbers), AllHits(events[..k]))
  {
    if k == 0 {
      NothingOver(numbers);
    } else {
      hide HitsOver;
      HitsGrouped(events, k - 1, numbers);
      OneMoreEvent(events, k - 1, numbers);
      assert events[..k][..k - 1] == events[..k - 1];
    }
  }

  lemma {:induction false} AllHitsOver(events: seq<Summary>, order: seq<int>, r: seq<Summary>, k: nat)
    requires |r| == |order| && k <= |order|
    requires forall i :: 0 <= i < |order| ==> r[i] == Summary(order[i], HitsOf(events, order[i]))
    ensures AllHits(r[..k]) == HitsOver(events, order[..k])
  {
    if k > 0 {
      hide HitsOf;
      AllHitsOver(events, order, r, k - 1);
      assert r[..k][..k - 1] == r[..k - 1] && order[..k][..k - 1] == order[..k - 1];
    }
  }

  // Every hit container of the input is found once in the result, and
  // nothing else is.
  lemma HitsConserved(events: seq<Summary>)
    ensures Permutation(AllHits(Consolidated(events)), AllHits(events))
  {
    var r, order := Consolidated(events), InOrder(NumbersOf(events));
    hide InOrder, HitsOf, HitsOver, AllHits;
    forall i | 0 <= i < |events| ensures events[i].number in order {
      assert events[i].number in NumbersOf(events);
    }
    HitsGrouped(events, |events|, order);
    AllHitsOver(events, order, r, |order|);
    assert events[..|events|] == events && r[..|r|] == r && order[..|order|] == order;
  }

  // ----- Banks -----

  lemma HitsOfNothing(left: seq<Summary>, n: int)
    ensures HitsOf([], n) == [] && HitsOf(left, n) + [] == HitsOf(left, n)
  {
  }

  lemma HitsOfLast(left: seq<Summary>, front: seq<Summary>, last: Summary, n: int)
    requires HitsOf(left + front, n) == HitsOf(left, n) + HitsOf(front, n)
    ensures HitsOf(left + front + [last], n) == HitsOf(left, n) + HitsOf(front + [last], n)
  {
    assert (left + front + [last])[..|left + front|] == left + front && (front + [last])[..|front|] == front;
    var hits := if last.number == n then last.hits else [];
    assert HitsOf(left, n) + HitsOf(front, n) + hits == HitsOf(left, n) + (HitsOf(front, n) + hits);
  }

  // Each event holds the hits of the first banks before those of the later
  // ones.
  lemma {:induction false} HitsOfBanks(left: seq<Summary>, right: seq<Summary>, n: int)
    ensures HitsOf(left + right, n) == HitsOf(left, n) + HitsOf(right, n)
  {
    hide HitsOf;
    if right == [] {
      HitsOfNothing(left, n);
      assert left + right == left;
    } else {
      var front, last := right[..|right| - 1], right[|right| - 1];
      HitsOfBanks(left, front, n);
      HitsOfLast(left, front, last, n);
      assert right == front + [last] && left + right == left + front + [last];
    }
  }

  lemma {:induction false} HitsOfPermuted(left: seq<Summary>, right: seq<Summary>, n: int)
    requires Permutation(left, right)
    ensures Permutation(HitsOf(left, n), HitsOf(right, n))
    decreases |left|
  {
    if left == [] {
      PermutationLength(left, right);
    } else {
      var k := PermutationHead(left, right);
      HitsOfPermuted(left[1..], right[..k] + right[k + 1..], n);
      HitsOfBanks([left[0]], left[1..], n);
      assert left == [left[0]] + left[1..];
      HitsOfBanks(right[..k], right[k + 1..], n);
      HitsOfBanks(right[..k] + [left[0]], right[k + 1..], n);
      HitsOfBanks(right[..k], [left[0]], n);
    }
  }

  // The order of the inputs decides only the order of the hits within an
  // event.
  lemma OrderWithinEvents(left: seq<Summary>, right: seq<Summary>)
    requires Permutation(left, right)
    ensures var l, r := Consolidated(left), Consolidated(right);
      && |l| == |r|
      && forall i :: 0 <= i < |l| ==> l[i].number == r[i].number && Permutation(l[i].hits, r[i].hits)
  {
    PermutationMembers(left, right);
    NumbersShared(left, right);
    NumbersShared(right, left);
    assert NumbersOf(left) == NumbersOf(right);
    hide InOrder, HitsOf, NumbersOf;
    forall n ensures Permutation(HitsOf(left, n), HitsOf(right, n)) {
      HitsOfPermuted(left, right, n);
    }
  }

  lemma NumbersShared(left: seq<Summary>, right: seq<Summary>)
    requires forall x :: x in left ==> x in right
    ensures NumbersOf(left) <= NumbersOf(right)
  {
    forall n | n in NumbersOf(left) ensures n in NumbersOf(right) {
      var i :| 0 <= i < |left| && left[i].number == n;
      assert left[i] in right;
    }
  }
}
