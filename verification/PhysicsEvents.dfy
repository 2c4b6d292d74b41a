// PhysicsEvent objects and their consolidation by event number.
module PhysicsEvents {
  import opened Common
  import opened HitTypes

  // Conversion of a 64-bit event number to the int that PhysicsEvent stores.
  function ToInt32(n: int): int {
    (n + 0x8000_0000) % 0x1_0000_0000 - 0x8000_0000
  }

  class PhysicsEvent {
    var eventNum: int
    var hitsList: seq<EventHits>

    constructor (eventNum: int, hits: EventHits)
      ensures this.eventNum == eventNum && hitsList == [hits]
    {
      this.eventNum, hitsList := eventNum, [hits];
    }

    method AddHits(hits: EventHits)
      modifies this`hitsList
      ensures hitsList == old(hitsList) + [hits]
    {
      hitsList := hitsList + [hits];
    }

    // Moves every hit container of this event to the end of the other.
    method InsertHitsInto(other: PhysicsEvent)
      requires other != this
      modifies this`hitsList, other`hitsList
      ensures hitsList == []
      ensures other.hitsList == old(other.hitsList) + old(hitsList)
    {
      for i := 0 to |hitsList|
        invariant hitsList == old(hitsList)
        invariant other.hitsList == old(other.hitsList) + hitsList[..i]
      {
        other.AddHits(hitsList[i]);
      }
      hitsList := [];
    }
  }

  // The state of an event as a value.
  datatype Summary = Summary(number: int, hits: seq<EventHits>)

  ghost function Summaries(events: seq<PhysicsEvent>): (r: seq<Summary>)
    reads events
    ensures |r| == |events|
    ensures forall i :: 0 <= i < |events| ==> r[i] == Summary(events[i].eventNum, events[i].hitsList)
  {
    seq(|events|, i requires 0 <= i < |events| reads events => Summary(events[i].eventNum, events[i].hitsList))
  }

  // What a parser publishes: one event per number, in ascending order, each
  // with one container.
  function Publication(order: seq<int>, hits: map<int, EventHits>): (r: seq<Summary>)
    requires forall n :: n in order ==> n in hits
    ensures |r| == |order|
    ensures forall i :: 0 <= i < |order| ==> r[i] == Summary(ToInt32(order[i]), [hits[order[i]]])
  {
    seq(|order|, i requires 0 <= i < |order| => Summary(ToInt32(order[i]), [hits[order[i]]]))
  }

  // The loop that ends every parser: new PhysicsEvent objects appended to
  // those of earlier banks.
  method Publish(hits: map<int, EventHits>, events: seq<PhysicsEvent>) returns (r: seq<PhysicsEvent>)
    ensures |r| >= |events| && r[..|events|] == events
    ensures Summaries(r[|events|..]) == Publication(InOrder(hits.Keys), hits)
    ensures forall i :: |events| <= i < |r| ==> fresh(r[i])
    ensures NoRepeats(r[|events|..])
  {
    var order := Traverse(hits.Keys);
    hide InOrder;
    var published: seq<PhysicsEvent> := [];
    for i := 0 to |order|
      invariant |published| == i && NoRepeats(published)
      invariant forall j :: 0 <= j < i ==> fresh(published[j])
      invariant forall j :: 0 <= j < i ==> order[j] in hits
      invariant forall j :: 0 <= j < i ==> published[j].eventNum == ToInt32(order[j])
      invariant forall j :: 0 <= j < i ==> published[j].hitsList == [hits[order[j]]]
    {
      assert order[i] in order;
      var event := new PhysicsEvent(ToInt32(order[i]), hits[order[i]]);
      published := published + [event];
    }
    assert Summaries(published) == Publication(order, hits);
    r := events + published;
    assert r[|events|..] == published;
  }
}
