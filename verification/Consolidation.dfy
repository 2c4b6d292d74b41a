// The end of EvioEventParser::parse: PhysicsEvents with the same number are
// merged, and the result is ordered by number.
module Consolidation {
  import opened Common
  import opened HitTypes
  import opened PhysicsEvents

  // ----- What consolidation is for -----

  function NumbersOf(events: seq<Summary>): (r: set<int>)
    ensures forall n :: n in r <==> exists i :: 0 <= i < |events| && events[i].number == n
  {
    set i | 0 <= i < |events| :: events[i].number
  }

  // The hit containers of every event with the given number, in order.
  function HitsOf(events: seq<Summary>, n: int): seq<EventHits> {
    if events == [] then []
    else
      var last := events[|events| - 1];
      HitsOf(events[..|events| - 1], n) + if last.number == n then last.hits else []
  }

  function Consolidated(events: seq<Summary>): (r: seq<Summary>)
    ensures |r| == |NumbersOf(events)|
  {
    var order := InOrder(NumbersOf(events));
    seq(|order|, i requires 0 <= i < |order| => Summary(order[i], HitsOf(events, order[i])))
  }

  // ----- The merge -----

  // What the map holds once the given events, whose state was `before`, have
  // been met.
  ghost predicate Merged(eventMap: map<int, PhysicsEvent>, before: seq<Summary>, events: seq<PhysicsEvent>)
    reads events
  {
    && eventMap.Keys == NumbersOf(before)
    && (forall n :: n in eventMap ==> eventMap[n] in events)
    && (forall n :: n in eventMap ==> eventMap[n].eventNum == n && eventMap[n].hitsList == HitsOf(before, n))
  }

  predicate Held(eventMap: map<int, PhysicsEvent>, e: PhysicsEvent)
    reads e`eventNum
  {
    e.eventNum in eventMap && eventMap[e.eventNum] == e
  }

  // Every event met so far is either in the map or deleted, and only once.
  ghost predicate Partitioned(eventMap: map<int, PhysicsEvent>, deleted: seq<PhysicsEvent>, events: seq<PhysicsEvent>)
    reads set e | e in events :: e`eventNum
  {
    && NoRepeats(deleted)
    && (forall e :: e in deleted ==> e in events)
    && (forall e :: e in events ==> (e in deleted <==> !Held(eventMap, e)))
  }

  lemma HitsOfNext(events: seq<Summary>, i: nat, n: int)
    requires i < |events|
    ensures HitsOf(events[..i + 1], n) ==
      HitsOf(events[..i], n) + if events[i].number == n then events[i].hits else []
    ensures NumbersOf(events[..i + 1]) == NumbersOf(events[..i]) + {events[i].number}
  {
    var now, before := events[..i + 1], events[..i];
    assert now[..i] == before;
    forall m ensures m in NumbersOf(now) <==> m in NumbersOf(before) + {events[i].number} {
      if m in NumbersOf(before) {
        var j :| 0 <= j < |before| && before[j].number == m;
        assert now[j].number == m;
      }
      if m == events[i].number {
        assert now[i].number == m;
      }
      if m in NumbersOf(now) && m != events[i].number {
        var j :| 0 <= j < |now| && now[j].number == m;
        assert before[j].number == m;
      }
    }
  }

  lemma {:induction false} NoHitsOf(events: seq<Summary>, n: int)
    requires n !in NumbersOf(events)
    ensures HitsOf(events, n) == []
  {
    if events != [] {
      var k := |events| - 1;
      assert events[..k + 1] == events;
      HitsOfNext(events, k, n);
      NoHitsOf(events[..k], n);
    }
  }

  // The hits of each number once one more event has been met.
  ghost predicate OneMore(before: seq<Summary>, all: seq<Summary>, n: int, hits: seq<EventHits>) {
    && NumbersOf(all) == NumbersOf(before) + {n}
    && HitsOf(all, n) == HitsOf(before, n) + hits
    && forall m :: m != n ==> HitsOf(all, m) == HitsOf(before, m)
  }

  lemma OneMoreHits(before: seq<Summary>, event: Summary)
    ensures OneMore(before, before + [event], event.number, event.hits)
  {
    hide HitsOf, NumbersOf;
    var all, k := before + [event], |before|;
    assert all[..k] == before && all[..k + 1] == all;
    HitsOfNext(all, k, event.number);
    forall m | m != event.number ensures HitsOf(all, m) == HitsOf(before, m) {
      HitsOfNext(all, k, m);
      assert HitsOf(before, m) + [] == HitsOf(before, m);
    }
  }

  // One event of the input: kept under its number, or merged and deleted.
  method MergeEvent(event: PhysicsEvent, eventMap: map<int, PhysicsEvent>, deleted: seq<PhysicsEvent>,
                    ghost before: seq<Summary>, ghost events: seq<PhysicsEvent>)
    returns (r: map<int, PhysicsEvent>, gone: seq<PhysicsEvent>)
    requires event !in events && Merged(eventMap, before, events) && Partitioned(eventMap, deleted, events)
    modifies event`hitsList, (set e | e in events)`hitsList
    ensures Merged(r, before + [old(Summary(event.eventNum, event.hitsList))], events + [event])
    ensures Partitioned(r, gone, events + [event])
    ensures forall e :: e in gone ==> e in deleted || e.hitsList == []
    ensures forall e :: e in deleted ==> unchanged(e)
  {
    hide Merged, Partitioned;
    if event.eventNum in eventMap {
      MergeInto(event, eventMap, deleted, before, events);
      r, gone := eventMap, deleted + [event];
    } else {
      r := KeepEvent(event, eventMap, deleted, before, events);
      gone := deleted;
    }
  }

  method MergeInto(event: PhysicsEvent, eventMap: map<int, PhysicsEvent>, ghost deleted: seq<PhysicsEvent>,
                   ghost before: seq<Summary>, ghost events: seq<PhysicsEvent>)
    requires event !in events && Merged(eventMap, before, events) && Partitioned(eventMap, deleted, events)
    requires event.eventNum in eventMap
    modifies event`hitsList, (set e | e in events)`hitsList
    ensures Merged(eventMap, before + [old(Summary(event.eventNum, event.hitsList))], events + [event])
    ensures Partitioned(eventMap, deleted + [event], events + [event])
    ensures event.hitsList == [] && forall e :: e in deleted ==> unchanged(e)
  {
    OneMoreHits(before, Summary(event.eventNum, event.hitsList));
    hide HitsOf, NumbersOf;
    assert forall e :: e in deleted ==> e != eventMap[event.eventNum];
    event.InsertHitsInto(eventMap[event.eventNum]);
  }

  method KeepEvent(event: PhysicsEvent, eventMap: map<int, PhysicsEvent>, ghost deleted: seq<PhysicsEvent>,
                   ghost before: seq<Summary>, ghost events: seq<PhysicsEvent>)
    returns (r: map<int, PhysicsEvent>)
    requires event !in events && Merged(eventMap, before, events) && Partitioned(eventMap, deleted, events)
    requires event.eventNum !in eventMap
    ensures Merged(r, before + [Summary(event.eventNum, event.hitsList)], events + [event])
    ensures Partitioned(r, deleted, events + [event])
  {
    OneMoreHits(before, Summary(event.eventNum, event.hitsList));
    NoHitsOf(before, event.eventNum);
    hide HitsOf, NumbersOf;
    r := eventMap[event.eventNum := event];
  }

  // The events of the input not reached yet are as they were.
  twostate predicate Untouched(events: seq<PhysicsEvent>, i: nat)
    reads events
  {
    forall j :: i <= j < |events| ==> unchanged(events[j])
  }

  // The merging loop and the rebuilding of the list. deleted collects the
  // objects on which delete is called.
  method Consolidate(events: seq<PhysicsEvent>) returns (kept: seq<PhysicsEvent>, deleted: seq<PhysicsEvent>)
    requires NoRepeats(events)
    modifies set e | e in events
    ensures Summaries(kept) == Consolidated(old(Summaries(events)))
    ensures NoRepeats(kept) && NoRepeats(deleted)
    ensures forall e :: e in events <==> e in kept || e in deleted
    ensures forall e :: e in kept ==> e !in deleted
    ensures forall e :: e in deleted ==> e.hitsList == []
  {
    ghost var all := Summaries(events);
    var eventMap: map<int, PhysicsEvent> := map[];
    deleted := [];
    assert all[..0] == [] && events[..0] == [];
    for i := 0 to |events|
      invariant Merged(eventMap, all[..i], events[..i]) && Partitioned(eventMap, deleted, events[..i])
      invariant Untouched(events, i)
      invariant forall e :: e in deleted ==> e.hitsList == []
    {
      var event := events[i];
      assert all[..i + 1] == all[..i] + [all[i]];
      assert events[..i + 1] == events[..i] + [event];
      assert unchanged(event);
      assert event !in events[..i];
      assert forall j :: i < j < |events| ==> events[j] !in events[..i + 1];
      eventMap, deleted := MergeEvent(event, eventMap, deleted, all[..i], events[..i]);
    }
    assert all[..|events|] == all && events[..|events|] == events;
    kept := Rebuild(eventMap, all, events);
  }

  // physics_events.clear() and the loop over the map, which is in ascending
  // order of the numbers.
  method Rebuild(eventMap: map<int, PhysicsEvent>, ghost all: seq<Summary>, ghost events: seq<PhysicsEvent>)
    returns (kept: seq<PhysicsEvent>)
    requires Merged(eventMap, all, events)
    ensures Summaries(kept) == Consolidated(all)
    ensures NoRepeats(kept) && (forall e :: e in kept ==> e in events)
    ensures forall e :: e in events ==> (e in kept <==> Held(eventMap, e))
  {
    var order := Traverse(eventMap.Keys);
    hide InOrder, HitsOf;
    kept := [];
    for i := 0 to |order|
      invariant |kept| == i
      invariant forall j :: 0 <= j < i ==> order[j] in eventMap && kept[j] == eventMap[order[j]]
    {
      assert order[i] in order;
      kept := kept + [eventMap[order[i]]];
    }
    forall e | e in events && Held(eventMap, e) ensures e in kept {
      assert e.eventNum in order;
      var i :| 0 <= i < |order| && order[i] == e.eventNum;
      assert kept[i] == e;
    }
    assert Summaries(kept) == Consolidated(all);
  }
}
