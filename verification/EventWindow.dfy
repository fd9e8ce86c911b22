/** Counts of recent events, kept in a queue that is pruned from the front, and lifetime counts. */
module EventWindow {

  const COUNTER_WINDOW_MS := 60_000

  datatype TimedEvent = TimedEvent(event: string, timestamp: int)

  /** How many of the events are named `event` and at most a minute old at `now`. */
  function CountWithin(events: seq<TimedEvent>, event: string, now: int): nat {
    if events == [] then 0
    else
      var last := events[|events| - 1];
      CountWithin(events[..|events| - 1], event, now)
      + if last.event == event && now - last.timestamp <= 60_000 then 1 else 0
  }

  function CountAll(events: seq<TimedEvent>, event: string): nat {
    if events == [] then 0
    else CountAll(events[..|events| - 1], event) + if events[|events| - 1].event == event then 1 else 0
  }

  lemma {:induction false} OldPrefixCountsNothing(events: seq<TimedEvent>, stale: nat, event: string, now: int)
    requires stale <= |events|
    requires forall i :: 0 <= i < stale ==> now - events[i].timestamp > COUNTER_WINDOW_MS
    ensures CountWithin(events, event, now) == CountWithin(events[stale..], event, now)
    decreases |events|
  {
    if |events| == stale {
      if stale > 0 {
        assert events[stale..] == [];
        OldPrefixCountsNothing(events[..stale - 1], stale - 1, event, now);
      }
    } else {
      var front := events[..|events| - 1];
      OldPrefixCountsNothing(front, stale, event, now);
      assert events[stale..][..|events| - stale - 1] == front[stale..];
    }
  }

  lemma {:induction false} AllWithin(events: seq<TimedEvent>, event: string, now: int)
    requires forall i :: 0 <= i < |events| ==> now - events[i].timestamp <= COUNTER_WINDOW_MS
    ensures CountWithin(events, event, now) == CountAll(events, event)
    decreases |events|
  {
    if events == [] {
    } else {
      AllWithin(events[..|events| - 1], event, now);
    }
  }

  ghost predicate Sorted(events: seq<TimedEvent>) {
    forall i, j :: 0 <= i < j < |events| ==> events[i].timestamp <= events[j].timestamp
  }

  // A counter table holds every positive count and nothing else.
  ghost predicate Tallies(counts: map<string, nat>, events: seq<TimedEvent>) {
    && (forall event :: event in counts ==> counts[event] == CountAll(events, event))
    && (forall event :: event !in counts ==> CountAll(events, event) == 0)
  }

  lemma TallyOne(counts: map<string, nat>, events: seq<TimedEvent>, e: TimedEvent)
    requires Tallies(counts, events)
    ensures Tallies(counts[e.event := (if e.event in counts then counts[e.event] else 0) + 1], events + [e])
  {
    assert (events + [e])[..|events|] == events;
  }

  method DropOld(events: seq<TimedEvent>, now: int) returns (window: seq<TimedEvent>)
    ensures |window| <= |events| && window == events[|events| - |window|..]
    ensures forall i :: 0 <= i < |events| - |window| ==> now - events[i].timestamp > COUNTER_WINDOW_MS
    ensures window != [] ==> now - window[0].timestamp <= COUNTER_WINDOW_MS
  {
    window := events;
    while |window| > 0 && now - window[0].timestamp > COUNTER_WINDOW_MS
      invariant |window| <= |events| && window == events[|events| - |window|..]
      invariant forall i :: 0 <= i < |events| - |window| ==> now - events[i].timestamp > COUNTER_WINDOW_MS
      decreases |window|
    {
      window := window[1..];
    }
  }

  method Tally(events: seq<TimedEvent>) returns (counts: map<string, nat>)
    ensures Tallies(counts, events)
  {
    counts := map[];
    for i := 0 to |events|
      invariant Tallies(counts, events[..i])
    {
      var e := events[i];
      TallyOne(counts, events[..i], e);
      assert events[..i + 1] == events[..i] + [e];
      counts := counts[e.event := (if e.event in counts then counts[e.event] else 0) + 1];
    }
    assert events[..|events|] == events;
  }

  /** Dropping an expired front off the window leaves a window of the whole record. */
  lemma PrunedWindow(recorded: seq<TimedEvent>, timed: seq<TimedEvent>, window: seq<TimedEvent>, clock: int, now: int)
    requires clock <= now && Sorted(recorded)
    requires |window| <= |timed| <= |recorded|
    requires timed == recorded[|recorded| - |timed|..] && window == timed[|timed| - |window|..]
    requires forall i :: 0 <= i < |recorded| - |timed| ==> clock - recorded[i].timestamp > COUNTER_WINDOW_MS
    requires forall i :: 0 <= i < |timed| - |window| ==> now - timed[i].timestamp > COUNTER_WINDOW_MS
    requires window != [] ==> now - window[0].timestamp <= COUNTER_WINDOW_MS
    ensures window == recorded[|recorded| - |window|..]
    ensures forall i :: 0 <= i < |recorded| - |window| ==> now - recorded[i].timestamp > COUNTER_WINDOW_MS
    ensures forall i :: 0 <= i < |window| ==> now - window[i].timestamp <= COUNTER_WINDOW_MS
  {
    var kept, shift := |recorded| - |window|, |recorded| - |timed|;
    assert forall k :: 0 <= k < |window| ==> window[k] == recorded[kept + k];
    assert forall i :: shift <= i < kept ==> recorded[i] == timed[i - shift];
    assert forall k :: 0 <= k < |window| ==> window[0].timestamp <= window[k].timestamp;
  }

  class EventCounters {
    var timedEvents: seq<TimedEvent>
    var lifetimeEventCounts: map<string, nat>
    ghost var recorded: seq<TimedEvent>
    ghost var clock: int

    ghost predicate Valid()
      reads this
    {
      && |timedEvents| <= |recorded|
      && timedEvents == recorded[|recorded| - |timedEvents|..]
      && (forall i :: 0 <= i < |recorded| - |timedEvents| ==> clock - recorded[i].timestamp > COUNTER_WINDOW_MS)
      && Sorted(recorded)
      && (forall i :: 0 <= i < |recorded| ==> recorded[i].timestamp <= clock)
      && Tallies(lifetimeEventCounts, recorded)
    }

    constructor (ghost now: int)
      ensures Valid() && recorded == [] && clock == now
    {
      timedEvents, lifetimeEventCounts, recorded, clock := [], map[], [], now;
    }

    method PruneEvents(now: int)
      requires Valid() && clock <= now
      modifies this
      ensures Valid() && clock == now && recorded == old(recorded)
      ensures lifetimeEventCounts == old(lifetimeEventCounts)
      ensures forall i :: 0 <= i < |timedEvents| ==> now - timedEvents[i].timestamp <= COUNTER_WINDOW_MS
    {
      hide Tallies, Sorted;
      var window := DropOld(timedEvents, now);
      PrunedWindow(recorded, timedEvents, window, clock, now);
      timedEvents := window;
      clock := now;
    }

    method RecordEvent(event: string, timestamp: int)
      requires Valid() && clock <= timestamp
      modifies this
      ensures Valid() && clock == timestamp
      ensures recorded == old(recorded) + [TimedEvent(event, timestamp)]
    {
      var e := TimedEvent(event, timestamp);
      TallyOne(lifetimeEventCounts, recorded, e);
      hide Tallies;
      timedEvents := timedEvents + [e];
      recorded := recorded + [e];
      lifetimeEventCounts := lifetimeEventCounts[event := (if event in lifetimeEventCounts then lifetimeEventCounts[event] else 0) + 1];
      clock := timestamp;
      PruneEvents(timestamp);
    }

    // The answer of a history that never forgot an event.
    method GetRecentEventCounts(now: int) returns (counts: map<string, nat>)
      requires Valid() && clock <= now
      modifies this
      ensures Valid() && clock == now && recorded == old(recorded)
      ensures forall event :: event in counts ==> counts[event] == CountWithin(recorded, event, now)
      ensures forall event :: event !in counts ==> CountWithin(recorded, event, now) == 0
    {
      PruneEvents(now);
      counts := Tally(timedEvents);
      forall event ensures CountWithin(recorded, event, now) == CountAll(timedEvents, event) {
        OldPrefixCountsNothing(recorded, |recorded| - |timedEvents|, event, now);
        AllWithin(timedEvents, event, now);
      }
    }
  }
}
