/**
 * The rate limit of the mouse-move handler. Time is counted in .NET ticks
 * of 100 ns since `DateTime.MinValue`, so "less than 20 ms since the last
 * accepted event" is "less than 200000 ticks".
 */
module Debounce {

  const TicksPerMillisecond: int := 10000

  /** The minimum spacing between two evaluated move events. */
  const DebounceMilliseconds: int := 20

  /** The initial last-move time: `DateTime.MinValue`, tick 0. */
  const MinValueTicks: int := 0

  /** A move event at `now` proceeds when at least 20 ms passed since the last accepted one. */
  predicate Accepts(last: int, now: int)
  {
    now - last >= DebounceMilliseconds * TicksPerMillisecond
  }

  /**
   * The timestamps of the events the handler accepts, out of a series of
   * move events, starting from the last accepted time `last`. An accepted
   * event becomes the new reference; a dropped one changes nothing.
   */
  function AcceptedTimes(last: int, events: seq<int>): seq<int>
    decreases |events|
  {
    if events == [] then []
    else if Accepts(last, events[0]) then [events[0]] + AcceptedTimes(events[0], events[1..])
    else AcceptedTimes(last, events[1..])
  }

  /**
   * Accepted events are pairwise at least 20 ms apart, and each is at least
   * 20 ms after the starting reference, whatever the clock does between events.
   */
  lemma {:induction false} AcceptedTimesSpaced(last: int, events: seq<int>)
    ensures forall j :: 0 <= j < |AcceptedTimes(last, events)| ==> Accepts(last, AcceptedTimes(last, events)[j])
    ensures forall i, j :: 0 <= i < j < |AcceptedTimes(last, events)| ==>
      Accepts(AcceptedTimes(last, events)[i], AcceptedTimes(last, events)[j])
    decreases |events|
  {
    if events != [] {
      var acc := AcceptedTimes(last, events);
      if Accepts(last, events[0]) {
        var rest := AcceptedTimes(events[0], events[1..]);
        AcceptedTimesSpaced(events[0], events[1..]);
        assert acc == [events[0]] + rest;
        assert forall j :: 1 <= j < |acc| ==> acc[j] == rest[j - 1];
      } else {
        var rest := AcceptedTimes(last, events[1..]);
        AcceptedTimesSpaced(last, events[1..]);
        assert acc == rest;
      }
    }
  }

  /**
   * The filter drops only events that come too soon: when every event is at
   * least 20 ms after the one before it (the first after `last`), all of
   * them are accepted.
   */
  lemma {:induction false} SpacedEventsAllAccepted(last: int, events: seq<int>)
    requires events != [] ==> Accepts(last, events[0])
    requires forall j :: 0 < j < |events| ==> Accepts(events[j - 1], events[j])
    ensures AcceptedTimes(last, events) == events
    decreases |events|
  {
    if events != [] {
      SpacedEventsAllAccepted(events[0], events[1..]);
      assert [events[0]] + events[1..] == events;
    }
  }
}
