/**
 * An SDL event together with whether a widget has already used it
 * (`SDLEvent` in `widget/widget.rs`). Widgets see the events of a frame as
 * one shared slice and mark the ones they consume.
 */
module Events {
  import opened Sdl

  datatype SdlEvent = SdlEvent(e: Event, consumedStatus: bool)
  {
    predicate Consumed() { consumedStatus }

    predicate Available() { !consumedStatus }

    /** The same event, marked as consumed. */
    function MarkConsumed(): (r: SdlEvent)
      ensures r.Consumed() && !r.Available() && r.e == e
    {
      SdlEvent(e, true)
    }
  }

  /** `SDLEvent::new`: a fresh event is available to every widget. */
  function NewEvent(e: Event): (r: SdlEvent)
    ensures r.Available() && !r.Consumed() && r.e == e
  {
    SdlEvent(e, false)
  }

  /** `set_consumed` on the `i`-th event of the frame; the others are untouched. */
  method SetConsumed(events: array<SdlEvent>, i: nat)
    requires i < events.Length
    modifies events
    ensures events[..] == old(events[..])[i := old(events[i]).MarkConsumed()]
  {
    events[i] := events[i].MarkConsumed();
  }

  /** Consuming only ever adds to the consumed events and never alters an event. */
  predicate SameEventsMoreConsumed(before: seq<SdlEvent>, after: seq<SdlEvent>)
  {
    |before| == |after| &&
    forall k :: 0 <= k < |before| ==>
      after[k].e == before[k].e && (before[k].Consumed() ==> after[k].Consumed())
  }
}
