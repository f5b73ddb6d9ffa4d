/**
 * The update-side widget interface of `widget/mod.rs`: events whose
 * consumption distinguishes plain widgets from layouts, the update event
 * (which always carries a position and the clip that drawing will use), and
 * the `place` variant that honours `preferred_link_allowed_exceed_portion`.
 */
module WidgetMod {
  import opened Wrappers
  import opened Sdl
  import opened Rects
  import opened Length
  import opened Sizing
  import opened Focus
  import Widget

  /**
   * Who consumed an event. A layout (such as a nested scroller) may still use
   * an event a plain widget consumed; nothing uses one a layout consumed.
   */
  datatype ConsumedStatus = NotConsumed | ConsumedByWidget | ConsumedByLayout

  datatype SdlEvent = SdlEvent(e: Event, consumedStatus: ConsumedStatus)
  {
    predicate Consumed() { consumedStatus != NotConsumed }

    predicate Available() { !Consumed() }

    /** `set_consumed` on a copy: the same event, taken by a plain widget. */
    function MarkConsumed(): (r: SdlEvent)
      ensures r.Consumed() && r.consumedStatus == ConsumedByWidget && r.e == e
    {
      this.(consumedStatus := ConsumedByWidget)
    }
  }

  /** `SDLEvent::new`. */
  function NewEvent(e: Event): (r: SdlEvent)
    ensures r.Available() && r.e == e
  {
    SdlEvent(e, NotConsumed)
  }

  /** `set_consumed`: a plain widget takes an event nobody has taken yet. */
  method SetConsumed(events: array<SdlEvent>, i: nat)
    requires i < events.Length
    requires events[i].consumedStatus == NotConsumed
    modifies events
    ensures events[..] == old(events[..])[i := old(events[i]).MarkConsumed()]
    ensures events[i].Consumed()
  {
    events[i] := events[i].MarkConsumed();
  }

  /** `set_consumed_by_layout`: a layout takes an event no layout has taken yet. */
  method SetConsumedByLayout(events: array<SdlEvent>, i: nat)
    requires i < events.Length
    requires events[i].consumedStatus != ConsumedByLayout
    modifies events
    ensures events[..] == old(events[..])[i := SdlEvent(old(events[i]).e, ConsumedByLayout)]
    ensures events[i].Consumed()
  {
    events[i] := SdlEvent(events[i].e, ConsumedByLayout);
  }

  /** `WidgetUpdateEvent`. */
  datatype WidgetUpdateEvent = WidgetUpdateEvent(
    focusManager: Option<FocusManager>,
    position: FRect,
    clippingRect: ClippingRect,
    windowId: nat,
    aspectRatioPriority: AspectRatioPreferredDirection,
    events: array<SdlEvent>)
  {
    /** `sub_event`: the same event at another position. */
    function SubEvent(p: FRect): (r: WidgetUpdateEvent)
      ensures r.position == p
      ensures r.focusManager == focusManager && r.clippingRect == clippingRect && r.windowId == windowId
      ensures r.aspectRatioPriority == aspectRatioPriority && r.events == events
    {
      this.(position := p)
    }

    function Dup(): (r: WidgetUpdateEvent)
      ensures r == this
    {
      SubEvent(position)
    }
  }

  /**
   * `place` of `widget/mod.rs`: like the one in `widget/widget.rs`, except
   * that a linked length may exceed its portion when the widget allows it,
   * and a zero-length rectangle is still returned.
   */
  function Place(s: Sizing, parent: FRect, priority: AspectRatioPreferredDirection): (r: FRect)
    ensures (r.w, r.h) == Widget.PlacedSize(s, parent, priority, s.linkExceed)
    ensures r.x == parent.x + Length.Place(r.w, parent.w, s.minWFail, s.maxWFail)
    ensures r.y == parent.y + Length.Place(r.h, parent.h, s.minHFail, s.maxHFail)
  {
    var (w, h) := Widget.PlacedSize(s, parent, priority, s.linkExceed);
    FRect(parent.x + Length.Place(w, parent.w, s.minWFail, s.maxWFail),
          parent.y + Length.Place(h, parent.h, s.minHFail, s.maxHFail), w, h)
  }

  /**
   * The two `place` functions agree whenever the widget does not ask to
   * exceed its portion and the result has area.
   */
  lemma PlaceAgreesWithWidgetPlace(s: Sizing, parent: FRect, priority: AspectRatioPreferredDirection)
    requires !s.linkExceed
    ensures Widget.Place(s, parent, priority).Some? ==> Widget.Place(s, parent, priority).value == Place(s, parent, priority)
    ensures Widget.Place(s, parent, priority).None? ==> Place(s, parent, priority).w == 0.0 || Place(s, parent, priority).h == 0.0
  {
  }

  /**
   * Allowing a derived length to exceed its portion never makes it shorter,
   * and leaves the other length alone.
   */
  lemma ExceedNeverShrinks(s: Sizing, parent: FRect, priority: AspectRatioPreferredDirection)
    ensures var strict := Widget.PlacedSize(s, parent, priority, false);
      var lax := Widget.PlacedSize(s, parent, priority, true);
      (priority == WidthFromHeight ==> lax.0 >= strict.0 && lax.1 == strict.1) &&
      (priority == HeightFromWidth ==> lax.1 >= strict.1 && lax.0 == strict.0)
  {
  }

  /**
   * `update_gui`: the root widget's event, placed in the whole window, with
   * no clipping.
   */
  function UpdateGuiEvent(root: Sizing, outputSize: Option<(nat, nat)>, fm: Option<FocusManager>,
                          events: array<SdlEvent>, windowId: nat): (r: WidgetUpdateEvent)
    ensures var (w, h) := Widget.WindowSize(outputSize);
      r.position == Place(root, FRect(0.0, 0.0, w as real, h as real), DEFAULT_DIRECTION)
    ensures r.clippingRect == ClipNone && r.aspectRatioPriority == WidthFromHeight
    ensures r.focusManager == fm && r.events == events && r.windowId == windowId
  {
    var (w, h) := Widget.WindowSize(outputSize);
    WidgetUpdateEvent(fm, Place(root, FRect(0.0, 0.0, w as real, h as real), DEFAULT_DIRECTION),
                      ClipNone, windowId, DEFAULT_DIRECTION, events)
  }
}
