/**
 * Keyboard and mouse focus (`util/focus.rs`): at most one widget, named by
 * a `FocusID` handed out by the manager, is focused at a time. Tab moves the
 * focus forward through the ids, shift+tab backwards, and the mouse focuses
 * the widget it moves over.
 */
module Focus {
  import opened Wrappers
  import opened Sdl
  import opened Rects
  import opened Events

  type FocusId = nat

  /** The id `set_next_focused` moves to: the first id, or the next one wrapping to 0. */
  function NextFocus(current: Option<nat>, nextAvailable: nat): (r: nat)
    ensures nextAvailable > 0 ==> r < nextAvailable
    ensures current.None? ==> r == 0
    ensures current.Some? && current.value + 1 < nextAvailable ==> r == current.value + 1
    ensures current.Some? && current.value + 1 >= nextAvailable ==> r == 0
  {
    match current
    case None => 0
    case Some(v) => if v + 1 >= nextAvailable then 0 else v + 1
  }

  /**
   * The id `set_previous_focused` moves to: the last issued id, or the
   * previous one wrapping to the last.
   */
  function PreviousFocus(current: Option<nat>, nextAvailable: nat): (r: nat)
    ensures nextAvailable > 0 ==> (current.None? || current.value < nextAvailable ==> r < nextAvailable)
    ensures current.None? ==> r == LastId(nextAvailable)
    ensures current.Some? && current.value > 0 ==> r == current.value - 1
    ensures current.Some? && current.value == 0 ==> r == LastId(nextAvailable)
  {
    match current
    case None => LastId(nextAvailable)
    case Some(v) => if v == 0 then LastId(nextAvailable) else v - 1
  }

  /** `next_available.checked_sub(1).unwrap_or(0)`. */
  function LastId(nextAvailable: nat): nat
  {
    if nextAvailable == 0 then 0 else nextAvailable - 1
  }

  /** Tab then shift+tab returns to the widget that had the focus. */
  lemma PreviousUndoesNext(v: nat, nextAvailable: nat)
    requires v < nextAvailable
    ensures PreviousFocus(Some(NextFocus(Some(v), nextAvailable)), nextAvailable) == v
  {
  }

  /** Shift+tab then tab returns to the widget that had the focus. */
  lemma NextUndoesPrevious(v: nat, nextAvailable: nat)
    requires v < nextAvailable
    ensures NextFocus(Some(PreviousFocus(Some(v), nextAvailable)), nextAvailable) == v
  {
  }

  /** Pressing tab `k` times from id `v`. */
  function TabTimes(v: nat, nextAvailable: nat, k: nat): nat
  {
    if k == 0 then v else NextFocus(Some(TabTimes(v, nextAvailable, k - 1)), nextAvailable)
  }

  /**
   * Tab visits the ids in increasing order and, after the last issued id,
   * starts again at 0.
   */
  lemma {:induction false} TabTimesCycles(v: nat, nextAvailable: nat, k: nat)
    requires v + k <= nextAvailable
    ensures v + k < nextAvailable ==> TabTimes(v, nextAvailable, k) == v + k
    ensures k > 0 && v + k == nextAvailable ==> TabTimes(v, nextAvailable, k) == 0
  {
    if k > 0 {
      TabTimesCycles(v, nextAvailable, k - 1);
    }
  }

  /** `FocusManager`: the id counter and the currently focused id. */
  class FocusManager {
    var nextAvailable: nat
    var currentFocus: Option<nat>

    /** `Default`: no ids issued, nothing focused. */
    constructor ()
      ensures nextAvailable == 0 && currentFocus == None
    {
      nextAvailable := 0;
      currentFocus := None;
    }

    /** `clear`: forget every issued id and the focus. */
    method Clear()
      modifies this
      ensures nextAvailable == 0 && currentFocus == None
    {
      nextAvailable := 0;
      currentFocus := None;
    }

    /** `next_available_id`: a new id, distinct from every id issued before. */
    method NextAvailableId() returns (id: FocusId)
      modifies this
      ensures id == old(nextAvailable) && nextAvailable == old(nextAvailable) + 1
      ensures currentFocus == old(currentFocus)
    {
      id := nextAvailable;
      nextAvailable := nextAvailable + 1;
    }

    predicate IsFocused(id: FocusId)
      reads this
    {
      currentFocus == Some(id)
    }

    /** `set_focus`: this id, and no other, is focused. */
    method SetFocus(id: FocusId)
      modifies this
      ensures IsFocused(id) && forall other: FocusId :: other != id ==> !IsFocused(other)
      ensures nextAvailable == old(nextAvailable)
    {
      currentFocus := Some(id);
    }

    /** `unfocus`: drop the focus only if this id holds it. */
    method Unfocus(id: FocusId)
      modifies this
      ensures !IsFocused(id)
      ensures old(IsFocused(id)) ==> currentFocus == None
      ensures !old(IsFocused(id)) ==> currentFocus == old(currentFocus)
      ensures nextAvailable == old(nextAvailable)
    {
      if IsFocused(id) {
        currentFocus := None;
      }
    }

    method SetNextFocused()
      modifies this
      ensures currentFocus == Some(NextFocus(old(currentFocus), nextAvailable))
      ensures nextAvailable == old(nextAvailable)
    {
      var v := NextFocus(currentFocus, nextAvailable);
      currentFocus := Some(v);
    }

    method SetPreviousFocused()
      modifies this
      ensures currentFocus == Some(PreviousFocus(old(currentFocus), nextAvailable))
      ensures nextAvailable == old(nextAvailable)
    {
      var v := PreviousFocus(currentFocus, nextAvailable);
      currentFocus := Some(v);
    }

    /**
     * `default_start_focus_behavior`: when nothing is focused, every
     * available tab press (without repeat) is consumed and moves the focus.
     */
    method DefaultStartFocusBehavior(events: array<SdlEvent>)
      modifies this, events
      ensures nextAvailable == old(nextAvailable)
      ensures old(currentFocus).Some? ==> currentFocus == old(currentFocus) && events[..] == old(events[..])
      ensures old(currentFocus).None? ==>
        (events[..], currentFocus) == StartFocusRun(old(events[..]), None, nextAvailable)
    {
      if currentFocus.Some? {
        return;
      }
      ghost var orig := events[..];
      var i := 0;
      while i < events.Length
        invariant 0 <= i <= events.Length
        invariant nextAvailable == old(nextAvailable)
        invariant (events[..i], currentFocus) == StartFocusRun(orig[..i], None, nextAvailable)
        invariant forall j :: i <= j < events.Length ==> events[j] == orig[j]
      {
        var ev := events[i];
        StartFocusRunSnoc(orig, i, nextAvailable);
        if ev.Available() && IsTabPress(ev.e) {
          events[i] := ev.MarkConsumed();
          if ev.e.keymod.Shift() {
            SetPreviousFocused();
          } else {
            SetNextFocused();
          }
        }
        assert events[..i + 1] == events[..i] + [events[i]];
        i := i + 1;
      }
      assert events[..] == events[..i];
      assert orig == orig[..i];
    }
  }

  /** A tab key press that is not a key repeat. */
  predicate IsTabPress(e: Event)
  {
    e.KeyDown? && !e.repeat && e.key == Tab
  }

  /** One event of `default_start_focus_behavior`. */
  function StartFocusStep(ev: SdlEvent, focus: Option<nat>, nextAvailable: nat): (SdlEvent, Option<nat>)
  {
    if ev.Available() && IsTabPress(ev.e) then
      var next: nat := if ev.e.keymod.Shift() then PreviousFocus(focus, nextAvailable) else NextFocus(focus, nextAvailable);
      (ev.MarkConsumed(), Some(next))
    else (ev, focus)
  }

  /** `default_start_focus_behavior` over a frame's events, in order. */
  function StartFocusRun(evs: seq<SdlEvent>, focus: Option<nat>, nextAvailable: nat): (seq<SdlEvent>, Option<nat>)
  {
    if |evs| == 0 then ([], focus)
    else
      var (done, f) := StartFocusRun(evs[..|evs| - 1], focus, nextAvailable);
      var (ev, f') := StartFocusStep(evs[|evs| - 1], f, nextAvailable);
      (done + [ev], f')
  }

  /** `StartFocusRun` over one more event is one more `StartFocusStep`. */
  lemma StartFocusRunSnoc(evs: seq<SdlEvent>, i: nat, nextAvailable: nat)
    requires i < |evs|
    ensures StartFocusRun(evs[..i + 1], None, nextAvailable) ==
      var (done, f) := StartFocusRun(evs[..i], None, nextAvailable);
      var (ev, f') := StartFocusStep(evs[i], f, nextAvailable);
      (done + [ev], f')
  {
    assert evs[..i + 1][..i] == evs[..i];
  }

  /**
   * Starting focus consumes exactly the available tab presses, changes no
   * event, and once any tab press was seen the focus is a valid id.
   */
  lemma {:induction false} StartFocusRunFacts(evs: seq<SdlEvent>, nextAvailable: nat)
    ensures var (out, f) := StartFocusRun(evs, None, nextAvailable);
      |out| == |evs| &&
      (forall k :: 0 <= k < |evs| ==>
        out[k].e == evs[k].e &&
        out[k].Consumed() == (evs[k].Consumed() || IsTabPress(evs[k].e))) &&
      (f.Some? <==> exists k :: 0 <= k < |evs| && evs[k].Available() && IsTabPress(evs[k].e)) &&
      (f.Some? && nextAvailable > 0 ==> f.value < nextAvailable)
  {
    if |evs| > 0 {
      var init := evs[..|evs| - 1];
      StartFocusRunFacts(init, nextAvailable);
      var (done, f) := StartFocusRun(init, None, nextAvailable);
      var last := evs[|evs| - 1];
      if last.Available() && IsTabPress(last.e) {
        assert evs[|evs| - 1] == last;
      } else {
        var (out, f') := StartFocusRun(evs, None, nextAvailable);
        assert f' == f;
        if f'.Some? {
          var k :| 0 <= k < |init| && init[k].Available() && IsTabPress(init[k].e);
          assert evs[k] == init[k];
        }
        if exists k :: 0 <= k < |evs| && evs[k].Available() && IsTabPress(evs[k].e) {
          var k :| 0 <= k < |evs| && evs[k].Available() && IsTabPress(evs[k].e);
          assert k < |init| && init[k] == evs[k];
        }
      }
    }
  }

  /** The frame's event rules for a widget's own focus: `default_widget_focus_behavior`. */
  function WidgetFocusStep(myId: FocusId, position: Option<Rect>, clip: ClippingRect,
                           ev: SdlEvent, focus: Option<nat>, nextAvailable: nat): (SdlEvent, Option<nat>)
  {
    match ev.e
    case MouseMotion(_, x, y) =>
      var hasPoint := ev.Available() && position.Some? &&
        ContainsPoint(position.value, x, y) && ClipContainsPoint(clip, x, y);
      if hasPoint then (ev, Some(myId))
      else if focus == Some(myId) then (ev, None)
      else (ev, focus)
    case KeyDown(key, repeat, keymod, _) =>
      if repeat || key != Tab || ev.Consumed() || focus != Some(myId) then (ev, focus)
      else
        var next: nat := if keymod.Shift() then PreviousFocus(focus, nextAvailable) else NextFocus(focus, nextAvailable);
        (ev.MarkConsumed(), Some(next))
    case _ => (ev, focus)
  }

  function WidgetFocusRun(myId: FocusId, position: Option<Rect>, clip: ClippingRect,
                          evs: seq<SdlEvent>, focus: Option<nat>, nextAvailable: nat): (seq<SdlEvent>, Option<nat>)
  {
    if |evs| == 0 then ([], focus)
    else
      var (done, f) := WidgetFocusRun(myId, position, clip, evs[..|evs| - 1], focus, nextAvailable);
      var (ev, f') := WidgetFocusStep(myId, position, clip, evs[|evs| - 1], f, nextAvailable);
      (done + [ev], f')
  }

  /**
   * A widget's focus rules only consume tab presses, and only while that
   * widget holds the focus; no event is altered otherwise.
   */
  lemma {:induction false} WidgetFocusRunConsumesOnlyTabs(myId: FocusId, position: Option<Rect>, clip: ClippingRect,
                                                          evs: seq<SdlEvent>, focus: Option<nat>, nextAvailable: nat)
    ensures var out := WidgetFocusRun(myId, position, clip, evs, focus, nextAvailable).0;
      SameEventsMoreConsumed(evs, out) &&
      forall k :: 0 <= k < |evs| && out[k].Consumed() && !evs[k].Consumed() ==> IsTabPress(evs[k].e)
  {
    if |evs| > 0 {
      WidgetFocusRunConsumesOnlyTabs(myId, position, clip, evs[..|evs| - 1], focus, nextAvailable);
    }
  }

  /**
   * The most recent mouse motion decides the widget's mouse focus: over the
   * widget (and visible through the clip) it holds the focus; elsewhere it
   * does not.
   */
  lemma MouseMotionDecidesFocus(myId: FocusId, position: Option<Rect>, clip: ClippingRect,
                                ev: SdlEvent, focus: Option<nat>, nextAvailable: nat)
    requires ev.e.MouseMotion?
    ensures var f := WidgetFocusStep(myId, position, clip, ev, focus, nextAvailable).1;
      f == Some(myId) <==>
        (ev.Available() && position.Some? &&
         ContainsPoint(position.value, ev.e.x, ev.e.y) && ClipContainsPoint(clip, ev.e.x, ev.e.y))
  {
  }

  /** The modifies frame of an optional focus manager. */
  function ManagerFrame(fm: Option<FocusManager>): set<object>
  {
    if fm.Some? then {fm.value} else {}
  }

  /** The focus an optional manager holds; none without a manager. */
  function FocusOf(fm: Option<FocusManager>): Option<nat>
    reads ManagerFrame(fm)
  {
    if fm.Some? then fm.value.currentFocus else None
  }

  function NextAvailableOf(fm: Option<FocusManager>): nat
    reads ManagerFrame(fm)
  {
    if fm.Some? then fm.value.nextAvailable else 0
  }

  /**
   * `default_widget_focus_behavior` on every event of the frame; without a
   * focus manager nothing happens.
   */
  method DefaultWidgetFocusBehavior(myId: FocusId, fm: Option<FocusManager>, position: Option<FRect>,
                                    clip: ClippingRect, events: array<SdlEvent>)
    modifies events, ManagerFrame(fm)
    ensures fm.None? ==> events[..] == old(events[..])
    ensures fm.Some? ==>
      fm.value.nextAvailable == old(fm.value.nextAvailable) &&
      (events[..], fm.value.currentFocus) ==
        WidgetFocusRun(myId, ToRectOpt(position), clip, old(events[..]), old(fm.value.currentFocus), fm.value.nextAvailable)
  {
    if fm.None? {
      return;
    }
    var manager := fm.value;
    var rect := ToRectOpt(position);
    ghost var orig, f0 := events[..], manager.currentFocus;
    var i := 0;
    while i < events.Length
      invariant 0 <= i <= events.Length
      invariant manager.nextAvailable == old(manager.nextAvailable)
      invariant (events[..i], manager.currentFocus) == WidgetFocusRun(myId, rect, clip, orig[..i], f0, manager.nextAvailable)
      invariant forall j :: i <= j < events.Length ==> events[j] == orig[j]
    {
      WidgetFocusRunSnoc(myId, rect, clip, orig, i, f0, manager.nextAvailable);
      WidgetFocusEvent(myId, manager, rect, clip, events, i);
      assert events[..i + 1] == events[..i] + [events[i]];
      i := i + 1;
    }
    assert events[..] == events[..i] && orig == orig[..i];
  }

  /** `WidgetFocusRun` over one more event is one more `WidgetFocusStep`. */
  lemma WidgetFocusRunSnoc(myId: FocusId, position: Option<Rect>, clip: ClippingRect,
                           evs: seq<SdlEvent>, i: nat, focus: Option<nat>, nextAvailable: nat)
    requires i < |evs|
    ensures WidgetFocusRun(myId, position, clip, evs[..i + 1], focus, nextAvailable) ==
      var (done, f) := WidgetFocusRun(myId, position, clip, evs[..i], focus, nextAvailable);
      var (ev, f') := WidgetFocusStep(myId, position, clip, evs[i], f, nextAvailable);
      (done + [ev], f')
  {
    assert evs[..i + 1][..i] == evs[..i];
  }

  /** The body of `default_widget_focus_behavior` for the `i`-th event. */
  method WidgetFocusEvent(myId: FocusId, manager: FocusManager, rect: Option<Rect>, clip: ClippingRect,
                          events: array<SdlEvent>, i: nat)
    requires i < events.Length
    modifies events, manager
    ensures manager.nextAvailable == old(manager.nextAvailable)
    ensures var (ev, f) := WidgetFocusStep(myId, rect, clip, old(events[i]), old(manager.currentFocus), manager.nextAvailable);
      events[..] == old(events[..])[i := ev] && manager.currentFocus == f
  {
    var ev := events[i];
    match ev.e {
      case MouseMotion(_, x, y) =>
        var hasPoint := false;
        if ev.Available() {
          if rect.Some? {
            if ContainsPoint(rect.value, x, y) && ClipContainsPoint(clip, x, y) {
              hasPoint := true;
            }
          }
        }
        if hasPoint {
          manager.SetFocus(myId);
        } else {
          manager.Unfocus(myId);
        }
      case KeyDown(key, repeat, keymod, _) =>
        if !repeat && key == Tab && !ev.Consumed() && manager.IsFocused(myId) {
          events[i] := ev.MarkConsumed();
          if keymod.Shift() {
            manager.SetPreviousFocused();
          } else {
            manager.SetNextFocused();
          }
        }
      case _ =>
    }
  }
}
