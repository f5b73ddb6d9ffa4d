/**
 * `Scroller` (`layout/scroller.rs`): shows its contents shifted by a
 * scroll offset that the application keeps in two cells. Dragging with the
 * left mouse button and turning the wheel over the scroller change the
 * offset, on the enabled axes only.
 */
module Scroller {
  import opened Wrappers
  import opened Sdl
  import opened Rects
  import opened Length
  import opened Events

  /** The scroll offsets (the `scroll_x` / `scroll_y` cells) and the drag in progress. */
  datatype ScrollState = ScrollState(drag: Option<(int, int)>, x: int, y: int)

  /** The lines one wheel notch scrolls by. */
  const WHEEL_STEP: int := 7

  /**
   * One event of the pass before the contents run: while dragging, a mouse
   * motion with the left button held is consumed and moves the offset to
   * the mouse plus the drag difference.
   */
  function DragStep(ev: SdlEvent, s: ScrollState, xEnabled: bool, yEnabled: bool): (r: (SdlEvent, ScrollState))
    ensures r.1.drag == s.drag && r.0.e == ev.e
    ensures (ev.Available() && ev.e.MouseMotion? && ev.e.leftHeld && s.drag.Some?) ==>
      r.0.Consumed() &&
      r.1.x == (if xEnabled then ev.e.x + s.drag.value.0 else s.x) &&
      r.1.y == (if yEnabled then ev.e.y + s.drag.value.1 else s.y)
    ensures !(ev.Available() && ev.e.MouseMotion? && ev.e.leftHeld && s.drag.Some?) ==> r == (ev, s)
  {
    if ev.Available() && ev.e.MouseMotion? && ev.e.leftHeld && s.drag.Some? then
      var (dx, dy) := s.drag.value;
      (ev.MarkConsumed(),
       s.(x := if xEnabled then ev.e.x + dx else s.x, y := if yEnabled then ev.e.y + dy else s.y))
    else (ev, s)
  }

  function DragRun(evs: seq<SdlEvent>, s: ScrollState, xEnabled: bool, yEnabled: bool): (seq<SdlEvent>, ScrollState)
  {
    if |evs| == 0 then ([], s)
    else
      var (done, s') := DragRun(evs[..|evs| - 1], s, xEnabled, yEnabled);
      var (ev, s'') := DragStep(evs[|evs| - 1], s', xEnabled, yEnabled);
      (done + [ev], s'')
  }

  /**
   * One event of the pass after the contents ran. `rect` is the
   * scroller's own rectangle and (`startX`, `startY`) the offset at the
   * start of the frame: a left press on the rectangle starts a drag from
   * there, a left release anywhere ends it, and a wheel turn over the
   * rectangle is consumed and sets the offset from the frame's start.
   */
  function PressStep(ev: SdlEvent, rect: Option<Rect>, startX: int, startY: int, s: ScrollState,
                     xEnabled: bool, yEnabled: bool): (r: (SdlEvent, ScrollState))
    ensures r.0.e == ev.e && (ev.Consumed() ==> r.0.Consumed())
    ensures ev.Consumed() ==> r == (ev, s)
    ensures ev.Available() && ev.e.MouseButtonDown? && ev.e.button == Left ==>
      r.0 == ev && r.1.x == s.x && r.1.y == s.y &&
      (rect.Some? && ContainsPoint(rect.value, ev.e.x, ev.e.y) ==> r.1.drag == Some((startX - ev.e.x, startY - ev.e.y))) &&
      (!(rect.Some? && ContainsPoint(rect.value, ev.e.x, ev.e.y)) ==> r.1.drag == s.drag)
    ensures ev.Available() && ev.e.MouseButtonUp? && ev.e.button == Left ==> r == (ev, s.(drag := None))
    ensures ev.Available() && ev.e.MouseWheel? ==>
      var over := rect.Some? && ContainsPoint(rect.value, ev.e.mouseX, ev.e.mouseY);
      r.1.drag == s.drag &&
      (over ==> r.0.Consumed() &&
                r.1.x == (if xEnabled then startX - ev.e.x * WHEEL_STEP else s.x) &&
                r.1.y == (if yEnabled then startY + ev.e.y * WHEEL_STEP else s.y)) &&
      (!over ==> r == (ev, s))
  {
    if !ev.Available() then (ev, s)
    else
      match ev.e
      case MouseButtonDown(Left, x, y) =>
        if rect.Some? && ContainsPoint(rect.value, x, y) then (ev, s.(drag := Some((startX - x, startY - y))))
        else (ev, s)
      case MouseButtonUp(Left, _, _) => (ev, s.(drag := None))
      case MouseWheel(x, y, mouseX, mouseY) =>
        if rect.Some? && ContainsPoint(rect.value, mouseX, mouseY) then
          (ev.MarkConsumed(),
           s.(x := if xEnabled then startX - x * WHEEL_STEP else s.x,
              y := if yEnabled then startY + y * WHEEL_STEP else s.y))
        else (ev, s)
      case _ => (ev, s)
  }

  function PressRun(evs: seq<SdlEvent>, rect: Option<Rect>, startX: int, startY: int, s: ScrollState,
                    xEnabled: bool, yEnabled: bool): (seq<SdlEvent>, ScrollState)
  {
    if |evs| == 0 then ([], s)
    else
      var (done, s') := PressRun(evs[..|evs| - 1], rect, startX, startY, s, xEnabled, yEnabled);
      var (ev, s'') := PressStep(evs[|evs| - 1], rect, startX, startY, s', xEnabled, yEnabled);
      (done + [ev], s'')
  }

  /** `PressRun` over one more event appends that event's step. */
  lemma PressRunSnoc(evs: seq<SdlEvent>, i: nat, rect: Option<Rect>, startX: int, startY: int, s: ScrollState,
                     xEnabled: bool, yEnabled: bool)
    requires i < |evs|
    ensures var (done, s') := PressRun(evs[..i], rect, startX, startY, s, xEnabled, yEnabled);
      var (ev, s'') := PressStep(evs[i], rect, startX, startY, s', xEnabled, yEnabled);
      PressRun(evs[..i + 1], rect, startX, startY, s, xEnabled, yEnabled) == (done + [ev], s'')
  {
    assert evs[..i + 1][..i] == evs[..i];
  }

  /**
   * The drag pass only consumes mouse motions, never changes the drag, and
   * never writes the offset of a disabled axis; without a drag it does
   * nothing.
   */
  lemma {:induction false} DragRunFacts(evs: seq<SdlEvent>, s: ScrollState, xEnabled: bool, yEnabled: bool)
    ensures var (out, s') := DragRun(evs, s, xEnabled, yEnabled);
      SameEventsMoreConsumed(evs, out) &&
      (forall k :: 0 <= k < |evs| && out[k].Consumed() && !evs[k].Consumed() ==> evs[k].e.MouseMotion?) &&
      s'.drag == s.drag &&
      (!xEnabled ==> s'.x == s.x) && (!yEnabled ==> s'.y == s.y) &&
      (s.drag.None? ==> out == evs && s' == s)
  {
    if |evs| > 0 {
      DragRunFacts(evs[..|evs| - 1], s, xEnabled, yEnabled);
      assert evs == evs[..|evs| - 1] + [evs[|evs| - 1]];
    }
  }

  /**
   * The press pass only consumes wheel turns and never writes the offset of
   * a disabled axis.
   */
  lemma {:induction false} PressRunFacts(evs: seq<SdlEvent>, rect: Option<Rect>, startX: int, startY: int,
                                         s: ScrollState, xEnabled: bool, yEnabled: bool)
    ensures var (out, s') := PressRun(evs, rect, startX, startY, s, xEnabled, yEnabled);
      SameEventsMoreConsumed(evs, out) &&
      (forall k :: 0 <= k < |evs| && out[k].Consumed() && !evs[k].Consumed() ==> evs[k].e.MouseWheel?) &&
      (!xEnabled ==> s'.x == s.x) && (!yEnabled ==> s'.y == s.y)
  {
    if |evs| > 0 {
      PressRunFacts(evs[..|evs| - 1], rect, startX, startY, s, xEnabled, yEnabled);
    }
  }

  /**
   * Wheel turns within one frame do not add up: each sets the offset from
   * the frame's start, so the last one decides.
   */
  lemma WheelTurnsDoNotAccumulate(a: SdlEvent, b: SdlEvent, rect: Rect, startX: int, startY: int, s: ScrollState)
    requires a.Available() && a.e.MouseWheel? && ContainsPoint(rect, a.e.mouseX, a.e.mouseY)
    requires b.Available() && b.e.MouseWheel? && ContainsPoint(rect, b.e.mouseX, b.e.mouseY)
    ensures var s' := PressRun([a, b], Some(rect), startX, startY, s, true, true).1;
      s'.x == startX - b.e.x * WHEEL_STEP && s'.y == startY + b.e.y * WHEEL_STEP
  {
    assert [a, b][..1] == [a];
    assert [a][..0] == [];
  }

  /**
   * A drag started by a press follows the mouse: after a press at
   * (`px`, `py`) on the scroller, a held motion to (`mx`, `my`) in the next
   * frame moves the offset by exactly the mouse's travel.
   */
  lemma DragFollowsMouse(press: SdlEvent, motion: SdlEvent, rect: Rect, startX: int, startY: int, s: ScrollState)
    requires press.Available() && press.e.MouseButtonDown? && press.e.button == Left
    requires ContainsPoint(rect, press.e.x, press.e.y)
    requires motion.Available() && motion.e.MouseMotion? && motion.e.leftHeld
    ensures var afterPress := PressStep(press, Some(rect), startX, startY, s, true, true).1;
      var afterMotion := DragStep(motion, afterPress, true, true).1;
      afterMotion.x == startX + (motion.e.x - press.e.x) && afterMotion.y == startY + (motion.e.y - press.e.y)
  {
  }

  /** The position the contents see: the scroller's, shifted by the offset. */
  function Shifted(position: Option<FRect>, x: int, y: int): (r: Option<FRect>)
    ensures position.None? <==> r.None?
    ensures r.Some? ==>
      r.value.x - x as real == position.value.x && r.value.y - y as real == position.value.y &&
      r.value.w == position.value.w && r.value.h == position.value.h
  {
    match position
    case None => None
    case Some(p) => Some(p.(x := p.x + x as real, y := p.y + y as real))
  }

  /** The scroller's own rectangle, as the press pass tests points against it. */
  function RectOf(position: Option<FRect>): (r: Option<Rect>)
    ensures position.None? <==> r.None?
    ensures r.Some? ==> r.value == FrectToRect(position.value) && r.value.w >= 1 && r.value.h >= 1
  {
    match position
    case None => None
    case Some(p) => Some(FrectToRect(p))
  }

  /**
   * A scroller under half a pixel wide still has a one-pixel rectangle, so
   * a point on its left edge is inside it.
   */
  lemma ThinScrollerStillHit()
    ensures var r := RectOf(Some(FRect(0.0, 0.0, 0.3, 10.0)));
      r == Some(Rect(0, 0, 1, 10)) && ContainsPoint(r.value, 0, 5)
  {
    assert Round(0.0) == 0 && Round(0.3) == 0 && Round(10.0) == 10;
  }

  /** The clip the contents run under: the scroller's own rectangle, or none. */
  function ClipOf(position: Option<FRect>): (r: ClippingRect)
    ensures position.None? ==> r == ClipNone
    ensures position.Some? ==> r == ClipTo(FrectToRect(position.value))
  {
    match position
    case Some(p) => ClipTo(FrectToRect(p))
    case None => ClipNone
  }

  /**
   * What the contents do to the frame's events, as far as the scroller can
   * tell: they consume the events numbered in `consumes`.
   */
  function ContentsEffect(evs: seq<SdlEvent>, consumes: set<nat>): (r: seq<SdlEvent>)
    ensures SameEventsMoreConsumed(evs, r)
  {
    seq(|evs|, k requires 0 <= k < |evs| => if k in consumes then evs[k].MarkConsumed() else evs[k])
  }

  /** The scroller, its two shared offset cells folded into one object. */
  class Scroller {
    var drag: Option<(int, int)>
    var scrollX: int
    var scrollY: int
    const xEnabled: bool
    const yEnabled: bool

    /** `new`: no drag in progress. */
    constructor (xEnabled: bool, yEnabled: bool, scrollX: int, scrollY: int)
      ensures this.xEnabled == xEnabled && this.yEnabled == yEnabled
      ensures this.scrollX == scrollX && this.scrollY == scrollY && drag.None?
    {
      this.xEnabled := xEnabled;
      this.yEnabled := yEnabled;
      this.scrollX := scrollX;
      this.scrollY := scrollY;
      drag := None;
    }

    function State(): ScrollState
      reads this
    {
      ScrollState(drag, scrollX, scrollY)
    }

    /**
     * `update`: the drag pass, then the contents run at the shifted
     * position with the clip set to the scroller's rectangle, then the clip
     * is cleared and, if the contents succeeded, the press pass runs.
     * `contentsConsume` and `contentsOk` stand for what the contents do;
     * `seenPos` and `seenClip` are what they are shown.
     */
    method Update(events: array<SdlEvent>, position: Option<FRect>, canvas: Canvas,
                  contentsConsume: set<nat>, contentsOk: bool)
      returns (seenPos: Option<FRect>, seenClip: ClippingRect, ok: bool)
      modifies this, events, canvas
      ensures seenPos == Shifted(position, old(scrollX), old(scrollY))
      ensures seenClip == ClipOf(position) && canvas.clipRect == ClipNone && ok == contentsOk
      ensures var (dragged, s1) := DragRun(old(events[..]), old(State()), xEnabled, yEnabled);
        var afterContents := ContentsEffect(dragged, contentsConsume);
        if contentsOk then
          (events[..], State()) == PressRun(afterContents, RectOf(position), old(scrollX), old(scrollY), s1, xEnabled, yEnabled)
        else
          events[..] == afterContents && State() == s1
    {
      var startX := scrollX;
      var startY := scrollY;
      DragPass(events);
      ghost var dragged := events[..];
      canvas.clipRect := ClipOf(position);
      seenPos := Shifted(position, startX, startY);
      seenClip := canvas.clipRect;
      // the contents run here
      forall k | 0 <= k < events.Length && k in contentsConsume {
        events[k] := events[k].MarkConsumed();
      }
      assert events[..] == ContentsEffect(dragged, contentsConsume);
      canvas.clipRect := ClipNone;
      ok := contentsOk;
      if !contentsOk {
        return;
      }
      PressPass(events, RectOf(position), startX, startY);
    }

    /** `draw`: the contents are drawn at the shifted position, clipped to the scroller. */
    method Draw(position: Option<FRect>, canvas: Canvas) returns (seenPos: Option<FRect>, seenClip: ClippingRect)
      modifies canvas
      ensures seenPos == Shifted(position, scrollX, scrollY)
      ensures seenClip == ClipOf(position) && canvas.clipRect == ClipNone
    {
      canvas.clipRect := ClipOf(position);
      seenPos := Shifted(position, scrollX, scrollY);
      seenClip := canvas.clipRect;
      // the contents draw here
      canvas.clipRect := ClipNone;
    }

    /** The pass over the frame's events before the contents run. */
    method DragPass(events: array<SdlEvent>)
      modifies this, events
      ensures (events[..], State()) == DragRun(old(events[..]), old(State()), xEnabled, yEnabled)
    {
      var i := 0;
      while i < events.Length
        invariant 0 <= i <= events.Length
        invariant (events[..i], State()) == DragRun(old(events[..i]), old(State()), xEnabled, yEnabled)
        invariant forall j :: i <= j < events.Length ==> events[j] == old(events[j])
      {
        assert old(events[..i + 1]) == old(events[..i]) + [events[i]] by {
          assert old(events[..i + 1])[..i] == old(events[..i]);
        }
        var ev := events[i];
        if ev.Available() && ev.e.MouseMotion? && drag.Some? && ev.e.leftHeld {
          events[i] := ev.MarkConsumed();
          if xEnabled {
            scrollX := ev.e.x + drag.value.0;
          }
          if yEnabled {
            scrollY := ev.e.y + drag.value.1;
          }
        }
        assert events[..i + 1] == events[..i] + [events[i]];
        i := i + 1;
      }
      assert events[..] == events[..i];
      assert old(events[..]) == old(events[..i]);
    }

    /** The pass over the frame's events after the contents ran. */
    method PressPass(events: array<SdlEvent>, rect: Option<Rect>, startX: int, startY: int)
      modifies this, events
      ensures (events[..], State()) == PressRun(old(events[..]), rect, startX, startY, old(State()), xEnabled, yEnabled)
    {
      ghost var orig, s0 := events[..], State();
      var i := 0;
      while i < events.Length
        invariant 0 <= i <= events.Length
        invariant (events[..i], State()) == PressRun(orig[..i], rect, startX, startY, s0, xEnabled, yEnabled)
        invariant forall j :: i <= j < events.Length ==> events[j] == orig[j]
      {
        ghost var done := events[..i];
        PressAt(events, i, rect, startX, startY);
        assert events[..i + 1] == done + [events[i]];
        PressRunSnoc(orig, i, rect, startX, startY, s0, xEnabled, yEnabled);
        i := i + 1;
      }
      assert events[..] == events[..i] && orig == orig[..i];
    }

    /** The press pass on the event at `i`. */
    method PressAt(events: array<SdlEvent>, i: nat, rect: Option<Rect>, startX: int, startY: int)
      requires i < events.Length
      modifies this, events
      ensures var (ev, s) := PressStep(old(events[i]), rect, startX, startY, old(State()), xEnabled, yEnabled);
        events[..] == old(events[..])[i := ev] && State() == s
    {
      var ev := events[i];
      if ev.Available() {
        match ev.e {
          case MouseButtonDown(Left, x, y) =>
            if rect.Some? && ContainsPoint(rect.value, x, y) {
              drag := Some((startX - x, startY - y));
            }
          case MouseButtonUp(Left, _, _) =>
            drag := None;
          case MouseWheel(x, y, mouseX, mouseY) =>
            if rect.Some? && ContainsPoint(rect.value, mouseX, mouseY) {
              events[i] := ev.MarkConsumed();
              if xEnabled {
                scrollX := startX - x * WHEEL_STEP;
              }
              if yEnabled {
                scrollY := startY + y * WHEEL_STEP;
              }
            }
          case _ =>
        }
      }
    }
  }
}
