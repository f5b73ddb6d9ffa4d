/**
 * `CheckBox` (`widget/checkbox.rs`): a square of fixed size that toggles a
 * shared boolean when clicked or when Return is released while it holds the
 * focus. The file also holds what buttons share with it: the press handling
 * of focusable widgets and a texture cache per displayed variant.
 */
module Checkbox {
  import opened Wrappers
  import opened Sdl
  import opened Rects
  import opened Length
  import opened Sizing
  import opened Events
  import opened Focus
  import Widget

  // ------------------------------------------------------------ variants

  /** `CheckBoxTextureVariant`: the displayed states. Pressed without focus only exists when checked. */
  datatype CheckBoxTextureVariant =
    | Idle | Focused | FocusedPressed | FocusChecked | FocusedPressedChecked | Checked | CheckedPressed

  predicate IsFocusedVariant(v: CheckBoxTextureVariant)
  {
    v == Focused || v == FocusedPressed || v == FocusChecked || v == FocusedPressedChecked
  }

  predicate IsPressedVariant(v: CheckBoxTextureVariant)
  {
    v == FocusedPressed || v == FocusedPressedChecked || v == CheckedPressed
  }

  predicate IsCheckedVariant(v: CheckBoxTextureVariant)
  {
    v == FocusChecked || v == FocusedPressedChecked || v == Checked || v == CheckedPressed
  }

  /**
   * The three predicates tell the variants apart: no two variants agree on
   * all of them, and only pressed-but-unfocused-and-unchecked has no
   * variant.
   */
  lemma VariantTruthTable(v: CheckBoxTextureVariant, u: CheckBoxTextureVariant)
    ensures (IsFocusedVariant(v) == IsFocusedVariant(u) && IsPressedVariant(v) == IsPressedVariant(u) &&
             IsCheckedVariant(v) == IsCheckedVariant(u)) ==> v == u
    ensures !(IsPressedVariant(v) && !IsFocusedVariant(v) && !IsCheckedVariant(v))
  {
  }

  /**
   * The variant `draw` shows: the one whose predicates are the widget's
   * focus, press and check state, except that an unfocused, unchecked box
   * is always `Idle`, pressed or not.
   */
  function VariantFor(focused: bool, pressed: bool, checked: bool): (v: CheckBoxTextureVariant)
    ensures (focused || checked) ==>
      IsFocusedVariant(v) == focused && IsPressedVariant(v) == pressed && IsCheckedVariant(v) == checked
    ensures (!focused && !checked) ==> v == Idle
  {
    if focused then
      if pressed then (if checked then FocusedPressedChecked else FocusedPressed)
      else (if checked then FocusChecked else Focused)
    else
      if checked then (if pressed then CheckedPressed else Checked)
      else Idle
  }

  /** Every variant is shown for some state. */
  lemma EveryVariantShown(v: CheckBoxTextureVariant)
    ensures VariantFor(IsFocusedVariant(v), IsPressedVariant(v), IsCheckedVariant(v)) == v
  {
  }

  // ------------------------------------------------------------ texture cache

  /** A texture rendered by a style for `variant` at `size`. */
  datatype VariantTexture<V> = VariantTexture(variant: V, size: (nat, nat))

  /**
   * `TextureVariantSizeCache`: at most one texture, kept while the size
   * stays the same. A cache is only ever used for one variant, `owner`,
   * which lets it ignore the variant when deciding whether to re-render.
   */
  class TextureVariantSizeCache<V> {
    var cache: Option<VariantTexture<V>>
    ghost const owner: V

    /** The cached texture is one of the owner variant. */
    ghost predicate Valid()
      reads this
    {
      cache.Some? ==> cache.value.variant == owner
    }

    /** `default`: nothing cached. */
    constructor (ghost owner: V)
      ensures cache.None? && this.owner == owner && Valid()
    {
      cache := None;
      this.owner := owner;
    }

    /**
     * `render`: reuse the cached texture exactly when its size is the one
     * asked for, otherwise render a new one for `variant`. A failed render
     * leaves the cache empty. `createOk` and `drawOk` stand for the
     * results of creating the texture and of the style's drawing.
     */
    method Render(variant: V, size: (nat, nat), createOk: bool, drawOk: bool)
      returns (texture: Option<VariantTexture<V>>, rendered: bool)
      requires Valid() && variant == owner
      modifies this
      ensures Valid()
      ensures rendered <==> !(old(cache).Some? && old(cache).value.size == size)
      ensures !rendered ==> texture == old(cache)
      ensures rendered ==> texture == (if createOk && drawOk then Some(VariantTexture(variant, size)) else None)
      ensures cache == texture
      ensures texture.Some? ==> texture.value.size == size
    {
      var kept := if cache.Some? && cache.value.size == size then cache else None;
      cache := None;
      if kept.Some? {
        texture, rendered := kept, false;
      } else {
        rendered := true;
        if !(createOk && drawOk) {
          return None, true;
        }
        texture := Some(VariantTexture(variant, size));
      }
      cache := texture;
    }
  }

  // ------------------------------------------------------------ pressing

  /** What the press handling has found so far in a frame. `calls` counts runs of the functionality. */
  datatype PressState = PressState(pressed: bool, focus: Option<nat>, calls: nat, failed: bool)

  /** A point on the widget that the clip leaves visible. */
  predicate Visible(rect: Rect, clip: ClippingRect, x: int, y: int)
  {
    ContainsPoint(rect, x, y) && ClipContainsPoint(clip, x, y)
  }

  /**
   * Running the functionality: `firstFailure` is the number of the first
   * run that returns an error (none if every run succeeds). A failed run
   * stops the frame without consuming the event.
   */
  function Activate(ev: SdlEvent, s: PressState, firstFailure: Option<nat>): (r: (SdlEvent, PressState))
    ensures r.1 == s.(calls := s.calls + 1, failed := s.failed || firstFailure == Some(s.calls))
    ensures r.0 == if firstFailure == Some(s.calls) then ev else ev.MarkConsumed()
  {
    if firstFailure == Some(s.calls) then (ev, s.(calls := s.calls + 1, failed := true))
    else (ev.MarkConsumed(), s.(calls := s.calls + 1))
  }

  /** The body of the event loop of `focus_press_update_implementation`, for one event. */
  function PressStep(myId: FocusId, rect: Rect, clip: ClippingRect, hasManager: bool, firstFailure: Option<nat>,
                     ev: SdlEvent, s: PressState): (SdlEvent, PressState)
  {
    if s.failed || !ev.Available() then (ev, s)
    else
      var focused := hasManager && s.focus == Some(myId);
      match ev.e
      case KeyDown(Return, _, _, _) =>
        if focused then (ev.MarkConsumed(), s.(pressed := true)) else (ev, s)
      case KeyUp(Return, false, _, _) =>
        if focused then Activate(ev, s, firstFailure) else (ev, s)
      case MouseMotion(true, x, y) =>
        if Visible(rect, clip, x, y) then (ev, s.(pressed := true)) else (ev, s)
      case MouseButtonDown(Left, x, y) =>
        if Visible(rect, clip, x, y) then
          (ev.MarkConsumed(), s.(pressed := true, focus := if hasManager then Some(myId) else s.focus))
        else (ev, s)
      case MouseButtonUp(Left, x, y) =>
        if Visible(rect, clip, x, y) then Activate(ev, s, firstFailure) else (ev, s)
      case _ => (ev, s)
  }

  function PressRun(myId: FocusId, rect: Rect, clip: ClippingRect, hasManager: bool, firstFailure: Option<nat>,
                    evs: seq<SdlEvent>, s: PressState): (seq<SdlEvent>, PressState)
  {
    if |evs| == 0 then ([], s)
    else
      var (done, s') := PressRun(myId, rect, clip, hasManager, firstFailure, evs[..|evs| - 1], s);
      var (ev, s'') := PressStep(myId, rect, clip, hasManager, firstFailure, evs[|evs| - 1], s');
      (done + [ev], s'')
  }

  /** The events the press handling may consume: Return key presses and left button presses and releases. */
  predicate PressEvent(e: Event)
  {
    (e.KeyDown? && e.key == Return) || (e.KeyUp? && e.key == Return) ||
    (e.MouseButtonDown? && e.button == Left) || (e.MouseButtonUp? && e.button == Left)
  }

  /**
   * The press handling only consumes press events, only ever gives the
   * focus to its own widget, never releases a press within the frame, and
   * stops exactly at the first failing run of the functionality.
   */
  lemma {:induction false} PressRunFacts(myId: FocusId, rect: Rect, clip: ClippingRect, hasManager: bool,
                                         firstFailure: Option<nat>, evs: seq<SdlEvent>, s: PressState)
    requires FailureAccounted(s, firstFailure)
    ensures var (out, s') := PressRun(myId, rect, clip, hasManager, firstFailure, evs, s);
      SameEventsMoreConsumed(evs, out) &&
      (forall k :: 0 <= k < |evs| && out[k].Consumed() && !evs[k].Consumed() ==> PressEvent(evs[k].e)) &&
      (s'.focus == s.focus || s'.focus == Some(myId)) &&
      (s.pressed ==> s'.pressed) &&
      s'.calls >= s.calls &&
      FailureAccounted(s', firstFailure)
  {
    if |evs| > 0 {
      var n := |evs|;
      PressRunFacts(myId, rect, clip, hasManager, firstFailure, evs[..n - 1], s);
      var (done, t) := PressRun(myId, rect, clip, hasManager, firstFailure, evs[..n - 1], s);
      PressStepFacts(myId, rect, clip, hasManager, firstFailure, evs[n - 1], t);
    }
  }

  /**
   * The run counter agrees with the functionality's behaviour: a failed
   * state has just made the first failing run, any other has not reached
   * it yet.
   */
  predicate FailureAccounted(s: PressState, firstFailure: Option<nat>)
  {
    (s.failed ==> s.calls > 0 && firstFailure == Some(s.calls - 1)) &&
    (!s.failed ==> firstFailure.None? || firstFailure.value >= s.calls)
  }

  /** One step of the press handling, for `PressRunFacts`. */
  lemma PressStepFacts(myId: FocusId, rect: Rect, clip: ClippingRect, hasManager: bool,
                       firstFailure: Option<nat>, ev: SdlEvent, s: PressState)
    requires FailureAccounted(s, firstFailure)
    ensures var (out, s') := PressStep(myId, rect, clip, hasManager, firstFailure, ev, s);
      out.e == ev.e && (ev.Consumed() ==> out.Consumed()) &&
      (out.Consumed() && !ev.Consumed() ==> PressEvent(ev.e)) &&
      (s'.focus == s.focus || s'.focus == Some(myId)) &&
      (s.pressed ==> s'.pressed) &&
      s'.calls >= s.calls &&
      FailureAccounted(s', firstFailure)
  {
  }

  /** Once the functionality has failed, the rest of the frame's events are left alone. */
  lemma {:induction false} FailureStopsTheFrame(myId: FocusId, rect: Rect, clip: ClippingRect, hasManager: bool,
                                                firstFailure: Option<nat>, evs: seq<SdlEvent>, s: PressState)
    requires s.failed
    ensures PressRun(myId, rect, clip, hasManager, firstFailure, evs, s) == (evs, s)
  {
    if |evs| > 0 {
      FailureStopsTheFrame(myId, rect, clip, hasManager, firstFailure, evs[..|evs| - 1], s);
      assert evs == evs[..|evs| - 1] + [evs[|evs| - 1]];
    }
  }

  /**
   * A click on the visible widget (a left press then release there) runs
   * the functionality once, consumes both events, focuses the widget and
   * leaves it pressed for drawing.
   */
  lemma ClickActivatesOnce(myId: FocusId, rect: Rect, clip: ClippingRect, down: SdlEvent, up: SdlEvent, s: PressState)
    requires !s.failed
    requires down.Available() && down.e.MouseButtonDown? && down.e.button == Left && Visible(rect, clip, down.e.x, down.e.y)
    requires up.Available() && up.e.MouseButtonUp? && up.e.button == Left && Visible(rect, clip, up.e.x, up.e.y)
    ensures var (out, s') := PressRun(myId, rect, clip, true, None, [down, up], s);
      s'.calls == s.calls + 1 && !s'.failed && s'.pressed && s'.focus == Some(myId) &&
      out == [down.MarkConsumed(), up.MarkConsumed()]
  {
    assert [down, up][..1] == [down];
    assert [down][..0] == [];
    var s1 := s.(pressed := true, focus := Some(myId));
    assert PressStep(myId, rect, clip, true, None, down, s) == (down.MarkConsumed(), s1);
    assert PressRun(myId, rect, clip, true, None, [], s) == ([], s);
    assert [down][0] == down && [] + [down.MarkConsumed()] == [down.MarkConsumed()];
    assert PressRun(myId, rect, clip, true, None, [down], s) == ([down.MarkConsumed()], s1);
    assert PressStep(myId, rect, clip, true, None, up, s1) == (up.MarkConsumed(), s1.(calls := s.calls + 1));
  }

  /** Return pressed and released while focused runs the functionality once. */
  lemma ReturnActivatesOnce(myId: FocusId, rect: Rect, clip: ClippingRect, press: SdlEvent, release: SdlEvent, s: PressState)
    requires !s.failed && s.focus == Some(myId)
    requires press.Available() && press.e.KeyDown? && press.e.key == Return
    requires release.Available() && release.e.KeyUp? && release.e.key == Return && !release.e.repeat
    ensures var (out, s') := PressRun(myId, rect, clip, true, None, [press, release], s);
      s'.calls == s.calls + 1 && s'.pressed && out == [press.MarkConsumed(), release.MarkConsumed()]
  {
    assert [press, release][..1] == [press];
    assert [press][..0] == [];
    var s1 := s.(pressed := true);
    assert PressStep(myId, rect, clip, true, None, press, s) == (press.MarkConsumed(), s1);
    assert PressRun(myId, rect, clip, true, None, [], s) == ([], s);
    assert [press][0] == press && [] + [press.MarkConsumed()] == [press.MarkConsumed()];
    assert PressRun(myId, rect, clip, true, None, [press], s) == ([press.MarkConsumed()], s1);
    assert PressStep(myId, rect, clip, true, None, release, s1) == (release.MarkConsumed(), s1.(calls := s.calls + 1));
  }

  /**
   * What `focus_press_update_implementation` does to a frame: the widget's
   * focus rules first (with a focus manager); then, with a position of
   * non-zero area, `pressed` is reset and the press handling runs. Without
   * one, `pressed` keeps its value from the last frame.
   */
  function FocusPressUpdate(myId: FocusId, hasManager: bool, focus: Option<nat>, nextAvailable: nat,
                            rect: Option<Rect>, clip: ClippingRect, firstFailure: Option<nat>,
                            evs: seq<SdlEvent>, pressed: bool): (r: (seq<SdlEvent>, PressState))
    ensures rect.None? ==> r.1.pressed == pressed && r.1.calls == 0 && !r.1.failed
  {
    var (evs1, focus1) := if hasManager then WidgetFocusRun(myId, rect, clip, evs, focus, nextAvailable) else (evs, focus);
    match rect
    case None => (evs1, PressState(pressed, focus1, 0, false))
    case Some(r) => PressRun(myId, r, clip, hasManager, firstFailure, evs1, PressState(false, focus1, 0, false))
  }

  /** A frame without any press event leaves a widget with a position unpressed. */
  lemma {:induction false} NoPressEventNoPress(myId: FocusId, rect: Rect, clip: ClippingRect, hasManager: bool,
                                               firstFailure: Option<nat>, evs: seq<SdlEvent>, s: PressState)
    requires forall k :: 0 <= k < |evs| ==> !PressEvent(evs[k].e) && !evs[k].e.MouseMotion?
    ensures PressRun(myId, rect, clip, hasManager, firstFailure, evs, s) == (evs, s)
  {
    if |evs| > 0 {
      NoPressEventNoPress(myId, rect, clip, hasManager, firstFailure, evs[..|evs| - 1], s);
      assert evs == evs[..|evs| - 1] + [evs[|evs| - 1]];
    }
  }

  /** Without a failing run the handler always succeeds. */
  lemma NoFailureSucceeds(myId: FocusId, hasManager: bool, focus: Option<nat>, nextAvailable: nat,
                          rect: Option<Rect>, clip: ClippingRect, evs: seq<SdlEvent>, pressed: bool)
    ensures !FocusPressUpdate(myId, hasManager, focus, nextAvailable, rect, clip, None, evs, pressed).1.failed
  {
    var (evs1, focus1) := if hasManager then WidgetFocusRun(myId, rect, clip, evs, focus, nextAvailable) else (evs, focus);
    if rect.Some? {
      PressRunFacts(myId, rect.value, clip, hasManager, None, evs1, PressState(false, focus1, 0, false));
    }
  }

  /** After a failing step the remaining events are handed back untouched. */
  lemma {:induction false} RunAfterFailure(myId: FocusId, rect: Rect, clip: ClippingRect, hasManager: bool,
                                           firstFailure: Option<nat>, evs: seq<SdlEvent>, s: PressState, i: nat)
    requires i <= |evs|
    requires PressRun(myId, rect, clip, hasManager, firstFailure, evs[..i], s).1.failed
    ensures var (done, s') := PressRun(myId, rect, clip, hasManager, firstFailure, evs[..i], s);
      PressRun(myId, rect, clip, hasManager, firstFailure, evs, s) == (done + evs[i..], s')
    decreases |evs| - i
  {
    if i < |evs| {
      var n := |evs|;
      assert evs[..n - 1][..i] == evs[..i];
      RunAfterFailure(myId, rect, clip, hasManager, firstFailure, evs[..n - 1], s, i);
      var (done, s') := PressRun(myId, rect, clip, hasManager, firstFailure, evs[..i], s);
      assert evs[..n - 1][i..] + [evs[n - 1]] == evs[i..];
      assert done + evs[..n - 1][i..] + [evs[n - 1]] == done + evs[i..];
    } else {
      assert evs[..i] == evs;
      assert evs[i..] == [];
      var done := PressRun(myId, rect, clip, hasManager, firstFailure, evs[..i], s).0;
      assert done + [] == done;
    }
  }

  /**
   * `focus_press_update_implementation`: the widget's focus rules, then,
   * for a position of non-zero area, the press handling over the frame's
   * available events. The clip is the canvas's. `firstFailure` stands for
   * the functionality's behaviour; `calls` is how often it ran and `ok`
   * the handler's result, which is an error exactly when a run failed.
   */
  method FocusPressUpdateImpl(myId: FocusId, fm: Option<FocusManager>, position: Option<FRect>, canvas: Canvas,
                              events: array<SdlEvent>, pressedIn: bool, firstFailure: Option<nat>)
    returns (pressed: bool, calls: nat, ok: bool)
    modifies events, ManagerFrame(fm)
    ensures NextAvailableOf(fm) == old(NextAvailableOf(fm))
    ensures (events[..], PressState(pressed, FocusOf(fm), calls, !ok)) ==
      FocusPressUpdate(myId, fm.Some?, old(FocusOf(fm)), NextAvailableOf(fm), ToRectOpt(position), canvas.clipRect,
                       firstFailure, old(events[..]), pressedIn)
  {
    var clip := canvas.clipRect;
    DefaultWidgetFocusBehavior(myId, fm, position, clip, events);
    var rect := ToRectOpt(position);
    if rect.None? {
      return pressedIn, 0, true;
    }
    var s := PressLoop(myId, fm, rect.value, clip, firstFailure, events);
    pressed, calls, ok := s.pressed, s.calls, !s.failed;
  }

  /**
   * The event loop of `focus_press_update_implementation`, which ends early
   * with the first failing run of the functionality.
   */
  method PressLoop(myId: FocusId, fm: Option<FocusManager>, rect: Rect, clip: ClippingRect, firstFailure: Option<nat>,
                   events: array<SdlEvent>) returns (s: PressState)
    modifies events, ManagerFrame(fm)
    ensures NextAvailableOf(fm) == old(NextAvailableOf(fm)) && s.focus == FocusOf(fm)
    ensures (events[..], s) ==
      PressRun(myId, rect, clip, fm.Some?, firstFailure, old(events[..]), PressState(false, old(FocusOf(fm)), 0, false))
  {
    s := PressState(false, FocusOf(fm), 0, false);
    ghost var s0 := s;
    var i := 0;
    while i < events.Length && !s.failed
      invariant 0 <= i <= events.Length
      invariant NextAvailableOf(fm) == old(NextAvailableOf(fm))
      invariant (events[..i], s) == PressRun(myId, rect, clip, fm.Some?, firstFailure, old(events[..i]), s0)
      invariant s.focus == FocusOf(fm)
      invariant forall j :: i <= j < events.Length ==> events[j] == old(events[j])
    {
      assert old(events[..i + 1]) == old(events[..i]) + [old(events[i])];
      s := PressAt(myId, fm, rect, clip, firstFailure, events, i, s);
      assert events[..i + 1] == events[..i] + [events[i]];
      i := i + 1;
    }
    if i < events.Length {
      RunAfterFailure(myId, rect, clip, fm.Some?, firstFailure, old(events[..]), s0, i);
      assert events[..] == events[..i] + events[i..];
      assert events[i..] == old(events[i..]);
      assert old(events[..])[..i] == old(events[..i]);
    } else {
      assert events[..] == events[..i];
      assert old(events[..]) == old(events[..i]);
    }
  }

  /** The loop body of `focus_press_update_implementation` for the `i`-th event. */
  method PressAt(myId: FocusId, fm: Option<FocusManager>, rect: Rect, clip: ClippingRect, firstFailure: Option<nat>,
                 events: array<SdlEvent>, i: nat, s: PressState) returns (s': PressState)
    requires i < events.Length && !s.failed && s.focus == FocusOf(fm)
    modifies events, ManagerFrame(fm)
    ensures NextAvailableOf(fm) == old(NextAvailableOf(fm)) && s'.focus == FocusOf(fm)
    ensures var (ev, t) := PressStep(myId, rect, clip, fm.Some?, firstFailure, old(events[i]), s);
      events[..] == old(events[..])[i := ev] && s' == t
  {
    var ev := events[i];
    s' := s;
    if !ev.Available() {
      return;
    }
    var focused := fm.Some? && fm.value.IsFocused(myId);
    match ev.e {
      case KeyDown(Return, _, _, _) =>
        if focused {
          s' := s.(pressed := true);
          events[i] := ev.MarkConsumed();
        }
      case KeyUp(Return, false, _, _) =>
        if focused {
          s' := Run(ev, s, firstFailure, events, i);
        }
      case MouseMotion(true, x, y) =>
        if Visible(rect, clip, x, y) {
          s' := s.(pressed := true);
        }
      case MouseButtonDown(Left, x, y) =>
        if Visible(rect, clip, x, y) {
          events[i] := ev.MarkConsumed();
          if fm.Some? {
            fm.value.SetFocus(myId);
          }
          s' := s.(pressed := true, focus := FocusOf(fm));
        }
      case MouseButtonUp(Left, x, y) =>
        if Visible(rect, clip, x, y) {
          s' := Run(ev, s, firstFailure, events, i);
        }
      case _ =>
    }
  }

  /** Running the functionality for the `i`-th event, which is consumed unless the run fails. */
  method Run(ev: SdlEvent, s: PressState, firstFailure: Option<nat>, events: array<SdlEvent>, i: nat)
    returns (s': PressState)
    requires i < events.Length && events[i] == ev
    modifies events
    ensures (events[i], s') == Activate(ev, s, firstFailure)
    ensures events[..] == old(events[..])[i := events[i]]
  {
    if firstFailure == Some(s.calls) {
      s' := s.(calls := s.calls + 1, failed := true);
      return;
    }
    s' := s.(calls := s.calls + 1);
    events[i] := ev.MarkConsumed();
  }

  // ------------------------------------------------------------ the widget

  /** The `Cell<bool>` a check box shares with the rest of the program. */
  class Cell {
    var value: bool

    constructor (value: bool)
      ensures this.value == value
    {
      this.value := value;
    }
  }

  /** A check box's sizing: exactly `size` by `size`. */
  function CheckBoxSizing(size: real): (s: Sizing)
    ensures s.minW.v == size && s.maxW.v == size && s.minH.v == size && s.maxH.v == size
    ensures s.link == NoLink
  {
    DEFAULT.(minW := MinLen(size), minH := MinLen(size), maxW := MaxLen(size), maxH := MaxLen(size))
  }

  /** Whatever its parent, a check box is laid out at its size. */
  lemma PlacedAtItsSize(size: real, parent: FRect, priority: AspectRatioPreferredDirection, allowExceed: bool)
    ensures Widget.PlacedSize(CheckBoxSizing(size), parent, priority, allowExceed) == (size, size)
  {
  }

  /** `CheckBox`: the shared checked state, its own press state and a texture cache per variant. */
  class CheckBox {
    const checked: Cell
    const focusId: FocusId
    var pressed: bool
    var size: real
    const idle: TextureVariantSizeCache<CheckBoxTextureVariant>
    const focused: TextureVariantSizeCache<CheckBoxTextureVariant>
    const focusedPressed: TextureVariantSizeCache<CheckBoxTextureVariant>
    const focusedChecked: TextureVariantSizeCache<CheckBoxTextureVariant>
    const focusedCheckedPressed: TextureVariantSizeCache<CheckBoxTextureVariant>
    const idleChecked: TextureVariantSizeCache<CheckBoxTextureVariant>
    const checkedPressed: TextureVariantSizeCache<CheckBoxTextureVariant>

    /** The cache `draw` uses for a variant. */
    function CacheFor(v: CheckBoxTextureVariant): TextureVariantSizeCache<CheckBoxTextureVariant>
    {
      match v
      case Idle => idle
      case Focused => focused
      case FocusedPressed => focusedPressed
      case FocusChecked => focusedChecked
      case FocusedPressedChecked => focusedCheckedPressed
      case Checked => idleChecked
      case CheckedPressed => checkedPressed
    }

    function Caches(): set<object>
    {
      {idle, focused, focusedPressed, focusedChecked, focusedCheckedPressed, idleChecked, checkedPressed}
    }

    /** Each variant has a cache of its own, holding only textures of that variant. */
    ghost predicate Valid()
      reads this, Caches()
    {
      forall v :: CacheFor(v).owner == v && CacheFor(v).Valid()
    }

    /** Valid caches are distinct objects, one per variant. */
    lemma CachesDistinct(u: CheckBoxTextureVariant, v: CheckBoxTextureVariant)
      requires Valid() && u != v
      ensures CacheFor(u) != CacheFor(v)
    {
      assert CacheFor(u).owner == u && CacheFor(v).owner == v;
    }

    /** `new`: unpressed, size 30, nothing rendered yet. */
    constructor (checked: Cell, focusId: FocusId)
      ensures Valid() && fresh(Caches())
      ensures this.checked == checked && this.focusId == focusId && !pressed && size == 30.0
      ensures forall v :: CacheFor(v).cache.None?
    {
      this.checked := checked;
      this.focusId := focusId;
      pressed := false;
      size := 30.0;
      idle := new TextureVariantSizeCache(Idle);
      focused := new TextureVariantSizeCache(Focused);
      focusedPressed := new TextureVariantSizeCache(FocusedPressed);
      focusedChecked := new TextureVariantSizeCache(FocusChecked);
      focusedCheckedPressed := new TextureVariantSizeCache(FocusedPressedChecked);
      idleChecked := new TextureVariantSizeCache(Checked);
      checkedPressed := new TextureVariantSizeCache(CheckedPressed);
    }

    /** `min` and `max`. */
    function Sizing(): (s: Sizing)
      reads this
      ensures s == CheckBoxSizing(size)
    {
      CheckBoxSizing(size)
    }

    /**
     * `update`: the press handling with a functionality that flips the
     * shared state and never fails, so each run toggles `checked` and the
     * update always succeeds.
     */
    method Update(fm: Option<FocusManager>, position: Option<FRect>, canvas: Canvas, events: array<SdlEvent>)
      returns (toggles: nat, ok: bool)
      modifies this, checked, events, ManagerFrame(fm)
      ensures ok
      ensures checked.value == (old(checked.value) != (toggles % 2 == 1))
      ensures NextAvailableOf(fm) == old(NextAvailableOf(fm))
      ensures (events[..], PressState(pressed, FocusOf(fm), toggles, false)) ==
        FocusPressUpdate(focusId, fm.Some?, old(FocusOf(fm)), NextAvailableOf(fm), ToRectOpt(position), canvas.clipRect,
                         None, old(events[..]), old(pressed))
      ensures size == old(size)
    {
      NoFailureSucceeds(focusId, fm.Some?, FocusOf(fm), NextAvailableOf(fm), ToRectOpt(position), canvas.clipRect,
                        events[..], pressed);
      var p, calls, res := FocusPressUpdateImpl(focusId, fm, position, canvas, events, pressed, None);
      pressed := p;
      toggles := calls;
      ok := res;
      if toggles % 2 == 1 {
        checked.value := !checked.value;
      }
    }

    /**
     * `draw`: with a position of non-zero area, the variant for the
     * current focus, press and check state is rendered through its own
     * cache at the position's size and copied there; no other cache
     * changes. `createOk`, `drawOk` and `copyOk` stand for the results of
     * the SDL calls and the style.
     */
    method Draw(fm: Option<FocusManager>, position: Option<FRect>, createOk: bool, drawOk: bool, copyOk: bool)
      returns (shown: Option<CheckBoxTextureVariant>, copiedTo: Option<Rect>, ok: bool)
      requires Valid()
      modifies Caches()
      ensures Valid()
      ensures ToRectOpt(position).None? ==>
        shown.None? && copiedTo.None? && ok && forall v :: CacheFor(v).cache == old(CacheFor(v).cache)
      ensures ToRectOpt(position).Some? ==>
        var r := ToRectOpt(position).value;
        var v := VariantFor(fm.Some? && FocusOf(fm) == Some(focusId), pressed, checked.value);
        shown == Some(v) &&
        (forall u :: u != v ==> CacheFor(u).cache == old(CacheFor(u).cache)) &&
        (old(CacheFor(v).cache).Some? && old(CacheFor(v).cache).value.size == (r.w, r.h) ==>
           CacheFor(v).cache == old(CacheFor(v).cache)) &&
        (!(old(CacheFor(v).cache).Some? && old(CacheFor(v).cache).value.size == (r.w, r.h)) ==>
           CacheFor(v).cache == (if createOk && drawOk then Some(VariantTexture(v, (r.w, r.h))) else None)) &&
        (CacheFor(v).cache.Some? ==> CacheFor(v).cache.value == VariantTexture(v, (r.w, r.h))) &&
        (ok <==> CacheFor(v).cache.Some? && copyOk) &&
        (copiedTo.Some? <==> CacheFor(v).cache.Some?) &&
        (copiedTo.Some? ==> copiedTo.value == r)
    {
      var rect := ToRectOpt(position);
      if rect.None? {
        return None, None, true;
      }
      var r := rect.value;
      var isFocused := fm.Some? && fm.value.IsFocused(focusId);
      var v := VariantFor(isFocused, pressed, checked.value);
      shown := Some(v);
      var cache := CacheFor(v);
      forall u | u != v
        ensures CacheFor(u) != cache
      {
        CachesDistinct(u, v);
      }
      var texture, rendered := cache.Render(v, (r.w, r.h), createOk, drawOk);
      if texture.None? {
        return shown, None, false;
      }
      copiedTo := Some(r);
      ok := copyOk;
    }
  }
}
