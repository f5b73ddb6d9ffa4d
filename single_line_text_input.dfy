/**
 * `SingleLineTextInput` (`widget/single_line_text_input.rs`): an editable
 * line of text. While it holds the focus, typed text is appended,
 * Backspace removes the last character (Ctrl+Backspace everything) and
 * releasing Return runs its functionality; sounds mark focus, edits and
 * Return. It is drawn as the right-most part of its rendered text that
 * fits, under a style texture carrying the caret.
 */
module TextInput {
  import opened Wrappers
  import opened Sdl
  import opened Rects
  import opened Length
  import opened Sizing
  import opened Focus
  import opened WidgetMod

  // ------------------------------------------------------------ edit state

  /** `DefaultSingleLineTextEditState`: the text, in a cell shared with the program. */
  class DefaultSingleLineTextEditState {
    var inner: string

    constructor (inner: string)
      ensures this.inner == inner
    {
      this.inner := inner;
    }

    /** `get`: takes the text out of the cell, copies it and puts it back. */
    method Get() returns (r: string)
      modifies this
      ensures r == old(inner) && inner == old(inner)
    {
      var temp := inner;
      inner := "";
      r := temp;
      inner := temp;
    }

    /** `set`: the next `get` returns `value`. */
    method Set(value: string)
      modifies this
      ensures inner == value
    {
      inner := value;
    }
  }

  /** Whatever was set last is what is read back, and reading changes nothing. */
  method SetThenGet(state: DefaultSingleLineTextEditState, s: string) returns (r: string, again: string)
    modifies state
    ensures r == s && again == s && state.inner == s
  {
    state.Set(s);
    r := state.Get();
    again := state.Get();
  }

  // ------------------------------------------------------------ update

  /** `SingleLineTextInputSoundVariant`. */
  datatype SoundVariant = FocusSound | TextAdded | TextRemoved | Enter

  /** Two edit sounds are at least this many milliseconds apart. */
  const SOUND_LIMITER: nat := 50

  /**
   * `timestamp.checked_sub(previous).unwrap_or(SOUND_LIMITER) >=
   * SOUND_LIMITER`: enough time has passed, or the clock went backwards.
   */
  predicate SoundAllowed(timestamp: nat, previous: nat)
  {
    timestamp < previous || timestamp - previous >= SOUND_LIMITER
  }

  /**
   * The state `update` works on: the text, the limiter's timestamp, the
   * focus, whether the widget already counted as focused, the sounds played
   * so far, how often the functionality ran, and whether something failed.
   */
  datatype InputState = InputState(text: string, previousTimestamp: nat, focus: Option<nat>,
                                   previouslyFocused: bool, sounds: seq<SoundVariant>, calls: nat, failed: bool)

  /**
   * Playing a sound; `soundFailure` is the number of the first sound that
   * fails to play (none if every sound plays).
   */
  function Play(v: SoundVariant, s: InputState, soundFailure: Option<nat>): (r: InputState)
    ensures r.sounds == s.sounds + [v]
    ensures r.failed == (s.failed || soundFailure == Some(|s.sounds|))
    ensures r.(sounds := s.sounds, failed := s.failed) == s
    ensures r.text == s.text && r.previousTimestamp == s.previousTimestamp && r.calls == s.calls
  {
    s.(sounds := s.sounds + [v], failed := s.failed || soundFailure == Some(|s.sounds|))
  }

  /** `content.pop()`: the text without its last character; empty stays empty. */
  function Pop(text: string): (r: string)
    ensures |text| == 0 ==> r == text
    ensures |text| > 0 ==> r + [text[|text| - 1]] == text
  {
    if |text| == 0 then text else text[..|text| - 1]
  }

  /**
   * The key handling of `update` for an event while the widget is
   * focused: whether the event is consumed (also when handling it failed)
   * and the new state. `firstFailure` is the number of the first run of the
   * functionality that fails.
   */
  function Edit(e: Event, s: InputState, soundFailure: Option<nat>, firstFailure: Option<nat>): (bool, InputState)
  {
    match e
    case KeyUp(Return, repeat, _, _) =>
      if repeat then (true, s)
      else
        var s1 := Play(Enter, s, soundFailure);
        if s1.failed then (true, s1)
        else (true, s1.(calls := s1.calls + 1, failed := firstFailure == Some(s1.calls)))
    case KeyDown(Backspace, _, keymod, timestamp) =>
      var s1 := if |s.text| > 0 && SoundAllowed(timestamp, s.previousTimestamp) then
        Play(TextRemoved, s.(previousTimestamp := timestamp), soundFailure) else s;
      if s1.failed then (true, s1)
      else (true, s1.(text := if keymod.Ctrl() then "" else Pop(s1.text)))
    case TextInput(text, timestamp) =>
      var s1 := if SoundAllowed(timestamp, s.previousTimestamp) then
        Play(TextAdded, s.(previousTimestamp := timestamp), soundFailure) else s;
      if s1.failed then (true, s1)
      else (true, s1.(text := s1.text + text))
    case _ => (false, s)
  }

  /**
   * The focus rules of `default_widget_focus_behavior` for one event: the
   * mouse moving over the visible widget focuses it, moving elsewhere
   * drops its focus, and tab or shift+tab while focused is consumed and
   * moves the focus on.
   */
  function FocusRule(myId: FocusId, rect: Option<Rect>, clip: ClippingRect, ev: SdlEvent,
                     focus: Option<nat>, nextAvailable: nat): (SdlEvent, Option<nat>)
  {
    match ev.e
    case MouseMotion(_, x, y) =>
      if ev.Available() && rect.Some? && ContainsPoint(rect.value, x, y) && ClipContainsPoint(clip, x, y) then
        (ev, Some(myId))
      else if focus == Some(myId) then (ev, None)
      else (ev, focus)
    case KeyDown(key, repeat, keymod, _) =>
      if repeat || key != Tab || ev.Consumed() || focus != Some(myId) then (ev, focus)
      else
        var next: nat := if keymod.Shift() then PreviousFocus(focus, nextAvailable) else NextFocus(focus, nextAvailable);
        (ev.MarkConsumed(), Some(next))
    case _ => (ev, focus)
  }

  /** The body of the event loop of `update`, for one event. */
  function InputStep(myId: FocusId, rect: Option<Rect>, clip: ClippingRect, nextAvailable: nat,
                     soundFailure: Option<nat>, firstFailure: Option<nat>, ev: SdlEvent, s: InputState): (SdlEvent, InputState)
  {
    if s.failed || !ev.Available() then (ev, s)
    else
      var (ev1, focus1) := FocusRule(myId, rect, clip, ev, s.focus, nextAvailable);
      var s1 := s.(focus := focus1);
      if focus1 != Some(myId) then (ev1, s1)
      else FocusedStep(soundFailure, firstFailure, ev1, s1)
  }

  /**
   * The rest of the loop body once the widget holds the focus: the focus
   * sound if it did not before, then the key handling unless the event
   * was already consumed.
   */
  function FocusedStep(soundFailure: Option<nat>, firstFailure: Option<nat>, ev: SdlEvent, s: InputState): (SdlEvent, InputState)
  {
    var s1 := if s.previouslyFocused then s else Play(FocusSound, s.(previouslyFocused := true), soundFailure);
    if s1.failed || ev.Consumed() then (ev, s1)
    else
      var (consume, s2) := Edit(ev.e, s1, soundFailure, firstFailure);
      (if consume then ev.MarkConsumed() else ev, s2)
  }

  function InputRun(myId: FocusId, rect: Option<Rect>, clip: ClippingRect, nextAvailable: nat,
                    soundFailure: Option<nat>, firstFailure: Option<nat>, evs: seq<SdlEvent>, s: InputState): (seq<SdlEvent>, InputState)
  {
    if |evs| == 0 then ([], s)
    else
      var (done, s') := InputRun(myId, rect, clip, nextAvailable, soundFailure, firstFailure, evs[..|evs| - 1], s);
      var (ev, s'') := InputStep(myId, rect, clip, nextAvailable, soundFailure, firstFailure, evs[|evs| - 1], s');
      (done + [ev], s'')
  }

  /**
   * What `update` does to a frame: nothing without a focus manager; else
   * the focus sound if the widget gained the focus since the last frame,
   * then the event loop, and on success `focused_previous_frame` records
   * whether the widget ends the frame focused. On an error it keeps its
   * old value.
   */
  function FrameUpdate(myId: FocusId, hasManager: bool, focus: Option<nat>, nextAvailable: nat, rect: Option<Rect>,
                  clip: ClippingRect, evs: seq<SdlEvent>, text: string, previousTimestamp: nat,
                  focusedPreviousFrame: bool, soundFailure: Option<nat>, firstFailure: Option<nat>)
    : (r: (seq<SdlEvent>, InputState, bool))
    ensures !hasManager ==> r == (evs, InputState(text, previousTimestamp, focus, false, [], 0, false), focusedPreviousFrame)
    ensures hasManager && !r.1.failed ==> r.2 == (r.1.focus == Some(myId))
    ensures r.1.failed ==> r.2 == focusedPreviousFrame
  {
    if !hasManager then (evs, InputState(text, previousTimestamp, focus, false, [], 0, false), focusedPreviousFrame)
    else
      var pf := focus == Some(myId);
      var s0 := InputState(text, previousTimestamp, focus, pf, [], 0, false);
      var s1 := if pf && !focusedPreviousFrame then Play(FocusSound, s0, soundFailure) else s0;
      if s1.failed then (evs, s1, focusedPreviousFrame)
      else
        var (out, s2) := InputRun(myId, rect, clip, nextAvailable, soundFailure, firstFailure, evs, s1);
        (out, s2, if s2.failed then focusedPreviousFrame else s2.focus == Some(myId))
  }

  // ------------------------------------------------------------ update properties

  /** The events `update` may consume: tab presses, Return releases, Backspace presses and typed text. */
  predicate InputEvent(e: Event)
  {
    (e.KeyDown? && (e.key == Tab || e.key == Backspace)) || (e.KeyUp? && e.key == Return) || e.TextInput?
  }

  /** A focused Backspace press: Ctrl empties the text, otherwise the last character goes. */
  lemma BackspaceEdits(e: Event, s: InputState, soundFailure: Option<nat>, firstFailure: Option<nat>)
    requires e.KeyDown? && e.key == Backspace && !s.failed
    ensures var (consume, s') := Edit(e, s, soundFailure, firstFailure);
      consume && s'.calls == s.calls &&
      (!s'.failed ==> s'.text == if e.keymod.Ctrl() then "" else Pop(s.text)) &&
      (s'.failed ==> s'.text == s.text) &&
      (|s.text| == 0 ==> s'.text == "" && s' == s.(text := s'.text))
  {
  }

  /** Typed text is appended, unless the sound announcing it fails. */
  lemma TextInputAppends(e: Event, s: InputState, soundFailure: Option<nat>, firstFailure: Option<nat>)
    requires e.TextInput? && !s.failed
    ensures var (consume, s') := Edit(e, s, soundFailure, firstFailure);
      consume && s'.calls == s.calls &&
      (!s'.failed ==> s'.text == s.text + e.text) &&
      (s'.failed ==> s'.text == s.text)
  {
  }

  /**
   * An edit sound plays, and the limiter's timestamp moves, exactly when
   * the limiter allows it (and, for Backspace, there is text to remove).
   */
  lemma LimiterDecidesSound(e: Event, s: InputState, soundFailure: Option<nat>, firstFailure: Option<nat>)
    requires (e.KeyDown? && e.key == Backspace) || e.TextInput?
    ensures var (consume, s') := Edit(e, s, soundFailure, firstFailure);
      var allowed := SoundAllowed(e.timestamp, s.previousTimestamp) && (e.KeyDown? ==> |s.text| > 0);
      (allowed ==> s'.sounds == s.sounds + [if e.KeyDown? then TextRemoved else TextAdded] &&
                   s'.previousTimestamp == e.timestamp) &&
      (!allowed ==> s'.sounds == s.sounds && s'.previousTimestamp == s.previousTimestamp)
  {
  }

  /**
   * A Return release: a key repeat is consumed and does nothing; otherwise
   * the Enter sound plays and then, if it played, the functionality runs
   * once.
   */
  lemma ReturnRunsFunctionality(e: Event, s: InputState, soundFailure: Option<nat>, firstFailure: Option<nat>)
    requires e.KeyUp? && e.key == Return && !s.failed
    ensures var (consume, s') := Edit(e, s, soundFailure, firstFailure);
      consume && s'.text == s.text &&
      (e.repeat ==> s' == s) &&
      (!e.repeat ==> s'.sounds == s.sounds + [Enter] &&
                     s'.calls == (if soundFailure == Some(|s.sounds|) then s.calls else s.calls + 1))
  {
  }

  /**
   * Over a whole frame only focus and input events are consumed, and no
   * event is altered otherwise.
   */
  lemma {:induction false} InputRunEvents(myId: FocusId, rect: Option<Rect>, clip: ClippingRect, nextAvailable: nat,
                                          soundFailure: Option<nat>, firstFailure: Option<nat>, evs: seq<SdlEvent>, s: InputState)
    ensures var out := InputRun(myId, rect, clip, nextAvailable, soundFailure, firstFailure, evs, s).0;
      |out| == |evs| &&
      forall k :: 0 <= k < |evs| ==>
        out[k].e == evs[k].e &&
        (evs[k].Consumed() ==> out[k] == evs[k]) &&
        (out[k].Consumed() && !evs[k].Consumed() ==> InputEvent(evs[k].e))
  {
    if |evs| > 0 {
      var n := |evs|;
      InputRunEvents(myId, rect, clip, nextAvailable, soundFailure, firstFailure, evs[..n - 1], s);
      var t := InputRun(myId, rect, clip, nextAvailable, soundFailure, firstFailure, evs[..n - 1], s).1;
      InputStepFacts(myId, rect, clip, nextAvailable, soundFailure, firstFailure, evs[n - 1], t);
    }
  }

  /**
   * Over a whole frame sounds and runs only accumulate, a failure ends the
   * frame, and once the widget counts as focused the focus sound does not
   * play again.
   */
  lemma {:induction false} InputRunFacts(myId: FocusId, rect: Option<Rect>, clip: ClippingRect, nextAvailable: nat,
                                         soundFailure: Option<nat>, firstFailure: Option<nat>, evs: seq<SdlEvent>, s: InputState)
    ensures var s' := InputRun(myId, rect, clip, nextAvailable, soundFailure, firstFailure, evs, s).1;
      (s.failed ==> s' == s) && Accumulates(s, s')
  {
    if |evs| > 0 {
      var n := |evs|;
      InputRunFacts(myId, rect, clip, nextAvailable, soundFailure, firstFailure, evs[..n - 1], s);
      var t := InputRun(myId, rect, clip, nextAvailable, soundFailure, firstFailure, evs[..n - 1], s).1;
      InputStepFacts(myId, rect, clip, nextAvailable, soundFailure, firstFailure, evs[n - 1], t);
      var t' := InputStep(myId, rect, clip, nextAvailable, soundFailure, firstFailure, evs[n - 1], t).1;
      AccumulatesTransitive(s, t, t');
    }
  }

  /**
   * From `s` to `s'` sounds were only added and runs only counted up, and
   * once the widget counted as focused it still does and the focus sound
   * was not added.
   */
  predicate Accumulates(s: InputState, s': InputState)
  {
    |s.sounds| <= |s'.sounds| && s'.sounds[..|s.sounds|] == s.sounds && s.calls <= s'.calls &&
    (s.previouslyFocused ==> s'.previouslyFocused && FocusSound !in s'.sounds[|s.sounds|..])
  }

  lemma AccumulatesTransitive(s: InputState, t: InputState, u: InputState)
    requires Accumulates(s, t) && Accumulates(t, u)
    ensures Accumulates(s, u)
  {
    assert u.sounds[..|s.sounds|] == t.sounds[..|s.sounds|];
    assert u.sounds[|s.sounds|..] == t.sounds[|s.sounds|..] + u.sounds[|t.sounds|..];
  }

  /** One step of the frame, for `InputRunFacts`. */
  lemma InputStepFacts(myId: FocusId, rect: Option<Rect>, clip: ClippingRect, nextAvailable: nat,
                       soundFailure: Option<nat>, firstFailure: Option<nat>, ev: SdlEvent, s: InputState)
    ensures var (out, s') := InputStep(myId, rect, clip, nextAvailable, soundFailure, firstFailure, ev, s);
      out.e == ev.e &&
      (ev.Consumed() ==> out == ev) &&
      (out.Consumed() && !ev.Consumed() ==> InputEvent(ev.e)) &&
      (s.failed ==> s' == s) && Accumulates(s, s')
  {
    if !s.failed && ev.Available() {
      var (ev1, focus1) := FocusRule(myId, rect, clip, ev, s.focus, nextAvailable);
      var s1 := s.(focus := focus1);
      if focus1 == Some(myId) {
        var s2 := if s1.previouslyFocused then s1 else Play(FocusSound, s1.(previouslyFocused := true), soundFailure);
        if !s2.failed && !ev1.Consumed() {
          EditFacts(ev1.e, s2, soundFailure, firstFailure);
          var s3 := Edit(ev1.e, s2, soundFailure, firstFailure).1;
          assert s3.sounds[..|s.sounds|] == s2.sounds[..|s.sounds|];
          if s.previouslyFocused {
            assert s3.sounds[|s.sounds|..] == s3.sounds[|s2.sounds|..];
          }
        }
      }
    }
  }

  /**
   * The key handling consumes only input events, plays at most one sound
   * and never the focus sound, and leaves the focus alone.
   */
  lemma EditFacts(e: Event, s: InputState, soundFailure: Option<nat>, firstFailure: Option<nat>)
    ensures var (consume, s') := Edit(e, s, soundFailure, firstFailure);
      (consume ==> InputEvent(e)) &&
      s'.focus == s.focus && s'.previouslyFocused == s.previouslyFocused && s.calls <= s'.calls &&
      (s'.sounds == s.sounds ||
       (|s'.sounds| == |s.sounds| + 1 && s'.sounds[..|s.sounds|] == s.sounds && s'.sounds[|s.sounds|] != FocusSound))
  {
  }

  /** The mouse moving over the visible widget: the only way it can gain the focus. */
  predicate PointsAtWidget(rect: Option<Rect>, clip: ClippingRect, ev: SdlEvent)
  {
    ev.Available() && ev.e.MouseMotion? && rect.Some? &&
    ContainsPoint(rect.value, ev.e.x, ev.e.y) && ClipContainsPoint(clip, ev.e.x, ev.e.y)
  }

  /**
   * Key handling happens only while focused: a widget that starts the
   * frame unfocused and is never pointed at edits nothing, plays nothing,
   * runs nothing and consumes nothing.
   */
  lemma {:induction false} UnfocusedEditsNothing(myId: FocusId, rect: Option<Rect>, clip: ClippingRect, nextAvailable: nat,
                                                 soundFailure: Option<nat>, firstFailure: Option<nat>, evs: seq<SdlEvent>, s: InputState)
    requires s.focus != Some(myId)
    requires forall k :: 0 <= k < |evs| ==> !PointsAtWidget(rect, clip, evs[k])
    ensures var (out, s') := InputRun(myId, rect, clip, nextAvailable, soundFailure, firstFailure, evs, s);
      out == evs && s'.focus != Some(myId) && s' == s.(focus := s'.focus)
  {
    if |evs| > 0 {
      var n := |evs|;
      UnfocusedEditsNothing(myId, rect, clip, nextAvailable, soundFailure, firstFailure, evs[..n - 1], s);
      var t := InputRun(myId, rect, clip, nextAvailable, soundFailure, firstFailure, evs[..n - 1], s).1;
      UnfocusedStep(myId, rect, clip, nextAvailable, soundFailure, firstFailure, evs[n - 1], t);
      assert evs == evs[..n - 1] + [evs[n - 1]];
    }
  }

  /** One step of `UnfocusedEditsNothing`. */
  lemma UnfocusedStep(myId: FocusId, rect: Option<Rect>, clip: ClippingRect, nextAvailable: nat,
                      soundFailure: Option<nat>, firstFailure: Option<nat>, ev: SdlEvent, s: InputState)
    requires s.focus != Some(myId) && !PointsAtWidget(rect, clip, ev)
    ensures var (out, s') := InputStep(myId, rect, clip, nextAvailable, soundFailure, firstFailure, ev, s);
      out == ev && s'.focus != Some(myId) && s' == s.(focus := s'.focus)
  {
  }

  /**
   * The focus sound marks the rising edge of the focus: a frame that starts
   * with the widget newly focused plays it first, and one where the widget
   * was already focused last frame does not play it at all.
   */
  lemma FocusSoundOnRisingEdge(myId: FocusId, focus: Option<nat>, nextAvailable: nat, rect: Option<Rect>,
                               clip: ClippingRect, evs: seq<SdlEvent>, text: string, previousTimestamp: nat,
                               focusedPreviousFrame: bool, soundFailure: Option<nat>, firstFailure: Option<nat>)
    requires focus == Some(myId)
    ensures var s := FrameUpdate(myId, true, focus, nextAvailable, rect, clip, evs, text, previousTimestamp,
                            focusedPreviousFrame, soundFailure, firstFailure).1;
      (!focusedPreviousFrame ==> |s.sounds| > 0 && s.sounds[0] == FocusSound) &&
      (focusedPreviousFrame ==> FocusSound !in s.sounds)
  {
    var s0 := InputState(text, previousTimestamp, focus, true, [], 0, false);
    var s1 := if !focusedPreviousFrame then Play(FocusSound, s0, soundFailure) else s0;
    InputRunFacts(myId, rect, clip, nextAvailable, soundFailure, firstFailure, evs, s1);
    var s2 := InputRun(myId, rect, clip, nextAvailable, soundFailure, firstFailure, evs, s1).1;
    if !focusedPreviousFrame {
      assert s2.sounds[..1] == [FocusSound];
    } else {
      assert s2.sounds[0..] == s2.sounds;
    }
  }

  /** `InputRun` over one more event appends that event's step. */
  lemma InputRunSnoc(myId: FocusId, rect: Option<Rect>, clip: ClippingRect, nextAvailable: nat,
                     soundFailure: Option<nat>, firstFailure: Option<nat>, evs: seq<SdlEvent>, s: InputState, i: nat)
    requires i < |evs|
    ensures var (done, s') := InputRun(myId, rect, clip, nextAvailable, soundFailure, firstFailure, evs[..i], s);
      var (ev, s'') := InputStep(myId, rect, clip, nextAvailable, soundFailure, firstFailure, evs[i], s');
      InputRun(myId, rect, clip, nextAvailable, soundFailure, firstFailure, evs[..i + 1], s) == (done + [ev], s'')
  {
    assert evs[..i + 1][..i] == evs[..i];
  }

  /** After a failing step the remaining events are handed back untouched. */
  lemma {:induction false} RunAfterFailure(myId: FocusId, rect: Option<Rect>, clip: ClippingRect, nextAvailable: nat,
                                           soundFailure: Option<nat>, firstFailure: Option<nat>,
                                           evs: seq<SdlEvent>, s: InputState, i: nat)
    requires i <= |evs|
    requires InputRun(myId, rect, clip, nextAvailable, soundFailure, firstFailure, evs[..i], s).1.failed
    ensures var (done, s') := InputRun(myId, rect, clip, nextAvailable, soundFailure, firstFailure, evs[..i], s);
      InputRun(myId, rect, clip, nextAvailable, soundFailure, firstFailure, evs, s) == (done + evs[i..], s')
    decreases |evs| - i
  {
    if i < |evs| {
      var n := |evs|;
      var init := evs[..n - 1];
      assert init[..i] == evs[..i];
      RunAfterFailure(myId, rect, clip, nextAvailable, soundFailure, firstFailure, init, s, i);
      var (done, s') := InputRun(myId, rect, clip, nextAvailable, soundFailure, firstFailure, evs[..i], s);
      var (d1, t1) := InputRun(myId, rect, clip, nextAvailable, soundFailure, firstFailure, init, s);
      assert d1 == done + init[i..] && t1 == s';
      assert InputStep(myId, rect, clip, nextAvailable, soundFailure, firstFailure, evs[n - 1], t1) == (evs[n - 1], t1);
      assert InputRun(myId, rect, clip, nextAvailable, soundFailure, firstFailure, evs, s) == (d1 + [evs[n - 1]], t1);
      assert init[i..] + [evs[n - 1]] == evs[i..];
      assert done + init[i..] + [evs[n - 1]] == done + evs[i..];
    } else {
      assert evs[..i] == evs;
      assert evs[i..] == [];
      var done := InputRun(myId, rect, clip, nextAvailable, soundFailure, firstFailure, evs[..i], s).0;
      assert done + [] == done;
    }
  }

  /** `default_widget_focus_behavior` for the `i`-th event of the frame. */
  method FocusRuleAt(myId: FocusId, manager: FocusManager, rect: Option<Rect>, clip: ClippingRect,
                     events: array<SdlEvent>, i: nat)
    requires i < events.Length
    modifies events, manager
    ensures manager.nextAvailable == old(manager.nextAvailable)
    ensures var (ev, f) := FocusRule(myId, rect, clip, old(events[i]), old(manager.currentFocus), manager.nextAvailable);
      events[..] == old(events[..])[i := ev] && manager.currentFocus == f
  {
    var ev := events[i];
    match ev.e {
      case MouseMotion(_, x, y) =>
        if ev.Available() && rect.Some? && ContainsPoint(rect.value, x, y) && ClipContainsPoint(clip, x, y) {
          manager.SetFocus(myId);
        } else {
          manager.Unfocus(myId);
        }
      case KeyDown(key, repeat, keymod, _) =>
        if !repeat && key == Tab && !ev.Consumed() && manager.IsFocused(myId) {
          events[i] := ev.MarkConsumed();
          if keymod.Shift() {
            manager.SetPreviousFocused();
          } else {
            manager.SetNextFocused();
          }
        }
      case _ =>
    }
  }

  /**
   * The frame's fold is complete once every event is handled or a sound
   * failed: the events not reached are passed over unchanged.
   */
  lemma RunFinished(myId: FocusId, rect: Option<Rect>, clip: ClippingRect, nextAvailable: nat,
                    soundFailure: Option<nat>, firstFailure: Option<nat>,
                    evs: seq<SdlEvent>, orig: seq<SdlEvent>, s: InputState, s': InputState, i: nat)
    requires i <= |evs| == |orig|
    requires (evs[..i], s') == InputRun(myId, rect, clip, nextAvailable, soundFailure, firstFailure, orig[..i], s)
    requires forall j :: i <= j < |evs| ==> evs[j] == orig[j]
    requires i == |evs| || s'.failed
    ensures (evs, s') == InputRun(myId, rect, clip, nextAvailable, soundFailure, firstFailure, orig, s)
  {
    if i < |evs| {
      RunAfterFailure(myId, rect, clip, nextAvailable, soundFailure, firstFailure, orig, s, i);
      assert evs[i..] == orig[i..];
      assert evs == evs[..i] + evs[i..];
    } else {
      assert evs == evs[..i] && orig == orig[..i];
    }
  }

  // ------------------------------------------------------------ drawing

  /** Where the caret goes: at the left edge, the right edge, or after text narrower than the box. */
  datatype CaretPosition = Left | Right | Other(x: real)

  /**
   * The caret `draw` chooses for rendered text of `textureSize` shown in
   * `position`: scaled to the position's height, text narrower than the
   * box puts the caret after it; wider text is cut to its right-most part
   * and the caret sits at the right edge; empty text, or a texture without
   * height, puts it at the left.
   */
  function ChooseCaret(textEmpty: bool, textureSize: (nat, nat), position: Rect): (c: CaretPosition)
    ensures c.Left? <==> textEmpty || textureSize.1 == 0
    ensures !c.Left? ==>
      var scaled := ScaledWidth(textureSize, position.h);
      (c.Other? <==> scaled < position.w as real) && (c.Other? ==> c.x == scaled)
  {
    if !textEmpty && textureSize.1 != 0 then
      var scaled := ScaledWidth(textureSize, position.h);
      if scaled < position.w as real then CaretPosition.Other(scaled) else CaretPosition.Right
    else CaretPosition.Left
  }

  /** The texture's width once its height is scaled to `height`. */
  function ScaledWidth(textureSize: (nat, nat), height: nat): real
    requires textureSize.1 != 0
  {
    textureSize.0 as real * (height as real / textureSize.1 as real)
  }

  /** The caret's offset passed to the style: 0, `width.saturating_sub(1)`, or the text's width. */
  function CaretX(c: CaretPosition, width: nat): real
  {
    match c
    case Left => 0.0
    case Right => if width == 0 then 0.0 else (width - 1) as real
    case Other(x) => x
  }

  /** The caret always lies within the box. */
  lemma CaretWithinBox(textEmpty: bool, textureSize: (nat, nat), position: Rect)
    requires position.w > 0
    ensures var x := CaretX(ChooseCaret(textEmpty, textureSize, position), position.w);
      0.0 <= x < position.w as real
  {
    if !textEmpty && textureSize.1 != 0 {
      var scaled := ScaledWidth(textureSize, position.h);
      assert scaled >= 0.0 by {
        assert position.h as real / textureSize.1 as real >= 0.0;
      }
    }
  }

  /**
   * When the text is cut to its right-most part, the part shown is no wider
   * than the texture, so the source rectangle's left edge
   * (`query.width - width_amount`) does not underflow.
   */
  function ShownWidth(textureSize: (nat, nat), position: Rect): (w: nat)
    requires textureSize.1 != 0 && ScaledWidth(textureSize, position.h) >= position.w as real
    ensures w <= textureSize.0
  {
    var portion := Portion(position.w as real, ScaledWidth(textureSize, position.h));
    FloorOfPart(textureSize.0, portion)
  }

  /** The share `part / whole` of a length, 0 for an empty whole. */
  function Portion(part: real, whole: real): (p: real)
    requires 0.0 <= part <= whole
    ensures 0.0 <= p <= 1.0
  {
    if whole == 0.0 then 0.0
    else
      RatioAtMostOne(part, whole);
      part / whole
  }

  /** The whole pixels of `n * p`, never more than `n`. */
  function FloorOfPart(n: nat, p: real): (w: nat)
    requires 0.0 <= p <= 1.0
    ensures w <= n
  {
    var shown := n as real * p;
    ScaleDown(n as real, p);
    FloorWithin(shown, n);
    shown.Floor as nat
  }

  lemma FloorWithin(x: real, n: nat)
    requires 0.0 <= x <= n as real
    ensures 0 <= x.Floor <= n
  {
  }

  lemma RatioAtMostOne(a: real, b: real)
    requires 0.0 <= a <= b && b != 0.0
    ensures 0.0 <= a / b <= 1.0
  {
    assert a / b * b == a;
  }

  lemma ScaleDown(a: real, p: real)
    requires 0.0 <= a && 0.0 <= p <= 1.0
    ensures 0.0 <= a * p <= a
  {
    assert a * p + a * (1.0 - p) == a;
  }

  /** A rendered label: the text and properties it was rendered with, and its texture's size. */
  datatype LabelCache = LabelCache(text: string, pointSize: nat, renderType: nat, size: (nat, nat))

  /** The font's point size for a position's height, saturating at `u16::MAX`. */
  function PointSize(height: nat): (p: nat)
    ensures p <= 65535 && (height <= 65535 ==> p == height)
  {
    if height <= 65535 then height else 65535
  }

  /** A style texture: whether drawn focused, its size, and the text and caret it was drawn for. */
  datatype StyleTexture = StyleTexture(focused: bool, size: (nat, nat), text: string, caret: real)

  /** The style's `TextureVariantSizeCache`: one texture, keyed on its size and the text. */
  class StyleCache {
    var cache: Option<StyleTexture>
    var textUsed: string
    ghost const owner: bool

    /** The cached texture was drawn for this cache's focus state and for `textUsed`. */
    ghost predicate Valid()
      reads this
    {
      cache.Some? ==> cache.value.focused == owner && cache.value.text == textUsed
    }

    constructor (ghost owner: bool)
      ensures cache.None? && textUsed == "" && this.owner == owner && Valid()
    {
      cache := None;
      textUsed := "";
      this.owner := owner;
    }

    /**
     * `render`: reuse the texture exactly when both its size and the text
     * are unchanged; otherwise draw a new one. A failed render leaves the
     * cache empty.
     */
    method Render(focused: bool, size: (nat, nat), text: string, caret: real, createOk: bool, drawOk: bool)
      returns (texture: Option<StyleTexture>)
      requires Valid() && focused == owner
      modifies this
      ensures Valid() && cache == texture
      ensures old(cache).Some? && old(cache).value.size == size && old(textUsed) == text ==>
        texture == old(cache) && textUsed == old(textUsed)
      ensures !(old(cache).Some? && old(cache).value.size == size && old(textUsed) == text) ==>
        (createOk && drawOk ==> texture == Some(StyleTexture(focused, size, text, caret)) && textUsed == text) &&
        (!(createOk && drawOk) ==> texture.None? && textUsed == old(textUsed))
    {
      var kept := if cache.Some? && cache.value.size == size && textUsed == text then cache else None;
      cache := None;
      if kept.Some? {
        texture := kept;
      } else {
        if !(createOk && drawOk) {
          return None;
        }
        textUsed := text;
        texture := Some(StyleTexture(focused, size, text, caret));
      }
      cache := texture;
    }
  }

  // ------------------------------------------------------------ the widget

  /** `SingleLineTextInput`. */
  class SingleLineTextInput {
    const focusId: FocusId
    var focusedPreviousFrame: bool
    var previousTextInputTimestamp: nat
    const text: DefaultSingleLineTextEditState
    var minH: MinLen
    var maxH: MaxLen
    var minHFailPolicy: MinLenFailPolicy
    var maxHFailPolicy: MaxLenFailPolicy
    var preferredW: PreferredPortion
    var preferredH: PreferredPortion
    /** Stands for `text_properties`, the font's render type. */
    var renderType: nat
    var labelCache: Option<LabelCache>
    /** The position `update` saw, kept for `draw`. */
    var drawPos: FRect
    const focusedStyle: StyleCache
    const notFocusedStyle: StyleCache

    ghost predicate Valid()
      reads this, focusedStyle, notFocusedStyle
    {
      focusedStyle.owner && !notFocusedStyle.owner && focusedStyle.Valid() && notFocusedStyle.Valid()
    }

    /** `new`: unfocused last frame, limiter at 0, default sizing, nothing rendered. */
    constructor (focusId: FocusId, text: DefaultSingleLineTextEditState, renderType: nat)
      ensures Valid()
      ensures this.focusId == focusId && this.text == text && this.renderType == renderType
      ensures !focusedPreviousFrame && previousTextInputTimestamp == 0 && labelCache.None?
      ensures Sizing() == DEFAULT
      ensures focusedStyle.cache.None? && notFocusedStyle.cache.None?
    {
      this.focusId := focusId;
      this.text := text;
      this.renderType := renderType;
      focusedPreviousFrame := false;
      previousTextInputTimestamp := 0;
      minH := MIN_LAX;
      maxH := MAX_LAX;
      minHFailPolicy := MIN_CENTERED;
      maxHFailPolicy := MAX_CENTERED;
      preferredW := FULL;
      preferredH := FULL;
      labelCache := None;
      drawPos := FRect(0.0, 0.0, 0.0, 0.0);
      focusedStyle := new StyleCache(true);
      notFocusedStyle := new StyleCache(false);
    }

    /**
     * The sizing queries: the trait's defaults, except the height limits,
     * their fail policies and the preferred portions, which are fields.
     */
    function Sizing(): (s: Sizing)
      reads this
      ensures s.minW == MIN_LAX && s.maxW == MAX_LAX && s.link == NoLink && !s.linkExceed
      ensures s.minH == minH && s.maxH == maxH && s.minHFail == minHFailPolicy && s.maxHFail == maxHFailPolicy
      ensures s.prefW == preferredW && s.prefH == preferredH
    {
      DEFAULT.(minH := minH, maxH := maxH, minHFail := minHFailPolicy, maxHFail := maxHFailPolicy,
               prefW := preferredW, prefH := preferredH)
    }

    /** The text, as `s` records it. */
    ghost predicate Mirrors(s: InputState)
      reads text
    {
      text.inner == s.text
    }

    /**
     * `update`: see `FrameUpdate`. `soundFailure` and `firstFailure` stand for
     * the sound style's and the functionality's behaviour; `sounds` is
     * what was played and `calls` how often the functionality ran.
     */
    method Update(fm: Option<FocusManager>, position: FRect, clip: ClippingRect, events: array<SdlEvent>,
                  soundFailure: Option<nat>, firstFailure: Option<nat>)
      returns (sounds: seq<SoundVariant>, calls: nat, ok: bool)
      modifies this, text, events, ManagerFrame(fm)
      ensures drawPos == position && Sizing() == old(Sizing()) && labelCache == old(labelCache)
      ensures renderType == old(renderType)
      ensures NextAvailableOf(fm) == old(NextAvailableOf(fm))
      ensures var (out, s, fpf) := FrameUpdate(focusId, fm.Some?, old(FocusOf(fm)), NextAvailableOf(fm), ToRect(position),
                                                    clip, old(events[..]), old(text.inner), old(previousTextInputTimestamp),
                                                    old(focusedPreviousFrame), soundFailure, firstFailure);
        events[..] == out && text.inner == s.text && previousTextInputTimestamp == s.previousTimestamp &&
        FocusOf(fm) == s.focus && sounds == s.sounds && calls == s.calls && ok == !s.failed &&
        focusedPreviousFrame == fpf
    {
      drawPos := position;
      if fm.None? {
        return [], 0, true;
      }
      var manager := fm.value;
      var s := RunFrame(manager, ToRect(position), clip, events, previousTextInputTimestamp, focusedPreviousFrame,
                        soundFailure, firstFailure);
      previousTextInputTimestamp := s.previousTimestamp;
      if !s.failed {
        focusedPreviousFrame := manager.IsFocused(focusId);
      }
      sounds, calls, ok := s.sounds, s.calls, !s.failed;
    }

    /** `update` with a focus manager, up to storing the limiter's timestamp and the focus state. */
    method RunFrame(manager: FocusManager, rect: Option<Rect>, clip: ClippingRect, events: array<SdlEvent>,
                    previousTimestamp: nat, focusedPreviousFrame: bool,
                    soundFailure: Option<nat>, firstFailure: Option<nat>) returns (s: InputState)
      modifies text, events, manager
      ensures manager.nextAvailable == old(manager.nextAvailable)
      ensures var (out, t, _) := FrameUpdate(focusId, true, old(manager.currentFocus), manager.nextAvailable, rect, clip,
                                             old(events[..]), old(text.inner), previousTimestamp,
                                             focusedPreviousFrame, soundFailure, firstFailure);
        events[..] == out && s == t && text.inner == s.text && manager.currentFocus == s.focus
    {
      var previouslyFocused := manager.IsFocused(focusId);
      s := InputState(text.inner, previousTimestamp, manager.currentFocus, previouslyFocused, [], 0, false);
      if previouslyFocused && !focusedPreviousFrame {
        s := Play(FocusSound, s, soundFailure);
        if s.failed {
          return;
        }
      }
      s := EventLoop(manager, rect, clip, events, s, soundFailure, firstFailure);
    }

    /** The event loop of `update`, which ends at the first failure. */
    method EventLoop(manager: FocusManager, rect: Option<Rect>, clip: ClippingRect, events: array<SdlEvent>,
                     s: InputState, soundFailure: Option<nat>, firstFailure: Option<nat>) returns (s': InputState)
      requires !s.failed && Mirrors(s) && manager.currentFocus == s.focus
      modifies text, events, manager
      ensures Mirrors(s') && manager.currentFocus == s'.focus && manager.nextAvailable == old(manager.nextAvailable)
      ensures (events[..], s') ==
        InputRun(focusId, rect, clip, manager.nextAvailable, soundFailure, firstFailure, old(events[..]), s)
    {
      ghost var orig := events[..];
      ghost var next := manager.nextAvailable;
      s' := s;
      var i := 0;
      while i < events.Length && !s'.failed
        invariant 0 <= i <= events.Length
        invariant Mirrors(s') && manager.currentFocus == s'.focus && manager.nextAvailable == next
        invariant (events[..i], s') == InputRun(focusId, rect, clip, next, soundFailure, firstFailure, orig[..i], s)
        invariant forall j :: i <= j < events.Length ==> events[j] == orig[j]
      {
        s' := EventAdvance(manager, rect, clip, events, i, s, s', soundFailure, firstFailure, orig);
        i := i + 1;
      }
      RunFinished(focusId, rect, clip, next, soundFailure, firstFailure, events[..], orig, s, s', i);
    }

    /** `EventAt` as a step of the frame's fold: the first `i + 1` events are done. */
    method EventAdvance(manager: FocusManager, rect: Option<Rect>, clip: ClippingRect, events: array<SdlEvent>, i: nat,
                        ghost s0: InputState, s: InputState, soundFailure: Option<nat>, firstFailure: Option<nat>,
                        ghost orig: seq<SdlEvent>) returns (s': InputState)
      requires i < events.Length == |orig| && !s.failed && Mirrors(s) && manager.currentFocus == s.focus
      requires (events[..i], s) == InputRun(focusId, rect, clip, manager.nextAvailable, soundFailure, firstFailure, orig[..i], s0)
      requires forall j :: i <= j < events.Length ==> events[j] == orig[j]
      modifies text, events, manager
      ensures Mirrors(s') && manager.currentFocus == s'.focus && manager.nextAvailable == old(manager.nextAvailable)
      ensures (events[..i + 1], s') == InputRun(focusId, rect, clip, manager.nextAvailable, soundFailure, firstFailure, orig[..i + 1], s0)
      ensures forall j :: i < j < events.Length ==> events[j] == orig[j]
    {
      ghost var done := events[..i];
      s' := EventAt(manager, rect, clip, events, i, s, soundFailure, firstFailure);
      assert events[..i + 1] == done + [events[i]];
      InputRunSnoc(focusId, rect, clip, manager.nextAvailable, soundFailure, firstFailure, orig, s0, i);
    }

    /** The loop body of `update` for the `i`-th event. */
    method EventAt(manager: FocusManager, rect: Option<Rect>, clip: ClippingRect, events: array<SdlEvent>, i: nat,
                   s: InputState, soundFailure: Option<nat>, firstFailure: Option<nat>) returns (s': InputState)
      requires i < events.Length && !s.failed && Mirrors(s) && manager.currentFocus == s.focus
      modifies text, events, manager
      ensures Mirrors(s') && manager.currentFocus == s'.focus && manager.nextAvailable == old(manager.nextAvailable)
      ensures var (ev, t) := InputStep(focusId, rect, clip, manager.nextAvailable, soundFailure, firstFailure, old(events[i]), s);
        events[..] == old(events[..])[i := ev] && s' == t
    {
      s' := s;
      if !events[i].Available() {
        return;
      }
      FocusRuleAt(focusId, manager, rect, clip, events, i);
      s' := s'.(focus := manager.currentFocus);
      if !manager.IsFocused(focusId) {
        return;
      }
      s' := FocusedAt(events, i, s', soundFailure, firstFailure);
    }

    /** The loop body of `update` once the widget holds the focus. */
    method FocusedAt(events: array<SdlEvent>, i: nat, s: InputState, soundFailure: Option<nat>, firstFailure: Option<nat>)
      returns (s': InputState)
      requires i < events.Length && !s.failed && Mirrors(s)
      modifies text, events
      ensures Mirrors(s') && s'.focus == s.focus
      ensures var (ev, t) := FocusedStep(soundFailure, firstFailure, old(events[i]), s);
        events[..] == old(events[..])[i := ev] && s' == t
    {
      s' := s;
      if !s'.previouslyFocused {
        s' := Play(FocusSound, s'.(previouslyFocused := true), soundFailure);
        if s'.failed {
          return;
        }
      }
      if events[i].Consumed() {
        return;
      }
      var consume;
      consume, s' := EditKey(events[i].e, s', soundFailure, firstFailure);
      if consume {
        events[i] := events[i].MarkConsumed();
      }
    }

    /** The key handling of `update` for one event while focused. */
    method EditKey(e: Event, s: InputState, soundFailure: Option<nat>, firstFailure: Option<nat>)
      returns (consume: bool, s': InputState)
      requires Mirrors(s) && !s.failed
      modifies text
      ensures Mirrors(s')
      ensures (consume, s') == Edit(e, s, soundFailure, firstFailure)
    {
      s' := s;
      match e {
        case KeyUp(Return, repeat, _, _) =>
          consume := true;
          if !repeat {
            s' := Play(Enter, s', soundFailure);
            if !s'.failed {
              s' := s'.(calls := s'.calls + 1, failed := firstFailure == Some(s'.calls));
            }
          }
        case KeyDown(Backspace, _, keymod, timestamp) =>
          consume := true;
          var content := text.Get();
          if |content| > 0 && SoundAllowed(timestamp, s'.previousTimestamp) {
            s' := Play(TextRemoved, s'.(previousTimestamp := timestamp), soundFailure);
            if s'.failed {
              return;
            }
          }
          if keymod.Ctrl() {
            content := "";
          } else {
            content := Pop(content);
          }
          text.Set(content);
          s' := s'.(text := content);
        case TextInput(typed, timestamp) =>
          consume := true;
          if SoundAllowed(timestamp, s'.previousTimestamp) {
            s' := Play(TextAdded, s'.(previousTimestamp := timestamp), soundFailure);
            if s'.failed {
              return;
            }
          }
          var content := text.Get();
          text.Set(content + typed);
          s' := s'.(text := content + typed);
        case _ =>
          consume := false;
      }
    }

    /** `update_adjust_position`: move the kept position by a layout's offset. */
    method UpdateAdjustPosition(dx: int, dy: int)
      modifies this
      ensures drawPos == old(drawPos).(x := old(drawPos).x + dx as real, y := old(drawPos).y + dy as real)
      ensures focusedPreviousFrame == old(focusedPreviousFrame) && previousTextInputTimestamp == old(previousTextInputTimestamp)
      ensures Sizing() == old(Sizing()) && labelCache == old(labelCache) && renderType == old(renderType)
    {
      drawPos := drawPos.(x := drawPos.x + dx as real, y := drawPos.y + dy as real);
    }

    /**
     * `draw`, at the position `update` kept. The label is re-rendered
     * only when the text or the render properties changed; `renderedSize`
     * is the size of the texture the font renders then. The caret is chosen
     * from the label actually shown, and the style texture for the focus
     * state is drawn with it. `fontOk`, `textCopyOk`, `createOk`, `styleOk`
     * and `copyOk` stand for the results of the font, the SDL calls and the
     * style. A failure to render or copy the label drops the label cache.
     */
    method Draw(fm: Option<FocusManager>, renderedSize: (nat, nat), fontOk: bool, textCopyOk: bool,
                createOk: bool, styleOk: bool, copyOk: bool)
      returns (caret: Option<CaretPosition>, ok: bool)
      requires Valid()
      modifies this, text, focusedStyle, notFocusedStyle
      ensures Valid() && text.inner == old(text.inner)
      ensures drawPos == old(drawPos) && Sizing() == old(Sizing()) && focusedPreviousFrame == old(focusedPreviousFrame)
      ensures renderType == old(renderType) && previousTextInputTimestamp == old(previousTextInputTimestamp)
      ensures ToRect(drawPos).None? ==>
        caret.None? && ok && labelCache == old(labelCache) &&
        focusedStyle.cache == old(focusedStyle.cache) && notFocusedStyle.cache == old(notFocusedStyle.cache)
      ensures ToRect(drawPos).Some? ==>
        var r := ToRect(drawPos).value;
        var reuse := old(labelCache).Some? && old(labelCache).value.text == text.inner &&
                     old(labelCache).value.pointSize == PointSize(r.h) && old(labelCache).value.renderType == renderType;
        (labelCache.Some? ==>
          labelCache.value == (if reuse then old(labelCache).value
                               else LabelCache(text.inner, PointSize(r.h), renderType, renderedSize)) &&
          caret == Some(ChooseCaret(|text.inner| == 0, labelCache.value.size, r))) &&
        (labelCache.None? ==> caret.None? && !ok) &&
        var labelSize := if reuse then old(labelCache).value.size else renderedSize;
        (labelCache.Some? <==>
          (reuse || fontOk) && (ChooseCaret(|text.inner| == 0, labelSize, r).Left? || textCopyOk)) &&
        var focused := fm.Some? && FocusOf(fm) == Some(focusId);
        var style := if focused then focusedStyle else notFocusedStyle;
        var other := if focused then notFocusedStyle else focusedStyle;
        var hit := old(style.cache).Some? && old(style.cache).value.size == (r.w, r.h) && old(style.textUsed) == text.inner;
        other.cache == old(other.cache) &&
        (caret.None? ==> style.cache == old(style.cache)) &&
        (caret.Some? && hit ==> style.cache == old(style.cache)) &&
        (caret.Some? && !hit ==>
          style.cache == (if createOk && styleOk then Some(StyleTexture(focused, (r.w, r.h), text.inner, CaretX(caret.value, r.w)))
                          else None)) &&
        (caret.Some? && style.cache.Some? ==>
          style.cache.value.size == (r.w, r.h) && style.cache.value.text == text.inner &&
          style.cache.value.focused == focused) &&
        (ok <==> caret.Some? && style.cache.Some? && copyOk)
    {
      var rect := ToRect(drawPos);
      if rect.None? {
        return None, true;
      }
      var r := rect.value;
      caret := DrawLabel(r, renderedSize, fontOk, textCopyOk);
      if caret.None? {
        return caret, false;
      }
      ok := DrawStyle(fm, r, caret.value, createOk, styleOk, copyOk);
    }

    /**
     * The label part of `draw` on the pixel rectangle `r`: the label is kept
     * when the text and the render properties are unchanged, otherwise the
     * font renders it; the caret is chosen from the label shown, and
     * copying the label (every caret but `Left`) must succeed for the label
     * to be kept.
     */
    method DrawLabel(r: Rect, renderedSize: (nat, nat), fontOk: bool, textCopyOk: bool) returns (caret: Option<CaretPosition>)
      modifies this`labelCache, text
      ensures text.inner == old(text.inner)
      ensures var reuse := old(labelCache).Some? && old(labelCache).value.text == text.inner &&
                           old(labelCache).value.pointSize == PointSize(r.h) && old(labelCache).value.renderType == renderType;
        var labelSize := if reuse then old(labelCache).value.size else renderedSize;
        (labelCache.Some? <==>
          (reuse || fontOk) && (ChooseCaret(|text.inner| == 0, labelSize, r).Left? || textCopyOk)) &&
        (labelCache.Some? ==>
          labelCache.value == (if reuse then old(labelCache).value
                               else LabelCache(text.inner, PointSize(r.h), renderType, renderedSize)) &&
          caret == Some(ChooseCaret(|text.inner| == 0, labelCache.value.size, r))) &&
        (labelCache.None? ==> caret.None?)
    {
      var pointSize := PointSize(r.h);
      var current := text.Get();
      var lbl: LabelCache;
      if labelCache.Some? && labelCache.value.text == current && labelCache.value.pointSize == pointSize &&
         labelCache.value.renderType == renderType {
        lbl := labelCache.value;
        labelCache := None;
      } else {
        labelCache := None;
        if !fontOk {
          return None;
        }
        lbl := LabelCache(current, pointSize, renderType, renderedSize);
      }
      var c := ChooseCaret(|lbl.text| == 0, lbl.size, r);
      if !c.Left? && !textCopyOk {
        return None;
      }
      labelCache := Some(lbl);
      caret := Some(c);
    }

    /**
     * The style part of `draw`: the style texture for the focus state is
     * rendered through its cache with the caret's offset and copied to `r`;
     * the other focus state's cache is left alone.
     */
    method DrawStyle(fm: Option<FocusManager>, r: Rect, caret: CaretPosition, createOk: bool, styleOk: bool, copyOk: bool)
      returns (ok: bool)
      requires Valid()
      modifies text, focusedStyle, notFocusedStyle
      ensures Valid() && text.inner == old(text.inner)
      ensures var focused := fm.Some? && FocusOf(fm) == Some(focusId);
        var style := if focused then focusedStyle else notFocusedStyle;
        var other := if focused then notFocusedStyle else focusedStyle;
        var hit := old(style.cache).Some? && old(style.cache).value.size == (r.w, r.h) && old(style.textUsed) == text.inner;
        other.cache == old(other.cache) &&
        (hit ==> style.cache == old(style.cache)) &&
        (!hit ==>
          style.cache == (if createOk && styleOk then Some(StyleTexture(focused, (r.w, r.h), text.inner, CaretX(caret, r.w)))
                          else None)) &&
        (style.cache.Some? ==>
          style.cache.value.size == (r.w, r.h) && style.cache.value.text == text.inner &&
          style.cache.value.focused == focused) &&
        (ok <==> style.cache.Some? && copyOk)
    {
      var focused := fm.Some? && fm.value.IsFocused(focusId);
      var style := if focused then focusedStyle else notFocusedStyle;
      var styleText := text.Get();
      var texture := style.Render(focused, (r.w, r.h), styleText, CaretX(caret, r.w), createOk, styleOk);
      ok := texture.Some? && copyOk;
    }
  }
}
