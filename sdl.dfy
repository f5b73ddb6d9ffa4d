/**
 * The parts of SDL2 (through the `sdl2` crate) that the widgets depend on:
 * integer rectangles and their geometry, the clipping rectangle of a canvas,
 * and the input events the widgets react to.
 */
module Sdl {
  import opened Wrappers

  /** `sdl2::rect::Rect`: integer position, unsigned lengths. */
  datatype Rect = Rect(x: int, y: int, w: nat, h: nat)

  /** `Rect::contains_point`: the half-open area [x, x+w) x [y, y+h). */
  predicate ContainsPoint(r: Rect, px: int, py: int)
  {
    r.x <= px < r.x + r.w && r.y <= py < r.y + r.h
  }

  function Max(a: int, b: int): int { if a < b then b else a }
  function Min(a: int, b: int): int { if a < b then a else b }

  /**
   * `Rect::intersection` (SDL_IntersectRect): the overlapping area, or None
   * when the overlap is empty.
   */
  function Intersection(a: Rect, b: Rect): (r: Option<Rect>)
    ensures r.Some? ==> r.value.w > 0 && r.value.h > 0
    ensures forall px: int, py: int ::
      (r.Some? && ContainsPoint(r.value, px, py)) <==>
      (ContainsPoint(a, px, py) && ContainsPoint(b, px, py))
  {
    var x0 := Max(a.x, b.x);
    var y0 := Max(a.y, b.y);
    var x1 := Min(a.x + a.w, b.x + b.w);
    var y1 := Min(a.y + a.h, b.y + b.h);
    if x1 <= x0 || y1 <= y0 then
      assert forall px: int, py: int :: !(ContainsPoint(a, px, py) && ContainsPoint(b, px, py));
      None
    else
      Some(Rect(x0, y0, x1 - x0, y1 - y0))
  }

  /**
   * `sdl2::render::ClippingRect`: a clip to a rectangle, a clip to nothing
   * (everything is clipped away), or no clipping at all.
   */
  datatype ClippingRect = ClipTo(rect: Rect) | ClipZero | ClipNone

  /** Whether a point can be seen through the clipping rectangle. */
  predicate ClipContainsPoint(clip: ClippingRect, px: int, py: int)
  {
    match clip
    case ClipTo(r) => ContainsPoint(r, px, py)
    case ClipZero => false
    case ClipNone => true
  }

  /** The render target; only its clipping rectangle is observable here. */
  class Canvas {
    var clipRect: ClippingRect

    constructor ()
      ensures clipRect == ClipNone
    {
      clipRect := ClipNone;
    }
  }

  /** The keys the widgets look at. */
  datatype Keycode = Return | Backspace | Tab | OtherKey(code: int)

  /** The keyboard modifier state carried by key events. */
  datatype Mods = Mods(lshift: bool, rshift: bool, lctrl: bool, rctrl: bool)
  {
    predicate Shift() { lshift || rshift }
    predicate Ctrl() { lctrl || rctrl }
  }

  datatype MouseButton = Left | Middle | RightButton

  /**
   * The SDL events the widgets look at; every other event is `OtherEvent`.
   * Timestamps are SDL's millisecond counter.
   */
  datatype Event =
    | KeyDown(key: Keycode, repeat: bool, keymod: Mods, timestamp: nat)
    | KeyUp(key: Keycode, repeat: bool, keymod: Mods, timestamp: nat)
    | TextInput(text: string, timestamp: nat)
    | MouseMotion(leftHeld: bool, x: int, y: int)
    | MouseButtonDown(button: MouseButton, x: int, y: int)
    | MouseButtonUp(button: MouseButton, x: int, y: int)
    | MouseWheel(x: int, y: int, mouseX: int, mouseY: int)
    | OtherEvent
}
