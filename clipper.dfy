/**
 * `Clipper` (`layout/clipper.rs`): while its contents run, drawing is
 * clipped to the clipper's own position (within whatever clip already
 * applies), and the previous clip is put back afterwards. Every sizing
 * query is passed to the contents unchanged.
 */
module Clipper {
  import opened Wrappers
  import opened Sdl
  import opened Rects
  import opened Length
  import opened Sizing
  import Widget

  /**
   * `clipping_rect_intersection`: what stays visible under both the
   * existing clip and a position (None meaning zero area).
   */
  function ClippingRectIntersection(existing: ClippingRect, position: Option<Rect>): (r: ClippingRect)
    ensures position.None? ==> r == ClipZero
    ensures position.Some? && existing == ClipNone ==> r == ClipTo(position.value)
    ensures existing == ClipZero ==> r == ClipZero
    ensures position.Some? && existing.ClipTo? ==>
      (r == ClipZero <==> Intersection(existing.rect, position.value).None?)
    // exactly the points visible through both are visible through the result
    ensures forall px: int, py: int ::
      ClipContainsPoint(r, px, py) <==>
      (ClipContainsPoint(existing, px, py) && position.Some? && ContainsPoint(position.value, px, py))
  {
    match position
    case None => ClipZero
    case Some(p) =>
      match existing
      case ClipTo(rect) =>
        (match Intersection(rect, p)
         case Some(v) => ClipTo(v)
         case None => ClipZero)
      case ClipZero => ClipZero
      case ClipNone => ClipTo(p)
  }

  /** A clip rectangle that results from an intersection lies inside both inputs. */
  lemma IntersectionInsideBoth(existing: ClippingRect, position: Option<Rect>)
    requires ClippingRectIntersection(existing, position).ClipTo?
    ensures var r := ClippingRectIntersection(existing, position).rect;
      position.Some? &&
      forall px: int, py: int :: ContainsPoint(r, px, py) ==>
        ContainsPoint(position.value, px, py) && ClipContainsPoint(existing, px, py)
  {
  }

  /** Clipping to the same position twice clips no further. */
  lemma IntersectionIdempotent(existing: ClippingRect, position: Option<Rect>)
    ensures var once := ClippingRectIntersection(existing, position);
      forall px: int, py: int ::
        ClipContainsPoint(ClippingRectIntersection(once, position), px, py) <==> ClipContainsPoint(once, px, py)
  {
  }

  /** A clipper around a widget with sizing `contained`. */
  datatype Clipper = Clipper(contained: Sizing)

  /** The clipper's sizing answers: its contents'. */
  function AsChild(c: Clipper): Sizing
  {
    c.contained
  }

  /**
   * `update` and `draw`: clip to the position while the contents run, then
   * restore the clip that was there before, whatever the contents did to
   * it and whether or not they succeeded. `contentsLeave` is the clip the
   * contents left behind and `contentsOk` their result; `seen` is the clip
   * the contents ran under.
   */
  method Run(canvas: Canvas, position: Option<FRect>, contentsLeave: ClippingRect, contentsOk: bool)
    returns (seen: ClippingRect, ok: bool)
    modifies canvas
    ensures seen == ClippingRectIntersection(old(canvas.clipRect), ToRectOpt(position))
    // the contents can draw only inside the clipper's position and the old clip
    ensures forall px: int, py: int :: ClipContainsPoint(seen, px, py) ==>
      ToRectOpt(position).Some? && ContainsPoint(ToRectOpt(position).value, px, py) &&
      ClipContainsPoint(old(canvas.clipRect), px, py)
    ensures canvas.clipRect == old(canvas.clipRect)
    ensures ok == contentsOk
  {
    var previous := canvas.clipRect;
    var clip := ClippingRectIntersection(previous, ToRectOpt(position));
    canvas.clipRect := clip;
    seen := canvas.clipRect;
    // the contents run here
    canvas.clipRect := contentsLeave;
    ok := contentsOk;
    canvas.clipRect := previous;
  }
}
