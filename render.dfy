/**
 * The border outlines of `util/render.rs`: closed and open paths around a
 * `size.0` by `size.1` texture, `inset` pixels in from its edge.
 */
module Render {
  /** An SDL point. */
  datatype Point = Point(x: int, y: int)

  /** The four corners at an inset, in drawing order from the top left, clockwise. */
  function Corners(inset: int, size: (nat, nat)): (r: seq<Point>)
    ensures |r| == 4
  {
    var right := size.0 - 1 - inset;
    var bottom := size.1 - 1 - inset;
    [Point(inset, inset), Point(right, inset), Point(right, bottom), Point(inset, bottom)]
  }

  /** `center_seeking_rect_points`: the rectangle at an inset, as a closed five-point path. */
  function CenterSeekingRectPoints(inset: int, size: (nat, nat)): (r: seq<Point>)
    ensures |r| == 5 && r[0] == r[4]
    ensures r[..4] == Corners(inset, size)
    ensures forall i :: 0 <= i < 4 ==> r[i].x == r[i + 1].x || r[i].y == r[i + 1].y
  {
    var c := Corners(inset, size);
    c + [c[0]]
  }

  /** `up_left_center_seeking_rect_points`: top right, top left, bottom left. */
  function UpLeftCenterSeekingRectPoints(inset: int, size: (nat, nat)): (r: seq<Point>)
    ensures |r| == 3
    ensures forall i :: 0 <= i < 2 ==> r[i].x == r[i + 1].x || r[i].y == r[i + 1].y
  {
    var c := Corners(inset, size);
    [c[1], c[0], c[3]]
  }

  /** `bottom_right_center_seeking_rect_points`: top right, bottom right, bottom left. */
  function BottomRightCenterSeekingRectPoints(inset: int, size: (nat, nat)): (r: seq<Point>)
    ensures |r| == 3
    ensures forall i :: 0 <= i < 2 ==> r[i].x == r[i + 1].x || r[i].y == r[i + 1].y
  {
    var c := Corners(inset, size);
    [c[1], c[2], c[3]]
  }

  /**
   * The two three-point halves start and end at the same points, and
   * between them they visit exactly the corners of the closed path at the
   * same inset.
   */
  lemma HalvesMakeTheRectangle(inset: int, size: (nat, nat))
    ensures var ul := UpLeftCenterSeekingRectPoints(inset, size);
      var br := BottomRightCenterSeekingRectPoints(inset, size);
      ul[0] == br[0] && ul[2] == br[2] &&
      (set p | p in ul + br) == (set p | p in CenterSeekingRectPoints(inset, size))
  {
    var ul := UpLeftCenterSeekingRectPoints(inset, size);
    var br := BottomRightCenterSeekingRectPoints(inset, size);
    var c := CenterSeekingRectPoints(inset, size);
    var k := Corners(inset, size);
    assert forall p :: p in ul + br <==> p == k[0] || p == k[1] || p == k[2] || p == k[3];
    assert forall p :: p in c <==> p == k[0] || p == k[1] || p == k[2] || p == k[3];
  }

  /**
   * An inset below half the shorter side keeps every corner on the
   * texture, and the rectangle does not turn inside out.
   */
  lemma InsetWithinTexture(inset: int, size: (nat, nat))
    requires 0 <= inset && 2 * inset < (if size.0 < size.1 then size.0 else size.1)
    ensures forall p :: p in CenterSeekingRectPoints(inset, size) ==>
      0 <= p.x < size.0 && 0 <= p.y < size.1
    ensures var c := Corners(inset, size); c[0].x <= c[1].x && c[0].y <= c[3].y
  {
  }
}
