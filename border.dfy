/**
 * `Border` (`widget/border.rs`): a widget drawn inside a frame of equal
 * width on every side. The frame is rendered once into a texture of the
 * border's size and redrawn only when that size changes.
 */
module Border {
  import opened Wrappers
  import opened Sdl
  import opened Rects
  import opened Length
  import opened Sizing
  import opened Render

  /** The provided `BorderStyle`s; colours are not modelled. */
  datatype Style = Bevel(bevelWidth: nat) | Gradient(gradientWidth: nat) | Line | Empty(emptyWidth: nat)

  /** `BorderStyle::width`: a line is always one pixel wide. */
  function Width(s: Style): nat
  {
    match s
    case Bevel(w) => w
    case Gradient(w) => w
    case Line => 1
    case Empty(w) => w
  }

  // ------------------------------------------------------------ sizing

  /**
   * The border's answers to the sizing queries: the contents' limits grown
   * by the frame on both sides, an aspect link seen through the frame, and
   * everything else passed through.
   */
  function AsChild(contained: Sizing, style: Style): Sizing
  {
    var inset := (2 * Width(style)) as real;
    contained.(minW := contained.minW.Combined(MinLen(inset)),
               minH := contained.minH.Combined(MinLen(inset)),
               maxW := contained.maxW.Combined(MaxLen(inset)),
               maxH := contained.maxH.Combined(MaxLen(inset)),
               link := Bordered(Width(style), contained.link))
  }

  /**
   * `min` adds the frame on both sides to the contents' minimum; `max`
   * does the same, except that an unlimited maximum stays unlimited.
   */
  lemma LimitsGrowByFrame(contained: Sizing, style: Style)
    ensures var r := AsChild(contained, style);
      var inset := (2 * Width(style)) as real;
      r.minW.v == contained.minW.v + inset && r.minH.v == contained.minH.v + inset &&
      (contained.maxW == MAX_LAX ==> r.maxW == MAX_LAX) &&
      (contained.maxH == MAX_LAX ==> r.maxH == MAX_LAX) &&
      (contained.maxW.v != F32_MAX && inset != F32_MAX ==> r.maxW.v == contained.maxW.v + inset) &&
      (contained.maxH.v != F32_MAX && inset != F32_MAX ==> r.maxH.v == contained.maxH.v + inset)
    ensures var r := AsChild(contained, style);
      r.prefW == contained.prefW && r.prefH == contained.prefH && r.linkExceed == contained.linkExceed &&
      r.minWFail == contained.minWFail && r.minHFail == contained.minHFail &&
      r.maxWFail == contained.maxWFail && r.maxHFail == contained.maxHFail &&
      (HasRatio(r.link) <==> HasRatio(contained.link))
  {
  }

  /**
   * Through a frame, an aspect ratio applies to the inside only: once the
   * preferred height exceeds the frame, the preferred width is the frame
   * plus the ratio's width of what is left inside.
   */
  lemma FramedRatio(bw: nat, ratio: PositiveReal, h: real)
    requires h > (2 * bw) as real
    ensures PreferredWidthFromHeight(Bordered(bw, Ratio(ratio)), h) ==
      Some(RatioWidthFromHeight(ratio, h - (2 * bw) as real) + (2 * bw) as real)
    ensures PreferredHeightFromWidth(Bordered(bw, Ratio(ratio)), h) ==
      Some(RatioHeightFromWidth(ratio, h - (2 * bw) as real) + (2 * bw) as real)
  {
  }

  /**
   * A preferred height no larger than the frame is given to the contents as
   * zero, and all of it is added back.
   */
  lemma FrameSwallowsSmallLengths(bw: nat, inner: Link, h: real)
    requires h <= (2 * bw) as real
    ensures PreferredWidthFromHeight(Bordered(bw, inner), h) == AddBack(PreferredWidthFromHeight(inner, 0.0), h)
    ensures PreferredHeightFromWidth(Bordered(bw, inner), h) == AddBack(PreferredHeightFromWidth(inner, 0.0), h)
  {
  }

  /**
   * Deriving a width from a height through a framed ratio and then the
   * height back from that width gives the height started from.
   */
  lemma FramedRatioRoundTrip(bw: nat, ratio: PositiveReal, h: real, w: real)
    requires h > (2 * bw) as real
    requires PreferredWidthFromHeight(Bordered(bw, Ratio(ratio)), h) == Some(w)
    ensures PreferredHeightFromWidth(Bordered(bw, Ratio(ratio)), w) == Some(h)
  {
    var d := h - (2 * bw) as real;
    var x := RatioWidthFromHeight(ratio, d);
    assert w == x + (2 * bw) as real by {
      FramedRatio(bw, ratio, h);
    }
    assert PreferredHeightFromWidth(Bordered(bw, Ratio(ratio)), x + (2 * bw) as real) ==
        Some(RatioHeightFromWidth(ratio, x) + (2 * bw) as real) by {
      InsideWidthPositive(ratio, d);
      FramedHeightOf(bw, ratio, x);
    }
    assert RatioHeightFromWidth(ratio, x) == d by {
      AspectRatioRoundTrip(ratio, d);
    }
  }

  /** The height through a framed ratio, for a width `inner` beyond the frame. */
  lemma FramedHeightOf(bw: nat, ratio: PositiveReal, inner: real)
    requires inner > 0.0
    ensures PreferredHeightFromWidth(Bordered(bw, Ratio(ratio)), inner + (2 * bw) as real) ==
      Some(RatioHeightFromWidth(ratio, inner) + (2 * bw) as real)
  {
    assert BorderSplit((2 * bw) as real, inner + (2 * bw) as real) == ((2 * bw) as real, inner);
  }

  lemma InsideWidthPositive(ratio: PositiveReal, d: real)
    requires d > 0.0
    ensures RatioWidthFromHeight(ratio, d) > 0.0
  {
    NonNegativeProduct(d, ratio);
    assert d * ratio != 0.0;
  }

  // ------------------------------------------------------------ placement

  /**
   * The position `update` and `draw` give the contents: the border's own,
   * shrunk by the frame on every side; nothing when no room is left inside
   * or the border itself has no position.
   */
  function ChildRect(pos: Option<FRect>, width: nat): (r: Option<FRect>)
    ensures r.None? <==> pos.None? || pos.value.w <= (2 * width) as real || pos.value.h <= (2 * width) as real
    ensures r.Some? ==>
      r.value.x == pos.value.x + width as real && r.value.y == pos.value.y + width as real &&
      r.value.w == pos.value.w - (2 * width) as real && r.value.h == pos.value.h - (2 * width) as real
  {
    match pos
    case None => None
    case Some(p) =>
      var sub := (2 * width) as real;
      var w := if p.w - sub < 0.0 then 0.0 else p.w - sub;
      var h := if p.h - sub < 0.0 then 0.0 else p.h - sub;
      if w == 0.0 || h == 0.0 then None else Some(FRect(p.x + sub / 2.0, p.y + sub / 2.0, w, h))
  }

  /**
   * The contents sit inside the border with exactly the frame's width of
   * margin on every side.
   */
  lemma ChildInsideFrame(p: FRect, width: nat)
    requires ChildRect(Some(p), width).Some?
    ensures var c := ChildRect(Some(p), width).value;
      c.x - p.x == width as real && (p.x + p.w) - (c.x + c.w) == width as real &&
      c.y - p.y == width as real && (p.y + p.h) - (c.y + c.h) == width as real &&
      0.0 < c.w <= p.w && 0.0 < c.h <= p.h
  {
  }

  /**
   * A border placed within its own limits gives its contents a position
   * within theirs.
   */
  lemma LimitsCarryThrough(contained: Sizing, style: Style, p: FRect)
    requires var b := AsChild(contained, style);
      b.minW.v <= p.w && b.minH.v <= p.h
    requires ChildRect(Some(p), Width(style)).Some?
    ensures var c := ChildRect(Some(p), Width(style)).value;
      contained.minW.v <= c.w && contained.minH.v <= c.h
    ensures var c := ChildRect(Some(p), Width(style)).value;
      var b := AsChild(contained, style);
      (p.w <= b.maxW.v && b.maxW != MAX_LAX ==> c.w <= contained.maxW.v) &&
      (p.h <= b.maxH.v && b.maxH != MAX_LAX ==> c.h <= contained.maxH.v)
  {
  }

  // ------------------------------------------------------------ rendering

  /** The frame's texture: its size and the outlines drawn on it. */
  datatype Texture = Texture(size: (nat, nat), paths: seq<seq<Point>>)

  /** The texture size for a position: `pos.width() as u32`, `pos.height() as u32`. */
  function TextureSize(p: FRect): (nat, nat)
  {
    (U32Cast(p.w), U32Cast(p.h))
  }

  /**
   * How many rings `Bevel` and `Gradient` draw: their width, but never more
   * than reach the middle of the shorter side.
   */
  function RingCount(width: nat, size: (nat, nat)): (n: nat)
    ensures n <= width
    ensures 2 * n <= (if size.0 < size.1 then size.0 else size.1) + 1
    ensures n == width || 2 * n + 1 >= (if size.0 < size.1 then size.0 else size.1)
  {
    var smallest := if size.0 < size.1 then size.0 else size.1;
    var half := (smallest + 1) / 2;
    if width < half then width else half
  }

  /** The first `n` rings of a bevel, each as its upper-left then its lower-right half. */
  function BevelRings(n: nat, size: (nat, nat)): (r: seq<seq<Point>>)
    ensures |r| == 2 * n
  {
    if n == 0 then []
    else BevelRings(n - 1, size) + [UpLeftCenterSeekingRectPoints(n - 1, size), BottomRightCenterSeekingRectPoints(n - 1, size)]
  }

  /** The first `n` rings of a gradient, from the outside in. */
  function GradientRings(n: nat, size: (nat, nat)): (r: seq<seq<Point>>)
    ensures |r| == n
  {
    if n == 0 then [] else GradientRings(n - 1, size) + [CenterSeekingRectPoints(n - 1, size)]
  }

  /**
   * The outlines a style draws on a texture of `size`: for a bevel, the
   * upper-left and lower-right halves of each ring in turn; for a gradient,
   * each ring; for a line, the outermost ring.
   */
  function StylePaths(style: Style, size: (nat, nat)): seq<seq<Point>>
  {
    match style
    case Bevel(w) => BevelRings(RingCount(w, size), size)
    case Gradient(w) => GradientRings(RingCount(w, size), size)
    case Line => [CenterSeekingRectPoints(0, size)]
    case Empty(_) => []
  }

  /** Every point of every path lies on a texture of `size`. */
  ghost predicate OnTexture(paths: seq<seq<Point>>, size: (nat, nat))
  {
    forall k :: 0 <= k < |paths| ==> forall q :: q in paths[k] ==> 0 <= q.x < size.0 && 0 <= q.y < size.1
  }

  lemma RingOnTexture(inset: nat, size: (nat, nat))
    requires 2 * inset < (if size.0 < size.1 then size.0 else size.1)
    ensures OnTexture([CenterSeekingRectPoints(inset, size)], size)
    ensures OnTexture([UpLeftCenterSeekingRectPoints(inset, size), BottomRightCenterSeekingRectPoints(inset, size)], size)
  {
    InsetWithinTexture(inset, size);
    HalvesMakeTheRectangle(inset, size);
    var ul := UpLeftCenterSeekingRectPoints(inset, size);
    var br := BottomRightCenterSeekingRectPoints(inset, size);
    forall q | q in ul ensures q in ul + br { }
    forall q | q in br ensures q in ul + br { }
  }

  lemma {:induction false} BevelRingsOnTexture(n: nat, size: (nat, nat))
    requires 2 * n <= (if size.0 < size.1 then size.0 else size.1) + 1 && size.0 >= 1 && size.1 >= 1
    ensures OnTexture(BevelRings(n, size), size)
  {
    if n > 0 {
      BevelRingsOnTexture(n - 1, size);
      RingOnTexture(n - 1, size);
      var front := BevelRings(n - 1, size);
      var back := [UpLeftCenterSeekingRectPoints(n - 1, size), BottomRightCenterSeekingRectPoints(n - 1, size)];
      assert BevelRings(n, size) == front + back;
      assert forall k :: 0 <= k < |front| ==> (front + back)[k] == front[k];
      assert forall k :: |front| <= k < |front| + 2 ==> (front + back)[k] == back[k - |front|];
    }
  }

  lemma {:induction false} GradientRingsOnTexture(n: nat, size: (nat, nat))
    requires 2 * n <= (if size.0 < size.1 then size.0 else size.1) + 1 && size.0 >= 1 && size.1 >= 1
    ensures OnTexture(GradientRings(n, size), size)
  {
    if n > 0 {
      GradientRingsOnTexture(n - 1, size);
      RingOnTexture(n - 1, size);
      var front := GradientRings(n - 1, size);
      var back := [CenterSeekingRectPoints(n - 1, size)];
      assert GradientRings(n, size) == front + back;
      assert forall k :: 0 <= k < |front| ==> (front + back)[k] == front[k];
      assert (front + back)[|front|] == back[0];
    }
  }

  /**
   * Every style draws on the texture only, down to a texture one pixel
   * across: the ring count keeps the innermost ring from crossing the
   * middle.
   */
  lemma StylePathsOnTexture(style: Style, size: (nat, nat))
    requires size.0 >= 1 && size.1 >= 1
    ensures OnTexture(StylePaths(style, size), size)
  {
    match style
    case Bevel(w) => BevelRingsOnTexture(RingCount(w, size), size);
    case Gradient(w) => GradientRingsOnTexture(RingCount(w, size), size);
    case Line => RingOnTexture(0, size);
    case Empty(_) =>
  }

  /**
   * `BorderStyle::draw` for each style: the rings from the outside in.
   * `Bevel` and `Gradient` loop over their rings.
   */
  method DrawStyle(style: Style, size: (nat, nat)) returns (paths: seq<seq<Point>>)
    ensures paths == StylePaths(style, size)
  {
    match style {
      case Bevel(w) =>
        var rings := RingCount(w, size);
        paths := [];
        var i := 0;
        while i < rings
          invariant 0 <= i <= rings
          invariant paths == BevelRings(i, size)
        {
          paths := paths + [UpLeftCenterSeekingRectPoints(i, size)];
          paths := paths + [BottomRightCenterSeekingRectPoints(i, size)];
          i := i + 1;
        }
      case Gradient(w) =>
        var rings := RingCount(w, size);
        paths := [];
        var i := 0;
        while i < rings
          invariant 0 <= i <= rings
          invariant paths == GradientRings(i, size)
        {
          paths := paths + [CenterSeekingRectPoints(i, size)];
          i := i + 1;
        }
      case Line =>
        paths := [CenterSeekingRectPoints(0, size)];
      case Empty(_) =>
        paths := [];
    }
  }

  /**
   * The border's drawing state: the cached frame texture and the size it
   * was last rendered at.
   */
  class BorderWidget {
    const contained: Sizing
    const style: Style
    var texture: Option<Texture>
    var priorRenderWH: (nat, nat)

    /** A cached texture always shows the style at the size it was rendered for. */
    ghost predicate Valid()
      reads this
    {
      texture.Some? ==>
        texture.value.size == priorRenderWH && texture.value.paths == StylePaths(style, priorRenderWH)
    }

    /** `Border::new`: nothing rendered yet. */
    constructor (contained: Sizing, style: Style)
      ensures Valid() && this.contained == contained && this.style == style
      ensures texture.None? && priorRenderWH == (0, 0)
    {
      this.contained := contained;
      this.style := style;
      texture := None;
      priorRenderWH := (0, 0);
    }

    /**
     * `draw`. Without a position only the contents are drawn. Otherwise the
     * cached texture is reused exactly when the size matches the one it
     * was rendered at, and re-rendered otherwise, with the size recorded
     * before the attempt; then the contents are drawn inside the frame and
     * the texture is copied over the border's rectangle. Any failure drops
     * the texture.
     *
     * `createOk`, `styleOk`, `contentsOk` and `copyOk` stand for the
     * results of the texture creation, the style's drawing, the contents'
     * `draw` and the final copy.
     */
    method Draw(pos: Option<FRect>, createOk: bool, styleOk: bool, contentsOk: bool, copyOk: bool)
      returns (rendered: bool, childDrawn: bool, childPos: Option<FRect>, copiedTo: Option<Rect>, ok: bool)
      requires Valid()
      modifies this
      ensures Valid()
      ensures pos.None? ==>
        !rendered && childDrawn && childPos.None? && copiedTo.None? && ok == contentsOk &&
        texture == old(texture) && priorRenderWH == old(priorRenderWH)
      ensures pos.Some? ==>
        var size := TextureSize(pos.value);
        priorRenderWH == size &&
        (rendered <==> !(old(texture).Some? && old(priorRenderWH) == size)) &&
        (childDrawn <==> !rendered || (createOk && styleOk)) &&
        (childDrawn ==> childPos == ChildRect(pos, Width(style))) &&
        copiedTo == (if childDrawn && contentsOk then ToRectOpt(pos) else None) &&
        (ok <==> childDrawn && contentsOk && (copiedTo.None? || copyOk)) &&
        (ok ==> texture == Some(Texture(size, StylePaths(style, size)))) &&
        (!ok ==> texture.None?)
    {
      rendered, childDrawn, childPos, copiedTo := false, false, None, None;
      if pos.None? {
        childDrawn := true;
        ok := contentsOk;
        return;
      }
      var p := pos.value;
      var size := TextureSize(p);
      var cache := if texture.Some? && priorRenderWH == size then texture else None;
      texture := None;
      var tex: Texture;
      if cache.Some? {
        tex := cache.value;
      } else {
        rendered := true;
        priorRenderWH := size;
        if !createOk {
          return true, false, None, None, false;
        }
        var paths := DrawStyle(style, size);
        if !styleOk {
          return true, false, None, None, false;
        }
        tex := Texture(size, paths);
      }
      childDrawn := true;
      childPos := ChildRect(pos, Width(style));
      if !contentsOk {
        ok := false;
        return;
      }
      copiedTo := ToRectOpt(Some(p));
      if copiedTo.Some? && !copyOk {
        ok := false;
        return;
      }
      texture := Some(tex);
      ok := true;
    }
  }
}
