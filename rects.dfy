/**
 * The crate's own floating rectangle (no restriction on its members) and its
 * conversion to an SDL integer rectangle: positions round half up (towards
 * positive infinity) so that adjacent rectangles never open a one-pixel gap,
 * and lengths round to a positive whole number or the rectangle vanishes.
 */
module Rects {
  import opened Wrappers
  import opened Sdl

  /** `util::rect::FRect`. */
  datatype FRect = FRect(x: real, y: real, w: real, h: real)

  /** `f32::trunc`: drop the fractional part (towards zero). */
  function Trunc(x: real): int
  {
    if x >= 0.0 then x.Floor else -((-x).Floor)
  }

  /** `f32::round`: to the nearest whole number, ties away from zero. */
  function Round(x: real): int
  {
    if x >= 0.0 then (x + 0.5).Floor else -((-x + 0.5).Floor)
  }

  /**
   * `rect_position_round`: round, except that a negative value exactly
   * between two whole numbers keeps its whole part. The result is always
   * round-half-up.
   */
  function RectPositionRound(i: real): (r: int)
    ensures r == (i + 0.5).Floor
  {
    PositionRoundCases(i);
    var whole := Trunc(i);
    var frac := i - whole as real;
    if frac != -0.5 then Round(i) else whole
  }

  /** `Floor` pinned down by the whole number just below its argument. */
  lemma FloorIs(x: real, n: int)
    requires n as real <= x < n as real + 1.0
    ensures x.Floor == n
  {
  }

  /** The case analysis behind `RectPositionRound`'s contract. */
  lemma PositionRoundCases(i: real)
    ensures var whole := Trunc(i);
      (i - whole as real != -0.5 ==> Round(i) == (i + 0.5).Floor) &&
      (i - whole as real == -0.5 ==> whole == (i + 0.5).Floor)
  {
    if i >= 0.0 {
      assert Trunc(i) == i.Floor;
      assert i - i.Floor as real >= 0.0;
    } else {
      var m := (-i).Floor;
      var g := -i - m as real;
      assert 0.0 <= g < 1.0;
      assert Trunc(i) == -m;
      assert i - Trunc(i) as real == -g;
      if g == 0.5 {
        FloorIs(i + 0.5, -m);
      } else if g < 0.5 {
        FloorIs(-i + 0.5, m);
        FloorIs(i + 0.5, -m);
      } else {
        FloorIs(-i + 0.5, m + 1);
        FloorIs(i + 0.5, -m - 1);
      }
    }
  }

  /** Rounding positions never reverses their order. */
  lemma RectPositionRoundMonotone(a: real, b: real)
    requires a <= b
    ensures RectPositionRound(a) <= RectPositionRound(b)
  {
  }

  /** Whole numbers are fixed points of position rounding. */
  lemma RectPositionRoundWhole(n: int)
    ensures RectPositionRound(n as real) == n
  {
  }

  /** The tie cases from the module's tests: ties go up, not away from zero. */
  lemma RectPositionRoundTies()
    ensures RectPositionRound(0.5) == 1 && RectPositionRound(1.5) == 2
    ensures RectPositionRound(-0.5) == 0 && RectPositionRound(-1.5) == -1
    ensures RectPositionRound(-2.5) == -2
    ensures RectPositionRound(0.00001) == 0 && RectPositionRound(-0.00001) == 0
    ensures RectPositionRound(1.4999) == 1 && RectPositionRound(0.5001) == 1
    ensures RectPositionRound(-1.4999) == -1 && RectPositionRound(-0.5001) == -1
    ensures RectPositionRound(0.9999) == 1 && RectPositionRound(-0.9999) == -1
  {
  }

  /**
   * `rect_len_round`: round to the nearest whole number; anything that does
   * not round to at least one pixel is no length at all.
   */
  function RectLenRound(i: real): (r: Option<nat>)
    ensures r.None? <==> i < 0.5
    ensures r.Some? ==> 1 <= r.value && r.value as real - 0.5 <= i < r.value as real + 0.5
  {
    var n := Round(i);
    if n < 1 then None else Some(n as nat)
  }

  /**
   * `impl Into<Option<Rect>> for FRect`: no SDL rectangle when either length
   * rounds below one pixel; otherwise the position rounds half up and the
   * lengths round to the nearest pixel.
   */
  function ToRect(f: FRect): (r: Option<Rect>)
    ensures r.None? <==> f.w < 0.5 || f.h < 0.5
    ensures r.Some? ==>
      r.value.x == (f.x + 0.5).Floor && r.value.y == (f.y + 0.5).Floor &&
      r.value.w >= 1 && r.value.h >= 1 &&
      Some(r.value.w) == RectLenRound(f.w) && Some(r.value.h) == RectLenRound(f.h)
  {
    match RectLenRound(f.w)
    case None => None
    case Some(w) =>
      match RectLenRound(f.h)
      case None => None
      case Some(h) => Some(Rect(RectPositionRound(f.x), RectPositionRound(f.y), w, h))
  }

  /** An SDL rectangle survives the round trip through `FRect` unchanged. */
  lemma ToRectOfWhole(r: Rect)
    requires r.w >= 1 && r.h >= 1
    ensures ToRect(FRect(r.x as real, r.y as real, r.w as real, r.h as real)) == Some(r)
  {
    RectPositionRoundWhole(r.x);
    RectPositionRoundWhole(r.y);
  }

  /** The conversion applied to an optional position. */
  function ToRectOpt(f: Option<FRect>): (r: Option<Rect>)
    ensures f.None? ==> r.None?
    ensures f.Some? ==> r == ToRect(f.value)
  {
    match f
    case None => None
    case Some(v) => ToRect(v)
  }
}
