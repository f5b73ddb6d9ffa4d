/**
 * Lengths, their limits and how a length is resolved and placed inside a
 * parent length (`util/length.rs`). Lengths are `f32` in the crate and real
 * numbers here.
 */
module Length {
  import opened Sdl
  import opened Rects

  /** `f32::MAX`, the value of the laxest maximum length. */
  const F32_MAX: real := 340282346638528859811704183484516925440.0

  /**
   * Where a length that cannot respect its minimum pushes its excess:
   * 1 positive, 0 negative, 0.5 both ways equally.
   */
  datatype MinLenFailPolicy = MinLenFailPolicy(p: real)

  const MIN_POSITIVE: MinLenFailPolicy := MinLenFailPolicy(1.0)
  const MIN_NEGATIVE: MinLenFailPolicy := MinLenFailPolicy(0.0)
  /** Also the default. */
  const MIN_CENTERED: MinLenFailPolicy := MinLenFailPolicy(0.5)

  /**
   * Where a length that cannot fill its parent sits inside it:
   * 1 against the positive edge, 0 against the negative edge, 0.5 centred.
   */
  datatype MaxLenFailPolicy = MaxLenFailPolicy(p: real)

  const MAX_POSITIVE: MaxLenFailPolicy := MaxLenFailPolicy(1.0)
  const MAX_NEGATIVE: MaxLenFailPolicy := MaxLenFailPolicy(0.0)
  /** Also the default. */
  const MAX_CENTERED: MaxLenFailPolicy := MaxLenFailPolicy(0.5)

  datatype MinLen = MinLen(v: real)
  {
    /** The stricter (larger) of two minimum lengths. */
    function Strictest(other: MinLen): (r: MinLen)
      ensures r.v >= v && r.v >= other.v
      ensures r == this || r == other
    {
      if v > other.v then this else other
    }

    /** Two minimum lengths laid end to end. */
    function Combined(other: MinLen): (r: MinLen)
      ensures r.v - other.v == v
    {
      MinLen(v + other.v)
    }
  }

  /** The least strict minimum length, also the default. */
  const MIN_LAX: MinLen := MinLen(0.0)

  datatype MaxLen = MaxLen(v: real)
  {
    /** The stricter (smaller) of two maximum lengths. */
    function Strictest(other: MaxLen): (r: MaxLen)
      ensures r.v <= v && r.v <= other.v
      ensures r == this || r == other
    {
      if v < other.v then this else other
    }

    /**
     * Two maximum lengths laid end to end; an unlimited side keeps the sum
     * unlimited instead of overflowing.
     */
    function Combined(other: MaxLen): (r: MaxLen)
      ensures (v == F32_MAX || other.v == F32_MAX) ==> r == MAX_LAX
      ensures (v != F32_MAX && other.v != F32_MAX) ==> r.v - other.v == v
    {
      if v == F32_MAX || other.v == F32_MAX then MaxLen(F32_MAX) else MaxLen(v + other.v)
    }
  }

  /** The least strict maximum length, also the default. */
  const MAX_LAX: MaxLen := MaxLen(F32_MAX)

  /**
   * `clamp`: restrict a length to [min, max]; when the limits conflict the
   * minimum wins.
   */
  function Clamp(len: real, min: MinLen, max: MaxLen): (r: real)
    ensures r >= min.v
    ensures min.v >= max.v ==> r == min.v
    ensures min.v < max.v ==> r <= max.v
    ensures min.v < max.v && min.v <= len <= max.v ==> r == len
    ensures min.v < max.v && len < min.v ==> r == min.v
    ensures min.v < max.v && len > max.v ==> r == max.v
  {
    if min.v >= max.v then min.v
    else if len < min.v then min.v
    else if len > max.v then max.v
    else len
  }

  /**
   * `place`: the offset of a length inside its parent. A shorter length
   * sits where its maximum fail policy says; a longer one overflows the way
   * its minimum fail policy says.
   */
  function Place(len: real, parent: real, minFail: MinLenFailPolicy, maxFail: MaxLenFailPolicy): (r: real)
    ensures len == parent ==> r == 0.0
    // a shorter length, with a policy between the edges, stays inside the parent
    ensures len < parent && 0.0 <= maxFail.p <= 1.0 ==> 0.0 <= r && r + len <= parent
    ensures len < parent && maxFail == MAX_NEGATIVE ==> r == 0.0
    ensures len < parent && maxFail == MAX_POSITIVE ==> r + len == parent
    ensures len < parent && maxFail == MAX_CENTERED ==> r == parent - (r + len)
    // a longer length, with a policy between the edges, covers the parent
    ensures len > parent && 0.0 <= minFail.p <= 1.0 ==> r <= 0.0 && parent <= r + len
    ensures len > parent && minFail == MIN_POSITIVE ==> r == 0.0
    ensures len > parent && minFail == MIN_NEGATIVE ==> r + len == parent
    ensures len > parent && minFail == MIN_CENTERED ==> -r == (r + len) - parent
  {
    if len < parent then
      var r := (parent - len) * maxFail.p;
      ShorterPlaced(len, parent, maxFail, r);
      r
    else if len > parent then
      var r := (parent - len) * (1.0 - minFail.p);
      LongerPlaced(len, parent, minFail, r);
      r
    else 0.0
  }

  /** A shorter length offset by its policy's fraction of the spare room. */
  lemma ShorterPlaced(len: real, parent: real, maxFail: MaxLenFailPolicy, r: real)
    requires len < parent && r == (parent - len) * maxFail.p
    ensures 0.0 <= maxFail.p <= 1.0 ==> 0.0 <= r && r + len <= parent
    ensures maxFail == MAX_NEGATIVE ==> r == 0.0
    ensures maxFail == MAX_POSITIVE ==> r + len == parent
    ensures maxFail == MAX_CENTERED ==> r == parent - (r + len)
  {
    var d, f := parent - len, maxFail.p;
    assert r == d * f;
    if 0.0 <= f <= 1.0 {
      NonNegativeProduct(d, f);
      NonNegativeProduct(d, 1.0 - f);
      assert d - r == d * (1.0 - f);
    }
  }

  /** A longer length pulled back by its policy's fraction of the overflow. */
  lemma LongerPlaced(len: real, parent: real, minFail: MinLenFailPolicy, r: real)
    requires len > parent && r == (parent - len) * (1.0 - minFail.p)
    ensures 0.0 <= minFail.p <= 1.0 ==> r <= 0.0 && parent <= r + len
    ensures minFail == MIN_POSITIVE ==> r == 0.0
    ensures minFail == MIN_NEGATIVE ==> r + len == parent
    ensures minFail == MIN_CENTERED ==> -r == (r + len) - parent
  {
    var d, f := len - parent, minFail.p;
    assert r == -(d * (1.0 - f));
    if 0.0 <= f <= 1.0 {
      NonNegativeProduct(d, 1.0 - f);
      NonNegativeProduct(d, f);
      assert r + d == d * f;
    }
  }

  lemma NonNegativeProduct(a: real, b: real)
    requires a >= 0.0 && b >= 0.0
    ensures a * b >= 0.0
  {
  }

  /** The portion of its parent that a length would like to take up. */
  datatype PreferredPortion = PreferredPortion(p: real)
  {
    /** `get`: the length this portion asks for in a parent of `parentLen`. */
    function Get(parentLen: real): real
    {
      p * parentLen
    }

    /**
     * `weighted_portion`: this portion's share of `parentLen` when
     * `numPortions` portions totalling `sum` compete for it. A zero total
     * splits the parent equally; zero portions count as one.
     */
    function WeightedPortion(sum: PreferredPortion, numPortions: nat, parentLen: real): (r: real)
      ensures sum.p == 0.0 && numPortions > 0 ==> r * numPortions as real == parentLen
      ensures sum.p == 0.0 && numPortions == 0 ==> r == parentLen
      ensures sum.p != 0.0 ==> r * sum.p == p * parentLen
    {
      var n := if numPortions == 0 then 1 else numPortions;
      var portion := if sum.p == 0.0 then PreferredPortion(1.0 / n as real) else PreferredPortion(p / sum.p);
      portion.Get(parentLen)
    }
  }

  const FULL: PreferredPortion := PreferredPortion(1.0)
  const EMPTY: PreferredPortion := PreferredPortion(0.0)

  /** The total of a sequence of portions. */
  function SumPortions(ps: seq<PreferredPortion>): real
  {
    if |ps| == 0 then 0.0 else SumPortions(ps[..|ps| - 1]) + ps[|ps| - 1].p
  }

  /** The sum of the weighted shares of every portion of `ps`. */
  function SumWeighted(ps: seq<PreferredPortion>, sum: PreferredPortion, n: nat, parentLen: real): real
  {
    if |ps| == 0 then 0.0
    else SumWeighted(ps[..|ps| - 1], sum, n, parentLen) + ps[|ps| - 1].WeightedPortion(sum, n, parentLen)
  }

  /** Multiplication distributes over a sum. */
  lemma Distributes(a: real, b: real, c: real)
    ensures (a + b) * c == a * c + b * c
  {
  }

  /** With a zero total, the shares of `ps` are `|ps|` equal parts. */
  lemma {:induction false} SumWeightedEqual(ps: seq<PreferredPortion>, sum: PreferredPortion, n: nat, parentLen: real)
    requires n > 0 && sum.p == 0.0
    ensures SumWeighted(ps, sum, n, parentLen) == |ps| as real * (parentLen / n as real)
  {
    if |ps| > 0 {
      var init := ps[..|ps| - 1];
      var q := parentLen / n as real;
      SumWeightedEqual(init, sum, n, parentLen);
      assert ps[|ps| - 1].WeightedPortion(sum, n, parentLen) == q;
      Distributes(|init| as real, 1.0, q);
    }
  }

  /** With a non-zero total, the shares of `ps` are their portions of the parent. */
  lemma {:induction false} SumWeightedProportional(ps: seq<PreferredPortion>, sum: PreferredPortion, n: nat, parentLen: real)
    requires sum.p != 0.0
    ensures SumWeighted(ps, sum, n, parentLen) * sum.p == SumPortions(ps) * parentLen
  {
    if |ps| > 0 {
      var init := ps[..|ps| - 1];
      var last := ps[|ps| - 1];
      SumWeightedProportional(init, sum, n, parentLen);
      var a := SumWeighted(init, sum, n, parentLen);
      var w := last.WeightedPortion(sum, n, parentLen);
      var b := SumPortions(init);
      ProportionalStep(SumWeighted(ps, sum, n, parentLen), a, w, SumPortions(ps), b, last.p, sum.p, parentLen);
    }
  }

  /** `k` copies of `x` added up, one after the other. */
  function Repeated(x: real, k: nat): real
  {
    if k == 0 then 0.0 else Repeated(x, k - 1) + x
  }

  lemma {:induction false} RepeatedIs(x: real, k: nat)
    ensures Repeated(x, k) == k as real * x
  {
    if k > 0 {
      RepeatedIs(x, k - 1);
    }
  }

  /** Two proportional parts add up to proportional wholes. */
  lemma ProportionalStep(total: real, a: real, w: real, totalB: real, b: real, c: real, s: real, len: real)
    requires total == a + w && totalB == b + c
    requires a * s == b * len && w * s == c * len
    ensures total * s == totalB * len
  {
    Distributes(a, w, s);
    Distributes(b, c, len);
  }

  /**
   * When every one of `n` children asks for its weighted portion of the
   * parent, the shares add up to exactly the parent's length, whether or not
   * the portions add up to one.
   */
  lemma WeightedPortionsFillParent(ps: seq<PreferredPortion>, parentLen: real)
    requires |ps| > 0
    ensures SumWeighted(ps, PreferredPortion(SumPortions(ps)), |ps|, parentLen) == parentLen
  {
    var sum := PreferredPortion(SumPortions(ps));
    if sum.p == 0.0 {
      SumWeightedEqual(ps, sum, |ps|, parentLen);
      calc {
        |ps| as real * (parentLen / |ps| as real);
        parentLen;
      }
    } else {
      SumWeightedProportional(ps, sum, |ps|, parentLen);
      var s := SumWeighted(ps, sum, |ps|, parentLen);
      assert s * sum.p == sum.p * parentLen;
      assert (s - parentLen) * sum.p == 0.0;
    }
  }

  /** How a child's limits are obtained: from its children or stated outright. */
  datatype MinLenPolicy = MinChildren | MinLiteral(min: MinLen)
  datatype MaxLenPolicy = MaxChildren | MaxLiteral(max: MaxLen)

  /**
   * Which length an aspect ratio is allowed to derive from the other one;
   * width-from-height is the default.
   */
  datatype AspectRatioPreferredDirection = WidthFromHeight | HeightFromWidth

  const DEFAULT_DIRECTION: AspectRatioPreferredDirection := WidthFromHeight

  /** `width_from_height`: the width of a `ratio` (width / height) shape. */
  function RatioWidthFromHeight(ratio: real, h: real): real
  {
    h * ratio
  }

  /** `height_from_width`: the height of a `ratio` (width / height) shape. */
  function RatioHeightFromWidth(ratio: real, w: real): real
    requires ratio != 0.0
  {
    w / ratio
  }

  /** The two derivations of an aspect ratio undo each other. */
  lemma AspectRatioRoundTrip(ratio: real, len: real)
    requires ratio != 0.0
    ensures RatioHeightFromWidth(ratio, RatioWidthFromHeight(ratio, len)) == len
    ensures RatioWidthFromHeight(ratio, RatioHeightFromWidth(ratio, len)) == len
  {
  }

  /** `f32 as u32`: saturating at zero, truncating the fraction. */
  function U32Cast(x: real): nat
  {
    if x <= 0.0 then 0 else x.Floor
  }

  /** `Rect::new` never makes an empty rectangle: a length of 0 becomes 1. */
  function SdlLength(n: nat): (r: nat)
    ensures r >= 1 && (n >= 1 ==> r == n)
  {
    if n == 0 then 1 else n
  }

  /**
   * `frect_to_rect`: every member rounds half away from zero; a length that
   * rounds to zero or below is one pixel, as `Rect::new` makes it.
   */
  function FrectToRect(f: FRect): (r: Rect)
    ensures r.x == Round(f.x) && r.y == Round(f.y)
    ensures r.w >= 1 && r.h >= 1
    ensures f.w < 0.5 ==> r.w == 1
    ensures f.w >= 0.5 ==> r.w as real - 0.5 <= f.w < r.w as real + 0.5
    ensures f.h < 0.5 ==> r.h == 1
    ensures f.h >= 0.5 ==> r.h as real - 0.5 <= f.h < r.h as real + 0.5
  {
    Rect(Round(f.x), Round(f.y), SdlLength(U32Cast(Round(f.w) as real)), SdlLength(U32Cast(Round(f.h) as real)))
  }
}
