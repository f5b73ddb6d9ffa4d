/**
 * `VerticalLayout` (`layout/vertical_layout.rs`): children stacked top to
 * bottom in order. Heights are shared out along the layout's height (the
 * major axis), each width is settled against the layout's width on its own,
 * and spare height becomes equal gaps between children. Unlike
 * `HorizontalLayout`, the layout's position may be absent, and a child
 * whose width or height comes out as zero gets no position.
 */
module VerticalLayout {
  import opened Wrappers
  import opened Rects
  import opened Length
  import opened Sizing
  import opened Aggregate
  import opened Linear
  import Widget

  /** The layout's own sizing; `elems` are its children's sizing answers. */
  datatype Layout = Layout(
    elems: seq<Sizing>,
    preferredW: PreferredPortion,
    minWFail: MinLenFailPolicy, maxWFail: MaxLenFailPolicy,
    minHFail: MinLenFailPolicy, maxHFail: MaxLenFailPolicy,
    minWPolicy: MinLenPolicy, maxWPolicy: MaxLenPolicy,
    minHPolicy: MinLenPolicy, maxHPolicy: MajorAxisMaxLenPolicy)

  /**
   * `Default`: the minimum height and maximum height come from the
   * children, the width limits are lax.
   */
  function Default(elems: seq<Sizing>): (l: Layout)
    ensures l.elems == elems
    ensures l.minHPolicy == MinChildren && l.maxHPolicy == Together(MaxChildren)
    ensures l.minWPolicy == MinLiteral(MIN_LAX) && l.maxWPolicy == MaxLiteral(MAX_LAX)
    ensures l.preferredW == FULL
  {
    Layout(elems, FULL, MIN_CENTERED, MAX_CENTERED, MIN_CENTERED, MAX_CENTERED,
           MinLiteral(MIN_LAX), MaxLiteral(MAX_LAX), MinChildren, Together(MaxChildren))
  }

  // ---------------------------------------------------------------- min / max

  /**
   * `min`: stacked, the minimum heights add up and the largest minimum
   * width wins; a literal policy answers for its axis without the children.
   */
  method Min(l: Layout) returns (w: MinLen, h: MinLen)
    ensures l.minWPolicy.MinLiteral? ==> w == l.minWPolicy.min
    ensures l.minHPolicy.MinLiteral? ==> h == l.minHPolicy.min
    ensures l.minHPolicy.MinChildren? ==> h.v == SumMin(MinHs(l.elems))
    ensures l.minWPolicy.MinChildren? ==>
      w.v >= 0.0 && (forall i :: 0 <= i < |l.elems| ==> w.v >= l.elems[i].minW.v) &&
      (w == MIN_LAX || exists i :: 0 <= i < |l.elems| && w == l.elems[i].minW)
  {
    if l.minWPolicy.MinLiteral? && l.minHPolicy.MinLiteral? {
      return l.minWPolicy.min, l.minHPolicy.min;
    }
    var heightSoFar := MIN_LAX;
    var widthSoFar := MIN_LAX;
    var i := 0;
    while i < |l.elems|
      invariant 0 <= i <= |l.elems|
      invariant heightSoFar == MinCombinedFold(MIN_LAX, MinHs(l.elems)[..i])
      invariant widthSoFar == MinStrictestFold(MIN_LAX, MinWs(l.elems)[..i])
    {
      assert MinHs(l.elems)[..i + 1][..i] == MinHs(l.elems)[..i];
      assert MinWs(l.elems)[..i + 1][..i] == MinWs(l.elems)[..i];
      heightSoFar := heightSoFar.Combined(l.elems[i].minH);
      widthSoFar := widthSoFar.Strictest(l.elems[i].minW);
      i := i + 1;
    }
    assert MinHs(l.elems)[..i] == MinHs(l.elems) && MinWs(l.elems)[..i] == MinWs(l.elems);
    MinCombinedFoldIsSum(MIN_LAX, MinHs(l.elems));
    MinStrictestFoldIsMax(MIN_LAX, MinWs(l.elems));
    w := if l.minWPolicy.MinLiteral? then l.minWPolicy.min else widthSoFar;
    h := if l.minHPolicy.MinLiteral? then l.minHPolicy.min else heightSoFar;
  }

  /**
   * `max`: stacked, the maximum heights add up from 0 (an unbounded child
   * makes the sum unbounded) and the smallest maximum width wins, from
   * LAX; `Spread` leaves the height unbounded.
   */
  method Max(l: Layout) returns (w: MaxLen, h: MaxLen)
    ensures l.maxWPolicy.MaxLiteral? ==> w == l.maxWPolicy.max
    ensures LiteralMax(l.maxHPolicy).Some? ==> h == LiteralMax(l.maxHPolicy).value
    ensures LiteralMax(l.maxHPolicy).None? ==> h == MaxCombinedFold(MaxLen(0.0), MaxHs(l.elems))
    ensures LiteralMax(l.maxHPolicy).None? ==>
      (h == MAX_LAX || h.v == SumMax(MaxHs(l.elems))) &&
      (forall i :: 0 <= i < |l.elems| && l.elems[i].maxH == MAX_LAX ==> h == MAX_LAX)
    ensures l.maxWPolicy.MaxChildren? ==> w == MaxStrictestFold(MAX_LAX, MaxWs(l.elems))
    ensures l.maxWPolicy.MaxChildren? ==>
      w.v <= F32_MAX && (forall i :: 0 <= i < |l.elems| ==> w.v <= l.elems[i].maxW.v) &&
      (w == MAX_LAX || exists i :: 0 <= i < |l.elems| && w == l.elems[i].maxW)
  {
    var hLiteral := LiteralMax(l.maxHPolicy);
    if l.maxWPolicy.MaxLiteral? && hLiteral.Some? {
      return l.maxWPolicy.max, hLiteral.value;
    }
    var heightSoFar := MaxLen(0.0);
    var widthSoFar := MAX_LAX;
    var i := 0;
    while i < |l.elems|
      invariant 0 <= i <= |l.elems|
      invariant heightSoFar == MaxCombinedFold(MaxLen(0.0), MaxHs(l.elems)[..i])
      invariant widthSoFar == MaxStrictestFold(MAX_LAX, MaxWs(l.elems)[..i])
    {
      assert MaxHs(l.elems)[..i + 1][..i] == MaxHs(l.elems)[..i];
      assert MaxWs(l.elems)[..i + 1][..i] == MaxWs(l.elems)[..i];
      heightSoFar := heightSoFar.Combined(l.elems[i].maxH);
      widthSoFar := widthSoFar.Strictest(l.elems[i].maxW);
      i := i + 1;
    }
    assert MaxHs(l.elems)[..i] == MaxHs(l.elems) && MaxWs(l.elems)[..i] == MaxWs(l.elems);
    MaxCombinedFoldIsSum(MaxLen(0.0), MaxHs(l.elems));
    MaxStrictestFoldIsMin(MAX_LAX, MaxWs(l.elems));
    w := if l.maxWPolicy.MaxLiteral? then l.maxWPolicy.max else widthSoFar;
    h := if hLiteral.Some? then hLiteral.value else heightSoFar;
  }

  // ------------------------------------------------------------ placement

  /** What the layout learns from a child before sharing out the height. */
  function InfoOf(c: Sizing): (r: ChildInfo)
    ensures r.pref == c.prefH && r.min == c.minH.v && r.max == c.maxH.v && r.len == 0.0
    ensures r.minorPref == c.prefW && r.minorMin == c.minW && r.minorMax == c.maxW
  {
    ChildInfo(c.prefH, c.maxH.v, c.minH.v, 0.0, c.prefW, c.maxW, c.minW)
  }

  function Infos(cs: seq<Sizing>): (r: seq<ChildInfo>)
    ensures |r| == |cs| && forall i :: 0 <= i < |cs| ==> r[i] == InfoOf(cs[i])
  {
    seq(|cs|, i requires 0 <= i < |cs| => InfoOf(cs[i]))
  }

  /**
   * A child's width once its height is known: its portion of the layout's
   * width clamped to its limits, or, when it has an aspect ratio, the
   * width derived from its height, capped by its maximum and (unless the
   * child may exceed it) by its portion.
   */
  function ChildWidth(c: Sizing, height: real, parentW: real): (r: real)
    ensures r >= c.minW.v
    ensures !HasRatio(c.link) ==> r == Clamp(c.prefW.Get(parentW), c.minW, c.maxW)
    ensures HasRatio(c.link) ==>
      var derived := PreferredWidthFromHeight(c.link, height).value;
      var cap := Widget.LinkCap(c.maxW, c.prefW.Get(parentW), c.linkExceed);
      (c.minW.v < cap.v && c.minW.v <= derived <= cap.v ==> r == derived) &&
      (c.minW.v < cap.v ==> r <= cap.v)
  {
    var pre := c.prefW.Get(parentW);
    match PreferredWidthFromHeight(c.link, height)
    case Some(newW) => Clamp(newW, c.minW, Widget.LinkCap(c.maxW, pre, c.linkExceed))
    case None => Clamp(pre, c.minW, c.maxW)
  }

  /**
   * The width rule is the one a single widget is placed by, width from
   * height, when it may exceed its portion as its link flag says (`place`
   * in `widget/mod.rs`).
   */
  lemma ChildWidthAgreesWithPlace(c: Sizing, parent: FRect)
    ensures var (w, h) := Widget.PlacedSize(c, parent, WidthFromHeight, c.linkExceed);
      ChildWidth(c, h, parent.w) == w
  {
  }

  /**
   * The position a child gets at `y` with height `height`: its width, then
   * its offset across the layout; none when either length is zero.
   */
  function ChildPos(c: Sizing, pos: FRect, height: real, y: real): Option<FRect>
  {
    var w := ChildWidth(c, height, pos.w);
    var x := Length.Place(w, pos.w, c.minWFail, c.maxWFail) + pos.x;
    if w != 0.0 && height != 0.0 then Some(FRect(x, y, w, height)) else None
  }

  /**
   * A child gets a position exactly when its width and height are both
   * non-zero; it then starts at `y` with that height and width, offset
   * across the layout by its fail policies.
   */
  lemma ChildPosIs(c: Sizing, pos: FRect, height: real, y: real)
    ensures var r := ChildPos(c, pos, height, y);
      var w := ChildWidth(c, height, pos.w);
      (r.None? <==> w == 0.0 || height == 0.0) &&
      (r.Some? ==>
        r.value.y == y && r.value.h == height && r.value.w == w &&
        r.value.x == pos.x + Length.Place(w, pos.w, c.minWFail, c.maxWFail))
  {
  }

  /** The settled heights, before snapping to whole pixels. */
  function SettledHeights(cs: seq<Sizing>, pos: FRect): (r: seq<real>)
    ensures |r| == |cs|
  {
    Lens(Settle(Infos(cs), pos.h))
  }

  /**
   * Whether children with settled heights `lens` are placed one below
   * another with gaps (rather than placed singly, or not at all).
   */
  predicate Spaced(pos: FRect, lens: seq<real>)
  {
    !(Sum(lens) < pos.h && |lens| <= 1)
  }

  /**
   * The positions children with settled heights `lens` are updated (or
   * drawn) at, in order, inside the layout at `pos`. A lone child that
   * leaves spare height is placed on its own; otherwise the children stand
   * top to bottom with snapped heights and equal gaps.
   */
  function Placed(cs: seq<Sizing>, pos: FRect, lens: seq<real>): (r: seq<Option<FRect>>)
    requires |lens| == |cs|
    ensures |r| == |cs|
    ensures !Spaced(pos, lens) && |cs| == 1 ==> r[0] == Widget.Place(cs[0], pos, WidthFromHeight)
  {
    var total := Sum(lens);
    if total < pos.h && |cs| <= 1 then
      (if |cs| == 0 then [] else [Widget.Place(cs[0], pos, WidthFromHeight)])
    else
      Column(cs, pos, Snap(lens), Gap(total, pos.h, |cs|))
  }

  /**
   * The first `k` children of a column with snapped `heights`, top to
   * bottom from the layout's top edge and `gap` apart, and where the next
   * one would start.
   */
  function ColumnUpTo(cs: seq<Sizing>, pos: FRect, heights: seq<real>, gap: real, k: nat): (seq<Option<FRect>>, real)
    requires |heights| == |cs| && k <= |cs|
  {
    if k == 0 then ([], pos.y)
    else
      var (placed, y) := ColumnUpTo(cs, pos, heights, gap, k - 1);
      (placed + [ChildPos(cs[k - 1], pos, heights[k - 1], y)], y + heights[k - 1] + gap)
  }

  /** Every child of a column prefix stands at its offset with its snapped height. */
  lemma {:induction false} ColumnUpToAt(cs: seq<Sizing>, pos: FRect, heights: seq<real>, gap: real, k: nat)
    requires |heights| == |cs| && k <= |cs|
    ensures ColumnUpTo(cs, pos, heights, gap, k).1 == pos.y + Offset(heights, gap, k)
    ensures |ColumnUpTo(cs, pos, heights, gap, k).0| == k
    ensures forall j {:trigger ColumnUpTo(cs, pos, heights, gap, k).0[j]} :: 0 <= j < k ==>
      ColumnUpTo(cs, pos, heights, gap, k).0[j] == ChildPos(cs[j], pos, heights[j], pos.y + Offset(heights, gap, j))
  {
    if k > 0 {
      ColumnUpToAt(cs, pos, heights, gap, k - 1);
    }
  }

  /** Children with snapped `heights`, top to bottom from the layout's top edge, `gap` apart. */
  function Column(cs: seq<Sizing>, pos: FRect, heights: seq<real>, gap: real): (r: seq<Option<FRect>>)
    requires |heights| == |cs|
    ensures |r| == |cs|
    ensures forall i {:trigger r[i]} :: 0 <= i < |cs| ==>
      r[i] == ChildPos(cs[i], pos, heights[i], pos.y + Offset(heights, gap, i))
  {
    ColumnUpToAt(cs, pos, heights, gap, |cs|);
    ColumnUpTo(cs, pos, heights, gap, |cs|).0
  }

  /**
   * The positions the children get inside the layout at `pos`; a layout
   * without a position passes none to every child.
   */
  function Placements(cs: seq<Sizing>, pos: Option<FRect>): (r: seq<Option<FRect>>)
    ensures |r| == |cs|
    ensures pos.None? ==> forall i :: 0 <= i < |cs| ==> r[i].None?
  {
    if pos.None? then seq(|cs|, _ => None)
    else Placed(cs, pos.value, SettledHeights(cs, pos.value))
  }

  /**
   * The `impl_widget_fn` body: collect the children's sizing, share out
   * the height, sum it, choose the gap, then snap each height and place
   * each child.
   */
  method Arrange(l: Layout, pos: Option<FRect>) returns (placed: seq<Option<FRect>>)
    ensures placed == Placements(l.elems, pos)
  {
    var elems := l.elems;
    if pos.None? {
      placed := [];
      var i := 0;
      while i < |elems|
        invariant 0 <= i <= |elems|
        invariant |placed| == i && forall j :: 0 <= j < i ==> placed[j].None?
      {
        placed := placed + [None];
        i := i + 1;
      }
      return;
    }
    var p := pos.value;
    var info, sumPref := Collect(elems);
    SettleInPlace(info, sumPref, p.h);
    ghost var lens := Lens(info[..]);
    assert lens == SettledHeights(elems, p);
    var total := TotalLength(info);

    var gap := 0.0;
    if total < p.h {
      if |elems| == 0 {
        return [];
      }
      if |elems| == 1 {
        return [Widget.Place(elems[0], p, WidthFromHeight)];
      }
      gap := (p.h - total) / (|elems| - 1) as real;
    }
    assert gap == Gap(total, p.h, |elems|);
    placed := PlaceColumn(elems, p, info, gap);
  }

  /** Collect the children's sizing into a fresh info array, and their total portion. */
  method Collect(elems: seq<Sizing>) returns (info: array<ChildInfo>, sumPref: PreferredPortion)
    ensures fresh(info)
    ensures info[..] == Infos(elems) && sumPref.p == SumPortions(Prefs(info[..]))
  {
    info := new ChildInfo[|elems|](_ => ChildInfo(FULL, 0.0, 0.0, 0.0, FULL, MAX_LAX, MIN_LAX));
    sumPref := EMPTY;
    var i := 0;
    while i < |elems|
      invariant 0 <= i <= |elems| == info.Length
      invariant info[..i] == Infos(elems)[..i]
      invariant forall j :: i <= j < info.Length ==> info[j].len == 0.0
      invariant sumPref.p == SumPortions(Prefs(Infos(elems)[..i]))
    {
      var e := elems[i];
      info[i] := info[i].(minorMax := e.maxW, minorMin := e.minW, minorPref := e.prefW,
                          max := e.maxH.v, min := e.minH.v, pref := e.prefH);
      assert info[..i + 1] == Infos(elems)[..i + 1];
      assert Prefs(Infos(elems)[..i + 1])[..i] == Prefs(Infos(elems)[..i]);
      sumPref := PreferredPortion(sumPref.p + e.prefH.p);
      i := i + 1;
    }
    assert info[..] == Infos(elems) == Infos(elems)[..i];
  }

  /**
   * Snap each settled height to whole pixels, carrying the rounding error,
   * and place each child; `y` advances by the height and the gap, whether
   * or not the child got a position. The settled infos are left holding
   * the snapped heights.
   */
  method PlaceColumn(elems: seq<Sizing>, pos: FRect, info: array<ChildInfo>, gap: real) returns (placed: seq<Option<FRect>>)
    requires info.Length == |elems|
    modifies info
    ensures placed == Column(elems, pos, Snap(Lens(old(info[..]))), gap)
    ensures forall j :: 0 <= j < info.Length ==> info[j] == old(info[j]).(len := Snap(Lens(old(info[..])))[j])
  {
    ghost var settled := info[..];
    ghost var heights := Snap(Lens(settled));
    var y := pos.y;
    var err := 0.0;
    placed := [];
    var i := 0;
    while i < |elems|
      invariant 0 <= i <= |elems| == info.Length
      invariant SnappedBefore(info, settled, i) && err == Carry(Lens(settled), i)
      invariant placed == ColumnUpTo(elems, pos, heights, gap, i).0 && y == ColumnUpTo(elems, pos, heights, gap, i).1
    {
      var h, err' := SnapNext(info, i, err, settled);
      err := err';
      placed, y := PlaceNext(elems, pos, heights, gap, i, placed, y, h);
      i := i + 1;
    }
  }

  /**
   * Place the `i`-th child with its snapped length at the end of the
   * children before it, and move past it and the gap.
   */
  method PlaceNext(elems: seq<Sizing>, pos: FRect, ghost heights: seq<real>, gap: real, i: nat,
                   placed: seq<Option<FRect>>, y: real, h: real) returns (placed': seq<Option<FRect>>, y': real)
    requires |heights| == |elems| && i < |elems| && h == heights[i]
    requires placed == ColumnUpTo(elems, pos, heights, gap, i).0 && y == ColumnUpTo(elems, pos, heights, gap, i).1
    ensures placed' == ColumnUpTo(elems, pos, heights, gap, i + 1).0 && y' == ColumnUpTo(elems, pos, heights, gap, i + 1).1
  {
    var r := ChildAt(elems[i], pos, h, y);
    placed' := placed + [r];
    y' := y + h;
    y' := y' + gap;
  }

  /** A child's position at `y` once its height is known: its width, then its offset. */
  method ChildAt(c: Sizing, pos: FRect, h: real, y: real) returns (r: Option<FRect>)
    ensures r == ChildPos(c, pos, h, y)
  {
    var preW := c.prefW.Get(pos.w);
    var w := Clamp(preW, c.minW, c.maxW);
    var newW := PreferredWidthFromHeight(c.link, h);
    if newW.Some? {
      var cap := if c.linkExceed then c.maxW else c.maxW.Strictest(MaxLen(preW));
      w := Clamp(newW.value, c.minW, cap);
    }
    var x := Length.Place(w, pos.w, c.minWFail, c.maxWFail) + pos.x;
    r := if w != 0.0 && h != 0.0 then Some(FRect(x, y, w, h)) else None;
  }

  // ------------------------------------------------------------ properties

  /** Spaced children form a column. */
  lemma SpacedColumn(cs: seq<Sizing>, pos: FRect, lens: seq<real>)
    requires |lens| == |cs| && Spaced(pos, lens)
    ensures Placed(cs, pos, lens) == Column(cs, pos, Snap(lens), Gap(Sum(lens), pos.h, |cs|))
  {
  }

  /**
   * Each positioned child starts where the one above it ends, plus the gap;
   * a child without a position still takes up its snapped height.
   */
  lemma ChildrenStacked(cs: seq<Sizing>, pos: FRect, lens: seq<real>, i: nat)
    requires |lens| == |cs| && Spaced(pos, lens) && i + 1 < |cs|
    ensures var r := Placed(cs, pos, lens);
      var heights := Snap(lens);
      var gap := Gap(Sum(lens), pos.h, |cs|);
      gap >= 0.0 &&
      (r[i].Some? ==> r[i].value.y == pos.y + Offset(heights, gap, i) && r[i].value.h == heights[i]) &&
      (r[i + 1].Some? ==> r[i + 1].value.y == pos.y + Offset(heights, gap, i) + heights[i] + gap) &&
      (r[i].Some? && r[i + 1].Some? ==> r[i + 1].value.y == r[i].value.y + r[i].value.h + gap)
  {
    SpacedColumn(cs, pos, lens);
    var heights := Snap(lens);
    var gap := Gap(Sum(lens), pos.h, |cs|);
    ChildPosIs(cs[i], pos, heights[i], pos.y + Offset(heights, gap, i));
    ChildPosIs(cs[i + 1], pos, heights[i + 1], pos.y + Offset(heights, gap, i + 1));
  }

  /**
   * The children span what they cover to within a pixel: the last child's
   * slot ends less than a pixel before the layout's bottom edge when there
   * is spare height, and less than a pixel before the children's total
   * height otherwise.
   */
  lemma ChildrenSpanParent(cs: seq<Sizing>, pos: FRect, lens: seq<real>)
    requires |lens| == |cs| && Spaced(pos, lens) && |cs| > 0
    ensures var n := |cs|;
      var heights := Snap(lens);
      var end := pos.y + Offset(heights, Gap(Sum(lens), pos.h, n), n - 1) + heights[n - 1];
      var last := Placed(cs, pos, lens)[n - 1];
      var total := Sum(lens);
      (last.Some? ==> last.value.y + last.value.h == end) &&
      (total < pos.h ==> pos.y + pos.h - 1.0 < end <= pos.y + pos.h) &&
      (total >= pos.h ==> pos.y + total - 1.0 < end <= pos.y + total)
  {
    var n := |cs|;
    SpacedColumn(cs, pos, lens);
    var heights := Snap(lens);
    var total := Sum(lens);
    var gap := Gap(total, pos.h, n);
    ChildPosIs(cs[n - 1], pos, heights[n - 1], pos.y + Offset(heights, gap, n - 1));
    RowEnd(heights, gap, n);
    SnapTotal(lens);
    GapsFillSpare(total, pos.h, n);
    var spare := Repeated(gap, n - 1);
    assert total < pos.h ==> n >= 2;
    if total < pos.h {
      assert spare == pos.h - total;
    } else {
      assert spare == 0.0;
    }
  }

  /**
   * When the children's limits are ordered, every snapped height lies
   * within a pixel of the child's limits and is its settled height rounded
   * down or up; a positioned child has exactly that height, and a child
   * has no position exactly when its height or width is zero.
   */
  lemma HeightsWithinLimits(cs: seq<Sizing>, pos: FRect, i: nat)
    requires Spaced(pos, SettledHeights(cs, pos)) && i < |cs|
    requires forall j :: 0 <= j < |cs| ==> cs[j].prefH.p >= 0.0 && 0.0 <= cs[j].minH.v <= cs[j].maxH.v
    ensures var r := Placements(cs, Some(pos))[i];
      var len := SettledHeights(cs, pos)[i];
      var h := Snap(SettledHeights(cs, pos))[i];
      (h == len.Floor as real || h == len.Floor as real + 1.0) &&
      cs[i].minH.v - 1.0 < h < cs[i].maxH.v + 1.0 &&
      (r.None? <==> h == 0.0 || ChildWidth(cs[i], h, pos.w) == 0.0) &&
      (r.Some? ==> r.value.h == h)
  {
    var infos := Infos(cs);
    var lens := SettledHeights(cs, pos);
    assert PrefsNonNegative(infos) && LimitsOrdered(infos);
    SettleKeepsLimits(infos, pos.h);
    SnapFacts(lens, i);
    SpacedColumn(cs, pos, lens);
    var heights := Snap(lens);
    ChildPosIs(cs[i], pos, heights[i], pos.y + Offset(heights, Gap(Sum(lens), pos.h, |cs|), i));
  }
}
