/**
 * `HorizontalLayout` (`layout/horizontal_layout.rs`): children side by
 * side, left to right in order. Widths are shared out along the layout's
 * width (the major axis), each height is settled against the layout's
 * height on its own, and spare width becomes equal gaps between children.
 */
module HorizontalLayout {
  import opened Wrappers
  import opened Rects
  import opened Length
  import opened Sizing
  import opened Aggregate
  import opened Linear
  import Widget

  /** The layout's own sizing; `elems` are its children's sizing answers. */
  datatype Layout = Layout(
    elems: seq<Sizing>,
    preferredW: PreferredPortion, preferredH: PreferredPortion,
    minWFail: MinLenFailPolicy, maxWFail: MaxLenFailPolicy,
    minHFail: MinLenFailPolicy, maxHFail: MaxLenFailPolicy,
    minWPolicy: MinLenPolicy, maxWPolicy: MajorAxisMaxLenPolicy,
    minHPolicy: MinLenPolicy, maxHPolicy: MaxLenPolicy)

  /**
   * `Default`: the minimum width and maximum width come from the children,
   * the height limits are lax.
   */
  function Default(elems: seq<Sizing>): (l: Layout)
    ensures l.elems == elems
    ensures l.minWPolicy == MinChildren && l.maxWPolicy == Together(MaxChildren)
    ensures l.minHPolicy == MinLiteral(MIN_LAX) && l.maxHPolicy == MaxLiteral(MAX_LAX)
    ensures l.preferredW == FULL && l.preferredH == FULL
  {
    Layout(elems, FULL, FULL, MIN_CENTERED, MAX_CENTERED, MIN_CENTERED, MAX_CENTERED,
           MinChildren, Together(MaxChildren), MinLiteral(MIN_LAX), MaxLiteral(MAX_LAX))
  }

  // ---------------------------------------------------------------- min / max

  /**
   * `min`: side by side, the minimum widths add up and the largest minimum
   * height wins; a literal policy answers for its axis without the children.
   */
  method Min(l: Layout) returns (w: MinLen, h: MinLen)
    ensures l.minWPolicy.MinLiteral? ==> w == l.minWPolicy.min
    ensures l.minHPolicy.MinLiteral? ==> h == l.minHPolicy.min
    ensures l.minWPolicy.MinChildren? ==> w.v == SumMin(MinWs(l.elems))
    ensures l.minHPolicy.MinChildren? ==>
      h.v >= 0.0 && (forall i :: 0 <= i < |l.elems| ==> h.v >= l.elems[i].minH.v) &&
      (h == MIN_LAX || exists i :: 0 <= i < |l.elems| && h == l.elems[i].minH)
  {
    if l.minWPolicy.MinLiteral? && l.minHPolicy.MinLiteral? {
      return l.minWPolicy.min, l.minHPolicy.min;
    }
    var heightSoFar := MIN_LAX;
    var widthSoFar := MIN_LAX;
    var i := 0;
    while i < |l.elems|
      invariant 0 <= i <= |l.elems|
      invariant widthSoFar == MinCombinedFold(MIN_LAX, MinWs(l.elems)[..i])
      invariant heightSoFar == MinStrictestFold(MIN_LAX, MinHs(l.elems)[..i])
    {
      assert MinWs(l.elems)[..i + 1][..i] == MinWs(l.elems)[..i];
      assert MinHs(l.elems)[..i + 1][..i] == MinHs(l.elems)[..i];
      widthSoFar := widthSoFar.Combined(l.elems[i].minW);
      heightSoFar := heightSoFar.Strictest(l.elems[i].minH);
      i := i + 1;
    }
    assert MinWs(l.elems)[..i] == MinWs(l.elems) && MinHs(l.elems)[..i] == MinHs(l.elems);
    MinCombinedFoldIsSum(MIN_LAX, MinWs(l.elems));
    MinStrictestFoldIsMax(MIN_LAX, MinHs(l.elems));
    w := if l.minWPolicy.MinLiteral? then l.minWPolicy.min else widthSoFar;
    h := if l.minHPolicy.MinLiteral? then l.minHPolicy.min else heightSoFar;
  }

  /**
   * `max` as written: the width fold starts from LAX under `combined` and
   * the height fold from 0 under `strictest`, so the children never
   * matter: the width stays unbounded and the height at most 0.
   */
  method MaxAsWritten(l: Layout) returns (w: MaxLen, h: MaxLen)
    ensures LiteralMax(l.maxWPolicy).Some? ==> w == LiteralMax(l.maxWPolicy).value
    ensures l.maxHPolicy.MaxLiteral? ==> h == l.maxHPolicy.max
    ensures LiteralMax(l.maxWPolicy).None? ==> w == MAX_LAX
    ensures l.maxHPolicy.MaxChildren? ==> h.v <= 0.0
  {
    var wLiteral := LiteralMax(l.maxWPolicy);
    if wLiteral.Some? && l.maxHPolicy.MaxLiteral? {
      return wLiteral.value, l.maxHPolicy.max;
    }
    var heightSoFar := MaxLen(0.0);
    var widthSoFar := MAX_LAX;
    var i := 0;
    while i < |l.elems|
      invariant 0 <= i <= |l.elems|
      invariant widthSoFar == MaxCombinedFold(MAX_LAX, MaxWs(l.elems)[..i])
      invariant heightSoFar == MaxStrictestFold(MaxLen(0.0), MaxHs(l.elems)[..i])
    {
      assert MaxWs(l.elems)[..i + 1][..i] == MaxWs(l.elems)[..i];
      assert MaxHs(l.elems)[..i + 1][..i] == MaxHs(l.elems)[..i];
      widthSoFar := widthSoFar.Combined(l.elems[i].maxW);
      heightSoFar := heightSoFar.Strictest(l.elems[i].maxH);
      i := i + 1;
    }
    MaxCombinedFoldIsSum(MAX_LAX, MaxWs(l.elems)[..i]);
    MaxStrictestFoldIsMin(MaxLen(0.0), MaxHs(l.elems)[..i]);
    w := if wLiteral.Some? then wLiteral.value else widthSoFar;
    h := if l.maxHPolicy.MaxLiteral? then l.maxHPolicy.max else heightSoFar;
  }

  /**
   * `max` as evidently intended (and as `VerticalLayout` does it with its
   * axes swapped): side by side, the maximum widths add up (an unbounded
   * child makes the sum unbounded) and the smallest maximum height wins.
   */
  method Max(l: Layout) returns (w: MaxLen, h: MaxLen)
    ensures LiteralMax(l.maxWPolicy).Some? ==> w == LiteralMax(l.maxWPolicy).value
    ensures l.maxHPolicy.MaxLiteral? ==> h == l.maxHPolicy.max
    ensures LiteralMax(l.maxWPolicy).None? ==> w == MaxCombinedFold(MaxLen(0.0), MaxWs(l.elems))
    ensures LiteralMax(l.maxWPolicy).None? ==>
      (w == MAX_LAX || w.v == SumMax(MaxWs(l.elems))) &&
      (forall i :: 0 <= i < |l.elems| && l.elems[i].maxW == MAX_LAX ==> w == MAX_LAX)
    ensures l.maxHPolicy.MaxChildren? ==> h == MaxStrictestFold(MAX_LAX, MaxHs(l.elems))
    ensures l.maxHPolicy.MaxChildren? ==>
      h.v <= F32_MAX && (forall i :: 0 <= i < |l.elems| ==> h.v <= l.elems[i].maxH.v) &&
      (h == MAX_LAX || exists i :: 0 <= i < |l.elems| && h == l.elems[i].maxH)
  {
    var wLiteral := LiteralMax(l.maxWPolicy);
    if wLiteral.Some? && l.maxHPolicy.MaxLiteral? {
      return wLiteral.value, l.maxHPolicy.max;
    }
    var heightSoFar := MAX_LAX;
    var widthSoFar := MaxLen(0.0);
    var i := 0;
    while i < |l.elems|
      invariant 0 <= i <= |l.elems|
      invariant widthSoFar == MaxCombinedFold(MaxLen(0.0), MaxWs(l.elems)[..i])
      invariant heightSoFar == MaxStrictestFold(MAX_LAX, MaxHs(l.elems)[..i])
    {
      assert MaxWs(l.elems)[..i + 1][..i] == MaxWs(l.elems)[..i];
      assert MaxHs(l.elems)[..i + 1][..i] == MaxHs(l.elems)[..i];
      widthSoFar := widthSoFar.Combined(l.elems[i].maxW);
      heightSoFar := heightSoFar.Strictest(l.elems[i].maxH);
      i := i + 1;
    }
    assert MaxWs(l.elems)[..i] == MaxWs(l.elems) && MaxHs(l.elems)[..i] == MaxHs(l.elems);
    MaxCombinedFoldIsSum(MaxLen(0.0), MaxWs(l.elems));
    MaxStrictestFoldIsMin(MAX_LAX, MaxHs(l.elems));
    w := if wLiteral.Some? then wLiteral.value else widthSoFar;
    h := if l.maxHPolicy.MaxLiteral? then l.maxHPolicy.max else heightSoFar;
  }

  /** Two children, at most 10 and 20 wide and both at most 50 high. */
  const NARROW: Sizing := DEFAULT.(maxW := MaxLen(10.0), maxH := MaxLen(50.0))
  const WIDER: Sizing := DEFAULT.(maxW := MaxLen(20.0), maxH := MaxLen(50.0))
  const FROM_CHILDREN: Layout := Default([NARROW, WIDER]).(maxHPolicy := MaxChildren)

  /**
   * As written, a side-by-side pair at most 10 and 20 wide and 50 high
   * reports an unbounded maximum width and a maximum height of 0 (so a
   * parent squeezes the layout to its minimum height).
   */
  method MaxAsWrittenIgnoresChildren() returns (w: MaxLen, h: MaxLen)
    ensures w == MAX_LAX && h.v <= 0.0
  {
    w, h := MaxAsWritten(FROM_CHILDREN);
  }

  /** As intended, the same pair is at most 30 wide and 50 high. */
  method MaxOfChildren() returns (w: MaxLen, h: MaxLen)
    ensures w == MaxLen(30.0) && h == MaxLen(50.0)
  {
    w, h := Max(FROM_CHILDREN);
    var ws := MaxWs(FROM_CHILDREN.elems);
    assert ws == [NARROW.maxW, WIDER.maxW];
    assert ws[..1] == [NARROW.maxW];
    var empty: seq<MaxLen> := [];
    assert [NARROW.maxW][..0] == empty;
    assert MaxCombinedFold(MaxLen(0.0), [NARROW.maxW]) == MaxLen(10.0);
    var hs := MaxHs(FROM_CHILDREN.elems);
    assert hs == [NARROW.maxH, WIDER.maxH];
    assert hs[..1] == [NARROW.maxH];
    assert MaxStrictestFold(MAX_LAX, [NARROW.maxH]) == MaxLen(50.0);
  }

  // ------------------------------------------------------------ placement

  /** What the layout learns from a child before sharing out the width. */
  function InfoOf(c: Sizing): (r: ChildInfo)
    ensures r.pref == c.prefW && r.min == c.minW.v && r.max == c.maxW.v && r.len == 0.0
    ensures r.minorPref == c.prefH && r.minorMin == c.minH && r.minorMax == c.maxH
  {
    ChildInfo(c.prefW, c.maxW.v, c.minW.v, 0.0, c.prefH, c.maxH, c.minH)
  }

  function Infos(cs: seq<Sizing>): (r: seq<ChildInfo>)
    ensures |r| == |cs| && forall i :: 0 <= i < |cs| ==> r[i] == InfoOf(cs[i])
  {
    seq(|cs|, i requires 0 <= i < |cs| => InfoOf(cs[i]))
  }

  /**
   * A child's height once its width is known: its portion of the layout's
   * height clamped to its limits, or, when it has an aspect ratio, the
   * height derived from its width, capped by its maximum and (unless the
   * child may exceed it) by its portion.
   */
  function ChildHeight(c: Sizing, width: real, parentH: real): (r: real)
    ensures r >= c.minH.v
    ensures !HasRatio(c.link) ==> r == Clamp(c.prefH.Get(parentH), c.minH, c.maxH)
    ensures HasRatio(c.link) ==>
      var derived := PreferredHeightFromWidth(c.link, width).value;
      var cap := Widget.LinkCap(c.maxH, c.prefH.Get(parentH), c.linkExceed);
      (c.minH.v < cap.v && c.minH.v <= derived <= cap.v ==> r == derived) &&
      (c.minH.v < cap.v ==> r <= cap.v)
  {
    var pre := c.prefH.Get(parentH);
    match PreferredHeightFromWidth(c.link, width)
    case Some(newH) => Clamp(newH, c.minH, Widget.LinkCap(c.maxH, pre, c.linkExceed))
    case None => Clamp(pre, c.minH, c.maxH)
  }

  /**
   * The height rule is the one a single widget is placed by when it may
   * exceed its portion as its link flag says (`place` in `widget/mod.rs`).
   */
  lemma ChildHeightAgreesWithPlace(c: Sizing, parent: FRect)
    ensures var (w, h) := Widget.PlacedSize(c, parent, HeightFromWidth, c.linkExceed);
      ChildHeight(c, w, parent.h) == h
  {
  }

  /** The rectangle a child gets at `x` with width `width`. */
  function ChildRect(c: Sizing, pos: FRect, width: real, x: real): (r: FRect)
    ensures r.x == x && r.w == width
  {
    var h := ChildHeight(c, width, pos.h);
    FRect(x, Length.Place(h, pos.h, c.minHFail, c.maxHFail) + pos.y, width, h)
  }

  /** The settled widths, before snapping to whole pixels. */
  function SettledWidths(cs: seq<Sizing>, pos: FRect): (r: seq<real>)
    ensures |r| == |cs|
  {
    Lens(Settle(Infos(cs), pos.w))
  }

  /**
   * Whether children with settled widths `lens` are placed one after
   * another with gaps (rather than passed the layout's own rectangle,
   * placed singly, or not at all).
   */
  predicate Spaced(pos: FRect, lens: seq<real>)
  {
    ToRect(pos).Some? && !(Sum(lens) < pos.w && |lens| <= 1)
  }

  /**
   * The positions children with settled widths `lens` are updated (or
   * drawn) at, in order. A layout without a whole-pixel area passes its
   * own rectangle to every child; a lone child that leaves spare width is
   * placed on its own; otherwise the children stand left to right with
   * snapped widths and equal gaps.
   */
  function Placed(cs: seq<Sizing>, pos: FRect, lens: seq<real>): (r: seq<Option<FRect>>)
    requires |lens| == |cs|
    ensures |r| == |cs|
    ensures ToRect(pos).None? ==> forall i :: 0 <= i < |cs| ==> r[i] == Some(pos)
    ensures ToRect(pos).Some? && !Spaced(pos, lens) && |cs| == 1 ==>
      r[0] == Widget.Place(cs[0], pos, HeightFromWidth)
  {
    if ToRect(pos).None? then seq(|cs|, _ => Some(pos))
    else
      var total := Sum(lens);
      if total < pos.w && |cs| <= 1 then
        (if |cs| == 0 then [] else [Widget.Place(cs[0], pos, HeightFromWidth)])
      else
        Row(cs, pos, Snap(lens), Gap(total, pos.w, |cs|))
  }

  /**
   * The first `k` children of a row with snapped `widths`, left to right
   * from the layout's left edge and `gap` apart, and where the next one
   * would start.
   */
  function RowUpTo(cs: seq<Sizing>, pos: FRect, widths: seq<real>, gap: real, k: nat): (seq<Option<FRect>>, real)
    requires |widths| == |cs| && k <= |cs|
  {
    if k == 0 then ([], pos.x)
    else
      var (placed, x) := RowUpTo(cs, pos, widths, gap, k - 1);
      (placed + [Some(ChildRect(cs[k - 1], pos, widths[k - 1], x))], x + widths[k - 1] + gap)
  }

  /** Every child of a row prefix stands at its offset with its snapped width. */
  lemma {:induction false} RowUpToAt(cs: seq<Sizing>, pos: FRect, widths: seq<real>, gap: real, k: nat)
    requires |widths| == |cs| && k <= |cs|
    ensures RowUpTo(cs, pos, widths, gap, k).1 == pos.x + Offset(widths, gap, k)
    ensures |RowUpTo(cs, pos, widths, gap, k).0| == k
    ensures forall j {:trigger RowUpTo(cs, pos, widths, gap, k).0[j]} :: 0 <= j < k ==>
      RowUpTo(cs, pos, widths, gap, k).0[j] == Some(ChildRect(cs[j], pos, widths[j], pos.x + Offset(widths, gap, j)))
  {
    if k > 0 {
      RowUpToAt(cs, pos, widths, gap, k - 1);
    }
  }

  /** Children with snapped `widths`, left to right from the layout's left edge, `gap` apart. */
  function Row(cs: seq<Sizing>, pos: FRect, widths: seq<real>, gap: real): (r: seq<Option<FRect>>)
    requires |widths| == |cs|
    ensures |r| == |cs|
    ensures forall i {:trigger r[i]} :: 0 <= i < |cs| ==>
      r[i] == Some(ChildRect(cs[i], pos, widths[i], pos.x + Offset(widths, gap, i)))
  {
    RowUpToAt(cs, pos, widths, gap, |cs|);
    RowUpTo(cs, pos, widths, gap, |cs|).0
  }

  /** The positions the children get inside the layout at `pos`. */
  function Placements(cs: seq<Sizing>, pos: FRect): (r: seq<Option<FRect>>)
    ensures |r| == |cs|
  {
    Placed(cs, pos, SettledWidths(cs, pos))
  }

  /**
   * The `impl_widget_fn` body: collect the children's sizing, share out
   * the width, sum it, choose the gap, then snap each width and place
   * each child.
   */
  method Arrange(l: Layout, pos: FRect) returns (placed: seq<Option<FRect>>)
    ensures placed == Placements(l.elems, pos)
  {
    var elems := l.elems;
    if ToRect(pos).None? {
      placed := [];
      var i := 0;
      while i < |elems|
        invariant 0 <= i <= |elems|
        invariant |placed| == i && forall j :: 0 <= j < i ==> placed[j] == Some(pos)
      {
        placed := placed + [Some(pos)];
        i := i + 1;
      }
      return;
    }
    var info, sumPref := Collect(elems);
    SettleInPlace(info, sumPref, pos.w);
    ghost var lens := Lens(info[..]);
    assert lens == SettledWidths(elems, pos);
    var total := TotalLength(info);

    var gap := 0.0;
    if total < pos.w {
      if |elems| == 0 {
        return [];
      }
      if |elems| == 1 {
        return [Widget.Place(elems[0], pos, HeightFromWidth)];
      }
      gap := (pos.w - total) / (|elems| - 1) as real;
    }
    assert gap == Gap(total, pos.w, |elems|);
    placed := PlaceRow(elems, pos, info, gap);
  }

  /** Collect the children's sizing into a fresh info array, and their total portion. */
  method Collect(elems: seq<Sizing>) returns (info: array<ChildInfo>, sumPref: PreferredPortion)
    ensures fresh(info)
    ensures info[..] == Infos(elems) && sumPref.p == SumPortions(Prefs(info[..]))
  {
    info := new ChildInfo[|elems|](_ => ChildInfo(FULL, 0.0, 0.0, 0.0, FULL, MAX_LAX, MIN_LAX));
    sumPref := EMPTY;
    var i := 0;
    while i < |elems|
      invariant 0 <= i <= |elems| == info.Length
      invariant info[..i] == Infos(elems)[..i]
      invariant forall j :: i <= j < info.Length ==> info[j].len == 0.0
      invariant sumPref.p == SumPortions(Prefs(Infos(elems)[..i]))
    {
      var e := elems[i];
      info[i] := info[i].(minorMax := e.maxH, minorMin := e.minH, minorPref := e.prefH,
                          max := e.maxW.v, min := e.minW.v, pref := e.prefW);
      assert info[..i + 1] == Infos(elems)[..i + 1];
      assert Prefs(Infos(elems)[..i + 1])[..i] == Prefs(Infos(elems)[..i]);
      sumPref := PreferredPortion(sumPref.p + e.prefW.p);
      i := i + 1;
    }
    assert info[..] == Infos(elems) == Infos(elems)[..i];
  }

  /**
   * Snap each settled width to whole pixels, carrying the rounding error,
   * and place each child; `x` advances by the width and the gap. The
   * settled infos are left holding the snapped widths.
   */
  method PlaceRow(elems: seq<Sizing>, pos: FRect, info: array<ChildInfo>, gap: real) returns (placed: seq<Option<FRect>>)
    requires info.Length == |elems|
    modifies info
    ensures placed == Row(elems, pos, Snap(Lens(old(info[..]))), gap)
    ensures forall j :: 0 <= j < info.Length ==> info[j] == old(info[j]).(len := Snap(Lens(old(info[..])))[j])
  {
    ghost var settled := info[..];
    ghost var widths := Snap(Lens(settled));
    var x := pos.x;
    var err := 0.0;
    placed := [];
    var i := 0;
    while i < |elems|
      invariant 0 <= i <= |elems| == info.Length
      invariant SnappedBefore(info, settled, i) && err == Carry(Lens(settled), i)
      invariant placed == RowUpTo(elems, pos, widths, gap, i).0 && x == RowUpTo(elems, pos, widths, gap, i).1
    {
      var w, err' := SnapNext(info, i, err, settled);
      err := err';
      placed, x := PlaceNext(elems, pos, widths, gap, i, placed, x, w);
      i := i + 1;
    }
  }

  /**
   * Place the `i`-th child with its snapped length at the end of the
   * children before it, and move past it and the gap.
   */
  method PlaceNext(elems: seq<Sizing>, pos: FRect, ghost widths: seq<real>, gap: real, i: nat,
                   placed: seq<Option<FRect>>, x: real, w: real) returns (placed': seq<Option<FRect>>, x': real)
    requires |widths| == |elems| && i < |elems| && w == widths[i]
    requires placed == RowUpTo(elems, pos, widths, gap, i).0 && x == RowUpTo(elems, pos, widths, gap, i).1
    ensures placed' == RowUpTo(elems, pos, widths, gap, i + 1).0 && x' == RowUpTo(elems, pos, widths, gap, i + 1).1
  {
    var r := ChildAt(elems[i], pos, w, x);
    placed' := placed + [Some(r)];
    x' := x + w;
    x' := x' + gap;
  }

  /** A child's rectangle at `x` once its width is known: its height, then its offset. */
  method ChildAt(c: Sizing, pos: FRect, w: real, x: real) returns (r: FRect)
    ensures r == ChildRect(c, pos, w, x)
  {
    var preH := c.prefH.Get(pos.h);
    var h := Clamp(preH, c.minH, c.maxH);
    var newH := PreferredHeightFromWidth(c.link, w);
    if newH.Some? {
      var cap := if c.linkExceed then c.maxH else c.maxH.Strictest(MaxLen(preH));
      h := Clamp(newH.value, c.minH, cap);
    }
    var y := Length.Place(h, pos.h, c.minHFail, c.maxHFail) + pos.y;
    r := FRect(x, y, w, h);
  }

  // ------------------------------------------------------------ properties

  /** Spaced children form a row. */
  lemma SpacedRow(cs: seq<Sizing>, pos: FRect, lens: seq<real>)
    requires |lens| == |cs| && Spaced(pos, lens)
    ensures Placed(cs, pos, lens) == Row(cs, pos, Snap(lens), Gap(Sum(lens), pos.w, |cs|))
  {
  }

  /** Each child starts where its left neighbour ends, plus the gap. */
  lemma ChildrenAdjacent(cs: seq<Sizing>, pos: FRect, lens: seq<real>, i: nat)
    requires |lens| == |cs| && Spaced(pos, lens) && i + 1 < |cs|
    ensures var r := Placed(cs, pos, lens);
      var gap := Gap(Sum(lens), pos.w, |cs|);
      r[i].Some? && r[i + 1].Some? && gap >= 0.0 &&
      r[i + 1].value.x == r[i].value.x + r[i].value.w + gap
  {
    SpacedRow(cs, pos, lens);
  }

  /**
   * The children span what they cover to within a pixel: when there is
   * spare width the last child ends less than a pixel before the layout's
   * right edge; otherwise the snapped widths trail their total by less
   * than a pixel.
   */
  lemma ChildrenSpanParent(cs: seq<Sizing>, pos: FRect, lens: seq<real>)
    requires |lens| == |cs| && Spaced(pos, lens) && |cs| > 0
    ensures var last := Placed(cs, pos, lens)[|cs| - 1];
      var total := Sum(lens);
      last.Some? &&
      (total < pos.w ==>
        pos.x + pos.w - 1.0 < last.value.x + last.value.w <= pos.x + pos.w) &&
      (total >= pos.w ==>
        pos.x + total - 1.0 < last.value.x + last.value.w <= pos.x + total)
  {
    var n := |cs|;
    SpacedRow(cs, pos, lens);
    var gap := Gap(Sum(lens), pos.w, n);
    RowSpan(cs, pos, Snap(lens), gap);
    SnapTotal(lens);
    var last := Placed(cs, pos, lens)[n - 1].value;
    var snapped, total := Sum(Snap(lens)), Sum(lens);
    GapsFillSpare(total, pos.w, n);
    var spare := Repeated(gap, n - 1);
    assert total < pos.w ==> n >= 2;
    if total < pos.w {
      assert spare == pos.w - total;
    } else {
      assert spare == 0.0;
    }
    assert last.x + last.w == pos.x + snapped + spare;
  }

  /** The last child of a row ends after all the widths and gaps. */
  lemma RowSpan(cs: seq<Sizing>, pos: FRect, widths: seq<real>, gap: real)
    requires 0 < |cs| == |widths|
    ensures var last := Row(cs, pos, widths, gap)[|cs| - 1];
      last.Some? && last.value.x + last.value.w == pos.x + Sum(widths) + Repeated(gap, |cs| - 1)
  {
    RowEnd(widths, gap, |cs|);
  }

  /**
   * When the children's limits are ordered, every snapped width lies
   * within a pixel of the child's limits, and is its settled width
   * rounded down or up.
   */
  lemma WidthsWithinLimits(cs: seq<Sizing>, pos: FRect, i: nat)
    requires Spaced(pos, SettledWidths(cs, pos)) && i < |cs|
    requires forall j :: 0 <= j < |cs| ==> cs[j].prefW.p >= 0.0 && 0.0 <= cs[j].minW.v <= cs[j].maxW.v
    ensures var r := Placements(cs, pos)[i];
      var len := SettledWidths(cs, pos)[i];
      r.Some? &&
      (r.value.w == len.Floor as real || r.value.w == len.Floor as real + 1.0) &&
      cs[i].minW.v - 1.0 < r.value.w < cs[i].maxW.v + 1.0
  {
    var infos := Infos(cs);
    var lens := SettledWidths(cs, pos);
    assert PrefsNonNegative(infos) && LimitsOrdered(infos);
    SettleKeepsLimits(infos, pos.w);
    SnapFacts(lens, i);
    SpacedRow(cs, pos, lens);
  }
}
