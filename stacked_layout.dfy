/**
 * `StackedLayout` (`layout/stacked_layout.rs`): children drawn over one
 * another, each placed on its own inside the layout's whole rectangle.
 * Its sizing is either stated literally or inherited from the children:
 * the strictest limits of any child, everything else from the topmost
 * (last) child.
 */
module StackedLayout {
  import opened Wrappers
  import opened Rects
  import opened Length
  import opened Sizing
  import opened Aggregate
  import Widget

  /** `StackedLayoutLiteralSizing`. */
  datatype LiteralSizing = LiteralSizing(
    preferredW: PreferredPortion, preferredH: PreferredPortion,
    minWFail: MinLenFailPolicy, maxWFail: MaxLenFailPolicy,
    minHFail: MinLenFailPolicy, maxHFail: MaxLenFailPolicy,
    minW: MinLen, maxW: MaxLen, minH: MinLen, maxH: MaxLen)

  /** Every field at its type's default. */
  const LITERAL_DEFAULT: LiteralSizing := LiteralSizing(
    FULL, FULL, MIN_CENTERED, MAX_CENTERED, MIN_CENTERED, MAX_CENTERED,
    MIN_LAX, MAX_LAX, MIN_LAX, MAX_LAX)

  /** `StackedLayoutSizingPolicy`; `Children` is the default. */
  datatype SizingPolicy = Children | Literal(sizing: LiteralSizing)

  datatype Layout = Layout(elems: seq<Sizing>, policy: SizingPolicy)

  /** The child whose answers the layout passes on: the last, or the defaults when there is none. */
  function Top(elems: seq<Sizing>): (r: Sizing)
    ensures |elems| > 0 ==> r == elems[|elems| - 1]
    ensures |elems| == 0 ==> r == DEFAULT
  {
    if |elems| > 0 then elems[|elems| - 1] else DEFAULT
  }

  /**
   * The layout's answers to the sizing queries, as a parent sees them.
   * Literal sizing answers with its fields and no aspect ratio; inherited
   * sizing takes the largest minimum and smallest maximum of any child and
   * the rest from the topmost child.
   */
  function AsChild(l: Layout): (r: Sizing)
    ensures l.policy.Literal? ==>
      var s := l.policy.sizing;
      r == Sizing(s.minW, s.minH, s.maxW, s.maxH, s.minWFail, s.minHFail, s.maxWFail, s.maxHFail,
                  s.preferredW, s.preferredH, NoLink, false)
    ensures l.policy.Children? ==>
      var top := Top(l.elems);
      r.minWFail == top.minWFail && r.minHFail == top.minHFail &&
      r.maxWFail == top.maxWFail && r.maxHFail == top.maxHFail &&
      r.prefW == top.prefW && r.prefH == top.prefH &&
      r.link == top.link && r.linkExceed == top.linkExceed
    ensures l.policy.Children? ==>
      r.minW == MinStrictestFold(MIN_LAX, MinWs(l.elems)) && r.minH == MinStrictestFold(MIN_LAX, MinHs(l.elems)) &&
      r.maxW == MaxStrictestFold(MAX_LAX, MaxWs(l.elems)) && r.maxH == MaxStrictestFold(MAX_LAX, MaxHs(l.elems))
  {
    match l.policy
    case Literal(s) =>
      Sizing(s.minW, s.minH, s.maxW, s.maxH, s.minWFail, s.minHFail, s.maxWFail, s.maxHFail,
             s.preferredW, s.preferredH, NoLink, false)
    case Children =>
      var top := Top(l.elems);
      top.(minW := MinStrictestFold(MIN_LAX, MinWs(l.elems)), minH := MinStrictestFold(MIN_LAX, MinHs(l.elems)),
           maxW := MaxStrictestFold(MAX_LAX, MaxWs(l.elems)), maxH := MaxStrictestFold(MAX_LAX, MaxHs(l.elems)))
  }

  /**
   * Inherited limits are the strictest of any child: each minimum is the
   * largest child minimum (0 with no children) and each maximum the smallest
   * child maximum (LAX with no children).
   */
  lemma InheritedLimits(l: Layout)
    requires l.policy.Children?
    ensures var r := AsChild(l);
      var cs := l.elems;
      r.minW.v >= 0.0 && r.minH.v >= 0.0 && r.maxW.v <= F32_MAX && r.maxH.v <= F32_MAX &&
      (forall i :: 0 <= i < |cs| ==>
        r.minW.v >= cs[i].minW.v && r.minH.v >= cs[i].minH.v &&
        r.maxW.v <= cs[i].maxW.v && r.maxH.v <= cs[i].maxH.v) &&
      (r.minW == MIN_LAX || exists i :: 0 <= i < |cs| && r.minW == cs[i].minW) &&
      (r.minH == MIN_LAX || exists i :: 0 <= i < |cs| && r.minH == cs[i].minH) &&
      (r.maxW == MAX_LAX || exists i :: 0 <= i < |cs| && r.maxW == cs[i].maxW) &&
      (r.maxH == MAX_LAX || exists i :: 0 <= i < |cs| && r.maxH == cs[i].maxH) &&
      (|cs| == 0 ==> r == DEFAULT)
  {
    MinStrictestFoldIsMax(MIN_LAX, MinWs(l.elems));
    MinStrictestFoldIsMax(MIN_LAX, MinHs(l.elems));
    MaxStrictestFoldIsMin(MAX_LAX, MaxWs(l.elems));
    MaxStrictestFoldIsMin(MAX_LAX, MaxHs(l.elems));
  }

  /** Literal sizing does not depend on the children at all. */
  lemma LiteralIgnoresChildren(s: LiteralSizing, cs: seq<Sizing>, ds: seq<Sizing>)
    ensures AsChild(Layout(cs, Literal(s))) == AsChild(Layout(ds, Literal(s)))
    ensures !HasRatio(AsChild(Layout(cs, Literal(s))).link)
  {
  }

  /**
   * A stack of one child (whose limits are in range) answers every sizing
   * query exactly as that child does.
   */
  lemma {:induction false} SingleChildIsTransparent(c: Sizing)
    requires c.minW.v >= 0.0 && c.minH.v >= 0.0 && c.maxW.v <= F32_MAX && c.maxH.v <= F32_MAX
    ensures AsChild(Layout([c], Children)) == c
  {
    assert MinWs([c])[..0] == [] && MinHs([c])[..0] == [] && MaxWs([c])[..0] == [] && MaxHs([c])[..0] == [];
    assert MinStrictestFold(MIN_LAX, MinWs([c])) == MIN_LAX.Strictest(c.minW) == c.minW;
    assert MinStrictestFold(MIN_LAX, MinHs([c])) == MIN_LAX.Strictest(c.minH) == c.minH;
    assert MaxStrictestFold(MAX_LAX, MaxWs([c])) == MAX_LAX.Strictest(c.maxW) == c.maxW;
    assert MaxStrictestFold(MAX_LAX, MaxHs([c])) == MAX_LAX.Strictest(c.maxH) == c.maxH;
  }

  /** `min`: the literal limits, or the strictest of the children's. */
  method Min(l: Layout) returns (w: MinLen, h: MinLen)
    ensures w == AsChild(l).minW && h == AsChild(l).minH
  {
    if l.policy.Literal? {
      return l.policy.sizing.minW, l.policy.sizing.minH;
    }
    var heightSoFar := MIN_LAX;
    var widthSoFar := MIN_LAX;
    var i := 0;
    while i < |l.elems|
      invariant 0 <= i <= |l.elems|
      invariant heightSoFar == MinStrictestFold(MIN_LAX, MinHs(l.elems)[..i])
      invariant widthSoFar == MinStrictestFold(MIN_LAX, MinWs(l.elems)[..i])
    {
      assert MinHs(l.elems)[..i + 1][..i] == MinHs(l.elems)[..i];
      assert MinWs(l.elems)[..i + 1][..i] == MinWs(l.elems)[..i];
      heightSoFar := heightSoFar.Strictest(l.elems[i].minH);
      widthSoFar := widthSoFar.Strictest(l.elems[i].minW);
      i := i + 1;
    }
    assert MinHs(l.elems)[..i] == MinHs(l.elems) && MinWs(l.elems)[..i] == MinWs(l.elems);
    w, h := widthSoFar, heightSoFar;
  }

  /** `max`: the literal limits, or the strictest of the children's. */
  method Max(l: Layout) returns (w: MaxLen, h: MaxLen)
    ensures w == AsChild(l).maxW && h == AsChild(l).maxH
  {
    if l.policy.Literal? {
      return l.policy.sizing.maxW, l.policy.sizing.maxH;
    }
    var heightSoFar := MAX_LAX;
    var widthSoFar := MAX_LAX;
    var i := 0;
    while i < |l.elems|
      invariant 0 <= i <= |l.elems|
      invariant heightSoFar == MaxStrictestFold(MAX_LAX, MaxHs(l.elems)[..i])
      invariant widthSoFar == MaxStrictestFold(MAX_LAX, MaxWs(l.elems)[..i])
    {
      assert MaxHs(l.elems)[..i + 1][..i] == MaxHs(l.elems)[..i];
      assert MaxWs(l.elems)[..i + 1][..i] == MaxWs(l.elems)[..i];
      heightSoFar := heightSoFar.Strictest(l.elems[i].maxH);
      widthSoFar := widthSoFar.Strictest(l.elems[i].maxW);
      i := i + 1;
    }
    assert MaxHs(l.elems)[..i] == MaxHs(l.elems) && MaxWs(l.elems)[..i] == MaxWs(l.elems);
    w, h := widthSoFar, heightSoFar;
  }

  // ------------------------------------------------------------ placement

  /**
   * The `impl_widget_fn` body: every child is placed on its own inside the
   * layout's rectangle, with the event's aspect-ratio priority; a layout
   * without a position passes none to every child.
   */
  method Arrange(l: Layout, pos: Option<FRect>, priority: AspectRatioPreferredDirection) returns (placed: seq<Option<FRect>>)
    ensures |placed| == |l.elems|
    ensures pos.None? ==> forall i :: 0 <= i < |l.elems| ==> placed[i].None?
    ensures pos.Some? ==> forall i :: 0 <= i < |l.elems| ==> placed[i] == Widget.Place(l.elems[i], pos.value, priority)
  {
    placed := [];
    var i := 0;
    while i < |l.elems|
      invariant 0 <= i <= |l.elems| && |placed| == i
      invariant pos.None? ==> forall j :: 0 <= j < i ==> placed[j].None?
      invariant pos.Some? ==> forall j :: 0 <= j < i ==> placed[j] == Widget.Place(l.elems[j], pos.value, priority)
    {
      var r := if pos.None? then None else Widget.Place(l.elems[i], pos.value, priority);
      placed := placed + [r];
      i := i + 1;
    }
  }
}
