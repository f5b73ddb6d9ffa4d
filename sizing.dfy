/**
 * What a parent can ask of a child widget (the sizing queries of the
 * `Widget` trait in `widget/widget.rs`): its minimum and maximum lengths,
 * fail policies, preferred portions and an optional aspect-ratio link
 * between its width and height.
 */
module Sizing {
  import opened Wrappers
  import opened Length

  type PositiveReal = r: real | r > 0.0 witness 1.0

  /**
   * How a widget derives one length from the other. `Ratio` keeps a
   * width / height ratio; `Bordered` is a link seen through a border that
   * takes `borderWidth` from each side.
   */
  datatype Link = NoLink | Ratio(ratio: PositiveReal) | Bordered(borderWidth: nat, inner: Link)

  /** The border's input rule: the amount it removes, and what its child is asked about. */
  function BorderSplit(subAmount: real, pref: real): (r: (real, real))
    ensures r.0 + r.1 == pref
    ensures subAmount >= pref ==> r.1 == 0.0
    ensures subAmount < pref ==> r.0 == subAmount
  {
    if subAmount >= pref then (pref, 0.0) else (subAmount, pref - subAmount)
  }

  /** The border's output rule: what it removed is added back to the child's answer. */
  function AddBack(answer: Option<real>, amount: real): (r: Option<real>)
    ensures r.Some? <==> answer.Some?
    ensures r.Some? ==> r.value - amount == answer.value
  {
    match answer
    case None => None
    case Some(v) => Some(v + amount)
  }

  /** Whether a link derives lengths at all. */
  predicate HasRatio(link: Link)
  {
    match link
    case NoLink => false
    case Ratio(_) => true
    case Bordered(_, inner) => HasRatio(inner)
  }

  /** `preferred_width_from_height`. */
  function PreferredWidthFromHeight(link: Link, prefH: real): (r: Option<real>)
    ensures r.Some? <==> HasRatio(link)
  {
    match link
    case NoLink => None
    case Ratio(ratio) => Some(RatioWidthFromHeight(ratio, prefH))
    case Bordered(bw, inner) =>
      var (subtracted, forChild) := BorderSplit((2 * bw) as real, prefH);
      AddBack(PreferredWidthFromHeight(inner, forChild), subtracted)
  }

  /** `preferred_height_from_width`. */
  function PreferredHeightFromWidth(link: Link, prefW: real): (r: Option<real>)
    ensures r.Some? <==> HasRatio(link)
  {
    match link
    case NoLink => None
    case Ratio(ratio) => Some(RatioHeightFromWidth(ratio, prefW))
    case Bordered(bw, inner) =>
      var (subtracted, forChild) := BorderSplit((2 * bw) as real, prefW);
      AddBack(PreferredHeightFromWidth(inner, forChild), subtracted)
  }

  /**
   * A widget's answers to the sizing queries. `linkExceed` is
   * `preferred_link_allowed_exceed_portion`.
   */
  datatype Sizing = Sizing(
    minW: MinLen, minH: MinLen,
    maxW: MaxLen, maxH: MaxLen,
    minWFail: MinLenFailPolicy, minHFail: MinLenFailPolicy,
    maxWFail: MaxLenFailPolicy, maxHFail: MaxLenFailPolicy,
    prefW: PreferredPortion, prefH: PreferredPortion,
    link: Link,
    linkExceed: bool)

  /**
   * The `Widget` trait's defaults: no limits, centred fail policies, the
   * whole parent preferred, no aspect ratio.
   */
  const DEFAULT: Sizing := Sizing(
    MIN_LAX, MIN_LAX, MAX_LAX, MAX_LAX,
    MIN_CENTERED, MIN_CENTERED, MAX_CENTERED, MAX_CENTERED,
    FULL, FULL, NoLink, false)
}
