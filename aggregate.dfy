/**
 * How a layout folds its children's limits into its own: `combined` adds
 * lengths up (children side by side), `strictest` keeps the tightest one
 * (children across the same span). The folds run over the children in
 * order from a seed, as the `min` and `max` loops of
 * `layout/horizontal_layout.rs`, `layout/vertical_layout.rs` and
 * `layout/stacked_layout.rs` do.
 */
module Aggregate {
  import opened Wrappers
  import opened Length
  import opened Sizing

  /**
   * `MajorAxisMaxLenPolicy` (`layout/vertical_layout.rs`): the maximum
   * along a linear layout's own axis is unbounded (`Spread`) or follows a
   * `MaxLenPolicy` (`Together`).
   */
  datatype MajorAxisMaxLenPolicy = Spread | Together(policy: MaxLenPolicy)

  /** The literal answer of a major-axis policy, if it has one (`Spread` is unbounded). */
  function LiteralMax(p: MajorAxisMaxLenPolicy): (r: Option<MaxLen>)
    ensures r.None? <==> p == Together(MaxChildren)
    ensures p.Spread? ==> r == Some(MAX_LAX)
    ensures p.Together? && p.policy.MaxLiteral? ==> r == Some(p.policy.max)
  {
    match p
    case Spread => Some(MAX_LAX)
    case Together(MaxLiteral(m)) => Some(m)
    case Together(MaxChildren) => None
  }

  /** The children's answers to one sizing query, in order. */
  function MinWs(cs: seq<Sizing>): (r: seq<MinLen>)
    ensures |r| == |cs| && forall i :: 0 <= i < |cs| ==> r[i] == cs[i].minW
  {
    seq(|cs|, i requires 0 <= i < |cs| => cs[i].minW)
  }

  function MinHs(cs: seq<Sizing>): (r: seq<MinLen>)
    ensures |r| == |cs| && forall i :: 0 <= i < |cs| ==> r[i] == cs[i].minH
  {
    seq(|cs|, i requires 0 <= i < |cs| => cs[i].minH)
  }

  function MaxWs(cs: seq<Sizing>): (r: seq<MaxLen>)
    ensures |r| == |cs| && forall i :: 0 <= i < |cs| ==> r[i] == cs[i].maxW
  {
    seq(|cs|, i requires 0 <= i < |cs| => cs[i].maxW)
  }

  function MaxHs(cs: seq<Sizing>): (r: seq<MaxLen>)
    ensures |r| == |cs| && forall i :: 0 <= i < |cs| ==> r[i] == cs[i].maxH
  {
    seq(|cs|, i requires 0 <= i < |cs| => cs[i].maxH)
  }

  function MinCombinedFold(seed: MinLen, ms: seq<MinLen>): MinLen
  {
    if |ms| == 0 then seed else MinCombinedFold(seed, ms[..|ms| - 1]).Combined(ms[|ms| - 1])
  }

  function MinStrictestFold(seed: MinLen, ms: seq<MinLen>): MinLen
  {
    if |ms| == 0 then seed else MinStrictestFold(seed, ms[..|ms| - 1]).Strictest(ms[|ms| - 1])
  }

  function MaxCombinedFold(seed: MaxLen, ms: seq<MaxLen>): MaxLen
  {
    if |ms| == 0 then seed else MaxCombinedFold(seed, ms[..|ms| - 1]).Combined(ms[|ms| - 1])
  }

  function MaxStrictestFold(seed: MaxLen, ms: seq<MaxLen>): MaxLen
  {
    if |ms| == 0 then seed else MaxStrictestFold(seed, ms[..|ms| - 1]).Strictest(ms[|ms| - 1])
  }

  function SumMin(ms: seq<MinLen>): real
  {
    if |ms| == 0 then 0.0 else SumMin(ms[..|ms| - 1]) + ms[|ms| - 1].v
  }

  function SumMax(ms: seq<MaxLen>): real
  {
    if |ms| == 0 then 0.0 else SumMax(ms[..|ms| - 1]) + ms[|ms| - 1].v
  }

  /** Combining minimums adds them to the seed. */
  lemma {:induction false} MinCombinedFoldIsSum(seed: MinLen, ms: seq<MinLen>)
    ensures MinCombinedFold(seed, ms).v == seed.v + SumMin(ms)
  {
    if |ms| > 0 {
      MinCombinedFoldIsSum(seed, ms[..|ms| - 1]);
    }
  }

  /**
   * The strictest minimum is at least the seed and every element, and is
   * one of them: it is their largest.
   */
  lemma {:induction false} MinStrictestFoldIsMax(seed: MinLen, ms: seq<MinLen>)
    ensures var r := MinStrictestFold(seed, ms);
      r.v >= seed.v && (forall i :: 0 <= i < |ms| ==> r.v >= ms[i].v) &&
      (r == seed || exists i :: 0 <= i < |ms| && r == ms[i])
  {
    if |ms| > 0 {
      var init := ms[..|ms| - 1];
      MinStrictestFoldIsMax(seed, init);
      var r0 := MinStrictestFold(seed, init);
      if r0 != seed {
        var j :| 0 <= j < |init| && r0 == init[j];
        assert r0 == ms[j];
      }
      forall i | 0 <= i < |ms| - 1
        ensures MinStrictestFold(seed, ms).v >= ms[i].v
      {
        assert ms[i] == init[i];
      }
    }
  }

  /**
   * Combining maximums adds them to the seed, except that an unbounded
   * (LAX) one anywhere, the seed included, makes the whole unbounded;
   * non-negative maximums whose total stays below `f32::MAX` are summed
   * exactly.
   */
  lemma {:induction false} MaxCombinedFoldIsSum(seed: MaxLen, ms: seq<MaxLen>)
    ensures var r := MaxCombinedFold(seed, ms);
      (r == MAX_LAX || r.v == seed.v + SumMax(ms)) &&
      (seed == MAX_LAX ==> r == MAX_LAX) &&
      (forall i :: 0 <= i < |ms| && ms[i] == MAX_LAX ==> r == MAX_LAX) &&
      (seed.v >= 0.0 && (forall i :: 0 <= i < |ms| ==> ms[i].v >= 0.0) && seed.v + SumMax(ms) < F32_MAX ==>
         r.v == seed.v + SumMax(ms))
  {
    if |ms| > 0 {
      var init := ms[..|ms| - 1];
      var last := ms[|ms| - 1];
      MaxCombinedFoldIsSum(seed, init);
      forall i | 0 <= i < |ms| - 1 && ms[i] == MAX_LAX
        ensures MaxCombinedFold(seed, ms) == MAX_LAX
      {
        assert ms[i] == init[i];
      }
      if seed.v >= 0.0 && (forall i :: 0 <= i < |ms| ==> ms[i].v >= 0.0) && seed.v + SumMax(ms) < F32_MAX {
        assert forall i :: 0 <= i < |init| ==> init[i].v >= 0.0 by {
          forall i | 0 <= i < |init| ensures init[i].v >= 0.0 {
            assert init[i] == ms[i];
          }
        }
        SumMaxNonNegative(init);
        assert MaxCombinedFold(seed, init).v == seed.v + SumMax(init);
        assert last.v < F32_MAX;
      }
    }
  }

  lemma {:induction false} SumMaxNonNegative(ms: seq<MaxLen>)
    requires forall i :: 0 <= i < |ms| ==> ms[i].v >= 0.0
    ensures SumMax(ms) >= 0.0
  {
    if |ms| > 0 {
      var init := ms[..|ms| - 1];
      assert forall i :: 0 <= i < |init| ==> init[i] == ms[i];
      SumMaxNonNegative(init);
    }
  }

  /**
   * The strictest maximum is at most the seed and every element, and is
   * one of them: it is their smallest.
   */
  lemma {:induction false} MaxStrictestFoldIsMin(seed: MaxLen, ms: seq<MaxLen>)
    ensures var r := MaxStrictestFold(seed, ms);
      r.v <= seed.v && (forall i :: 0 <= i < |ms| ==> r.v <= ms[i].v) &&
      (r == seed || exists i :: 0 <= i < |ms| && r == ms[i])
  {
    if |ms| > 0 {
      var init := ms[..|ms| - 1];
      MaxStrictestFoldIsMin(seed, init);
      var r0 := MaxStrictestFold(seed, init);
      if r0 != seed {
        var j :| 0 <= j < |init| && r0 == init[j];
        assert r0 == ms[j];
      }
      forall i | 0 <= i < |ms| - 1
        ensures MaxStrictestFold(seed, ms).v <= ms[i].v
      {
        assert ms[i] == init[i];
      }
    }
  }
}
