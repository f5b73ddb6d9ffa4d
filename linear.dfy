/**
 * How a horizontal or vertical layout shares its length among its children
 * along the layout's axis (the major axis). Both layouts run the same
 * steps (`layout/horizontal_layout.rs` and `layout/vertical_layout.rs`): a
 * first pass gives every child its weighted portion clamped to its limits;
 * the length this frees or costs is then given to the children that can
 * still grow (`distribute_excess`) or taken from the ones that can still
 * shrink (`take_deficit`), by weight, for a bounded number of rounds; finally
 * the lengths are snapped to whole pixels, carrying the rounding error from
 * child to child.
 */
module Linear {
  import opened Wrappers
  import opened Length

  /**
   * `ChildInfo`: a child's limits along the major axis (`pref`, `min`,
   * `max`), the length being settled (`len`), and its sizing along the
   * other (minor) axis.
   */
  datatype ChildInfo = ChildInfo(
    pref: PreferredPortion, max: real, min: real,
    len: real,
    minorPref: PreferredPortion, minorMax: MaxLen, minorMin: MinLen)

  /** `RUN_OFF_SIZING_AMOUNT`: the number of distribution rounds. */
  const RUN_OFF_SIZING_AMOUNT: nat := 15

  function SumLen(s: seq<ChildInfo>): real
  {
    if |s| == 0 then 0.0 else SumLen(s[..|s| - 1]) + s[|s| - 1].len
  }

  function Prefs(s: seq<ChildInfo>): (ps: seq<PreferredPortion>)
    ensures |ps| == |s| && forall i :: 0 <= i < |s| ==> ps[i] == s[i].pref
  {
    seq(|s|, i requires 0 <= i < |s| => s[i].pref)
  }

  predicate PrefsNonNegative(s: seq<ChildInfo>)
  {
    forall i :: 0 <= i < |s| ==> s[i].pref.p >= 0.0
  }

  /** Two infos that differ at most in the length being settled. */
  predicate SameButLen(a: ChildInfo, b: ChildInfo)
  {
    a.(len := b.len) == b
  }

  function MaxReal(a: real, b: real): real { if a < b then b else a }
  function MinReal(a: real, b: real): real { if a < b then a else b }

  // ---------------------------------------------------------------- first pass

  /**
   * The first pass for one child: its weighted portion, raised to its
   * minimum (taking the difference from the others) or lowered to its
   * maximum (giving the difference to them).
   */
  function FirstPassOne(c: ChildInfo, sumPref: PreferredPortion, n: nat, parentLen: real): (r: (ChildInfo, real, real))
    ensures SameButLen(c, r.0)
    ensures r.1 >= 0.0 && r.2 >= 0.0
    ensures r.0.len == c.pref.WeightedPortion(sumPref, n, parentLen) + r.1 - r.2
    ensures r.1 > 0.0 ==> r.0.len == c.min
    ensures r.2 > 0.0 ==> r.0.len == c.max
  {
    var w := c.pref.WeightedPortion(sumPref, n, parentLen);
    if w < c.min then (c.(len := c.min), c.min - w, 0.0)
    else if w > c.max then (c.(len := c.max), 0.0, w - c.max)
    else (c.(len := w), 0.0, 0.0)
  }

  /** The first pass over the children in order: their infos, the amount taken and the amount given. */
  function FirstPassAll(s: seq<ChildInfo>, sumPref: PreferredPortion, n: nat, parentLen: real): (r: (seq<ChildInfo>, real, real))
    ensures |r.0| == |s|
  {
    if |s| == 0 then ([], 0.0, 0.0)
    else
      var (done, taken, given) := FirstPassAll(s[..|s| - 1], sumPref, n, parentLen);
      var (c, t, g) := FirstPassOne(s[|s| - 1], sumPref, n, parentLen);
      (done + [c], taken + t, given + g)
  }

  /**
   * After the first pass the lengths fill the parent exactly, once the
   * amount taken is added and the amount given is removed.
   */
  lemma FirstPassFillsParent(s: seq<ChildInfo>, parentLen: real)
    requires |s| > 0
    ensures var (out, taken, given) := FirstPassAll(s, PreferredPortion(SumPortions(Prefs(s))), |s|, parentLen);
      SumLen(out) == parentLen + taken - given
  {
    var sum := PreferredPortion(SumPortions(Prefs(s)));
    FirstPassSum(s, sum, |s|, parentLen);
    WeightedPortionsFillParent(Prefs(s), parentLen);
  }

  lemma {:induction false} FirstPassSum(s: seq<ChildInfo>, sumPref: PreferredPortion, n: nat, parentLen: real)
    ensures var (out, taken, given) := FirstPassAll(s, sumPref, n, parentLen);
      |out| == |s| &&
      (forall i :: 0 <= i < |s| ==> out[i] == FirstPassOne(s[i], sumPref, n, parentLen).0) &&
      SumLen(out) == SumWeighted(Prefs(s), sumPref, n, parentLen) + taken - given
  {
    if |s| > 0 {
      var init := s[..|s| - 1];
      FirstPassSum(init, sumPref, n, parentLen);
      var (out, taken, given) := FirstPassAll(s, sumPref, n, parentLen);
      var (done, _, _) := FirstPassAll(init, sumPref, n, parentLen);
      assert out[..|s| - 1] == done;
      assert Prefs(s)[..|s| - 1] == Prefs(init);
    }
  }

  /** `FirstPassAll` over one more child extends the infos and adds up the amounts. */
  lemma FirstPassAllSnoc(s: seq<ChildInfo>, i: nat, sumPref: PreferredPortion, n: nat, parentLen: real)
    requires i < |s|
    ensures var (done, taken, given) := FirstPassAll(s[..i], sumPref, n, parentLen);
      var (c, t, g) := FirstPassOne(s[i], sumPref, n, parentLen);
      FirstPassAll(s[..i + 1], sumPref, n, parentLen) == (done + [c], taken + t, given + g)
  {
    assert s[..i + 1][..i] == s[..i];
  }

  /** The first pass, in place: `info` gets the clamped portions. */
  method FirstPass(info: array<ChildInfo>, sumPref: PreferredPortion, parentLen: real) returns (taken: real, given: real)
    modifies info
    ensures (info[..], taken, given) == FirstPassAll(old(info[..]), sumPref, info.Length, parentLen)
  {
    ghost var orig := info[..];
    taken, given := 0.0, 0.0;
    var i := 0;
    while i < info.Length
      invariant 0 <= i <= info.Length
      invariant (info[..i], taken, given) == FirstPassAll(orig[..i], sumPref, info.Length, parentLen)
      invariant forall j :: i <= j < info.Length ==> info[j] == orig[j]
    {
      ghost var done := info[..i];
      var c := info[i];
      var w := c.pref.WeightedPortion(sumPref, info.Length, parentLen);
      if w < c.min {
        taken := taken + (c.min - w);
        w := c.min;
      } else if w > c.max {
        given := given + (w - c.max);
        w := c.max;
      }
      info[i] := c.(len := w);
      assert info[..i + 1] == done + [c.(len := w)];
      FirstPassAllSnoc(orig, i, sumPref, info.Length, parentLen);
      i := i + 1;
    }
    assert info[..] == info[..i] && orig == orig[..i];
  }

  // ---------------------------------------------------------- shared rounds

  /**
   * Whether a child can still take part in a round: in a `grow` round it is
   * below its maximum, in a shrink round above its minimum.
   */
  predicate Adjustable(c: ChildInfo, grow: bool)
  {
    if grow then c.len < c.max else c.len > c.min
  }

  /** `available_weight`: the total portion of the adjustable children. */
  function AvailableWeight(s: seq<ChildInfo>, grow: bool): real
  {
    if |s| == 0 then 0.0
    else AvailableWeight(s[..|s| - 1], grow) + (if Adjustable(s[|s| - 1], grow) then s[|s| - 1].pref.p else 0.0)
  }

  /** The number of adjustable children. */
  function AvailableCount(s: seq<ChildInfo>, grow: bool): nat
  {
    if |s| == 0 then 0
    else AvailableCount(s[..|s| - 1], grow) + (if Adjustable(s[|s| - 1], grow) then 1 else 0)
  }

  /**
   * The amount an adjustable child is meant to receive (or give up) this
   * round: its share of the weight; when the weight is zero, an equal share.
   */
  function Share(pref: real, weight: real, count: nat, amount: real): real
  {
    if weight != 0.0 then (pref / weight) * amount
    else if count != 0 then amount / count as real
    else 0.0
  }

  /**
   * The per-child step as written: the share divides by the available
   * weight even when it is zero, which on `f32` yields NaN. None stands for
   * that NaN.
   */
  function ShareAsWritten(pref: real, weight: real, amount: real): (r: Option<real>)
    ensures r.None? <==> weight == 0.0
    ensures r.Some? ==> r.value == Share(pref, weight, 0, amount)
  {
    if weight == 0.0 then None else Some((pref / weight) * amount)
  }

  /**
   * One child in one round. Growing: add the share, but stop at the
   * maximum and carry what did not fit. Shrinking: the same towards the
   * minimum. A child that is not adjustable is left alone.
   */
  function AdjustOne(c: ChildInfo, grow: bool, weight: real, count: nat, amount: real): (r: (ChildInfo, real))
    ensures SameButLen(c, r.0)
    ensures !Adjustable(c, grow) ==> r == (c, 0.0)
    ensures Adjustable(c, grow) ==>
      var share := Share(c.pref.p, weight, count, amount);
      (grow ==> r.0.len - c.len + r.1 == share) &&
      (!grow ==> c.len - r.0.len + r.1 == share)
    ensures Adjustable(c, grow) && Share(c.pref.p, weight, count, amount) >= 0.0 ==>
      r.1 >= 0.0 &&
      (grow ==> c.len <= r.0.len <= c.max) &&
      (!grow ==> c.min <= r.0.len <= c.len)
  {
    if !Adjustable(c, grow) then (c, 0.0)
    else
      var share := Share(c.pref.p, weight, count, amount);
      if grow then
        var room := c.max - c.len;
        if share > room then (c.(len := c.max), share - room) else (c.(len := c.len + share), 0.0)
      else
        var room := c.len - c.min;
        if share > room then (c.(len := c.min), share - room) else (c.(len := c.len - share), 0.0)
  }

  /** One pass over the children, with the weight and count fixed for the round. */
  function AdjustAll(s: seq<ChildInfo>, grow: bool, weight: real, count: nat, amount: real): (r: (seq<ChildInfo>, real))
    ensures |r.0| == |s|
  {
    if |s| == 0 then ([], 0.0)
    else
      var (done, carry) := AdjustAll(s[..|s| - 1], grow, weight, count, amount);
      var (c, left) := AdjustOne(s[|s| - 1], grow, weight, count, amount);
      (done + [c], carry + left)
  }

  /** The shares meant for the adjustable children, summed. */
  function SumShares(s: seq<ChildInfo>, grow: bool, weight: real, count: nat, amount: real): real
  {
    if |s| == 0 then 0.0
    else
      var last := if Adjustable(s[|s| - 1], grow) then Share(s[|s| - 1].pref.p, weight, count, amount) else 0.0;
      SumShares(s[..|s| - 1], grow, weight, count, amount) + last
  }

  /** One round: `AdjustAll` with this round's available weight and count. */
  function Round(s: seq<ChildInfo>, grow: bool, amount: real): (r: (seq<ChildInfo>, real))
    ensures |r.0| == |s|
  {
    AdjustAll(s, grow, AvailableWeight(s, grow), AvailableCount(s, grow), amount)
  }

  lemma {:induction false} AdjustAllFacts(s: seq<ChildInfo>, grow: bool, weight: real, count: nat, amount: real)
    ensures var (out, carry) := AdjustAll(s, grow, weight, count, amount);
      |out| == |s| &&
      (forall i :: 0 <= i < |s| ==> out[i] == AdjustOne(s[i], grow, weight, count, amount).0) &&
      (grow ==> SumLen(out) - SumLen(s) + carry == SumShares(s, grow, weight, count, amount)) &&
      (!grow ==> SumLen(s) - SumLen(out) + carry == SumShares(s, grow, weight, count, amount))
  {
    if |s| > 0 {
      var init := s[..|s| - 1];
      AdjustAllFacts(init, grow, weight, count, amount);
      var (out, carry) := AdjustAll(s, grow, weight, count, amount);
      var (done, _) := AdjustAll(init, grow, weight, count, amount);
      assert out[..|s| - 1] == done;
    }
  }

  /** With a non-zero weight, the shares of one round are the adjustable children's portions of it. */
  lemma {:induction false} SumSharesWeighted(s: seq<ChildInfo>, grow: bool, weight: real, count: nat, amount: real)
    requires weight != 0.0
    ensures SumShares(s, grow, weight, count, amount) * weight == AvailableWeight(s, grow) * amount
  {
    if |s| > 0 {
      var init := s[..|s| - 1];
      SumSharesWeighted(init, grow, weight, count, amount);
      var x := SumShares(init, grow, weight, count, amount);
      var a := AvailableWeight(init, grow);
      if Adjustable(s[|s| - 1], grow) {
        var p := s[|s| - 1].pref.p;
        var share := Share(p, weight, count, amount);
        ShareWeighted(p, weight, count, amount);
        ProportionalStep(SumShares(s, grow, weight, count, amount), x, share, AvailableWeight(s, grow), a, p, weight, amount);
      } else {
        assert SumShares(s, grow, weight, count, amount) == x;
        assert AvailableWeight(s, grow) == a;
      }
    }
  }

  /** A weighted share is its portion of the amount, in proportion to the weight. */
  lemma ShareWeighted(p: real, weight: real, count: nat, amount: real)
    requires weight != 0.0
    ensures Share(p, weight, count, amount) * weight == p * amount
  {
  }

  /** `n` equal parts of an amount make up the amount. */
  lemma EqualParts(amount: real, n: nat)
    requires n != 0
    ensures n as real * (amount / n as real) == amount
  {
  }

  /** A non-zero factor cancels from both sides. */
  lemma Cancel(x: real, y: real, w: real)
    requires w != 0.0 && x * w == w * y
    ensures x == y
  {
    assert (x - y) * w == 0.0;
  }

  /** With a zero weight, the shares of one round are equal parts of it. */
  lemma {:induction false} SumSharesEqual(s: seq<ChildInfo>, grow: bool, count: nat, amount: real)
    requires count != 0
    ensures SumShares(s, grow, 0.0, count, amount) == Repeated(amount / count as real, AvailableCount(s, grow))
  {
    if |s| > 0 {
      SumSharesEqual(s[..|s| - 1], grow, count, amount);
    }
  }

  lemma RoundShares(s: seq<ChildInfo>, grow: bool, amount: real)
    requires AvailableCount(s, grow) > 0
    ensures SumShares(s, grow, AvailableWeight(s, grow), AvailableCount(s, grow), amount) == amount
  {
    var w := AvailableWeight(s, grow);
    var n := AvailableCount(s, grow);
    if w != 0.0 {
      WeightedSharesAddUp(s, grow, w, n, amount);
    } else {
      EqualSharesAddUp(s, grow, n, amount);
    }
  }

  lemma WeightedSharesAddUp(s: seq<ChildInfo>, grow: bool, w: real, n: nat, amount: real)
    requires w == AvailableWeight(s, grow) && w != 0.0
    ensures SumShares(s, grow, w, n, amount) == amount
  {
    SumSharesWeighted(s, grow, w, n, amount);
    Cancel(SumShares(s, grow, w, n, amount), amount, w);
  }

  lemma EqualSharesAddUp(s: seq<ChildInfo>, grow: bool, n: nat, amount: real)
    requires n == AvailableCount(s, grow) && n != 0
    ensures SumShares(s, grow, 0.0, n, amount) == amount
  {
    SumSharesEqual(s, grow, n, amount);
    var q := amount / n as real;
    RepeatedIs(q, n);
    EqualParts(amount, n);
  }

  /**
   * Conservation in one round: with an adjustable child, the lengths change
   * by exactly the amount, less what is carried to the next round.
   */
  lemma RoundConserves(s: seq<ChildInfo>, grow: bool, amount: real)
    requires AvailableCount(s, grow) > 0
    ensures var (out, carry) := Round(s, grow, amount);
      (grow ==> SumLen(out) + carry == SumLen(s) + amount) &&
      (!grow ==> SumLen(out) - carry == SumLen(s) - amount)
  {
    AdjustAllFacts(s, grow, AvailableWeight(s, grow), AvailableCount(s, grow), amount);
    RoundShares(s, grow, amount);
  }

  lemma {:induction false} AvailableCountZero(s: seq<ChildInfo>, grow: bool)
    requires AvailableCount(s, grow) == 0
    ensures forall i :: 0 <= i < |s| ==> !Adjustable(s[i], grow)
    ensures AvailableWeight(s, grow) == 0.0
  {
    if |s| > 0 {
      AvailableCountZero(s[..|s| - 1], grow);
      assert forall i :: 0 <= i < |s| - 1 ==> s[i] == s[..|s| - 1][i];
    }
  }

  lemma {:induction false} AvailableWeightNonNegative(s: seq<ChildInfo>, grow: bool)
    requires PrefsNonNegative(s)
    ensures AvailableWeight(s, grow) >= 0.0
  {
    if |s| > 0 {
      var init := s[..|s| - 1];
      assert PrefsNonNegative(init) by {
        assert forall i :: 0 <= i < |init| ==> init[i] == s[i];
      }
      AvailableWeightNonNegative(init, grow);
    }
  }

  /** With a round that finds nothing adjustable, nothing changes and nothing is carried. */
  lemma RoundWithoutAdjustable(s: seq<ChildInfo>, grow: bool, amount: real)
    requires AvailableCount(s, grow) == 0
    ensures Round(s, grow, amount) == (s, 0.0)
  {
    AvailableCountZero(s, grow);
    AdjustAllFacts(s, grow, AvailableWeight(s, grow), 0, amount);
    var (out, carry) := Round(s, grow, amount);
    assert out == s;
    SumSharesZero(s, grow, AvailableWeight(s, grow), amount);
  }

  lemma {:induction false} SumSharesZero(s: seq<ChildInfo>, grow: bool, weight: real, amount: real)
    requires forall i :: 0 <= i < |s| ==> !Adjustable(s[i], grow)
    ensures AdjustAll(s, grow, weight, 0, amount).1 == 0.0
  {
    if |s| > 0 {
      SumSharesZero(s[..|s| - 1], grow, weight, amount);
    }
  }

  /**
   * With non-negative portions and amount, a round only moves lengths
   * towards the limit being approached and never past it, and carries a
   * non-negative amount.
   */
  lemma RoundBounds(s: seq<ChildInfo>, grow: bool, amount: real)
    requires PrefsNonNegative(s) && amount >= 0.0
    ensures var (out, carry) := Round(s, grow, amount);
      |out| == |s| && carry >= 0.0 && PrefsNonNegative(out) &&
      forall i :: 0 <= i < |s| ==>
        SameButLen(s[i], out[i]) &&
        (grow ==> s[i].len <= out[i].len <= MaxReal(s[i].len, s[i].max)) &&
        (!grow ==> MinReal(s[i].len, s[i].min) <= out[i].len <= s[i].len)
  {
    var w := AvailableWeight(s, grow);
    var n := AvailableCount(s, grow);
    var (out, carry) := AdjustAll(s, grow, w, n, amount);
    AdjustAllFacts(s, grow, w, n, amount);
    AvailableWeightNonNegative(s, grow);
    forall i | 0 <= i < |s|
      ensures Share(s[i].pref.p, w, n, amount) >= 0.0
    {
      SharesNonNegative(s[i].pref.p, w, n, amount);
    }
    CarryNonNegative(s, grow, w, n, amount);
    forall i | 0 <= i < |s|
      ensures SameButLen(s[i], out[i])
      ensures grow ==> s[i].len <= out[i].len <= MaxReal(s[i].len, s[i].max)
      ensures !grow ==> MinReal(s[i].len, s[i].min) <= out[i].len <= s[i].len
    {
      var r := AdjustOne(s[i], grow, w, n, amount);
      assert out[i] == r.0;
    }
  }

  lemma SharesNonNegative(pref: real, weight: real, count: nat, amount: real)
    requires pref >= 0.0 && weight >= 0.0 && amount >= 0.0
    ensures Share(pref, weight, count, amount) >= 0.0
  {
    if weight != 0.0 {
      assert pref / weight >= 0.0;
    }
  }

  lemma {:induction false} CarryNonNegative(s: seq<ChildInfo>, grow: bool, weight: real, count: nat, amount: real)
    requires forall i :: 0 <= i < |s| ==> Share(s[i].pref.p, weight, count, amount) >= 0.0
    ensures AdjustAll(s, grow, weight, count, amount).1 >= 0.0
  {
    if |s| > 0 {
      var init := s[..|s| - 1];
      assert forall i :: 0 <= i < |init| ==> init[i] == s[i];
      CarryNonNegative(init, grow, weight, count, amount);
    }
  }

  lemma {:induction false} SumLenMonotone(a: seq<ChildInfo>, b: seq<ChildInfo>)
    requires |a| == |b| && forall i :: 0 <= i < |a| ==> a[i].len <= b[i].len
    ensures SumLen(a) <= SumLen(b)
  {
    if |a| > 0 {
      SumLenMonotone(a[..|a| - 1], b[..|b| - 1]);
    }
  }

  // ------------------------------------------------------ distribute_excess

  /** `distribute_excess`: rounds until nothing is left over or the rounds run out. */
  function DistributeRounds(s: seq<ChildInfo>, excess: real, rounds: nat): (r: (seq<ChildInfo>, real))
    ensures |r.0| == |s|
    decreases rounds
  {
    if rounds == 0 || excess == 0.0 then (s, excess)
    else
      var (out, carry) := Round(s, true, excess);
      DistributeRounds(out, carry, rounds - 1)
  }

  /**
   * Distributing an excess never shrinks a child, never grows one past its
   * maximum (unless it already was), changes nothing but lengths, and
   * leaves a non-negative amount over.
   */
  lemma {:induction false} DistributeRoundsKeeps(s: seq<ChildInfo>, excess: real, rounds: nat)
    requires PrefsNonNegative(s) && excess >= 0.0
    ensures var r := DistributeRounds(s, excess, rounds);
      r.1 >= 0.0 && PrefsNonNegative(r.0) &&
      forall i {:trigger r.0[i]} :: 0 <= i < |s| ==>
        SameButLen(s[i], r.0[i]) && s[i].len <= r.0[i].len <= MaxReal(s[i].len, s[i].max)
    decreases rounds
  {
    if rounds > 0 && excess != 0.0 {
      var mid := Round(s, true, excess);
      RoundBounds(s, true, excess);
      DistributeRoundsKeeps(mid.0, mid.1, rounds - 1);
    }
  }

  /** Distributing an excess hands out at most the excess, and takes nothing. */
  lemma {:induction false} DistributeRoundsConserves(s: seq<ChildInfo>, excess: real, rounds: nat)
    requires PrefsNonNegative(s) && excess >= 0.0
    ensures var r := DistributeRounds(s, excess, rounds);
      SumLen(s) <= SumLen(r.0) && SumLen(r.0) + r.1 <= SumLen(s) + excess
    decreases rounds
  {
    DistributeRoundsKeeps(s, excess, rounds);
    SumLenMonotone(s, DistributeRounds(s, excess, rounds).0);
    if rounds > 0 && excess != 0.0 {
      var mid := Round(s, true, excess);
      RoundBounds(s, true, excess);
      if AvailableCount(s, true) > 0 {
        RoundConserves(s, true, excess);
      } else {
        RoundWithoutAdjustable(s, true, excess);
      }
      DistributeRoundsConserves(mid.0, mid.1, rounds - 1);
    }
  }

  /**
   * The available weight and adjustable count of the children, computed
   * in one pass.
   */
  method AvailableWeightOf(info: array<ChildInfo>, grow: bool) returns (weight: real, count: nat)
    ensures weight == AvailableWeight(info[..], grow) && count == AvailableCount(info[..], grow)
  {
    weight, count := 0.0, 0;
    var i := 0;
    while i < info.Length
      invariant 0 <= i <= info.Length
      invariant weight == AvailableWeight(info[..i], grow) && count == AvailableCount(info[..i], grow)
    {
      assert info[..i + 1][..i] == info[..i];
      if Adjustable(info[i], grow) {
        weight := weight + info[i].pref.p;
        count := count + 1;
      }
      i := i + 1;
    }
    assert info[..] == info[..i];
  }

  /** `AdjustAll` over one more child is one more `AdjustOne`. */
  lemma AdjustAllSnoc(s: seq<ChildInfo>, i: nat, grow: bool, weight: real, count: nat, amount: real)
    requires i < |s|
    ensures AdjustAll(s[..i + 1], grow, weight, count, amount) ==
      var (done, carry) := AdjustAll(s[..i], grow, weight, count, amount);
      var (c, left) := AdjustOne(s[i], grow, weight, count, amount);
      (done + [c], carry + left)
  {
    assert s[..i + 1][..i] == s[..i];
  }

  /** The per-child step of a round: grow or shrink by the share, up to the child's bound. */
  method AdjustChild(c: ChildInfo, grow: bool, weight: real, count: nat, amount: real) returns (c': ChildInfo, left: real)
    ensures (c', left) == AdjustOne(c, grow, weight, count, amount)
  {
    c', left := c, 0.0;
    if Adjustable(c, grow) {
      var share := Share(c.pref.p, weight, count, amount);
      if grow {
        var room := c.max - c.len;
        if share > room {
          c', left := c.(len := c.max), share - room;
        } else {
          c' := c.(len := c.len + share);
        }
      } else {
        var room := c.len - c.min;
        if share > room {
          c', left := c.(len := c.min), share - room;
        } else {
          c' := c.(len := c.len - share);
        }
      }
    }
  }

  /** One pass over the children, in place, returning what is carried. */
  method AdjustInPlace(info: array<ChildInfo>, grow: bool, weight: real, count: nat, amount: real) returns (carry: real)
    modifies info
    ensures (info[..], carry) == AdjustAll(old(info[..]), grow, weight, count, amount)
  {
    ghost var orig := info[..];
    carry := 0.0;
    var i := 0;
    while i < info.Length
      invariant 0 <= i <= info.Length
      invariant (info[..i], carry) == AdjustAll(orig[..i], grow, weight, count, amount)
      invariant forall j :: i <= j < info.Length ==> info[j] == orig[j]
    {
      AdjustAllSnoc(orig, i, grow, weight, count, amount);
      var c, left := AdjustChild(info[i], grow, weight, count, amount);
      carry := carry + left;
      info[i] := c;
      assert info[..i + 1] == info[..i] + [info[i]];
      i := i + 1;
    }
    assert info[..] == info[..i] && orig == orig[..i];
  }

  /** `distribute_excess`, in place. */
  method DistributeExcess(info: array<ChildInfo>, excess: real)
    modifies info
    ensures info[..] == DistributeRounds(old(info[..]), excess, RUN_OFF_SIZING_AMOUNT).0
  {
    var amount := excess;
    var round := 0;
    while round < RUN_OFF_SIZING_AMOUNT
      invariant 0 <= round <= RUN_OFF_SIZING_AMOUNT
      invariant DistributeRounds(info[..], amount, RUN_OFF_SIZING_AMOUNT - round) ==
        DistributeRounds(old(info[..]), excess, RUN_OFF_SIZING_AMOUNT)
    {
      if amount == 0.0 {
        return;
      }
      var weight, count := AvailableWeightOf(info, true);
      amount := AdjustInPlace(info, true, weight, count, amount);
      round := round + 1;
    }
  }

  // ----------------------------------------------------------- take_deficit

  /**
   * `take_deficit`: rounds until nothing is left to take or the rounds run
   * out; the check comes after each round.
   */
  function DeficitRounds(s: seq<ChildInfo>, deficit: real, rounds: nat): (r: (seq<ChildInfo>, real))
    ensures |r.0| == |s|
    decreases rounds
  {
    if rounds == 0 then (s, deficit)
    else
      var (out, carry) := Round(s, false, deficit);
      if carry == 0.0 then (out, 0.0) else DeficitRounds(out, carry, rounds - 1)
  }

  /**
   * Taking a deficit never grows a child, never shrinks one below its
   * minimum (unless it already was), changes nothing but lengths, and
   * leaves a non-negative amount untaken.
   */
  lemma {:induction false} DeficitRoundsKeeps(s: seq<ChildInfo>, deficit: real, rounds: nat)
    requires PrefsNonNegative(s) && deficit >= 0.0
    ensures var r := DeficitRounds(s, deficit, rounds);
      r.1 >= 0.0 && PrefsNonNegative(r.0) &&
      forall i {:trigger r.0[i]} :: 0 <= i < |s| ==>
        SameButLen(s[i], r.0[i]) && MinReal(s[i].len, s[i].min) <= r.0[i].len <= s[i].len
    decreases rounds
  {
    if rounds > 0 {
      var mid := Round(s, false, deficit);
      RoundBounds(s, false, deficit);
      if mid.1 != 0.0 {
        DeficitRoundsKeeps(mid.0, mid.1, rounds - 1);
      }
    }
  }

  /** Taking a deficit takes at most the deficit, and gives nothing. */
  lemma {:induction false} DeficitRoundsConserves(s: seq<ChildInfo>, deficit: real, rounds: nat)
    requires PrefsNonNegative(s) && deficit >= 0.0
    ensures var r := DeficitRounds(s, deficit, rounds);
      SumLen(r.0) <= SumLen(s) && SumLen(s) - deficit <= SumLen(r.0) - r.1
    decreases rounds
  {
    DeficitRoundsKeeps(s, deficit, rounds);
    SumLenMonotone(DeficitRounds(s, deficit, rounds).0, s);
    if rounds > 0 {
      var mid := Round(s, false, deficit);
      RoundBounds(s, false, deficit);
      if AvailableCount(s, false) > 0 {
        RoundConserves(s, false, deficit);
      } else {
        RoundWithoutAdjustable(s, false, deficit);
      }
      if mid.1 != 0.0 {
        DeficitRoundsConserves(mid.0, mid.1, rounds - 1);
      } else {
        SumLenMonotone(mid.0, s);
      }
    }
  }

  /** `take_deficit`, in place. */
  method TakeDeficit(info: array<ChildInfo>, deficit: real)
    modifies info
    ensures info[..] == DeficitRounds(old(info[..]), deficit, RUN_OFF_SIZING_AMOUNT).0
  {
    var amount := deficit;
    var round := 0;
    while round < RUN_OFF_SIZING_AMOUNT
      invariant 0 <= round <= RUN_OFF_SIZING_AMOUNT
      invariant DeficitRounds(info[..], amount, RUN_OFF_SIZING_AMOUNT - round) ==
        DeficitRounds(old(info[..]), deficit, RUN_OFF_SIZING_AMOUNT)
    {
      var weight, count := AvailableWeightOf(info, false);
      amount := AdjustInPlace(info, false, weight, count, amount);
      round := round + 1;
      if amount == 0.0 {
        return;
      }
    }
  }

  /**
   * The zero-weight case: a parent 100 long holds child A (portion 1, at
   * most 10) and child B (portion 0, unlimited).
   */
  const ZERO_WEIGHT_A: ChildInfo := ChildInfo(PreferredPortion(1.0), 10.0, 0.0, 0.0, FULL, MAX_LAX, MIN_LAX)
  const ZERO_WEIGHT_B: ChildInfo := ChildInfo(PreferredPortion(0.0), F32_MAX, 0.0, 0.0, FULL, MAX_LAX, MIN_LAX)

  /** The first pass caps A at 10 and gives away 90; B's portion is 0. */
  lemma ZeroWeightFirstPass()
    ensures SumPortions(Prefs([ZERO_WEIGHT_A, ZERO_WEIGHT_B])) == 1.0
    ensures FirstPassAll([ZERO_WEIGHT_A, ZERO_WEIGHT_B], PreferredPortion(1.0), 2, 100.0) ==
      ([ZERO_WEIGHT_A.(len := 10.0), ZERO_WEIGHT_B], 0.0, 90.0)
  {
    var a, b := ZERO_WEIGHT_A, ZERO_WEIGHT_B;
    var ps := Prefs([a, b]);
    assert ps == [a.pref, b.pref];
    assert ps[..1] == [a.pref] && [a.pref][..0] == [];
    assert SumPortions([a.pref]) == 1.0;
    var sum := PreferredPortion(1.0);
    var a10 := a.(len := 10.0);
    assert FirstPassOne(a, sum, 2, 100.0) == (a10, 0.0, 90.0);
    assert FirstPassOne(b, sum, 2, 100.0) == (b, 0.0, 0.0);
    var empty: seq<ChildInfo> := [];
    assert [a, b][..1] == [a] && [a][..0] == empty;
    assert FirstPassAll(empty, sum, 2, 100.0) == ([], 0.0, 0.0);
    assert empty + [a10] == [a10] && [a10] + [b] == [a10, b];
    assert FirstPassAll([a], sum, 2, 100.0) == ([a10], 0.0, 90.0);
  }

  /**
   * In the first distribution round only B can grow and the available
   * weight is 0, so the share as written is 0 / 0.
   */
  lemma ZeroWeightShareAsWritten()
    ensures var s := [ZERO_WEIGHT_A.(len := 10.0), ZERO_WEIGHT_B];
      AvailableCount(s, true) == 1 && AvailableWeight(s, true) == 0.0 &&
      Adjustable(s[1], true) && ShareAsWritten(s[1].pref.p, AvailableWeight(s, true), 90.0).None?
  {
    var a10 := ZERO_WEIGHT_A.(len := 10.0);
    var s := [a10, ZERO_WEIGHT_B];
    var empty: seq<ChildInfo> := [];
    assert s[..1] == [a10] && [a10][..0] == empty;
    assert !Adjustable(a10, true) && Adjustable(ZERO_WEIGHT_B, true);
    assert AvailableCount(empty, true) == 0 && AvailableWeight(empty, true) == 0.0;
    assert AvailableCount([a10], true) == 0 && AvailableWeight([a10], true) == 0.0;
  }

  /**
   * The same layout with the equal split for a zero weight: B receives the
   * whole 90 in one round, and the lengths fill the parent.
   */
  lemma ZeroWeightShareCorrected()
    ensures var a := ZERO_WEIGHT_A.(len := 10.0);
      var b := ZERO_WEIGHT_B;
      var out := DistributeRounds([a, b], 90.0, RUN_OFF_SIZING_AMOUNT).0;
      out == [a, b.(len := 90.0)] && SumLen(out) == 100.0
  {
    var a := ZERO_WEIGHT_A.(len := 10.0);
    var b := ZERO_WEIGHT_B;
    var b90 := b.(len := 90.0);
    var empty: seq<ChildInfo> := [];
    assert [a, b][..1] == [a] && [a][..0] == empty;
    assert AvailableWeight(empty, true) == 0.0 && AdjustAll(empty, true, 0.0, 1, 90.0) == ([], 0.0);
    assert !Adjustable(a, true);
    assert AvailableCount([a], true) == 0 && AvailableWeight([a], true) == 0.0;
    assert empty + [a] == [a] && [a] + [b90] == [a, b90];
    assert AvailableCount([a, b], true) == 1 && AvailableWeight([a, b], true) == 0.0;
    assert AdjustOne(a, true, 0.0, 1, 90.0) == (a, 0.0);
    assert AdjustOne(b, true, 0.0, 1, 90.0) == (b90, 0.0);
    assert AdjustAll([a], true, 0.0, 1, 90.0) == ([a], 0.0);
    assert Round([a, b], true, 90.0) == ([a, b90], 0.0);
    assert DistributeRounds([a, b90], 0.0, RUN_OFF_SIZING_AMOUNT - 1) == ([a, b90], 0.0);
    assert [a, b90][..1] == [a];
    assert SumLen([a]) == 10.0;
  }

  // ------------------------------------------------------- pixel snapping

  function Lens(s: seq<ChildInfo>): (ls: seq<real>)
    ensures |ls| == |s| && forall i :: 0 <= i < |s| ==> ls[i] == s[i].len
  {
    seq(|s|, i requires 0 <= i < |s| => s[i].len)
  }

  function Sum(xs: seq<real>): real
  {
    if |xs| == 0 then 0.0 else Sum(xs[..|xs| - 1]) + xs[|xs| - 1]
  }

  function Frac(x: real): real
  {
    x - x.Floor as real
  }

  /** The rounding error carried past a length snapped with `err` already owed. */
  function CarryStep(err: real, len: real): real
  {
    var e := err + Frac(len);
    if e >= 1.0 then e - 1.0 else e
  }

  /** A length on whole pixels: rounded down, plus one when the owed error reaches a pixel. */
  function SnapLen(err: real, len: real): real
  {
    len.Floor as real + (if err + Frac(len) >= 1.0 then 1.0 else 0.0)
  }

  /** The rounding error accumulated over the first `k` lengths. */
  function Carry(lens: seq<real>, k: nat): real
    requires k <= |lens|
  {
    if k == 0 then 0.0 else CarryStep(Carry(lens, k - 1), lens[k - 1])
  }

  /** The `k`-th length on whole pixels, given the error carried to it. */
  function SnapAt(lens: seq<real>, k: nat): real
    requires k < |lens|
  {
    SnapLen(Carry(lens, k), lens[k])
  }

  function Snap(lens: seq<real>): (r: seq<real>)
    ensures |r| == |lens| && forall k {:trigger r[k]} :: 0 <= k < |lens| ==> r[k] == SnapAt(lens, k)
  {
    seq(|lens|, k requires 0 <= k < |lens| => SnapAt(lens, k))
  }

  /** Snapping the next length with the error carried so far gives its snapped length and the next carry. */
  lemma SnapStep(lens: seq<real>, k: nat, err: real)
    requires k < |lens| && err == Carry(lens, k)
    ensures Snap(lens)[k] == SnapLen(err, lens[k]) && Carry(lens, k + 1) == CarryStep(err, lens[k])
  {
  }

  /**
   * Each snapped length is its length rounded down or up to a whole pixel,
   * and at every child the snapped lengths so far trail the exact ones by
   * less than one pixel.
   */
  lemma {:induction false} SnapFacts(lens: seq<real>, k: nat)
    requires k <= |lens|
    ensures 0.0 <= Carry(lens, k) < 1.0
    ensures Sum(lens[..k]) == Sum(Snap(lens)[..k]) + Carry(lens, k)
    ensures k < |lens| ==>
      (SnapAt(lens, k) == lens[k].Floor as real || SnapAt(lens, k) == lens[k].Floor as real + 1.0) &&
      lens[k] - 1.0 < SnapAt(lens, k) < lens[k] + 1.0
  {
    if k > 0 {
      SnapFacts(lens, k - 1);
      assert lens[..k][..k - 1] == lens[..k - 1];
      assert Snap(lens)[..k][..k - 1] == Snap(lens)[..k - 1];
    }
  }
  // ----------------------------------------------------------- settling

  /**
   * The lengths the children settle on along the major axis: the first
   * pass, then the excess handed out or the deficit taken, before snapping.
   */
  function Settle(s: seq<ChildInfo>, parentLen: real): (r: seq<ChildInfo>)
    ensures |r| == |s|
  {
    var (fp, taken, given) := FirstPassAll(s, PreferredPortion(SumPortions(Prefs(s))), |s|, parentLen);
    SettleFrom(fp, taken, given)
  }

  /** The rounds after the first pass: the excess handed out if it freed length, else the deficit taken. */
  function SettleFrom(fp: seq<ChildInfo>, taken: real, given: real): (r: seq<ChildInfo>)
    ensures |r| == |fp|
  {
    if given >= taken then DistributeRounds(fp, given - taken, RUN_OFF_SIZING_AMOUNT).0
    else DeficitRounds(fp, taken - given, RUN_OFF_SIZING_AMOUNT).0
  }

  /** Every child's limits are ordered and non-negative. */
  predicate LimitsOrdered(s: seq<ChildInfo>)
  {
    forall i :: 0 <= i < |s| ==> 0.0 <= s[i].min <= s[i].max
  }

  /** The first pass keeps every length within its child's limits. */
  lemma FirstPassKeepsLimits(s: seq<ChildInfo>, sumPref: PreferredPortion, n: nat, parentLen: real)
    requires PrefsNonNegative(s) && LimitsOrdered(s)
    ensures var fp := FirstPassAll(s, sumPref, n, parentLen).0;
      |fp| == |s| && PrefsNonNegative(fp) &&
      forall i :: 0 <= i < |s| ==> SameButLen(s[i], fp[i]) && s[i].min <= fp[i].len <= s[i].max
  {
    var fp := FirstPassAll(s, sumPref, n, parentLen).0;
    FirstPassSum(s, sumPref, n, parentLen);
    forall i | 0 <= i < |s|
      ensures SameButLen(s[i], fp[i]) && s[i].min <= fp[i].len <= s[i].max && fp[i].pref.p >= 0.0
    {
      assert fp[i] == FirstPassOne(s[i], sumPref, n, parentLen).0;
    }
  }

  /** `out` changes nothing of `s` but lengths, and each length lies within its child's limits. */
  predicate WithinLimits(s: seq<ChildInfo>, out: seq<ChildInfo>)
  {
    |out| == |s| && forall i :: 0 <= i < |s| ==> SameButLen(s[i], out[i]) && s[i].min <= out[i].len <= s[i].max
  }

  lemma WithinLimitsTransitive(s: seq<ChildInfo>, mid: seq<ChildInfo>, out: seq<ChildInfo>)
    requires WithinLimits(s, mid) && WithinLimits(mid, out)
    ensures WithinLimits(s, out)
  {
    forall i | 0 <= i < |s|
      ensures SameButLen(s[i], out[i]) && s[i].min <= out[i].len <= s[i].max
    {
      assert SameButLen(s[i], mid[i]) && SameButLen(mid[i], out[i]);
    }
  }

  /** Both ways of settling keep lengths that start within their limits within them. */
  lemma SettleFromKeepsLimits(fp: seq<ChildInfo>, taken: real, given: real)
    requires PrefsNonNegative(fp) && WithinLimits(fp, fp)
    ensures WithinLimits(fp, SettleFrom(fp, taken, given))
  {
    if given >= taken {
      DistributeRoundsKeeps(fp, given - taken, RUN_OFF_SIZING_AMOUNT);
    } else {
      DeficitRoundsKeeps(fp, taken - given, RUN_OFF_SIZING_AMOUNT);
    }
  }

  /**
   * Settled lengths respect every child's limits and change nothing but
   * lengths.
   */
  lemma SettleKeepsLimits(s: seq<ChildInfo>, parentLen: real)
    requires PrefsNonNegative(s) && LimitsOrdered(s)
    ensures var out := Settle(s, parentLen);
      forall i {:trigger out[i]} :: 0 <= i < |s| ==> SameButLen(s[i], out[i]) && s[i].min <= out[i].len <= s[i].max
  {
    var sum := PreferredPortion(SumPortions(Prefs(s)));
    var first := FirstPassAll(s, sum, |s|, parentLen);
    var fp := first.0;
    assert PrefsNonNegative(fp) && WithinLimits(s, fp) && WithinLimits(fp, fp) by {
      FirstPassKeepsLimits(s, sum, |s|, parentLen);
      forall i | 0 <= i < |fp|
        ensures SameButLen(fp[i], fp[i]) && fp[i].min <= fp[i].len <= fp[i].max
      {
        assert SameButLen(s[i], fp[i]);
      }
    }
    SettleFromKeepsLimits(fp, first.1, first.2);
    assert Settle(s, parentLen) == SettleFrom(fp, first.1, first.2);
    WithinLimitsTransitive(s, fp, Settle(s, parentLen));
  }

  /**
   * When the clamping of the first pass freed length, the settled children
   * take no more than the parent; when it cost length, they take no less.
   */
  lemma SettleFillsParent(s: seq<ChildInfo>, parentLen: real)
    requires PrefsNonNegative(s) && LimitsOrdered(s) && |s| > 0
    ensures var first := FirstPassAll(s, PreferredPortion(SumPortions(Prefs(s))), |s|, parentLen);
      (first.2 >= first.1 ==> SumLen(Settle(s, parentLen)) <= parentLen) &&
      (first.2 < first.1 ==> SumLen(Settle(s, parentLen)) >= parentLen)
  {
    var sum := PreferredPortion(SumPortions(Prefs(s)));
    var first := FirstPassAll(s, sum, |s|, parentLen);
    var fp := first.0;
    FirstPassKeepsLimits(s, sum, |s|, parentLen);
    FirstPassFillsParent(s, parentLen);
    if first.2 >= first.1 {
      DistributeRoundsConserves(fp, first.2 - first.1, RUN_OFF_SIZING_AMOUNT);
      DistributeRoundsKeeps(fp, first.2 - first.1, RUN_OFF_SIZING_AMOUNT);
    } else {
      DeficitRoundsConserves(fp, first.1 - first.2, RUN_OFF_SIZING_AMOUNT);
      DeficitRoundsKeeps(fp, first.1 - first.2, RUN_OFF_SIZING_AMOUNT);
    }
  }

  lemma SettleUnfold(s: seq<ChildInfo>, sumPref: PreferredPortion, parentLen: real)
    requires sumPref.p == SumPortions(Prefs(s))
    ensures var first := FirstPassAll(s, sumPref, |s|, parentLen);
      Settle(s, parentLen) == SettleFrom(first.0, first.1, first.2)
  {
    assert sumPref == PreferredPortion(SumPortions(Prefs(s)));
  }

  /** The first pass and the distribution, in place, as the layouts run them. */
  method SettleInPlace(info: array<ChildInfo>, sumPref: PreferredPortion, parentLen: real)
    requires sumPref.p == SumPortions(Prefs(info[..]))
    modifies info
    ensures info[..] == Settle(old(info[..]), parentLen)
  {
    SettleUnfold(info[..], sumPref, parentLen);
    var taken, given := FirstPass(info, sumPref, parentLen);
    if given >= taken {
      DistributeExcess(info, given - taken);
    } else {
      TakeDeficit(info, taken - given);
    }
  }

  // ------------------------------------------------------------ spacing

  /** The space between neighbours: spare length shared among the gaps. */
  function Gap(total: real, parentLen: real, n: nat): (r: real)
    ensures total >= parentLen || n < 2 ==> r == 0.0
    ensures total < parentLen && n >= 2 ==> r > 0.0
  {
    if total < parentLen && n >= 2 then (parentLen - total) / (n - 1) as real else 0.0
  }

  /** The gaps between `n` children take up exactly the spare length, if there is any. */
  lemma GapsFillSpare(total: real, parentLen: real, n: nat)
    ensures n > 0 ==>
      Repeated(Gap(total, parentLen, n), n - 1) == if total < parentLen && n >= 2 then parentLen - total else 0.0
  {
    if n > 0 {
      RepeatedIs(Gap(total, parentLen, n), n - 1);
    }
  }

  /**
   * How far child `i` starts from the layout's leading edge: the lengths
   * and gaps of the children before it.
   */
  function Offset(lens: seq<real>, gap: real, i: nat): real
    requires i <= |lens|
  {
    if i == 0 then 0.0 else Offset(lens, gap, i - 1) + lens[i - 1] + gap
  }

  /** The offset is the lengths before the child plus one gap per child before it. */
  lemma {:induction false} OffsetIs(lens: seq<real>, gap: real, i: nat)
    requires i <= |lens|
    ensures Offset(lens, gap, i) == Sum(lens[..i]) + Repeated(gap, i)
  {
    if i > 0 {
      OffsetIs(lens, gap, i - 1);
      assert lens[..i][..i - 1] == lens[..i - 1];
    }
  }

  /** The total of the settled lengths. */
  method TotalLength(info: array<ChildInfo>) returns (total: real)
    ensures total == Sum(Lens(info[..]))
  {
    ghost var lens := Lens(info[..]);
    total := 0.0;
    var i := 0;
    while i < info.Length
      invariant 0 <= i <= info.Length
      invariant total == Sum(lens[..i])
    {
      assert lens[..i + 1][..i] == lens[..i];
      total := total + info[i].len;
      i := i + 1;
    }
    assert lens[..i] == lens;
  }

  /** One length snapped to whole pixels, and the rounding error carried on. */
  method SnapOne(len: real, err: real) returns (w: real, err': real)
    ensures w == SnapLen(err, len) && err' == CarryStep(err, len)
  {
    err' := err + (len - len.Floor as real);
    w := len.Floor as real;
    if err' >= 1.0 {
      w := w + 1.0;
      err' := err' - 1.0;
    }
  }

  /**
   * The children before `k` hold their snapped lengths, the others their
   * settled ones.
   */
  ghost predicate SnappedBefore(info: array<ChildInfo>, settled: seq<ChildInfo>, k: nat)
    requires info.Length == |settled|
    reads info
  {
    forall j {:trigger info[j]} :: 0 <= j < info.Length ==>
      info[j] == if j < k then settled[j].(len := Snap(Lens(settled))[j]) else settled[j]
  }

  /**
   * Snap the `i`-th child's length in place, with the error carried from
   * the children before it, and carry the new error on.
   */
  method SnapNext(info: array<ChildInfo>, i: nat, err: real, ghost settled: seq<ChildInfo>) returns (len: real, err': real)
    requires i < info.Length == |settled|
    requires SnappedBefore(info, settled, i) && err == Carry(Lens(settled), i)
    modifies info
    ensures SnappedBefore(info, settled, i + 1)
    ensures len == Snap(Lens(settled))[i] && err' == Carry(Lens(settled), i + 1)
  {
    SnapStep(Lens(settled), i, err);
    len, err' := SnapOne(info[i].len, err);
    info[i] := info[i].(len := len);
  }

  /** Where the last child ends: all the lengths and the gaps between them. */
  lemma RowEnd(lens: seq<real>, gap: real, n: nat)
    requires 0 < n == |lens|
    ensures Offset(lens, gap, n - 1) + lens[n - 1] == Sum(lens) + Repeated(gap, n - 1)
  {
    OffsetIs(lens, gap, n - 1);
    assert lens[..n] == lens;
    assert lens[..n][..n - 1] == lens[..n - 1];
  }

  /** Snapping loses less than a pixel in all. */
  lemma SnapTotal(lens: seq<real>)
    ensures Sum(lens) - 1.0 < Sum(Snap(lens)) <= Sum(lens)
  {
    SnapFacts(lens, |lens|);
    assert lens[..|lens|] == lens;
    assert Snap(lens)[..|lens|] == Snap(lens);
  }
}
