/**
 * `shuffle` (`util/shuffle.rs`): a deterministic Fisher–Yates shuffle in
 * place, driven by a 64-bit linear congruential generator.
 */
module Shuffle {
  const U64_MODULUS: nat := 0x1_0000_0000_0000_0000

  type U64 = x: nat | x < U64_MODULUS

  const MULTIPLIER: nat := 6364136223846793005

  /** One generator step: `seed * 6364136223846793005 + 1`, wrapping at 2^64. */
  function NextSeed(seed: U64): U64
  {
    (seed * MULTIPLIER + 1) % U64_MODULUS
  }

  /** The index the element at `i` is swapped with, for a seed already advanced. */
  function SwapIndex(seed: U64, i: nat): (j: nat)
    ensures j <= i
  {
    seed % (i + 1)
  }

  function Swap<T>(s: seq<T>, i: nat, j: nat): (r: seq<T>)
    requires i < |s| && j < |s|
    ensures |r| == |s| && r[i] == s[j] && r[j] == s[i]
    ensures forall k :: 0 <= k < |s| && k != i && k != j ==> r[k] == s[k]
  {
    s[i := s[j]][j := s[i]]
  }

  /** The shuffle's remaining steps, at positions `i`, `i - 1`, ..., 1. */
  function ShuffleFrom<T>(s: seq<T>, i: nat, seed: U64): seq<T>
    requires i < |s|
    decreases i
  {
    if i == 0 then s
    else
      var seed' := NextSeed(seed);
      ShuffleFrom(Swap(s, i, SwapIndex(seed', i)), i - 1, seed')
  }

  /** The whole shuffle of `s` from `seed`. */
  function Shuffled<T>(s: seq<T>, seed: U64): seq<T>
  {
    if |s| <= 1 then s else ShuffleFrom(s, |s| - 1, seed)
  }

  lemma SwapIsPermutation<T>(s: seq<T>, i: nat, j: nat)
    requires i < |s| && j < |s|
    ensures multiset(Swap(s, i, j)) == multiset(s)
  {
    var t := s[i := s[j]];
    assert multiset(t) == multiset(s) - multiset{s[i]} + multiset{s[j]};
    assert multiset(t[j := s[i]]) == multiset(t) - multiset{t[j]} + multiset{s[i]};
  }

  lemma {:induction false} ShuffleFromIsPermutation<T>(s: seq<T>, i: nat, seed: U64)
    requires i < |s|
    ensures |ShuffleFrom(s, i, seed)| == |s|
    ensures multiset(ShuffleFrom(s, i, seed)) == multiset(s)
    decreases i
  {
    if i > 0 {
      var seed' := NextSeed(seed);
      SwapIsPermutation(s, i, SwapIndex(seed', i));
      ShuffleFromIsPermutation(Swap(s, i, SwapIndex(seed', i)), i - 1, seed');
    }
  }

  /** The shuffle only reorders: same length, same elements with the same multiplicities. */
  lemma ShuffledIsPermutation<T>(s: seq<T>, seed: U64)
    ensures |Shuffled(s, seed)| == |s|
    ensures multiset(Shuffled(s, seed)) == multiset(s)
  {
    if |s| > 1 {
      ShuffleFromIsPermutation(s, |s| - 1, seed);
    }
  }

  /** Empty and one-element sequences come back unchanged, whatever the seed. */
  lemma ShortUnchanged<T>(s: seq<T>, seed: U64)
    requires |s| <= 1
    ensures Shuffled(s, seed) == s
  {
  }

  /** Seed 42 on [1, 2, 3, 4, 5] gives [2, 5, 4, 1, 3]. */
  lemma KnownVector()
    ensures Shuffled([1, 2, 3, 4, 5], 42) == [2, 5, 4, 1, 3]
  {
    var s1 := NextSeed(42);
    assert s1 == 9039304369631583587;
    var s2 := NextSeed(s1);
    assert s2 == 8647191391818483560;
    var s3 := NextSeed(s2);
    assert s3 == 10334312345110439241;
    var s4 := NextSeed(s3);
    assert s4 == 459824130525332694;
    assert SwapIndex(s1, 4) == 2 && SwapIndex(s2, 3) == 0 && SwapIndex(s3, 2) == 0 && SwapIndex(s4, 1) == 0;
    var v := [1, 2, 3, 4, 5];
    var v1 := Swap(v, 4, 2);
    assert v1 == [1, 2, 5, 4, 3];
    var v2 := Swap(v1, 3, 0);
    assert v2 == [4, 2, 5, 1, 3];
    var v3 := Swap(v2, 2, 0);
    assert v3 == [5, 2, 4, 1, 3];
    var v4 := Swap(v3, 1, 0);
    assert v4 == [2, 5, 4, 1, 3];
    assert ShuffleFrom(v4, 0, s4) == v4;
    assert ShuffleFrom(v3, 1, s3) == v4;
    assert ShuffleFrom(v2, 2, s2) == v4;
    assert ShuffleFrom(v1, 3, s1) == v4;
    assert ShuffleFrom(v, 4, 42) == v4;
  }

  /**
   * `shuffle`: from the last position down to the second, advance the
   * generator and swap the element there with one at or before it.
   */
  method Shuffle<T>(a: array<T>, seed: U64)
    modifies a
    ensures a[..] == Shuffled(old(a[..]), seed)
    ensures multiset(a[..]) == multiset(old(a[..]))
  {
    ghost var original := a[..];
    ShuffledIsPermutation(original, seed);
    if a.Length <= 1 {
      return;
    }
    var state := seed;
    var i := a.Length - 1;
    while i > 0
      invariant 0 <= i < a.Length
      invariant ShuffleFrom(a[..], i, state) == Shuffled(original, seed)
    {
      ghost var before := a[..];
      var next := NextSeed(state);
      SwapElements(a, i, SwapIndex(next, i));
      assert ShuffleFrom(before, i, state) == ShuffleFrom(a[..], i - 1, next);
      state, i := next, i - 1;
    }
  }

  /** `slice::swap`. */
  method SwapElements<T>(a: array<T>, i: nat, j: nat)
    requires i < a.Length && j < a.Length
    modifies a
    ensures a[..] == Swap(old(a[..]), i, j)
  {
    a[i], a[j] := a[j], a[i];
  }
}
