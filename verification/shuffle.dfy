/** The seeded subset picker `getRandomSubarray`
    (src/components/dashboard/file-uploader.tsx) and the shuffles the source
    performs with `Array.prototype.sort` and a random comparator.

    Such a sort returns SOME permutation of its input, chosen by the engine's
    sort algorithm and the comparator's answers. The model represents that
    permutation by its Lehmer code: entry i picks one of the `len - i`
    elements still unplaced. Every permutation has a code
    (`EveryPermutationHasCode`), so nothing the engine might do is excluded.

    The seeded comparator draws from the generator and never looks at the elements, so
    the permutation it yields depends only on the generator's starting state
    (the seed accumulator) and the array length: an `Oracle` maps that pair
    to a code. */
module Shuffle {

  const LcgMultiplier := 9301
  const LcgIncrement := 49297
  const LcgModulus := 233280

  /** The UTF-16 code units `charCodeAt` reads for one character, summed:
      one unit below U+10000, a surrogate pair above. */
  function CodeUnitSum(c: char): nat {
    var n := c as int;
    if n < 0x1_0000 then n
    else (0xD800 + (n - 0x1_0000) / 0x400) + (0xDC00 + (n - 0x1_0000) % 0x400)
  }

  function CodeUnitTotal(s: string): nat {
    if s == [] then 0 else CodeUnitTotal(s[..|s| - 1]) + CodeUnitSum(s[|s| - 1])
  }

  /** The seed accumulator: starting from 1, each UTF-16 code unit of the
      seed is added and the sum reduced modulo 1000. */
  function SeedAccumulator(seed: string): (a: nat)
    ensures a < 1000
  {
    if seed == [] then 1
    else (SeedAccumulator(seed[..|seed| - 1]) + CodeUnitSum(seed[|seed| - 1])) % 1000
  }

  /** The accumulator is 1 plus the sum of the seed's code units, mod 1000. */
  lemma {:induction false} SeedAccumulatorClosedForm(seed: string)
    ensures SeedAccumulator(seed) == (1 + CodeUnitTotal(seed)) % 1000
  {
    if seed != [] {
      var init := seed[..|seed| - 1];
      SeedAccumulatorClosedForm(init);
      var t := 1 + CodeUnitTotal(init);
      var c := CodeUnitSum(seed[|seed| - 1]);
      assert t == 1000 * (t / 1000) + t % 1000;
      assert (t % 1000 + c) % 1000 == (t + c) % 1000 by {
        assert t % 1000 + c == t + c - 1000 * (t / 1000);
      }
    }
  }

  lemma {:induction false} CodeUnitTotalAppend(a: string, b: string)
    ensures CodeUnitTotal(a + b) == CodeUnitTotal(a) + CodeUnitTotal(b)
    decreases |b|
  {
    if b == [] {
      assert a + b == a;
    } else {
      CodeUnitTotalAppend(a, b[..|b| - 1]);
      assert (a + b)[..|a + b| - 1] == a + b[..|b| - 1];
      assert (a + b)[|a + b| - 1] == b[|b| - 1];
    }
  }

  /** Swapping the two halves of a seed leaves the accumulator unchanged, so
      the generator starts from the same state. */
  lemma SeedAccumulatorSwap(a: string, b: string)
    ensures SeedAccumulator(a + b) == SeedAccumulator(b + a)
  {
    SeedAccumulatorClosedForm(a + b);
    SeedAccumulatorClosedForm(b + a);
    CodeUnitTotalAppend(a, b);
    CodeUnitTotalAppend(b, a);
  }

  /** One step of `rnd()`: the next generator state. */
  function LcgNext(state: nat): (next: nat)
    ensures next < LcgModulus
  {
    (state * LcgMultiplier + LcgIncrement) % LcgModulus
  }

  /** The value `rnd()` returns for a state it has just produced. */
  function RndValue(state: nat): (v: real)
    requires state < LcgModulus
    ensures 0.0 <= v < 1.0
  {
    state as real / LcgModulus as real
  }

  /** The values of `k` successive `rnd()` calls from `start`. */
  function RndValues(start: nat, k: nat): (vs: seq<real>)
    ensures |vs| == k
    ensures forall i :: 0 <= i < k ==> 0.0 <= vs[i] < 1.0
    decreases k
  {
    if k == 0 then []
    else
      var next := LcgNext(start);
      [RndValue(next)] + RndValues(next, k - 1)
  }

  // ---------------------------------------------------------------------
  // Permutations as Lehmer codes
  // ---------------------------------------------------------------------

  predicate IsLehmerCode(code: seq<nat>, len: nat) {
    |code| == len && forall i :: 0 <= i < len ==> code[i] < len - i
  }

  /** The sequence without its element at index k. */
  function RemoveAt<T>(s: seq<T>, k: nat): (r: seq<T>)
    requires k < |s|
    ensures |r| == |s| - 1
    ensures multiset(r) + multiset{s[k]} == multiset(s)
  {
    SplitAt(s, k);
    s[..k] + s[k + 1..]
  }

  lemma SplitAt<T>(s: seq<T>, k: nat)
    requires k < |s|
    ensures multiset(s[..k] + s[k + 1..]) + multiset{s[k]} == multiset(s)
  {
    assert s == s[..k] + [s[k]] + s[k + 1..];
  }

  /** The permutation of `s` that the code describes. */
  function Permute<T>(s: seq<T>, code: seq<nat>): (r: seq<T>)
    requires IsLehmerCode(code, |s|)
    ensures |r| == |s|
    ensures multiset(r) == multiset(s)
    decreases |s|
  {
    if s == [] then []
    else [s[code[0]]] + Permute(RemoveAt(s, code[0]), code[1..])
  }

  /** Taking the same element off two rearrangements of one multiset leaves
      rearrangements of each other. */
  lemma HeadRemoved<T>(s: seq<T>, r: seq<T>, k: nat)
    requires multiset(r) == multiset(s) && r != [] && k < |s| && s[k] == r[0]
    ensures multiset(r[1..]) == multiset(RemoveAt(s, k))
  {
    var rest := RemoveAt(s, k);
    assert r == [r[0]] + r[1..];
    assert multiset(r) == multiset{r[0]} + multiset(r[1..]);
    assert multiset(rest) + multiset{r[0]} == multiset(r[1..]) + multiset{r[0]};
    assert forall x :: multiset(rest)[x] == multiset(r[1..])[x] by {
      forall x ensures multiset(rest)[x] == multiset(r[1..])[x] {
        assert (multiset(rest) + multiset{r[0]})[x] == (multiset(r[1..]) + multiset{r[0]})[x];
      }
    }
  }

  /** Every rearrangement of `s` is `Permute(s, code)` for some code. */
  lemma {:induction false} EveryPermutationHasCode<T>(s: seq<T>, r: seq<T>) returns (code: seq<nat>)
    requires multiset(r) == multiset(s)
    ensures IsLehmerCode(code, |s|) && Permute(s, code) == r
    decreases |s|
  {
    SameSize(s, r);
    if s == [] {
      code := [];
    } else {
      var k := PickHead(s, r);
      var rest := RemoveAt(s, k);
      var tail := EveryPermutationHasCode(rest, r[1..]);
      code := [k] + tail;
      assert code[1..] == tail;
      assert r == [r[0]] + r[1..];
    }
  }

  lemma SameSize<T>(s: seq<T>, r: seq<T>)
    requires multiset(r) == multiset(s)
    ensures |r| == |s|
  {
    assert |r| == |multiset(r)| == |s|;
  }

  /** A position of `s` holding the first element of its rearrangement
      `r`; the rest of `r` rearranges what is left of `s`. */
  lemma PickHead<T>(s: seq<T>, r: seq<T>) returns (k: nat)
    requires multiset(r) == multiset(s) && r != []
    ensures k < |s| && s[k] == r[0]
    ensures multiset(r[1..]) == multiset(RemoveAt(s, k))
  {
    assert r[0] in multiset(s);
    k :| 0 <= k < |s| && s[k] == r[0];
    HeadRemoved(s, r, k);
  }

  /** Maps (generator start state, array length) to the permutation the
      seeded sort produces. */
  type Oracle = (nat, nat) -> seq<nat>

  ghost predicate ValidOracle(order: Oracle) {
    forall state, len :: IsLehmerCode(order(state, len), len)
  }

  function Min(a: int, b: int): int {
    if a <= b then a else b
  }

  /** `getRandomSubarray(arr, n, seed)`: shuffle with the generator seeded
      from `seed`, then keep the first `n` elements. */
  function GetRandomSubarray<T>(arr: seq<T>, n: nat, seed: string, order: Oracle): (r: seq<T>)
    requires ValidOracle(order)
    ensures |r| == Min(n, |arr|)
    ensures multiset(r) <= multiset(arr)
    ensures forall x :: x in r ==> x in arr
  {
    PrefixOfRearrangement(Permute(arr, order(SeedAccumulator(seed), |arr|)), arr, Min(n, |arr|));
    Permute(arr, order(SeedAccumulator(seed), |arr|))[..Min(n, |arr|)]
  }

  /** A prefix of a rearrangement of `arr` takes each element of `arr` at
      most as often as `arr` holds it. */
  lemma PrefixOfRearrangement<T>(shuffled: seq<T>, arr: seq<T>, k: nat)
    requires multiset(shuffled) == multiset(arr) && k <= |shuffled|
    ensures multiset(shuffled[..k]) <= multiset(arr)
    ensures forall x :: x in shuffled[..k] ==> x in arr
  {
    assert shuffled == shuffled[..k] + shuffled[k..];
    assert forall x :: x in shuffled[..k] ==> x in multiset(arr);
  }

  /** Two seeds whose halves are swapped pick the same subset in the same
      order. */
  lemma SwappedSeedsPickAlike<T>(arr: seq<T>, n: nat, a: string, b: string, order: Oracle)
    requires ValidOracle(order)
    ensures GetRandomSubarray(arr, n, a + b, order) == GetRandomSubarray(arr, n, b + a, order)
  {
    SeedAccumulatorSwap(a, b);
  }
}
