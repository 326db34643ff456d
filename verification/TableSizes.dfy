/** How a table chooses the size of its array part (ltable.cpp, computesizes) and the logarithms
    it uses for that (lobject.cpp, luaO_log2; ltable.cpp and llimits.h, ceillog2). */
module TableSizes {
  import opened Common

  const MAXBITS: nat := 26
  const MAXASIZE: nat := 0x400_0000

  lemma {:induction false} Pow2Grows(i: nat, j: nat)
    requires i < j
    ensures 2 * Pow2(i) <= Pow2(j)
    decreases j
  {
    if i + 1 < j {
      Pow2Grows(i, j - 1);
    }
  }

  lemma Pow2Max()
    ensures Pow2(MAXBITS) == MAXASIZE
  {
    assert Pow2(8) == 256;
    Pow2Sum(8, 8);
    assert Pow2(10) == 1024;
    Pow2Sum(16, 10);
  }

  lemma {:induction false} Pow2IsPow2(i: nat)
    ensures IsPow2(Pow2(i))
  {
    if i > 0 {
      Pow2IsPow2(i - 1);
    }
  }

  lemma {:induction false} Pow2Sum(i: nat, j: nat)
    ensures Pow2(i + j) == Pow2(i) * Pow2(j)
    decreases j
  {
    if j > 0 {
      Pow2Sum(i, j - 1);
      assert Pow2(i + j) == 2 * Pow2(i + j - 1) && Pow2(j) == 2 * Pow2(j - 1);
      hide Pow2;
      Doubled(Pow2(i), Pow2(j - 1));
    }
  }

  lemma Doubled(a: nat, b: nat)
    ensures 2 * (a * b) == a * (2 * b)
  {
  }

  // ---------- Logarithms ----------

  /** The table `log_2` of `luaO_log2`: how many bits it takes to write `x`. */
  function Bits(x: nat): nat
    requires x < 256
  {
    if x == 0 then 0 else if x < 2 then 1 else if x < 4 then 2 else if x < 8 then 3 else if x < 16 then 4
    else if x < 32 then 5 else if x < 64 then 6 else if x < 128 then 7 else 8
  }

  lemma BitsBound(x: nat)
    requires x < 256
    ensures x < Pow2(Bits(x)) && (x > 0 ==> Pow2(Bits(x)) <= 2 * x)
  {
    assert Pow2(3) == 8 && Pow2(6) == 64 && Pow2(8) == 256;
  }

  /** `luaO_log2`: the whole part of the binary logarithm, and -1 for 0. */
  method Log2(x0: nat) returns (l: int)
    ensures -1 <= l && (l == -1 <==> x0 == 0)
    ensures x0 > 0 ==> Pow2(l) <= x0 < 2 * Pow2(l)
  {
    var x := x0;
    l := -1;
    ghost var rounds: nat := 0;
    while x >= 256
      invariant l == -1 + 8 * rounds
      invariant x * Pow2(8 * rounds) <= x0 < (x + 1) * Pow2(8 * rounds)
      invariant x0 > 0 ==> x > 0
      invariant x0 == 0 ==> rounds == 0 && x == 0
    {
      Pow2Sum(8 * rounds, 8);
      assert Pow2(8) == 256;
      Shifted(x0, x, Pow2(8 * rounds));
      l := l + 8;
      x := x / 256;
      rounds := rounds + 1;
    }
    BitsBound(x);
    if x0 > 0 {
      Log2End(x0, x, rounds);
    }
    l := l + Bits(x);
  }

  lemma Times(a: nat, b: nat, p: nat)
    requires a <= b
    ensures a * p <= b * p
  {
  }

  lemma Regroup(a: nat, b: nat, p: nat)
    ensures (a * b) * p == a * (p * b)
  {
  }

  lemma Shifted(x0: nat, x: nat, p: nat)
    requires x * p <= x0 < (x + 1) * p
    ensures (x / 256) * (p * 256) <= x0 < (x / 256 + 1) * (p * 256)
  {
    var q := x / 256;
    Times(q * 256, x, p);
    Times(x + 1, (q + 1) * 256, p);
    Regroup(q, 256, p);
    Regroup(q + 1, 256, p);
  }

  lemma Log2End(x0: nat, x: nat, rounds: nat)
    requires 0 < x < 256 && x * Pow2(8 * rounds) <= x0 < (x + 1) * Pow2(8 * rounds)
    ensures var l := 8 * rounds + Bits(x) - 1; l >= 0 && Pow2(l) <= x0 < 2 * Pow2(l)
  {
    BitsHalf(x);
    var p, q := Pow2(8 * rounds), Pow2(Bits(x) - 1);
    Pow2Sum(8 * rounds, Bits(x) - 1);
    hide Pow2, Bits;
    Scaled(x0, x, p, q);
  }

  lemma BitsHalf(x: nat)
    requires 0 < x < 256
    ensures Bits(x) > 0 && Pow2(Bits(x) - 1) <= x && x + 1 <= 2 * Pow2(Bits(x) - 1)
  {
    BitsBound(x);
    assert Pow2(Bits(x)) == 2 * Pow2(Bits(x) - 1);
  }

  lemma Scaled(x0: nat, x: nat, p: nat, q: nat)
    requires q <= x && x + 1 <= 2 * q && x * p <= x0 < (x + 1) * p
    ensures p * q <= x0 < 2 * (p * q)
  {
    Times(q, x, p);
    Times(x + 1, 2 * q, p);
    Regroup(2, q, p);
  }

  /** `k` lies in slice `i`: above half of 2^i, at most 2^i. */
  predicate InSlice(k: int, i: nat) {
    Pow2(i) / 2 < k <= Pow2(i)
  }

  /** `ceillog2`: the slice a positive key is counted in. */
  method CeilLog2(x: nat) returns (i: nat)
    requires x > 0
    ensures InSlice(x, i)
  {
    var l := Log2(x - 1);
    i := l + 1;
  }

  lemma SliceUnique(k: int, i: nat, j: nat)
    requires InSlice(k, i) && InSlice(k, j)
    ensures i == j
  {
    if i < j {
      Pow2Grows(i, j);
    } else if j < i {
      Pow2Grows(j, i);
    }
  }

  lemma SliceBounded(k: int, i: nat)
    requires InSlice(k, i) && k <= MAXASIZE
    ensures i <= MAXBITS
  {
    Pow2Max();
    if i > MAXBITS {
      Pow2Grows(MAXBITS, i);
    }
  }

  // ---------- The size of the array part ----------

  ghost function UpTo(keys: set<int>, n: int): set<int> {
    set k | k in keys && k <= n
  }

  ghost function Slice(keys: set<int>, i: nat): set<int> {
    set k | k in keys && InSlice(k, i)
  }

  /** More than half of the slots 1..n would be in use. */
  ghost predicate HalfFull(keys: set<int>, n: nat) {
    |UpTo(keys, n)| > n / 2
  }

  /** `n` is the largest power of two for which that is so, or 0 if there is none. */
  ghost predicate Best(keys: set<int>, n: nat) {
    && (n == 0 || (HalfFull(keys, n) && exists i: nat :: n == Pow2(i)))
    && forall i: nat :: Pow2(i) > n ==> !HalfFull(keys, Pow2(i))
  }

  ghost predicate ArrayKeys(keys: set<int>) {
    forall k :: k in keys ==> 1 <= k <= MAXASIZE
  }

  lemma {:induction false} RangeCard(keys: set<int>, n: nat)
    requires forall k :: k in keys ==> 1 <= k <= n
    ensures |keys| <= n
  {
    if n == 0 {
      assert forall k :: k !in keys;
      assert keys == {};
    } else {
      RangeCard(keys - {n}, n - 1);
    }
  }

  /** Distinct keys in 1..n are at most n. */
  lemma UpToCard(keys: set<int>, n: nat)
    requires ArrayKeys(keys)
    ensures |UpTo(keys, n)| <= n && |UpTo(keys, n)| <= |keys| && |keys| <= MAXASIZE
  {
    RangeCard(UpTo(keys, n), n);
    RangeCard(keys, MAXASIZE);
    assert keys == UpTo(keys, n) + (keys - UpTo(keys, n));
  }

  lemma SliceCard(keys: set<int>, i: nat)
    requires ArrayKeys(keys)
    ensures |UpTo(keys, Pow2(i))| == |UpTo(keys, Pow2(i) / 2)| + |Slice(keys, i)|
  {
    assert UpTo(keys, Pow2(i)) == UpTo(keys, Pow2(i) / 2) + Slice(keys, i);
    assert UpTo(keys, Pow2(i) / 2) * Slice(keys, i) == {};
  }

  /** No size up to `limit` is half full but those up to `n`. */
  ghost predicate NoneBetween(keys: set<int>, n: nat, i: nat) {
    forall j: nat :: j < i && Pow2(j) > n ==> !HalfFull(keys, Pow2(j))
  }

  /** `computesizes`: given how many of the `narray` distinct keys lie in each slice, the best size
      of the array part and how many keys go there. */
  method ComputeSizes(nums: seq<nat>, narray: nat, ghost keys: set<int>) returns (n: nat, na: nat)
    requires |nums| == MAXBITS + 1 && ArrayKeys(keys) && narray == |keys|
    requires forall i :: 0 <= i <= MAXBITS ==> nums[i] == |Slice(keys, i)|
    ensures Best(keys, n) && na == |UpTo(keys, n)|
  {
    hide Slice, ArrayKeys, NoneBetween;
    var a := 0;
    n, na := 0, 0;
    var i: nat, twotoi := 0, 1;
    NoneYet(keys);
    while twotoi / 2 < narray
      invariant twotoi == Pow2(i) && a == |UpTo(keys, twotoi / 2)| && na == |UpTo(keys, n)|
      invariant n == 0 || (HalfFull(keys, n) && exists j: nat :: n == Pow2(j))
      invariant NoneBetween(keys, n, i)
      decreases narray + 1 - twotoi / 2
    {
      IndexFits(keys, i);
      SliceCard(keys, i);
      UpToCard(keys, twotoi / 2);
      if nums[i] > 0 {
        a := a + nums[i];
        if a > twotoi / 2 {
          n := twotoi;
          na := a;
        }
      }
      assert a == |UpTo(keys, twotoi)| && na == |UpTo(keys, n)|;
      CheckedSlice(keys, n, i);
      if a == narray {
        LastSlice(keys, n, i);
        return;
      }
      i := i + 1;
      twotoi := twotoi * 2;
    }
    PastHalf(keys, n, i);
  }

  lemma NoneYet(keys: set<int>)
    requires ArrayKeys(keys)
    ensures |UpTo(keys, 0)| == 0 && NoneBetween(keys, 0, 0)
  {
    assert UpTo(keys, 0) == {};
  }

  lemma CheckedSlice(keys: set<int>, n: nat, i: nat)
    requires n == Pow2(i) || (NoneBetween(keys, n, i) && !HalfFull(keys, Pow2(i)))
    ensures NoneBetween(keys, n, i + 1)
  {
    forall j: nat | j < i + 1 && Pow2(j) > n
      ensures !HalfFull(keys, Pow2(j))
    {
      if n == Pow2(i) && j < i {
        Pow2Grows(j, i);
      }
    }
  }

  lemma IndexFits(keys: set<int>, i: nat)
    requires ArrayKeys(keys) && Pow2(i) / 2 < |keys|
    ensures i <= MAXBITS
  {
    UpToCard(keys, 0);
    Pow2Max();
    if i > MAXBITS {
      Pow2Grows(MAXBITS, i);
    }
  }

  /** All keys are counted: a larger array would be at most half full. */
  lemma LastSlice(keys: set<int>, n: nat, i: nat)
    requires ArrayKeys(keys) && |UpTo(keys, Pow2(i))| == |keys| && NoneBetween(keys, n, i + 1)
    ensures forall j: nat :: Pow2(j) > n ==> !HalfFull(keys, Pow2(j))
  {
    UpToCard(keys, Pow2(i));
    forall j: nat | Pow2(j) > n
      ensures !HalfFull(keys, Pow2(j))
    {
      if j > i {
        UpToCard(keys, Pow2(j));
        Pow2Grows(i, j);
      }
    }
  }

  /** There are too few keys to fill half of anything larger. */
  lemma PastHalf(keys: set<int>, n: nat, i: nat)
    requires ArrayKeys(keys) && Pow2(i) / 2 >= |keys| && NoneBetween(keys, n, i)
    ensures forall j: nat :: Pow2(j) > n ==> !HalfFull(keys, Pow2(j))
  {
    forall j: nat | Pow2(j) > n
      ensures !HalfFull(keys, Pow2(j))
    {
      if j >= i {
        UpToCard(keys, Pow2(j));
        if j > i {
          Pow2Grows(i, j);
        }
      }
    }
  }
}
