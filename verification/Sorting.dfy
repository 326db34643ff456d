/** `table.sort` (ltablib.cpp:139-243): a quicksort that takes the median of three as its pivot, partitions
    in place without testing the ends of the range, calls itself on the smaller part and goes around its
    own loop for the larger one. The list is in the elements 1..n of the array. */
module Sorting {
  import opened Common

  /** What a comparison must be for the order to make sense. */
  ghost predicate StrictWeak<T(!new)>(lt: (T, T) -> bool) {
    && (forall x :: !lt(x, x))
    && (forall x, y, z :: lt(x, y) && lt(y, z) ==> lt(x, z))
    && (forall x, y, z :: !lt(x, y) && !lt(y, x) && !lt(y, z) && !lt(z, y) ==> !lt(x, z) && !lt(z, x))
  }

  predicate Le<T>(lt: (T, T) -> bool, x: T, y: T) {
    !lt(y, x)
  }

  lemma LeTrans<T(!new)>(lt: (T, T) -> bool, x: T, y: T, z: T)
    requires StrictWeak(lt) && Le(lt, x, y) && Le(lt, y, z)
    ensures Le(lt, x, z)
  {
    var xy, yz := lt(x, y), lt(y, z);
  }

  lemma LessIsLe<T(!new)>(lt: (T, T) -> bool, x: T, y: T)
    requires StrictWeak(lt) && lt(x, y)
    ensures Le(lt, x, y)
  {
  }

  // ---------- Ranges ----------

  ghost predicate In<T>(s: seq<T>, l: int, u: int) {
    1 <= l <= u + 1 <= |s|
  }

  ghost predicate SortedIn<T>(s: seq<T>, lt: (T, T) -> bool, l: int, u: int)
    requires In(s, l, u)
  {
    forall i, k :: l <= i < k <= u ==> Le(lt, s[i], s[k])
  }

  /** All pairs of l..u are in order, save those inside i..j. */
  ghost predicate SortedBut<T>(s: seq<T>, lt: (T, T) -> bool, l: int, u: int, i: int, j: int)
    requires In(s, l, u)
  {
    forall x, y :: l <= x < y <= u && !(i <= x && y <= j) ==> Le(lt, s[x], s[y])
  }

  ghost predicate AllBelow<T>(s: seq<T>, lt: (T, T) -> bool, l: int, u: int, p: T)
    requires In(s, l, u)
  {
    forall k :: l <= k <= u ==> Le(lt, s[k], p)
  }

  ghost predicate AllAbove<T>(s: seq<T>, lt: (T, T) -> bool, l: int, u: int, p: T)
    requires In(s, l, u)
  {
    forall k :: l <= k <= u ==> Le(lt, p, s[k])
  }

  /** The elements l..u are permuted, and nothing else changes. */
  ghost predicate Perm<T>(s: seq<T>, t: seq<T>, l: int, u: int) {
    && |s| == |t| && In(s, l, u)
    && s[..l] == t[..l] && s[u + 1..] == t[u + 1..]
    && multiset(s[l..u + 1]) == multiset(t[l..u + 1])
  }

  lemma PermAt<T>(s: seq<T>, t: seq<T>, l: int, u: int, k: int) returns (k': int)
    requires Perm(s, t, l, u) && l <= k <= u
    ensures l <= k' <= u && t[k] == s[k']
  {
    assert t[l..u + 1][k - l] in multiset(t[l..u + 1]);
    assert t[k] in s[l..u + 1];
    var x :| 0 <= x < u + 1 - l && s[l..u + 1][x] == t[k];
    k' := l + x;
  }

  lemma PermOutside<T>(s: seq<T>, t: seq<T>, l: int, u: int, k: int)
    requires Perm(s, t, l, u) && 0 <= k < |s| && !(l <= k <= u)
    ensures s[k] == t[k]
  {
    if k < l {
      assert s[k] == s[..l][k] == t[..l][k];
    } else {
      assert s[k] == s[u + 1..][k - u - 1] == t[u + 1..][k - u - 1];
    }
  }

  lemma PermTrans<T>(s: seq<T>, t: seq<T>, r: seq<T>, l: int, u: int)
    requires Perm(s, t, l, u) && Perm(t, r, l, u)
    ensures Perm(s, r, l, u)
  {
  }

  /** A permutation of a part is one of the whole. */
  lemma PermWiden<T>(s: seq<T>, t: seq<T>, l: int, u: int, i: int, j: int)
    requires Perm(s, t, i, j) && In(s, l, u) && l <= i && j <= u
    ensures Perm(s, t, l, u)
  {
    assert s[..l] == s[..i][..l] && t[..l] == t[..i][..l];
    assert s[u + 1..] == s[j + 1..][u - j..] && t[u + 1..] == t[j + 1..][u - j..];
    var a, b := s[l..i], s[j + 1..u + 1];
    assert a == s[..i][l..] && a == t[..i][l..] == t[l..i];
    assert b == s[j + 1..][..u - j] && b == t[j + 1..][..u - j] == t[j + 1..u + 1];
    assert s[l..u + 1] == a + s[i..j + 1] + b;
    assert t[l..u + 1] == a + t[i..j + 1] + b;
  }

  lemma PermSwap<T>(s: seq<T>, t: seq<T>, l: int, u: int, i: int, j: int)
    requires In(s, l, u) && l <= i <= u && l <= j <= u && t == s[i := s[j]][j := s[i]]
    ensures Perm(s, t, l, u)
  {
    assert s[..l] == t[..l] && s[u + 1..] == t[u + 1..];
    var a, b := s[l..u + 1], t[l..u + 1];
    assert b == a[i - l := a[j - l]][j - l := a[i - l]];
  }

  lemma PermBelow<T>(s: seq<T>, t: seq<T>, lt: (T, T) -> bool, l: int, u: int, i: int, j: int, p: T)
    requires Perm(s, t, i, j) && In(s, l, u) && l <= i && j <= u
    ensures AllBelow(s, lt, l, u, p) ==> AllBelow(t, lt, l, u, p)
    ensures AllAbove(s, lt, l, u, p) ==> AllAbove(t, lt, l, u, p)
  {
    forall k | l <= k <= u
      ensures exists k' :: l <= k' <= u && t[k] == s[k']
    {
      if i <= k <= j {
        var k' := PermAt(s, t, i, j, k);
      } else {
        PermOutside(s, t, i, j, k);
      }
    }
  }

  /** Permuting i..j does not disturb the order of the other pairs. */
  lemma PermSortedBut<T>(s: seq<T>, t: seq<T>, lt: (T, T) -> bool, l: int, u: int, i: int, j: int)
    requires Perm(s, t, i, j) && In(s, l, u) && l <= i && j <= u && SortedBut(s, lt, l, u, i, j)
    ensures SortedBut(t, lt, l, u, i, j)
  {
    forall x, y | l <= x < y <= u && !(i <= x && y <= j)
      ensures Le(lt, t[x], t[y])
    {
      var x', y' := x, y;
      if i <= x <= j {
        x' := PermAt(s, t, i, j, x);
      } else {
        PermOutside(s, t, i, j, x);
      }
      if i <= y <= j {
        y' := PermAt(s, t, i, j, y);
      } else {
        PermOutside(s, t, i, j, y);
      }
    }
  }

  // ---------- One turn of the loop ----------

  method Swap<T>(a: array<T>, i: int, j: int)
    requires 0 <= i < a.Length && 0 <= j < a.Length
    modifies a
    ensures a[..] == old(a[..])[i := old(a[j])][j := old(a[i])]
  {
    a[i], a[j] := a[j], a[i];
  }

  /** The first and the last element in order. */
  method SortEnds<T(!new)>(a: array<T>, lt: (T, T) -> bool, l: int, u: int)
    requires StrictWeak(lt) && In(a[..], l, u) && l < u
    modifies a
    ensures Perm(old(a[..]), a[..], l, u) && Le(lt, a[l], a[u])
  {
    hide StrictWeak;
    if lt(a[u], a[l]) {
      LessIsLe(lt, a[u], a[l]);
      PermSwap(a[..], a[..][l := a[u]][u := a[l]], l, u, l, u);
      Swap(a, l, u);
    }
  }

  /** The median of the first, the middle and the last goes to the middle. */
  method SortMiddle<T(!new)>(a: array<T>, lt: (T, T) -> bool, l: int, i: int, u: int)
    requires StrictWeak(lt) && In(a[..], l, u) && l < i < u && Le(lt, a[l], a[u])
    modifies a
    ensures Perm(old(a[..]), a[..], l, u) && Le(lt, a[l], a[i]) && Le(lt, a[i], a[u])
  {
    hide StrictWeak;
    if lt(a[i], a[l]) {
      LessIsLe(lt, a[i], a[l]);
      PermSwap(a[..], a[..][i := a[l]][l := a[i]], l, u, i, l);
      Swap(a, i, l);
    } else if lt(a[u], a[i]) {
      LessIsLe(lt, a[u], a[i]);
      PermSwap(a[..], a[..][i := a[u]][u := a[i]], l, u, i, u);
      Swap(a, i, u);
    }
  }

  /** The range is split around the pivot, which starts in `u - 1` and ends in `i`. */
  ghost predicate Split<T>(s: seq<T>, lt: (T, T) -> bool, l: int, i: int, u: int)
    requires In(s, l, u)
  {
    l < i < u && AllBelow(s, lt, l, i - 1, s[i]) && AllAbove(s, lt, i + 1, u, s[i])
  }

  /** What the two scans keep: a[l..i] <= P <= a[j..u]. */
  ghost predicate Scanned<T>(s: seq<T>, lt: (T, T) -> bool, l: int, u: int, i: int, j: int, p: T) {
    && In(s, l, u) && l <= i <= j <= u - 1 && i < u - 1 && l < j && s[u - 1] == p
    && AllBelow(s, lt, l, i, p) && AllAbove(s, lt, j, u, p)
  }

  /** The scans stop at a pair that is out of place; swapping it lets them go on. */
  lemma Exchanged<T>(s: seq<T>, t: seq<T>, lt: (T, T) -> bool, l: int, u: int, i: int, j: int, p: T)
    requires In(s, l, u) && l < i <= j < u - 1 && s[u - 1] == p && t == s[i := s[j]][j := s[i]]
    requires AllBelow(s, lt, l, i - 1, p) && Le(lt, p, s[i]) && AllAbove(s, lt, j + 1, u, p) && Le(lt, s[j], p)
    ensures Scanned(t, lt, l, u, i, j, p) && Perm(s, t, l, u)
  {
    PermSwap(s, t, l, u, i, j);
  }

  /** The scans have crossed: the pivot goes between the two parts. */
  lemma Crossed<T(!new)>(s: seq<T>, t: seq<T>, lt: (T, T) -> bool, l: int, u: int, i: int, j: int, p: T)
    requires StrictWeak(lt) && In(s, l, u) && l < i <= u - 1 && j < i && s[u - 1] == p &&
             t == s[u - 1 := s[i]][i := s[u - 1]]
    requires l <= j && AllBelow(s, lt, l, i - 1, p) && Le(lt, p, s[i]) && AllAbove(s, lt, j + 1, u, p)
    ensures Split(t, lt, l, i, u) && Perm(s, t, l, u)
  {
    PermSwap(s, t, l, u, u - 1, i);
  }

  /** Up from `i` to the next element that is not below the pivot. */
  method ScanUp<T(!new)>(a: array<T>, lt: (T, T) -> bool, l: int, u: int, i0: int, p: T) returns (ok: bool, i: int)
    requires StrictWeak(lt) && In(a[..], l, u) && l <= i0 < u - 1 && a[u - 1] == p && AllBelow(a[..], lt, l, i0, p)
    ensures ok && i0 < i <= u - 1 && Le(lt, p, a[i]) && AllBelow(a[..], lt, l, i - 1, p)
  {
    i := i0 + 1;
    while lt(a[i], p)
      invariant i0 < i <= u - 1 && AllBelow(a[..], lt, l, i - 1, p)
      decreases u - i
    {
      if i > u {
        return false, i;
      }
      i := i + 1;
    }
    ok := true;
  }

  /** Down from `j` to the next element that is not above the pivot. */
  method ScanDown<T(!new)>(a: array<T>, lt: (T, T) -> bool, l: int, u: int, j0: int, p: T) returns (ok: bool, j: int)
    requires StrictWeak(lt) && In(a[..], l, u) && l < j0 <= u && Le(lt, a[l], p) && AllAbove(a[..], lt, j0, u, p)
    ensures ok && l <= j < j0 && Le(lt, a[j], p) && AllAbove(a[..], lt, j + 1, u, p)
  {
    j := j0 - 1;
    while lt(p, a[j])
      invariant l <= j < j0 && AllAbove(a[..], lt, j + 1, u, p)
      decreases j - l
    {
      if j < l {
        return false, j;
      }
      j := j - 1;
    }
    ok := true;
  }

  lemma BeforeScan<T(!new)>(s: seq<T>, lt: (T, T) -> bool, l: int, u: int)
    requires StrictWeak(lt) && In(s, l, u) && u - l >= 3 && Le(lt, s[l], s[u - 1]) && Le(lt, s[u - 1], s[u])
    ensures Scanned(s, lt, l, u, l, u - 1, s[u - 1]) && Perm(s, s, l, u)
  {
  }

  lemma FirstBelow<T>(s: seq<T>, lt: (T, T) -> bool, l: int, u: int, i: int, j: int, p: T)
    requires Scanned(s, lt, l, u, i, j, p)
    ensures Le(lt, s[l], p)
  {
  }

  method Partition<T(!new)>(a: array<T>, lt: (T, T) -> bool, l: int, u: int) returns (ok: bool, i: int)
    requires StrictWeak(lt) && In(a[..], l, u) && u - l >= 3 && Le(lt, a[l], a[u - 1]) && Le(lt, a[u - 1], a[u])
    modifies a
    ensures ok && l < i < u && Perm(old(a[..]), a[..], l, u) && Split(a[..], lt, l, i, u)
  {
    hide StrictWeak, AllBelow, AllAbove, Le;
    var p := a[u - 1];
    i := l;
    var j := u - 1;
    ghost var s0 := a[..];
    ghost var s := s0;
    hide Perm, AllBelow, AllAbove, StrictWeak, Le;
    BeforeScan(s0, lt, l, u);
    while true
      invariant s == a[..] && Perm(s0, s, l, u) && Scanned(s, lt, l, u, i, j, p)
      decreases j
    {
      FirstBelow(s, lt, l, u, i, j, p);
      ok, i := ScanUp(a, lt, l, u, i, p);
      if !ok {
        return;
      }
      ok, j := ScanDown(a, lt, l, u, j, p);
      if !ok {
        return;
      }
      if j < i {
        break;
      }
      Swap(a, i, j);
      ghost var t := a[..];
      Exchanged(s, t, lt, l, u, i, j, p);
      PermTrans(s0, s, t, l, u);
      s := t;
    }
    Swap(a, u - 1, i);
    Crossed(s, a[..], lt, l, u, i, j, p);
    PermTrans(s0, s, a[..], l, u);
  }

  // ---------- The sort ----------

  /** After the smaller part has been sorted, only the larger one is left. */
  lemma Narrowed<T(!new)>(s: seq<T>, t: seq<T>, lt: (T, T) -> bool, l0: int, u0: int, l: int, i: int, u: int,
                          left: bool)
    requires StrictWeak(lt) && In(s, l0, u0) && l0 <= l && u <= u0 && In(s, l, u) && SortedBut(s, lt, l0, u0, l, u)
    requires Split(s, lt, l, i, u)
    requires left ==> Perm(s, t, l, i - 1) && SortedIn(t, lt, l, i - 1)
    requires !left ==> Perm(s, t, i + 1, u) && SortedIn(t, lt, i + 1, u)
    ensures Perm(s, t, l, u)
    ensures if left then SortedBut(t, lt, l0, u0, i + 1, u) else SortedBut(t, lt, l0, u0, l, i - 1)
  {
    var j, k := if left then l else i + 1, if left then i - 1 else u;
    PermWiden(s, t, l, u, j, k);
    PermSortedBut(s, t, lt, l0, u0, l, u);
    PermOutside(s, t, j, k, i);
    StillSplit(s, t, lt, l, i, u, left);
    forall x, y | l0 <= x < y <= u0 && !((if left then i + 1 else l) <= x && y <= if left then u else i - 1)
      ensures Le(lt, t[x], t[y])
    {
      if l <= x < i < y <= u {
        LeTrans(lt, t[x], t[i], t[y]);
      }
    }
  }

  lemma StillSplit<T(!new)>(s: seq<T>, t: seq<T>, lt: (T, T) -> bool, l: int, i: int, u: int, left: bool)
    requires In(s, l, u) && Split(s, lt, l, i, u)
    requires if left then Perm(s, t, l, i - 1) else Perm(s, t, i + 1, u)
    ensures Split(t, lt, l, i, u)
  {
    if left {
      PermOutside(s, t, l, i - 1, i);
      PermBelow(s, t, lt, l, i - 1, l, i - 1, s[i]);
      forall k | i + 1 <= k <= u
        ensures s[k] == t[k]
      {
        PermOutside(s, t, l, i - 1, k);
      }
    } else {
      PermOutside(s, t, i + 1, u, i);
      PermBelow(s, t, lt, i + 1, u, i + 1, u, s[i]);
      forall k | l <= k <= i - 1
        ensures s[k] == t[k]
      {
        PermOutside(s, t, i + 1, u, k);
      }
    }
  }

  /** The median of three, as far as there are so many elements. */
  method MedianOfThree<T(!new)>(a: array<T>, lt: (T, T) -> bool, l: int, u: int)
    requires StrictWeak(lt) && In(a[..], l, u) && l < u
    modifies a
    ensures Perm(old(a[..]), a[..], l, u) && Le(lt, a[l], a[u])
    ensures u - l >= 2 ==> Le(lt, a[l], a[(l + u) / 2]) && Le(lt, a[(l + u) / 2], a[u])
    ensures u - l <= 2 ==> SortedIn(a[..], lt, l, u)
  {
    SortEnds(a, lt, l, u);
    if u - l == 1 {
      return;
    }
    ghost var s := a[..];
    SortMiddle(a, lt, l, (l + u) / 2, u);
    LeTrans(lt, a[l], a[(l + u) / 2], a[u]);
    PermTrans(old(a[..]), s, a[..], l, u);
  }

  /** One turn up to the partition. Two or three elements are sorted by then; more are split. */
  method SplitRange<T(!new)>(a: array<T>, lt: (T, T) -> bool, l: int, u: int) returns (ok: bool, done: bool, i: int)
    requires StrictWeak(lt) && In(a[..], l, u) && l < u
    modifies a
    ensures ok && Perm(old(a[..]), a[..], l, u)
    ensures if done then SortedIn(a[..], lt, l, u) else l < i < u && u - l >= 3 && Split(a[..], lt, l, i, u)
  {
    hide Perm, StrictWeak, Split, Le, SortedIn;
    ghost var s0 := a[..];
    MedianOfThree(a, lt, l, u);
    if u - l <= 2 {
      return true, true, l;
    }
    ghost var s := a[..];
    i := (l + u) / 2;
    Swap(a, i, u - 1);
    ghost var t := a[..];
    PermSwap(s, t, l, u, i, u - 1);
    PermTrans(s0, s, t, l, u);
    ok, i := Partition(a, lt, l, u);
    PermTrans(s0, t, a[..], l, u);
    done := false;
  }

  /** Of l0..u0 only l..u is left to sort. */
  ghost predicate Sorting<T>(s0: seq<T>, s: seq<T>, lt: (T, T) -> bool, l0: int, u0: int, l: int, u: int) {
    l0 <= l && u <= u0 && In(s, l0, u0) && In(s, l, u) && Perm(s0, s, l0, u0) && SortedBut(s, lt, l0, u0, l, u)
  }

  lemma AtFirst<T>(s: seq<T>, lt: (T, T) -> bool, l: int, u: int)
    requires In(s, l, u)
    ensures Sorting(s, s, lt, l, u, l, u)
  {
  }

  lemma Rearranged<T>(s0: seq<T>, s: seq<T>, t: seq<T>, lt: (T, T) -> bool, l0: int, u0: int, l: int, u: int)
    requires Sorting(s0, s, lt, l0, u0, l, u) && Perm(s, t, l, u)
    ensures Sorting(s0, t, lt, l0, u0, l, u)
  {
    PermSortedBut(s, t, lt, l0, u0, l, u);
    PermWiden(s, t, l0, u0, l, u);
    PermTrans(s0, s, t, l0, u0);
  }

  lemma SmallerSorted<T(!new)>(s0: seq<T>, s: seq<T>, t: seq<T>, lt: (T, T) -> bool, l0: int, u0: int, l: int, i: int,
                               u: int, left: bool)
    requires StrictWeak(lt) && Sorting(s0, s, lt, l0, u0, l, u) && Split(s, lt, l, i, u)
    requires left ==> Perm(s, t, l, i - 1) && SortedIn(t, lt, l, i - 1)
    requires !left ==> Perm(s, t, i + 1, u) && SortedIn(t, lt, i + 1, u)
    ensures if left then Sorting(s0, t, lt, l0, u0, i + 1, u) else Sorting(s0, t, lt, l0, u0, l, i - 1)
  {
    hide Perm, SortedIn, SortedBut, StrictWeak;
    Narrowed(s, t, lt, l0, u0, l, i, u, left);
    PermWiden(s, t, l0, u0, l, u);
    PermTrans(s0, s, t, l0, u0);
  }

  lemma AllSorted<T>(s0: seq<T>, s: seq<T>, lt: (T, T) -> bool, l0: int, u0: int, l: int, u: int)
    requires Sorting(s0, s, lt, l0, u0, l, u) && (l < u ==> SortedIn(s, lt, l, u))
    ensures In(s, l0, u0) && Perm(s0, s, l0, u0) && SortedIn(s, lt, l0, u0)
  {
  }

  /** How deep the sort of `n` elements may nest: not beyond log2 of `n`. */
  ghost predicate DepthFits(depth: nat, n: int) {
    if n >= 1 then Pow2(depth) <= n else depth == 0
  }

  lemma OneDeeper(d: nat, m: int, n: int)
    requires DepthFits(d, m) && 2 * m < n && n >= 2
    ensures DepthFits(d + 1, n)
  {
  }

  /** What fits a part fits the whole. */
  lemma DepthWidens(d: nat, m: int, n: int)
    requires DepthFits(d, m) && 1 <= m <= n
    ensures DepthFits(d, n)
  {
  }

  /** The second half of a turn: a call sorts the smaller part; the larger one is what is left. */
  method SortSmaller<T(!new)>(a: array<T>, lt: (T, T) -> bool, ghost s0: seq<T>, ghost l0: int, ghost u0: int, l: int,
                              i: int, u: int)
    returns (ok: bool, l': int, u': int, ghost d: nat)
    requires StrictWeak(lt) && In(a[..], l, u) && l < i < u
    requires Sorting(s0, a[..], lt, l0, u0, l, u) && Split(a[..], lt, l, i, u)
    modifies a
    ensures ok && l <= l' <= u' + 1 && u' <= u && u' - l' < u - l && In(a[..], l', u')
    ensures Sorting(s0, a[..], lt, l0, u0, l', u')
    ensures DepthFits(d + 1, u - l + 1)
    decreases u - l, 0
  {
    hide StrictWeak, Perm, SortedIn, SortedBut, Sorting, Split, DepthFits, Le, AllBelow, AllAbove;
    ghost var s := a[..];
    if i - l < u - i {
      ok, d := AuxSort(a, lt, l, i - 1);
      SmallerSorted(s0, s, a[..], lt, l0, u0, l, i, u, true);
      OneDeeper(d, i - l, u - l + 1);
      l', u' := i + 1, u;
    } else {
      ok, d := AuxSort(a, lt, i + 1, u);
      SmallerSorted(s0, s, a[..], lt, l0, u0, l, i, u, false);
      OneDeeper(d, u - i, u - l + 1);
      l', u' := l, i - 1;
    }
  }

  /** `auxsort`. With a strict weak order it sorts its range in place, never reports an invalid order
      function, and never nests more than log2 of the length deep. */
  method AuxSort<T(!new)>(a: array<T>, lt: (T, T) -> bool, l0: int, u0: int) returns (ok: bool, ghost depth: nat)
    requires StrictWeak(lt) && In(a[..], l0, u0)
    modifies a
    ensures ok && Perm(old(a[..]), a[..], l0, u0) && SortedIn(a[..], lt, l0, u0)
    ensures DepthFits(depth, u0 - l0 + 1)
    decreases u0 - l0, 1
  {
    var l, u := l0, u0;
    ok, depth := true, 0;
    ghost var s0 := a[..];
    AtFirst(s0, lt, l0, u0);
    hide Sorting, Perm, SortedIn, Split, StrictWeak, DepthFits;
    while l < u
      invariant ok && l0 <= l <= u + 1 && u <= u0 && In(a[..], l, u)
      invariant Sorting(s0, a[..], lt, l0, u0, l, u) && DepthFits(depth, u0 - l0 + 1)
      decreases u - l
    {
      ghost var s, d, n := a[..], 0, u - l + 1;
      var done, i;
      ok, done, i := SplitRange(a, lt, l, u);
      Rearranged(s0, s, a[..], lt, l0, u0, l, u);
      if !ok || done {
        break;
      }
      ok, l, u, d := SortSmaller(a, lt, s0, l0, u0, l, i, u);
      DepthWidens(d + 1, n, u0 - l0 + 1);
      depth := if depth < d + 1 then d + 1 else depth;
    }
    AllSorted(s0, a[..], lt, l0, u0, l, u);
  }

  /** `sort`: the elements 1..n. */
  method Sort<T(!new)>(a: array<T>, lt: (T, T) -> bool) returns (ok: bool, ghost depth: nat)
    requires StrictWeak(lt) && a.Length >= 1
    modifies a
    ensures ok && multiset(a[..]) == multiset(old(a[..])) && a[0] == old(a[0])
    ensures forall i, k :: 1 <= i < k < a.Length ==> !lt(a[k], a[i])
    ensures a.Length >= 2 ==> Pow2(depth) < a.Length
  {
    hide StrictWeak;
    ghost var s := a[..];
    ok, depth := AuxSort(a, lt, 1, a.Length - 1);
    ghost var t := a[..];
    assert s == s[..1] + s[1..a.Length] && t == t[..1] + t[1..a.Length];
    assert s[0] == s[..1][0] == t[..1][0];
    assert forall i, k :: 1 <= i < k < a.Length ==> Le(lt, t[i], t[k]);
  }
}
