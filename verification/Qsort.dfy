/** libc's qsort: the three-way partition in place, and the recursion into the smaller side. */
module Qsort {

  // ----- orders and permutations -----

  function Sign(x: int): int { if x < 0 then -1 else if x > 0 then 1 else 0 }

  /** The comparison function is a total preorder. */
  ghost predicate Total<T(!new)>(cmp: (T, T) -> int) {
    && (forall x, y :: Sign(cmp(x, y)) == -Sign(cmp(y, x)))
    && (forall x, y, z :: cmp(x, y) <= 0 && cmp(y, z) <= 0 ==> cmp(x, z) <= 0)
  }

  ghost predicate Sorted<T>(s: seq<T>, cmp: (T, T) -> int, lo: int, hi: int)
    requires 0 <= lo <= hi <= |s|
  {
    forall p, q :: lo <= p < q < hi ==> cmp(s[p], s[q]) <= 0
  }

  /** Nothing in the first range is greater than anything in the second. */
  ghost predicate Below<T>(s: seq<T>, cmp: (T, T) -> int, lo: int, hi: int, lo': int, hi': int)
    requires 0 <= lo <= hi <= |s| && 0 <= lo' <= hi' <= |s|
  {
    forall p, q :: lo <= p < hi && lo' <= q < hi' ==> cmp(s[p], s[q]) <= 0
  }

  /** t is s with the elements from lo to hi in another order. */
  ghost predicate Reordered<T>(s: seq<T>, t: seq<T>, lo: int, hi: int) {
    && 0 <= lo <= hi <= |s| == |t|
    && t[..lo] == s[..lo] && t[hi..] == s[hi..]
    && multiset(t[lo..hi]) == multiset(s[lo..hi])
  }

  lemma ReorderedAgain<T>(s: seq<T>, t: seq<T>, u: seq<T>, lo: int, hi: int)
    requires Reordered(s, t, lo, hi) && Reordered(t, u, lo, hi)
    ensures Reordered(s, u, lo, hi)
  {
  }

  lemma ReorderedWithin<T>(s: seq<T>, t: seq<T>, lo: int, hi: int, lo': int, hi': int)
    requires Reordered(s, t, lo, hi) && 0 <= lo' <= lo && hi <= hi' <= |s|
    ensures Reordered(s, t, lo', hi')
  {
    assert t[..lo'] == t[..lo][..lo'] && s[..lo'] == s[..lo][..lo'];
    assert t[hi'..] == t[hi..][hi' - hi..] && s[hi'..] == s[hi..][hi' - hi..];
    assert t[lo'..hi'] == t[..lo][lo'..] + t[lo..hi] + t[hi..][..hi' - hi];
    assert s[lo'..hi'] == s[..lo][lo'..] + s[lo..hi] + s[hi..][..hi' - hi];
  }

  lemma ReorderedSame<T>(s: seq<T>, t: seq<T>, lo: int, hi: int, p: int)
    requires Reordered(s, t, lo, hi) && 0 <= p < |s| && !(lo <= p < hi)
    ensures t[p] == s[p]
  {
    if p < lo {
      assert t[..lo][p] == s[..lo][p];
    } else {
      assert t[hi..][p - hi] == s[hi..][p - hi];
    }
  }

  /** Every element of the range comes from the range. */
  lemma ReorderedFrom<T>(s: seq<T>, t: seq<T>, lo: int, hi: int, p: int) returns (q: int)
    requires Reordered(s, t, lo, hi) && lo <= p < hi
    ensures lo <= q < hi && t[p] == s[q]
  {
    assert t[lo..hi][p - lo] in multiset(t[lo..hi]);
    assert t[p] in s[lo..hi];
    var k :| 0 <= k < hi - lo && s[lo..hi][k] == t[p];
    q := lo + k;
  }

  function Swap<T>(s: seq<T>, i: int, j: int): (t: seq<T>)
    requires 0 <= i < |s| && 0 <= j < |s|
    ensures |t| == |s|
  {
    s[i := s[j]][j := s[i]]
  }

  lemma SwapReorders<T>(s: seq<T>, i: int, j: int, lo: int, hi: int)
    requires 0 <= lo <= i < hi <= |s| && lo <= j < hi
    ensures Reordered(s, Swap(s, i, j), lo, hi)
  {
    var r := s[lo..hi];
    assert Swap(s, i, j)[lo..hi] == Swap(r, i - lo, j - lo);
    SwapKeeps(r, i - lo, j - lo);
  }

  lemma SwapKeeps<T>(r: seq<T>, i: int, j: int)
    requires 0 <= i < |r| && 0 <= j < |r|
    ensures multiset(Swap(r, i, j)) == multiset(r)
  {
  }

  /** qstexc: i takes what is at k, k what is at j, and j what was at i. */
  function Rotate<T>(s: seq<T>, i: int, j: int, k: int): (t: seq<T>)
    requires 0 <= i < |s| && 0 <= j < |s| && 0 <= k < |s|
    ensures |t| == |s|
  {
    s[i := s[k]][k := s[j]][j := s[i]]
  }

  lemma RotateReorders<T>(s: seq<T>, i: int, j: int, k: int, lo: int, hi: int)
    requires 0 <= lo <= i < hi <= |s| && lo <= j < hi && lo <= k < hi && i != j && i != k
    ensures Reordered(s, Rotate(s, i, j, k), lo, hi)
  {
    var t := Swap(s, i, k);
    assert Rotate(s, i, j, k) == Swap(t, k, j);
    SwapReorders(s, i, k, lo, hi);
    SwapReorders(t, k, j, lo, hi);
    ReorderedAgain(s, t, Swap(t, k, j), lo, hi);
  }

  // ----- the partition -----

  /** What the partition knows: less than v before i, equal from lp to hp, greater after j. */
  ghost predicate Parted<T>(s: seq<T>, cmp: (T, T) -> int, v: T, a: int, l: int, i: int, lp: int, hp: int, j: int) {
    && 0 <= a <= i <= lp <= hp <= j < l <= |s|
    && (forall p :: a <= p < i ==> cmp(s[p], v) < 0)
    && (forall p :: lp <= p <= hp ==> cmp(s[p], v) == 0)
    && (forall p :: j < p < l ==> cmp(s[p], v) > 0)
  }

  method QsExc<T>(arr: array<T>, i: int, j: int)
    requires 0 <= i < arr.Length && 0 <= j < arr.Length
    modifies arr
    ensures arr[..] == Swap(old(arr[..]), i, j)
  {
    arr[i], arr[j] := arr[j], arr[i];
  }

  method QstExc<T>(arr: array<T>, i: int, j: int, k: int)
    requires 0 <= i < arr.Length && 0 <= j < arr.Length && 0 <= k < arr.Length && i != j && i != k
    modifies arr
    ensures arr[..] == Rotate(old(arr[..]), i, j, k)
  {
    var c := arr[i];
    arr[i] := arr[k];
    arr[k] := arr[j];
    arr[j] := c;
  }

  /** How far the partition of s0, with pivot v, has come. */
  ghost predicate Midway<T>(s0: seq<T>, s: seq<T>, cmp: (T, T) -> int, v: T, a: int, l: int, i: int, lp: int, hp: int, j: int) {
    Parted(s, cmp, v, a, l, i, lp, hp, j) && Reordered(s0, s, a, l)
  }

  /** The loop of qs1 up to its end: the range is split by the value that was in its middle. */
  method Partition<T(!new)>(arr: array<T>, cmp: (T, T) -> int, a: int, l: int) returns (lp: int, hp: int)
    requires 0 <= a && a + 2 <= l <= arr.Length && Total(cmp)
    modifies arr
    ensures a <= lp <= hp < l
    ensures Midway(old(arr[..]), arr[..], cmp, old(arr[a + (l - a) / 2]), a, l, lp, lp, hp, hp)
  {
    hide Midway;
    hide Total;
    hide Swap;
    hide Rotate;
    ghost var s0, v := arr[..], arr[a + (l - a) / 2];
    lp := a + (l - a) / 2;
    hp := lp;
    var i, j := a, l - 1;
    Unordered(s0, cmp, a, l);
    label outer: while true
      invariant a <= i <= lp <= hp <= j < l && Midway(s0, arr[..], cmp, v, a, l, i, lp, hp, j)
      decreases lp - i + j - hp
    {
      ghost var unknown := lp - i + j - hp;
      if i < lp {
        AtLeft(s0, arr[..], cmp, v, a, l, i, lp, hp, j);
        var c := cmp(arr[i], arr[lp]);
        if c == 0 {
          lp := lp - 1;
          QsExc(arr, i, lp);
          continue;
        }
        if c < 0 {
          i := i + 1;
          continue;
        }
      }
      while j > hp
        invariant a <= i <= lp <= hp <= j < l && Midway(s0, arr[..], cmp, v, a, l, i, lp, hp, j)
        invariant (i < lp ==> cmp(arr[..][i], v) > 0) && lp - i + j - hp <= unknown
        decreases j - hp
      {
        AtRight(s0, arr[..], cmp, v, a, l, i, lp, hp, j);
        var c := cmp(arr[hp], arr[j]);
        if c == 0 {
          hp := hp + 1;
          QsExc(arr, hp, j);
          continue;
        }
        if c > 0 {
          if i == lp {
            hp := hp + 1;
            QstExc(arr, i, hp, j);
            lp := lp + 1;
            i := lp;
            continue;
          }
          QsExc(arr, i, j);
          j := j - 1;
          i := i + 1;
          continue outer;
        }
        j := j - 1;
      }
      if i == lp {
        return;
      }
      LeftOnly(s0, arr[..], cmp, v, a, l, i, lp, hp);
      lp := lp - 1;
      QstExc(arr, j, lp, i);
      hp := hp - 1;
      j := hp;
    }
  }

  /** What comparing the element at i with the pivots leads to. */
  lemma AtLeft<T(!new)>(s0: seq<T>, s: seq<T>, cmp: (T, T) -> int, v: T, a: int, l: int, i: int, lp: int, hp: int, j: int)
    requires Total(cmp) && Midway(s0, s, cmp, v, a, l, i, lp, hp, j) && a <= i < lp <= hp <= j < l
    ensures |s| == |s0| >= l && 0 <= a
    ensures var c := cmp(s[i], s[lp]);
            && (c == 0 ==> Midway(s0, Swap(s, i, lp - 1), cmp, v, a, l, i, lp - 1, hp, j))
            && (c < 0 ==> Midway(s0, s, cmp, v, a, l, i + 1, lp, hp, j))
            && (c > 0 ==> cmp(s[i], v) > 0)
  {
    hide Reordered;
    LikePivot(cmp, s[i], s[lp], v);
    SwapStep(s0, s, i, lp - 1, a, l);
  }

  /** What comparing the element at j with the pivots leads to. */
  lemma AtRight<T(!new)>(s0: seq<T>, s: seq<T>, cmp: (T, T) -> int, v: T, a: int, l: int, i: int, lp: int, hp: int, j: int)
    requires Total(cmp) && Midway(s0, s, cmp, v, a, l, i, lp, hp, j) && a <= i <= lp <= hp < j < l
    requires 0 <= a && l <= |s| == |s0| && (i < lp ==> cmp(s[i], v) > 0)
    ensures var c := cmp(s[hp], s[j]);
            && (c == 0 ==> Midway(s0, Swap(s, hp + 1, j), cmp, v, a, l, i, lp, hp + 1, j)
                           && (i < lp ==> cmp(Swap(s, hp + 1, j)[i], v) > 0))
            && (c > 0 && i == lp ==> Midway(s0, Rotate(s, i, hp + 1, j), cmp, v, a, l, lp + 1, lp + 1, hp + 1, j))
            && (c > 0 && i < lp ==> Midway(s0, Swap(s, i, j), cmp, v, a, l, i + 1, lp, hp, j - 1))
            && (c < 0 ==> Midway(s0, s, cmp, v, a, l, i, lp, hp, j - 1))
  {
    hide Midway;
    if cmp(s[hp], s[j]) == 0 {
      EqualAtRight(s0, s, cmp, v, a, l, i, lp, hp, j);
    } else if cmp(s[hp], s[j]) > 0 {
      LessAtRight(s0, s, cmp, v, a, l, i, lp, hp, j);
    } else {
      GreaterAtRight(s0, s, cmp, v, a, l, i, lp, hp, j);
    }
  }

  lemma EqualAtRight<T(!new)>(s0: seq<T>, s: seq<T>, cmp: (T, T) -> int, v: T, a: int, l: int, i: int, lp: int, hp: int, j: int)
    requires Total(cmp) && Midway(s0, s, cmp, v, a, l, i, lp, hp, j) && a <= i <= lp <= hp < j < l
    requires (i < lp ==> i < |s| && cmp(s[i], v) > 0) && j < |s| && a >= 0 && cmp(s[hp], s[j]) == 0
    ensures |s| == |s0| >= l && 0 <= a && Midway(s0, Swap(s, hp + 1, j), cmp, v, a, l, i, lp, hp + 1, j)
    ensures i < lp ==> cmp(Swap(s, hp + 1, j)[i], v) > 0
  {
    hide Reordered;
    PivotLike(cmp, s[hp], s[j], v);
    hide Total;
    SwapStep(s0, s, hp + 1, j, a, l);
  }

  lemma LessAtRight<T(!new)>(s0: seq<T>, s: seq<T>, cmp: (T, T) -> int, v: T, a: int, l: int, i: int, lp: int, hp: int, j: int)
    requires Total(cmp) && Midway(s0, s, cmp, v, a, l, i, lp, hp, j) && a <= i <= lp <= hp < j < l
    requires (i < lp ==> i < |s| && cmp(s[i], v) > 0) && j < |s| && a >= 0 && cmp(s[hp], s[j]) > 0
    ensures |s| == |s0| >= l && 0 <= a
    ensures i == lp ==> Midway(s0, Rotate(s, i, hp + 1, j), cmp, v, a, l, lp + 1, lp + 1, hp + 1, j)
    ensures i < lp ==> Midway(s0, Swap(s, i, j), cmp, v, a, l, i + 1, lp, hp, j - 1)
  {
    hide Reordered;
    PivotLike(cmp, s[hp], s[j], v);
    hide Total;
    if i == lp {
      RotateStep(s0, s, i, hp + 1, j, a, l);
      PivotsMove(s, cmp, v, a, l, lp, hp, j);
    } else {
      SwapStep(s0, s, i, j, a, l);
      SidesChange(s, cmp, v, a, l, i, lp, hp, j);
    }
  }

  /** With nothing unknown on the left, all the pivots move one place up. */
  lemma PivotsMove<T(!new)>(s: seq<T>, cmp: (T, T) -> int, v: T, a: int, l: int, lp: int, hp: int, j: int)
    requires Parted(s, cmp, v, a, l, lp, lp, hp, j) && hp < j && cmp(s[j], v) < 0
    ensures Parted(Rotate(s, lp, hp + 1, j), cmp, v, a, l, lp + 1, lp + 1, hp + 1, j)
  {
    var t := Rotate(s, lp, hp + 1, j);
    assert t[lp] == s[j] && t[hp + 1] == s[lp];
    assert forall p :: 0 <= p < |s| && p != lp && p != hp + 1 && p != j ==> t[p] == s[p];
  }

  lemma SidesChange<T(!new)>(s: seq<T>, cmp: (T, T) -> int, v: T, a: int, l: int, i: int, lp: int, hp: int, j: int)
    requires Parted(s, cmp, v, a, l, i, lp, hp, j) && i < lp && hp < j && cmp(s[i], v) > 0 && cmp(s[j], v) < 0
    ensures Parted(Swap(s, i, j), cmp, v, a, l, i + 1, lp, hp, j - 1)
  {
  }

  lemma GreaterAtRight<T(!new)>(s0: seq<T>, s: seq<T>, cmp: (T, T) -> int, v: T, a: int, l: int, i: int, lp: int, hp: int, j: int)
    requires Total(cmp) && Midway(s0, s, cmp, v, a, l, i, lp, hp, j) && a <= i <= lp <= hp < j < l
    requires j < |s| && a >= 0 && cmp(s[hp], s[j]) < 0
    ensures |s| == |s0| >= l && 0 <= a && Midway(s0, s, cmp, v, a, l, i, lp, hp, j - 1)
  {
    PivotLike(cmp, s[hp], s[j], v);
  }

  /** Nothing is left on the right, and the element at i is greater than the pivots. */
  lemma LeftOnly<T(!new)>(s0: seq<T>, s: seq<T>, cmp: (T, T) -> int, v: T, a: int, l: int, i: int, lp: int, hp: int)
    requires Midway(s0, s, cmp, v, a, l, i, lp, hp, hp) && a <= i < lp <= hp < l && i < |s| && cmp(s[i], v) > 0
    ensures |s| == |s0| >= l && 0 <= a
    ensures Midway(s0, Rotate(s, hp, lp - 1, i), cmp, v, a, l, i, lp - 1, hp - 1, hp - 1)
  {
    hide Reordered;
    RotateStep(s0, s, hp, lp - 1, i, a, l);
  }

  lemma Unordered<T(!new)>(s: seq<T>, cmp: (T, T) -> int, a: int, l: int)
    requires 0 <= a && a + 2 <= l <= |s| && Total(cmp)
    ensures var m := a + (l - a) / 2;
            Midway(s, s, cmp, s[m], a, l, a, m, m, l - 1)
  {
    var v := s[a + (l - a) / 2];
    assert Sign(cmp(v, v)) == -Sign(cmp(v, v));
  }

  lemma SwapStep<T>(s0: seq<T>, s: seq<T>, i: int, j: int, lo: int, hi: int)
    requires Reordered(s0, s, lo, hi) && 0 <= lo <= i < hi <= |s| && lo <= j < hi
    ensures |s| == |s0| && Reordered(s0, Swap(s, i, j), lo, hi)
  {
    SwapReorders(s, i, j, lo, hi);
    ReorderedAgain(s0, s, Swap(s, i, j), lo, hi);
  }

  lemma RotateStep<T>(s0: seq<T>, s: seq<T>, i: int, j: int, k: int, lo: int, hi: int)
    requires Reordered(s0, s, lo, hi) && 0 <= lo <= i < hi <= |s| && lo <= j < hi && lo <= k < hi && i != j && i != k
    ensures |s| == |s0| && Reordered(s0, Rotate(s, i, j, k), lo, hi)
  {
    RotateReorders(s, i, j, k, lo, hi);
    ReorderedAgain(s0, s, Rotate(s, i, j, k), lo, hi);
  }

  /** An element that equals the pivot may be compared with in its place. */
  lemma LikePivot<T(!new)>(cmp: (T, T) -> int, x: T, y: T, v: T)
    requires Total(cmp) && cmp(y, v) == 0
    ensures Sign(cmp(x, y)) == Sign(cmp(x, v))
  {
    assert Sign(cmp(v, y)) == -Sign(cmp(y, v));
    assert Sign(cmp(x, y)) == -Sign(cmp(y, x)) && Sign(cmp(x, v)) == -Sign(cmp(v, x));
    assert cmp(x, y) <= 0 && cmp(y, v) <= 0 ==> cmp(x, v) <= 0;
    assert cmp(x, v) <= 0 && cmp(v, y) <= 0 ==> cmp(x, y) <= 0;
    assert cmp(v, y) <= 0 && cmp(y, x) <= 0 ==> cmp(v, x) <= 0;
    assert cmp(y, v) <= 0 && cmp(v, x) <= 0 ==> cmp(y, x) <= 0;
  }

  lemma PivotLike<T(!new)>(cmp: (T, T) -> int, y: T, x: T, v: T)
    requires Total(cmp) && cmp(y, v) == 0
    ensures Sign(cmp(y, x)) == -Sign(cmp(x, v))
  {
    LikePivot(cmp, x, y, v);
    assert Sign(cmp(x, y)) == -Sign(cmp(y, x));
  }

  // ----- the recursion -----

  function Log2(n: nat): nat
    requires n >= 1
  {
    if n == 1 then 0 else 1 + Log2(n / 2)
  }

  /** How many activations of qs1 may be nested for n elements. */
  function Levels(n: nat): nat { if n <= 1 then 1 else 1 + Log2(n) }

  lemma {:induction false} LevelsGrow(m: nat, n: nat)
    requires m <= n
    ensures Levels(m) <= Levels(n)
  {
    if m >= 2 {
      LevelsGrow(m / 2, n / 2);
    }
  }

  /** A side with at most half of what the other elements leave costs one level less. */
  lemma LevelsHalf(m: nat, n: nat)
    requires 2 * m + 1 <= n && n >= 2
    ensures 1 + Levels(m) <= Levels(n)
  {
    LevelsGrow(m, n / 2);
  }

  /** Outside a..l everything within a0..l0 is in place. */
  ghost predicate Around<T>(s: seq<T>, cmp: (T, T) -> int, a0: int, a: int, l: int, l0: int) {
    && 0 <= a0 <= a <= l <= l0 <= |s|
    && Sorted(s, cmp, a0, a) && Sorted(s, cmp, l, l0)
    && Below(s, cmp, a0, a, a, l0) && Below(s, cmp, a, l, l, l0)
  }

  lemma AroundReordered<T>(s: seq<T>, t: seq<T>, cmp: (T, T) -> int, a0: int, a: int, l: int, l0: int)
    requires Around(s, cmp, a0, a, l, l0) && Reordered(s, t, a, l)
    ensures Around(t, cmp, a0, a, l, l0)
  {
    forall p | 0 <= p < |s| && !(a <= p < l)
      ensures t[p] == s[p]
    {
      ReorderedSame(s, t, a, l, p);
    }
    forall p | a <= p < l
      ensures exists q :: a <= q < l && s[q] == t[p]
    {
      var q := ReorderedFrom(s, t, a, l, p);
    }
  }

  lemma PartedReordered<T>(s: seq<T>, t: seq<T>, cmp: (T, T) -> int, v: T, a: int, l: int, lp: int, hp: int, lo: int, hi: int)
    requires Parted(s, cmp, v, a, l, lp, lp, hp, hp) && Reordered(s, t, lo, hi)
    requires (lo == a && hi == lp) || (lo == hp + 1 && hi == l)
    ensures Parted(t, cmp, v, a, l, lp, lp, hp, hp)
  {
    forall p | 0 <= p < |s| && !(lo <= p < hi)
      ensures t[p] == s[p]
    {
      ReorderedSame(s, t, lo, hi, p);
    }
    forall p | lo <= p < hi
      ensures exists q :: lo <= q < hi && s[q] == t[p]
    {
      var q := ReorderedFrom(s, t, lo, hi, p);
    }
  }

  lemma Through<T(!new)>(cmp: (T, T) -> int, x: T, v: T, y: T)
    requires Total(cmp) && cmp(x, v) <= 0 && cmp(y, v) >= 0
    ensures cmp(x, y) <= 0
  {
    assert Sign(cmp(v, y)) == -Sign(cmp(y, v));
  }

  /** Once the right side is sorted, only the left one is left to do. */
  lemma LeftRemains<T(!new)>(s: seq<T>, cmp: (T, T) -> int, v: T, a0: int, a: int, lp: int, hp: int, l: int, l0: int)
    requires Total(cmp) && Around(s, cmp, a0, a, l, l0) && Parted(s, cmp, v, a, l, lp, lp, hp, hp) && Sorted(s, cmp, hp + 1, l)
    ensures Around(s, cmp, a0, a, lp, l0)
  {
    forall p, q | lp <= p < q < l0
      ensures cmp(s[p], s[q]) <= 0
    {
      if p <= hp && q < l {
        Through(cmp, s[p], v, s[q]);
      }
    }
    forall p, q | a <= p < lp && lp <= q < l0
      ensures cmp(s[p], s[q]) <= 0
    {
      if q < l {
        Through(cmp, s[p], v, s[q]);
      }
    }
  }

  lemma RightRemains<T(!new)>(s: seq<T>, cmp: (T, T) -> int, v: T, a0: int, a: int, lp: int, hp: int, l: int, l0: int)
    requires Total(cmp) && Around(s, cmp, a0, a, l, l0) && Parted(s, cmp, v, a, l, lp, lp, hp, hp) && Sorted(s, cmp, a, lp)
    ensures Around(s, cmp, a0, hp + 1, l, l0)
  {
    forall p, q | a0 <= p < q < hp + 1
      ensures cmp(s[p], s[q]) <= 0
    {
      if a <= p && lp <= q {
        Through(cmp, s[p], v, s[q]);
      }
    }
    forall p, q | a0 <= p < hp + 1 && hp + 1 <= q < l0
      ensures cmp(s[p], s[q]) <= 0
    {
      if a <= p && q < l {
        Through(cmp, s[p], v, s[q]);
      }
    }
  }

  /** qs1: sorts the elements from a0 up to l0, with at most Levels(l0 - a0) activations nested. */
  method Qs1<T(!new)>(arr: array<T>, cmp: (T, T) -> int, a0: int, l0: int) returns (ghost depth: nat)
    requires 0 <= a0 <= l0 <= arr.Length && Total(cmp)
    modifies arr
    ensures Reordered(old(arr[..]), arr[..], a0, l0) && Sorted(arr[..], cmp, a0, l0)
    ensures depth <= Levels(l0 - a0)
    decreases l0 - a0
  {
    hide Total;
    hide Reordered;
    hide Around;
    hide Parted;
    hide Levels;
    var a, l := a0, l0;
    ghost var s0 := arr[..];
    AtStart(s0, cmp, a0, l0);
    depth := 1;
    while l - a > 1
      invariant a0 <= a <= l <= l0 && depth <= Levels(l0 - a0)
      invariant Reordered(s0, arr[..], a0, l0) && Around(arr[..], cmp, a0, a, l, l0)
      decreases l - a
    {
      ghost var s, v := arr[..], arr[a + (l - a) / 2];
      var lp, hp := Partition(arr, cmp, a, l);
      ghost var t := arr[..];
      MidwayParts(s, t, cmp, v, a, l, lp, hp);
      LevelsGrow(l - a, l0 - a0);
      ghost var d: nat;
      if lp - a >= l - hp {
        d := Qs1(arr, cmp, hp + 1, l);
        RightDone(s0, s, t, arr[..], cmp, v, a0, a, lp, hp, l, l0);
        LevelsHalf(l - hp - 1, l - a);
        l := lp;
      } else {
        d := Qs1(arr, cmp, a, lp);
        LeftDone(s0, s, t, arr[..], cmp, v, a0, a, lp, hp, l, l0);
        LevelsHalf(lp - a, l - a);
        a := hp + 1;
      }
      depth := if 1 + d > depth then 1 + d else depth;
    }
    AtEnd(arr[..], cmp, a0, a, l, l0);
  }

  /** s is what the partition found, t what it left, and u what sorting the right side made of that. */
  lemma RightDone<T(!new)>(s0: seq<T>, s: seq<T>, t: seq<T>, u: seq<T>, cmp: (T, T) -> int, v: T,
                           a0: int, a: int, lp: int, hp: int, l: int, l0: int)
    requires Total(cmp) && Reordered(s0, s, a0, l0) && Around(s, cmp, a0, a, l, l0)
    requires Reordered(s, t, a, l) && Parted(t, cmp, v, a, l, lp, lp, hp, hp)
    requires Reordered(t, u, hp + 1, l) && 0 <= hp + 1 <= l <= |u| && Sorted(u, cmp, hp + 1, l)
    ensures Reordered(s0, u, a0, l0) && Around(u, cmp, a0, a, lp, l0)
  {
    hide Total;
    AroundReordered(s, t, cmp, a0, a, l, l0);
    ReorderedWithin(t, u, hp + 1, l, a, l);
    AroundReordered(t, u, cmp, a0, a, l, l0);
    PartedReordered(t, u, cmp, v, a, l, lp, hp, hp + 1, l);
    LeftRemains(u, cmp, v, a0, a, lp, hp, l, l0);
    ReorderedAgain(s, t, u, a, l);
    ReorderedWithin(s, u, a, l, a0, l0);
    ReorderedAgain(s0, s, u, a0, l0);
  }

  lemma LeftDone<T(!new)>(s0: seq<T>, s: seq<T>, t: seq<T>, u: seq<T>, cmp: (T, T) -> int, v: T,
                          a0: int, a: int, lp: int, hp: int, l: int, l0: int)
    requires Total(cmp) && Reordered(s0, s, a0, l0) && Around(s, cmp, a0, a, l, l0)
    requires Reordered(s, t, a, l) && Parted(t, cmp, v, a, l, lp, lp, hp, hp)
    requires Reordered(t, u, a, lp) && 0 <= a <= lp <= |u| && Sorted(u, cmp, a, lp)
    ensures Reordered(s0, u, a0, l0) && Around(u, cmp, a0, hp + 1, l, l0)
  {
    hide Total;
    AroundReordered(s, t, cmp, a0, a, l, l0);
    ReorderedWithin(t, u, a, lp, a, l);
    AroundReordered(t, u, cmp, a0, a, l, l0);
    PartedReordered(t, u, cmp, v, a, l, lp, hp, a, lp);
    RightRemains(u, cmp, v, a0, a, lp, hp, l, l0);
    ReorderedAgain(s, t, u, a, l);
    ReorderedWithin(s, u, a, l, a0, l0);
    ReorderedAgain(s0, s, u, a0, l0);
  }

  lemma AtStart<T>(s: seq<T>, cmp: (T, T) -> int, a0: int, l0: int)
    requires 0 <= a0 <= l0 <= |s|
    ensures Reordered(s, s, a0, l0) && Around(s, cmp, a0, a0, l0, l0) && 1 <= Levels(l0 - a0)
  {
  }

  lemma AtEnd<T>(s: seq<T>, cmp: (T, T) -> int, a0: int, a: int, l: int, l0: int)
    requires Around(s, cmp, a0, a, l, l0) && l - a <= 1
    ensures Sorted(s, cmp, a0, l0)
  {
  }

  lemma MidwayParts<T>(s: seq<T>, t: seq<T>, cmp: (T, T) -> int, v: T, a: int, l: int, lp: int, hp: int)
    requires Midway(s, t, cmp, v, a, l, lp, lp, hp, hp)
    ensures Reordered(s, t, a, l) && Parted(t, cmp, v, a, l, lp, lp, hp, hp)
  {
  }

  /** qsort: for every array and every total preorder. */
  method Sort<T(!new)>(arr: array<T>, cmp: (T, T) -> int) returns (ghost depth: nat)
    requires Total(cmp)
    modifies arr
    ensures forall p, q :: 0 <= p < q < arr.Length ==> cmp(arr[p], arr[q]) <= 0
    ensures multiset(arr[..]) == multiset(old(arr[..]))
    ensures arr.Length >= 1 ==> depth <= Log2(arr.Length) + 1
  {
    depth := Qs1(arr, cmp, 0, arr.Length);
    assert arr[0..arr.Length] == arr[..];
    assert old(arr[..])[0..arr.Length] == old(arr[..]);
  }
}
