/** The q table: every list is a doubly linked chain of table indices between its own head and tail
    entries, and all lists share one array. */
module QTable {
  import opened KernelSpec
  import opened KernelLists

  const NLISTS := NSEM + 2
  const NQENT := NPROC + NSEM + NSEM + 4
  const EMPTY := -1

  datatype QEnt = QEnt(key: int, next: int, prev: int)

  function Head(l: int): int { NPROC + 2 * l }
  function Tail(l: int): int { NPROC + 2 * l + 1 }

  /** The table indices of list l from head to tail. */
  function Chain(l: int, s: seq<Pid>): (c: seq<int>)
    ensures |c| == |s| + 2 && c[0] == Head(l) && c[|s| + 1] == Tail(l)
    ensures forall i :: 0 <= i < |s| ==> c[i + 1] == s[i]
  {
    [Head(l)] + s + [Tail(l)]
  }

  ghost predicate Linked(q: seq<QEnt>, c: seq<int>)
    requires |q| == NQENT
  {
    && (forall i :: 0 <= i < |c| ==> 0 <= c[i] < NQENT)
    && forall i, j :: 0 <= i < j < |c| && j == i + 1 ==> q[c[i]].next == c[j] && q[c[j]].prev == c[i]
  }

  /** No process is on two lists, or twice on one. */
  ghost predicate Apart(lists: seq<seq<Pid>>)
    requires |lists| == NLISTS
  {
    && (forall l :: 0 <= l < NLISTS ==> NoDup(lists[l]))
    && forall l, m, p: Pid :: 0 <= l < NLISTS && 0 <= m < NLISTS && p in lists[l] && p in lists[m] ==> l == m
  }

  ghost predicate Table(q: seq<QEnt>, lists: seq<seq<Pid>>) {
    && |q| == NQENT && |lists| == NLISTS && Apart(lists)
    && (forall l :: 0 <= l < NLISTS ==> Linked(q, Chain(l, lists[l])))
    && (forall l :: 0 <= l < NLISTS ==> q[Head(l)].key == MININT && q[Tail(l)].key == MAXINT)
  }

  ghost predicate OnNoList(lists: seq<seq<Pid>>, p: Pid)
    requires |lists| == NLISTS
  {
    forall l :: 0 <= l < NLISTS ==> p !in lists[l]
  }

  ghost predicate EmptyList(q: seq<QEnt>, l: int)
    requires |q| == NQENT && 0 <= l < NLISTS
  {
    && q[Head(l)].key == MININT && q[Head(l)].next == Tail(l)
    && q[Tail(l)].key == MAXINT && q[Tail(l)].prev == Head(l)
  }

  lemma EmptyTable(q: seq<QEnt>, lists: seq<seq<Pid>>)
    requires |q| == NQENT && |lists| == NLISTS
    requires forall l :: 0 <= l < NLISTS ==> lists[l] == [] && EmptyList(q, l)
    ensures Table(q, lists)
  {
    forall l | 0 <= l < NLISTS ensures Linked(q, Chain(l, lists[l])) && q[Head(l)].key == MININT && q[Tail(l)].key == MAXINT {
      assert EmptyList(q, l);
    }
  }

  /** Linking p in between two neighbours. */
  function Splice(q: seq<QEnt>, p: Pid, prev: int, next: int): (r: seq<QEnt>)
    requires |q| == NQENT && 0 <= prev < NQENT && 0 <= next < NQENT && prev != p && next != p && prev != next
    ensures |r| == NQENT
  {
    var q1 := q[p := QEnt(q[p].key, next, prev)];
    var q2 := q1[prev := q1[prev].(next := p)];
    q2[next := q2[next].(prev := p)]
  }

  /** Linking p's neighbours to each other. */
  function Unsplice(q: seq<QEnt>, p: Pid): (r: seq<QEnt>)
    requires |q| == NQENT && 0 <= q[p].prev < NQENT && 0 <= q[p].next < NQENT
    ensures |r| == NQENT
  {
    var q1 := q[q[p].prev := q[q[p].prev].(next := q[p].next)];
    q1[q[p].next := q1[q[p].next].(prev := q[p].prev)]
  }

  /** Chains of different lists share no entries, and no chain visits an entry twice. */
  lemma ChainsApart(lists: seq<seq<Pid>>, l: int, i: int, m: int, j: int)
    requires |lists| == NLISTS && Apart(lists) && 0 <= l < NLISTS && 0 <= m < NLISTS
    requires 0 <= i < |lists[l]| + 2 && 0 <= j < |lists[m]| + 2
    requires Chain(l, lists[l])[i] == Chain(m, lists[m])[j]
    ensures l == m && i == j
  {
    var a, b := Chain(l, lists[l]), Chain(m, lists[m]);
    assert 0 < i <= |lists[l]| ==> a[i] == lists[l][i - 1];
    assert 0 < j <= |lists[m]| ==> b[j] == lists[m][j - 1];
    assert 0 < i <= |lists[l]| && 0 < j <= |lists[m]| ==> lists[l][i - 1] in lists[m];
  }

  /** An entry that is on no chain, or at one place of one chain, may be changed without harm elsewhere. */
  lemma LinkedElsewhere(q: seq<QEnt>, q': seq<QEnt>, c: seq<int>)
    requires |q| == |q'| == NQENT && Linked(q, c)
    requires forall i :: 0 <= i < |c| ==> q'[c[i]].next == q[c[i]].next && q'[c[i]].prev == q[c[i]].prev
    ensures Linked(q', c)
  {
  }

  lemma ChainDistinct(l: int, s: seq<Pid>, i: int, j: int)
    requires 0 <= l < NLISTS && NoDup(s) && 0 <= i < |s| + 2 && 0 <= j < |s| + 2
    requires Chain(l, s)[i] == Chain(l, s)[j]
    ensures i == j
  {
    var c := Chain(l, s);
    if 0 < i <= |s| {
      assert c[i] == s[i - 1];
    }
    if 0 < j <= |s| {
      assert c[j] == s[j - 1];
    }
  }

  lemma ChainInsert(l: int, s: seq<Pid>, i: nat, p: Pid, j: int)
    requires i <= |s| && 0 <= j < |s| + 3
    ensures Chain(l, InsertAt(s, i, p))[j] ==
            if j <= i then Chain(l, s)[j] else if j == i + 1 then p else Chain(l, s)[j - 1]
  {
    var r := InsertAt(s, i, p);
    if 0 < j <= |r| {
      assert Chain(l, r)[j] == r[j - 1];
      if j <= i {
        assert Chain(l, s)[j] == s[j - 1];
      } else if j > i + 1 {
        assert Chain(l, s)[j - 1] == s[j - 2];
      }
    }
  }

  lemma NotInChain(l: int, s: seq<Pid>, p: Pid, j: int)
    requires 0 <= l < NLISTS && p !in s && 0 <= j < |s| + 2
    ensures Chain(l, s)[j] != p
  {
    if 0 < j <= |s| {
      assert Chain(l, s)[j] == s[j - 1];
    }
  }

  lemma SplicedChain(q: seq<QEnt>, l: int, s: seq<Pid>, i: nat, p: Pid)
    requires |q| == NQENT && 0 <= l < NLISTS && i <= |s| && p !in s && NoDup(s) && Linked(q, Chain(l, s))
    ensures var c := Chain(l, s);
            && c[i] != p && c[i + 1] != p && c[i] != c[i + 1]
            && Linked(Splice(q, p, c[i], c[i + 1]), Chain(l, InsertAt(s, i, p)))
  {
    hide Chain;
    hide InsertAt;
    var c := Chain(l, s);
    NotInChain(l, s, p, i);
    NotInChain(l, s, p, i + 1);
    if c[i] == c[i + 1] {
      ChainDistinct(l, s, i, i + 1);
    }
    var d := Chain(l, InsertAt(s, i, p));
    InsertedLength(s, i, p);
    forall j | 0 <= j < |d|
      ensures 0 <= d[j] < NQENT
    {
      ChainInsert(l, s, i, p, j);
    }
    forall j, k | 0 <= j < k < |d| && k == j + 1
      ensures var r := Splice(q, p, c[i], c[i + 1]); r[d[j]].next == d[k] && r[d[k]].prev == d[j]
    {
      ChainInsert(l, s, i, p, j);
      ChainInsert(l, s, i, p, k);
      SplicedLink(q, l, s, i, p, if j <= i then j else j - 1);
    }
  }

  lemma InsertedLength(s: seq<Pid>, i: nat, p: Pid)
    requires i <= |s|
    ensures |InsertAt(s, i, p)| == |s| + 1
  {
  }

  /** The links between places n and n + 1 of the chain after the splice. */
  lemma SplicedLink(q: seq<QEnt>, l: int, s: seq<Pid>, i: nat, p: Pid, n: nat)
    requires |q| == NQENT && 0 <= l < NLISTS && i <= |s| && p !in s && NoDup(s) && Linked(q, Chain(l, s))
    requires n <= |s|
    requires var c := Chain(l, s); c[i] != p && c[i + 1] != p && c[i] != c[i + 1]
    ensures var c := Chain(l, s);
            var r := Splice(q, p, c[i], c[i + 1]);
            && (n != i ==> r[c[n]].next == c[n + 1] && r[c[n + 1]].prev == c[n])
            && r[c[i]].next == p && r[p].prev == c[i] && r[p].next == c[i + 1] && r[c[i + 1]].prev == p
  {
    hide Chain;
    var c := Chain(l, s);
    NotInChain(l, s, p, n);
    NotInChain(l, s, p, n + 1);
    if n != i {
      if c[n] == c[i] {
        ChainDistinct(l, s, n, i);
      }
      if c[n + 1] == c[i + 1] {
        ChainDistinct(l, s, n + 1, i + 1);
      }
    }
  }

  lemma ApartInsert(lists: seq<seq<Pid>>, l: int, i: nat, p: Pid)
    requires |lists| == NLISTS && Apart(lists) && OnNoList(lists, p) && 0 <= l < NLISTS && i <= |lists[l]|
    ensures Apart(lists[l := InsertAt(lists[l], i, p)])
  {
    InsertAtMembers(lists[l], i, p);
  }

  /** Splicing a free process into one list leaves the whole table well formed. */
  lemma SpliceTable(q: seq<QEnt>, lists: seq<seq<Pid>>, l: int, i: nat, p: Pid)
    requires Table(q, lists) && OnNoList(lists, p) && 0 <= l < NLISTS && i <= |lists[l]|
    ensures var c := Chain(l, lists[l]);
            && 0 <= c[i] < NQENT && 0 <= c[i + 1] < NQENT && c[i] != p && c[i + 1] != p && c[i] != c[i + 1]
            && Table(Splice(q, p, c[i], c[i + 1]), lists[l := InsertAt(lists[l], i, p)])
  {
    hide InsertAt;
    var c := Chain(l, lists[l]);
    SplicedChain(q, l, lists[l], i, p);
    ApartInsert(lists, l, i, p);
    var q' := Splice(q, p, c[i], c[i + 1]);
    forall m | 0 <= m < NLISTS && m != l
      ensures Linked(q', Chain(m, lists[m]))
    {
      var d := Chain(m, lists[m]);
      forall j | 0 <= j < |d|
        ensures q'[d[j]] == q[d[j]]
      {
        if d[j] == c[i] {
          ChainsApart(lists, l, i, m, j);
        } else if d[j] == c[i + 1] {
          ChainsApart(lists, l, i + 1, m, j);
        } else if 0 < j <= |lists[m]| {
          assert d[j] == lists[m][j - 1];
        }
      }
      LinkedElsewhere(q, q', d);
    }
  }

  function RemoveAt(s: seq<Pid>, i: nat): (r: seq<Pid>)
    requires i < |s|
    ensures |r| == |s| - 1
  {
    s[..i] + s[i + 1..]
  }

  lemma {:induction false} RemoveAtIsWithout(s: seq<Pid>, i: nat)
    requires NoDup(s) && i < |s|
    ensures RemoveAt(s, i) == Without(s, s[i])
  {
    if i > 0 {
      NoDupTail(s);
      assert s[1..][i - 1] == s[i];
      RemoveAtIsWithout(s[1..], i - 1);
      assert RemoveAt(s, i) == [s[0]] + RemoveAt(s[1..], i - 1);
    }
  }

  lemma ChainRemove(l: int, s: seq<Pid>, i: nat, j: int)
    requires i < |s| && 0 <= j < |s| + 1
    ensures Chain(l, RemoveAt(s, i))[j] == if j <= i then Chain(l, s)[j] else Chain(l, s)[j + 1]
  {
    var r := RemoveAt(s, i);
    if 0 < j <= |r| {
      assert Chain(l, r)[j] == r[j - 1];
      if j <= i {
        assert Chain(l, s)[j] == s[j - 1];
      } else {
        assert Chain(l, s)[j + 1] == s[j];
      }
    }
  }

  lemma Neighbours(q: seq<QEnt>, l: int, s: seq<Pid>, i: nat)
    requires |q| == NQENT && i < |s| && Linked(q, Chain(l, s))
    ensures var c := Chain(l, s);
            && q[s[i]].prev == c[i] && q[s[i]].next == c[i + 2]
            && 0 <= c[i] < NQENT && 0 <= c[i + 2] < NQENT
  {
    var c := Chain(l, s);
    assert c[i + 1] == s[i];
    assert q[c[i]].next == c[i + 1] && q[c[i + 1]].prev == c[i];
    assert q[c[i + 1]].next == c[i + 2];
  }

  /** The links between places n and n + 1 of the chain after the removal. */
  lemma UnsplicedLink(q: seq<QEnt>, l: int, s: seq<Pid>, i: nat, n: nat)
    requires |q| == NQENT && 0 <= l < NLISTS && i < |s| && NoDup(s) && Linked(q, Chain(l, s))
    requires n <= |s|
    ensures var c := Chain(l, s);
            && 0 <= q[s[i]].prev < NQENT && 0 <= q[s[i]].next < NQENT
            && var r := Unsplice(q, s[i]);
            && (n < i || n > i + 1 ==> r[c[n]].next == c[n + 1] && r[c[n + 1]].prev == c[n])
            && r[c[i]].next == c[i + 2] && r[c[i + 2]].prev == c[i]
  {
    hide Chain;
    var c := Chain(l, s);
    Neighbours(q, l, s, i);
    if n < i || n > i + 1 {
      if c[n] == c[i] {
        ChainDistinct(l, s, n, i);
      }
      if c[n + 1] == c[i + 2] {
        ChainDistinct(l, s, n + 1, i + 2);
      }
    }
    if c[i] == c[i + 2] {
      ChainDistinct(l, s, i, i + 2);
    }
  }

  lemma UnsplicedChain(q: seq<QEnt>, l: int, s: seq<Pid>, i: nat)
    requires |q| == NQENT && 0 <= l < NLISTS && i < |s| && NoDup(s) && Linked(q, Chain(l, s))
    ensures 0 <= q[s[i]].prev < NQENT && 0 <= q[s[i]].next < NQENT
    ensures Linked(Unsplice(q, s[i]), Chain(l, RemoveAt(s, i)))
  {
    hide Chain;
    hide RemoveAt;
    Neighbours(q, l, s, i);
    var d := Chain(l, RemoveAt(s, i));
    forall j | 0 <= j < |d|
      ensures 0 <= d[j] < NQENT
    {
      ChainRemove(l, s, i, j);
    }
    forall j, k | 0 <= j < k < |d| && k == j + 1
      ensures var r := Unsplice(q, s[i]); r[d[j]].next == d[k] && r[d[k]].prev == d[j]
    {
      ChainRemove(l, s, i, j);
      ChainRemove(l, s, i, k);
      UnsplicedLink(q, l, s, i, if j <= i then j else j + 1);
    }
  }

  lemma ApartRemove(lists: seq<seq<Pid>>, l: int, i: nat)
    requires |lists| == NLISTS && Apart(lists) && 0 <= l < NLISTS && i < |lists[l]|
    ensures Apart(lists[l := RemoveAt(lists[l], i)]) && OnNoList(lists[l := RemoveAt(lists[l], i)], lists[l][i])
  {
    RemoveAtIsWithout(lists[l], i);
    WithoutMembers(lists[l], lists[l][i]);
    assert lists[l][i] in lists[l];
  }

  /** Unlinking the i-th process of a list leaves the whole table well formed, and the process on no list. */
  lemma UnspliceTable(q: seq<QEnt>, lists: seq<seq<Pid>>, l: int, i: nat)
    requires Table(q, lists) && 0 <= l < NLISTS && i < |lists[l]|
    ensures var p := lists[l][i];
            && 0 <= q[p].prev < NQENT && 0 <= q[p].next < NQENT
            && Table(Unsplice(q, p), lists[l := RemoveAt(lists[l], i)])
            && OnNoList(lists[l := RemoveAt(lists[l], i)], p)
  {
    hide RemoveAt;
    var p := lists[l][i];
    var c := Chain(l, lists[l]);
    UnsplicedChain(q, l, lists[l], i);
    Neighbours(q, l, lists[l], i);
    ApartRemove(lists, l, i);
    var q' := Unsplice(q, p);
    forall m | 0 <= m < NLISTS && m != l
      ensures Linked(q', Chain(m, lists[m]))
    {
      var d := Chain(m, lists[m]);
      forall j | 0 <= j < |d|
        ensures q'[d[j]] == q[d[j]]
      {
        if d[j] == c[i] {
          ChainsApart(lists, l, i, m, j);
        } else if d[j] == c[i + 2] {
          ChainsApart(lists, l, i + 2, m, j);
        }
      }
      LinkedElsewhere(q, q', d);
    }
  }

  /** Keys of processes may change freely. */
  lemma KeyTable(q: seq<QEnt>, lists: seq<seq<Pid>>, p: Pid, x: int)
    requires Table(q, lists)
    ensures Table(q[p := q[p].(key := x)], lists)
  {
    var q' := q[p := q[p].(key := x)];
    forall l | 0 <= l < NLISTS
      ensures Linked(q', Chain(l, lists[l]))
    {
      LinkedElsewhere(q, q', Chain(l, lists[l]));
    }
  }

  /** Walking a list: the first entry, the one after, and the end. */
  lemma Walk(q: seq<QEnt>, lists: seq<seq<Pid>>, l: int, i: nat)
    requires Table(q, lists) && 0 <= l < NLISTS && i <= |lists[l]|
    ensures var c := Chain(l, lists[l]);
            && 0 <= c[i] < NQENT && q[c[i]].next == c[i + 1] && q[c[i + 1]].prev == c[i]
            && (i < |lists[l]| ==> c[i + 1] == lists[l][i])
            && (i == |lists[l]| ==> c[i + 1] == Tail(l) >= NPROC && q[Tail(l)].key == MAXINT)
            && (i == 0 ==> c[i] == Head(l) >= NPROC)
            && 0 <= c[i + 1] < NQENT
  {
  }

  /** The entry a walk has reached after i processes. */
  lemma Reached(q: seq<QEnt>, lists: seq<seq<Pid>>, l: int, i: nat)
    requires Table(q, lists) && 0 <= l < NLISTS && i <= |lists[l]|
    ensures var c, s := Chain(l, lists[l]), lists[l];
            && 0 <= c[i + 1] < NQENT
            && (if i < |s| then c[i + 1] == s[i] && q[s[i]].next == c[i + 2] else q[c[i + 1]].key == MAXINT)
  {
    var c := Chain(l, lists[l]);
    if i < |lists[l]| {
      assert q[c[i + 1]].next == c[i + 2];
    }
  }

  /** How the search of insert goes on from the i-th process. */
  lemma PlaceStep(s: seq<Pid>, key: seq<int>, x: int, i: nat)
    requires |key| == NPROC && i <= |s|
    ensures Place(s[i..], key, x) == if i == |s| || key[s[i]] >= x then 0 else 1 + Place(s[i + 1..], key, x)
  {
    if i < |s| {
      assert s[i..][1..] == s[i + 1..];
    }
  }

  lemma DeltaPlaceStep(s: seq<Pid>, key: seq<int>, x: int, i: nat)
    requires |key| == NPROC && i <= |s|
    ensures DeltaPlace(s[i..], key, x) ==
            if i == |s| || key[s[i]] >= x then (0, x)
            else var r := DeltaPlace(s[i + 1..], key, x - key[s[i]]); (r.0 + 1, r.1)
  {
    if i < |s| {
      assert s[i..][1..] == s[i + 1..];
    }
  }

  lemma SpliceKeys(q: seq<QEnt>, p: Pid, prev: int, next: int)
    requires |q| == NQENT && 0 <= prev < NQENT && 0 <= next < NQENT && prev != p && next != p && prev != next
    ensures KeysOf(Splice(q, p, prev, next)) == KeysOf(q)
  {
  }

  lemma UnspliceKeys(q: seq<QEnt>, p: Pid)
    requires |q| == NQENT && 0 <= q[p].prev < NQENT && 0 <= q[p].next < NQENT
    ensures KeysOf(Unsplice(q, p)) == KeysOf(q)
  {
  }

  lemma KeyKeys(q: seq<QEnt>, p: Pid, x: int)
    requires |q| == NQENT
    ensures KeysOf(q[p := q[p].(key := x)]) == KeysOf(q)[p := x]
  {
  }

  function KeysOf(q: seq<QEnt>): (key: seq<int>)
    requires |q| == NQENT
    ensures |key| == NPROC && forall p: Pid :: key[p] == q[p].key
  {
    seq(NPROC, p requires 0 <= p < NPROC => q[p].key)
  }
}
