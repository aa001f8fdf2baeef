/** The generic priority queue (xinu/sys/common/gpq.c): entries are kept in order of falling key, and
    entries with equal keys in the order of their arrival. */
module Gpq {

  datatype Entry<T> = Entry(key: int, elt: T)

  /** Where the search from the tail stops: a new entry goes behind the last one with a key at least as high. */
  function Enq<T>(q: seq<Entry<T>>, e: Entry<T>): (r: seq<Entry<T>>)
    ensures |r| == |q| + 1
  {
    if q == [] || q[|q| - 1].key >= e.key then q + [e]
    else Enq(q[..|q| - 1], e) + [q[|q| - 1]]
  }

  predicate Sorted<T>(q: seq<Entry<T>>) {
    forall i, j :: 0 <= i < j < |q| ==> q[i].key >= q[j].key
  }

  /** The entries of one key, in order. */
  function WithKey<T>(q: seq<Entry<T>>, key: int): seq<Entry<T>> {
    if q == [] then []
    else WithKey(q[..|q| - 1], key) + if q[|q| - 1].key == key then [q[|q| - 1]] else []
  }

  /** An insertion at a place p that separates the higher or equal keys from the lower ones. */
  ghost predicate InsertedAt<T>(q: seq<Entry<T>>, e: Entry<T>, r: seq<Entry<T>>, p: nat) {
    && p <= |q|
    && r == q[..p] + [e] + q[p..]
    && (forall i :: 0 <= i < p ==> q[i].key >= e.key)
    && (forall i :: p <= i < |q| ==> q[i].key < e.key)
  }

  lemma {:induction false} EnqPlace<T>(q: seq<Entry<T>>, e: Entry<T>) returns (p: nat)
    requires Sorted(q)
    ensures InsertedAt(q, e, Enq(q, e), p)
  {
    if q == [] || q[|q| - 1].key >= e.key {
      p := |q|;
      assert q[..p] + [e] + q[p..] == q + [e];
    } else {
      var last := |q| - 1;
      p := EnqPlace(q[..last], e);
      calc {
        Enq(q, e);
        q[..last][..p] + [e] + q[..last][p..] + [q[last]];
        { assert q[..last][..p] == q[..p]; assert q[..last][p..] + [q[last]] == q[p..]; }
        q[..p] + [e] + q[p..];
      }
      forall i | p <= i < |q|
        ensures q[i].key < e.key
      {
        if i < last {
          assert q[..last][i] == q[i];
        }
      }
    }
  }

  /** Where the tail search stops decides the result, whether or not the queue is in order. */
  lemma {:induction false} EnqAt<T>(q: seq<Entry<T>>, e: Entry<T>, p: nat)
    requires p <= |q| && (p == 0 || q[p - 1].key >= e.key)
    requires forall i :: p <= i < |q| ==> q[i].key < e.key
    ensures Enq(q, e) == q[..p] + [e] + q[p..]
  {
    if p == |q| {
      assert q[..p] == q && q[p..] == [];
    } else {
      var last := |q| - 1;
      EnqAt(q[..last], e, p);
      assert q[..last][..p] == q[..p];
      assert q[..last][p..] + [q[last]] == q[p..];
    }
  }

  function Zip<T>(keys: seq<int>, elts: seq<T>): (q: seq<Entry<T>>)
    requires |keys| == |elts|
    ensures |q| == |keys| && forall i :: 0 <= i < |q| ==> q[i] == Entry(keys[i], elts[i])
  {
    seq(|keys|, i requires 0 <= i < |keys| => Entry(keys[i], elts[i]))
  }

  lemma ShiftedBy1<T>(q: seq<T>, r: seq<T>, e: T, p: nat)
    requires p <= |q| && |r| == |q| + 1
    requires forall m :: 0 <= m < p ==> r[m] == q[m]
    requires r[p] == e
    requires forall m :: p < m < |r| ==> r[m] == q[m - 1]
    ensures r == q[..p] + [e] + q[p..]
  {
  }

  lemma InsertedSorted<T>(q: seq<Entry<T>>, e: Entry<T>, r: seq<Entry<T>>, p: nat)
    requires Sorted(q) && InsertedAt(q, e, r, p)
    ensures Sorted(r) && |r| == |q| + 1
  {
    forall i | 0 <= i < |r|
      ensures r[i] == if i < p then q[i] else if i == p then e else q[i - 1]
    {
    }
  }

  lemma {:induction false} EnqKeepsEntries<T>(q: seq<Entry<T>>, e: Entry<T>)
    ensures multiset(Enq(q, e)) == multiset(q) + multiset{e}
    ensures forall x :: x in Enq(q, e) <==> x in q || x == e
  {
    if q != [] && q[|q| - 1].key < e.key {
      EnqKeepsEntries(q[..|q| - 1], e);
    }
    if q != [] {
      assert q == q[..|q| - 1] + [q[|q| - 1]];
    }
    assert forall x :: x in Enq(q, e) <==> x in multiset(Enq(q, e));
  }

  lemma EnqSorted<T>(q: seq<Entry<T>>, e: Entry<T>)
    requires Sorted(q)
    ensures Sorted(Enq(q, e))
  {
    var p := EnqPlace(q, e);
    InsertedSorted(q, e, Enq(q, e), p);
  }

  lemma SortedTail<T>(q: seq<Entry<T>>)
    requires Sorted(q) && q != []
    ensures Sorted(q[1..])
    ensures forall e :: e in q[1..] ==> e in q && e.key <= q[0].key
  {
  }

  /** Stability: each key's entries form a queue of their own. */
  lemma {:induction false} EnqIsStable<T>(q: seq<Entry<T>>, e: Entry<T>, key: int)
    ensures WithKey(Enq(q, e), key) == WithKey(q, key) + if e.key == key then [e] else []
  {
    if q == [] || q[|q| - 1].key >= e.key {
      assert (q + [e])[..|q|] == q;
    } else {
      var front, last := q[..|q| - 1], q[|q| - 1];
      EnqIsStable(front, e, key);
      var r := Enq(front, e);
      assert (r + [last])[..|r|] == r;
    }
  }

  /** The queue as a function of what was put in, in order of arrival. */
  function Arrived<T>(a: seq<Entry<T>>): seq<Entry<T>> {
    if a == [] then [] else Enq(Arrived(a[..|a| - 1]), a[|a| - 1])
  }

  /** The place of the earliest arrival among those with the highest key. */
  ghost predicate FirstOfHighest<T>(a: seq<Entry<T>>, i: nat) {
    && i < |a|
    && (forall j :: 0 <= j < i ==> a[j].key < a[i].key)
    && (forall j :: i < j < |a| ==> a[j].key <= a[i].key)
  }

  lemma {:induction false} ArrivedSorted<T>(a: seq<Entry<T>>)
    ensures Sorted(Arrived(a)) && |Arrived(a)| == |a|
  {
    if a != [] {
      var front, e := a[..|a| - 1], a[|a| - 1];
      ArrivedSorted(front);
      var p := EnqPlace(Arrived(front), e);
      InsertedSorted(Arrived(front), e, Arrived(a), p);
    }
  }

  lemma {:induction false} ArrivedKeepsEntries<T>(a: seq<Entry<T>>)
    ensures multiset(Arrived(a)) == multiset(a)
  {
    if a != [] {
      ArrivedKeepsEntries(a[..|a| - 1]);
      EnqKeepsEntries(Arrived(a[..|a| - 1]), a[|a| - 1]);
      assert a == a[..|a| - 1] + [a[|a| - 1]];
    }
  }

  lemma {:induction false} EnqBehindHead<T>(h: Entry<T>, t: seq<Entry<T>>, e: Entry<T>)
    requires e.key <= h.key
    ensures Enq([h] + t, e) == [h] + Enq(t, e)
  {
    var q := [h] + t;
    if t == [] {
      assert q == [h];
    } else if t[|t| - 1].key < e.key {
      assert q[..|q| - 1] == [h] + t[..|t| - 1];
      EnqBehindHead(h, t[..|t| - 1], e);
      assert Enq(q, e) == [h] + Enq(t[..|t| - 1], e) + [t[|t| - 1]];
    } else {
      assert q + [e] == [h] + (t + [e]);
    }
  }

  lemma HigherThanAll<T>(a: seq<Entry<T>>, q: seq<Entry<T>>, e: Entry<T>)
    requires multiset(q) == multiset(a) && Sorted(q)
    requires forall j :: 0 <= j < |a| ==> a[j].key < e.key
    ensures Enq(q, e) == [e] + q
  {
    forall x | x in q
      ensures x.key < e.key
    {
      assert x in multiset(q);
      assert x in a;
    }
    EnqAt(q, e, 0);
  }

  lemma WithoutLast<T>(a: seq<T>, i: nat)
    requires i < |a| - 1
    ensures var rest := a[..i] + a[i + 1..];
            var front := a[..|a| - 1];
            rest == front[..i] + front[i + 1..] + [a[|a| - 1]]
  {
  }

  /** Removing the head takes the earliest arrival of the highest key, and what is left is the queue
      that the other arrivals alone would have built. */
  lemma {:induction false} HeadIsFirstOfHighest<T>(a: seq<Entry<T>>, i: nat)
    requires FirstOfHighest(a, i)
    ensures |Arrived(a)| == |a| && Arrived(a)[0] == a[i]
    ensures Arrived(a)[1..] == Arrived(a[..i] + a[i + 1..])
  {
    var front, e := a[..|a| - 1], a[|a| - 1];
    var q := Arrived(front);
    ArrivedSorted(front);
    if i == |a| - 1 {
      ArrivedKeepsEntries(front);
      assert a[..i] + a[i + 1..] == front;
      HigherThanAll(front, q, e);
    } else {
      HeadIsFirstOfHighest(front, i);
      var h, t := q[0], q[1..];
      assert q == [h] + t;
      EnqBehindHead(h, t, e);
      assert ([h] + Enq(t, e))[1..] == Enq(t, e);
      WithoutLast(a, i);
      var rest := front[..i] + front[i + 1..];
      assert (rest + [e])[..|rest|] == rest;
    }
  }

  /** One valid entry of the queue table, with its two parallel arrays. */
  class Queue<T(0)> {
    const max: nat           // q_max
    var count: nat           // q_count
    var seen: int            // q_seen
    const keys: array<int>   // q_key
    const elts: array<T>     // q_elt

    ghost predicate Valid()
      reads this
    {
      keys as object != elts && keys.Length == max && elts.Length == max && count <= max && -1 <= seen < max
    }

    ghost function Contents(): seq<Entry<T>>
      reads this, keys, elts
      requires Valid()
    {
      Zip(keys[..count], elts[..count])
    }

    constructor (size: nat)
      ensures Valid() && fresh(keys) && fresh(elts)
      ensures max == size && Contents() == [] && seen == -1
    {
      max, count, seen := size, 0, -1;
      keys := new int[size];
      elts := new T[size];
    }

    /** Returns the number of places left, or -1 when the queue is full. */
    method Enqueue(elt: T, key: int) returns (left: int)
      requires Valid()
      modifies this`count, keys, elts
      ensures Valid()
      ensures old(count) >= max ==> left == -1 && Contents() == old(Contents())
      ensures old(count) < max ==> Contents() == Enq(old(Contents()), Entry(key, elt)) && left == max - count
    {
      if count >= max {
        return -1;
      }
      var p := Place(key);
      EnqAt(Contents(), Entry(key, elt), p);
      InsertAt(p, Entry(key, elt));
      left := max - count;
    }

    /** Passes over the tail's lower keys: the new entry goes behind the last key that is not lower. */
    method Place(key: int) returns (p: nat)
      requires Valid()
      ensures p <= count && (p == 0 || keys[p - 1] >= key)
      ensures forall m :: p <= m < count ==> keys[m] < key
    {
      var i := count - 1;
      while i >= 0 && key > keys[i]
        invariant -1 <= i < count
        invariant forall m :: i < m < count ==> keys[m] < key
      {
        i := i - 1;
      }
      p := i + 1;
    }

    method InsertAt(p: nat, e: Entry<T>)
      requires Valid() && p <= count < max
      modifies this`count, keys, elts
      ensures Valid() && count == old(count) + 1
      ensures Contents() == old(Contents())[..p] + [e] + old(Contents())[p..]
    {
      ghost var before := Contents();
      Shift(p);
      keys[p] := e.key;
      elts[p] := e.elt;
      count := count + 1;
      ShiftedBy1(before, Contents(), e, p);
    }

    /** Moves the entries from place p on one place back, to make room there. */
    method Shift(p: nat)
      requires Valid() && p <= count < max
      modifies keys, elts
      ensures forall m :: 0 <= m < p ==> keys[m] == old(keys[m]) && elts[m] == old(elts[m])
      ensures forall m :: p < m <= count ==> keys[m] == old(keys[m - 1]) && elts[m] == old(elts[m - 1])
    {
      var j := count - 1;
      while j >= p
        invariant p - 1 <= j < count
        invariant forall m :: 0 <= m <= j ==> keys[m] == old(keys[m]) && elts[m] == old(elts[m])
        invariant forall m :: j + 1 < m <= count ==> keys[m] == old(keys[m - 1]) && elts[m] == old(elts[m - 1])
      {
        keys[j + 1] := keys[j];
        elts[j + 1] := elts[j];
        j := j - 1;
      }
    }

    /** Removes the head; reports false when the queue is empty. */
    method Dequeue() returns (ok: bool, elt: T)
      requires Valid()
      modifies this`count, keys, elts
      ensures Valid()
      ensures ok == (old(Contents()) != [])
      ensures ok ==> elt == old(Contents())[0].elt && Contents() == old(Contents())[1..]
      ensures !ok ==> Contents() == []
    {
      if count <= 0 {
        ok, elt := false, *;
        return;
      }
      ghost var before := Contents();
      ok, elt := true, elts[0];
      var i := 1;
      while i < count
        invariant 1 <= i <= count
        invariant count == |before|
        invariant forall m :: 0 <= m < i - 1 ==> Entry(keys[m], elts[m]) == before[m + 1]
        invariant forall m :: i <= m < count ==> Entry(keys[m], elts[m]) == before[m]
      {
        elts[i - 1] := elts[i];
        keys[i - 1] := keys[i];
        i := i + 1;
      }
      count := count - 1;
      assert Contents() == before[1..];
    }

    /** Peeks at the next entry of a walk; the end of the walk resets it. */
    method SeeNext() returns (ok: bool, elt: T)
      requires Valid()
      modifies this`seen
      ensures Valid() && Contents() == old(Contents())
      ensures ok == (count > 0 && old(seen) + 1 < count)
      ensures ok ==> seen == old(seen) + 1 && elt == Contents()[seen].elt
      ensures !ok && count > 0 ==> seen == -1
      ensures !ok && count == 0 ==> seen == old(seen)
    {
      elt := *;
      if count == 0 {
        return false, elt;
      }
      seen := seen + 1;
      if seen >= count {
        seen := -1;
        return false, elt;
      }
      return true, elts[seen];
    }
  }
}
