/** Facts about the lists of the q table: members, key order, and delta keys. */
module KernelLists {
  import opened KernelSpec

  predicate NoDup(s: seq<Pid>) {
    forall i, j :: 0 <= i < j < |s| ==> s[i] != s[j]
  }

  ghost predicate Ascending(s: seq<Pid>, key: seq<int>)
    requires |key| == NPROC
  {
    forall i, j :: 0 <= i < j < |s| ==> key[s[i]] <= key[s[j]]
  }

  ghost predicate KeysNat(s: seq<Pid>, key: seq<int>)
    requires |key| == NPROC
  {
    forall p: Pid :: p in s ==> key[p] >= 0
  }

  lemma {:induction false} WithoutMembers(s: seq<Pid>, p: Pid)
    requires NoDup(s)
    ensures NoDup(Without(s, p))
    ensures forall q: Pid :: q in Without(s, p) <==> q in s && q != p
    ensures |Without(s, p)| == if p in s then |s| - 1 else |s|
  {
    if s != [] {
      WithoutMembers(s[1..], p);
      assert s == [s[0]] + s[1..];
      assert s[0] !in s[1..];
      if s[0] != p {
        ConsNoDup(s[0], Without(s[1..], p));
      }
    }
  }

  lemma ConsNoDup(p: Pid, s: seq<Pid>)
    requires NoDup(s) && p !in s
    ensures NoDup([p] + s)
  {
  }

  lemma WithoutFirst(s: seq<Pid>)
    requires NoDup(s) && s != []
    ensures s[1..] == Without(s, s[0])
  {
  }

  lemma InsertAtMembers(s: seq<Pid>, i: nat, p: Pid)
    requires NoDup(s) && p !in s && i <= |s|
    ensures NoDup(InsertAt(s, i, p)) && |InsertAt(s, i, p)| == |s| + 1
    ensures forall q: Pid :: q in InsertAt(s, i, p) <==> q in s || q == p
  {
    var r := InsertAt(s, i, p);
    assert forall j :: 0 <= j < |r| ==> r[j] == if j < i then s[j] else if j == i then p else s[j - 1];
    forall q: Pid | q in s
      ensures q in r
    {
      var j :| 0 <= j < |s| && s[j] == q;
      assert r[if j < i then j else j + 1] == q;
    }
    assert r[i] == p;
  }

  lemma {:induction false} WithoutAscending(s: seq<Pid>, p: Pid, key: seq<int>)
    requires |key| == NPROC && Ascending(s, key)
    ensures Ascending(Without(s, p), key)
    ensures Without(s, p) != [] && s != [] ==> key[Without(s, p)[0]] >= key[s[0]]
  {
    if s != [] && s[0] != p {
      WithoutAscending(s[1..], p, key);
      var r := Without(s[1..], p);
      assert Without(s, p) == [s[0]] + r;
      forall i, j | 0 <= i < j < |r| + 1
        ensures key[([s[0]] + r)[i]] <= key[([s[0]] + r)[j]]
      {
        if i == 0 {
          assert key[r[0]] <= key[r[j - 1]];
        }
      }
    }
  }

  /** insert stops before the first key that is at least as high. */
  lemma {:induction false} PlaceSeparates(s: seq<Pid>, key: seq<int>, x: int)
    requires |key| == NPROC && Ascending(s, key)
    ensures var i := Place(s, key, x);
            && (forall j :: 0 <= j < i ==> key[s[j]] < x)
            && (forall j :: i <= j < |s| ==> key[s[j]] >= x)
  {
    if s != [] && key[s[0]] < x {
      PlaceSeparates(s[1..], key, x);
      assert forall j :: 1 <= j < |s| ==> s[j] == s[1..][j - 1];
    }
  }

  lemma InsertAscending(s: seq<Pid>, key: seq<int>, p: Pid, x: int)
    requires |key| == NPROC && Ascending(s, key) && p !in s
    ensures Ascending(InsertAt(s, Place(s, key, x), p), key[p := x])
  {
    PlaceSeparates(s, key, x);
    InsertedAscending(s, key, Place(s, key, x), p, x);
  }

  lemma InsertedAscending(s: seq<Pid>, key: seq<int>, n: nat, p: Pid, x: int)
    requires |key| == NPROC && Ascending(s, key) && p !in s && n <= |s|
    requires forall j :: 0 <= j < n ==> key[s[j]] <= x
    requires forall j :: n <= j < |s| ==> key[s[j]] >= x
    ensures Ascending(InsertAt(s, n, p), key[p := x])
  {
    var r, key' := InsertAt(s, n, p), key[p := x];
    assert forall j :: 0 <= j < |r| ==> r[j] == if j < n then s[j] else if j == n then p else s[j - 1];
    assert forall j :: 0 <= j < |s| ==> key'[s[j]] == key[s[j]];
    forall i, j | 0 <= i < j < |r|
      ensures key'[r[i]] <= key'[r[j]]
    {
      if i != n && j != n {
        var i', j' := if i < n then i else i - 1, if j < n then j else j - 1;
        assert key[s[i']] <= key[s[j']];
      }
    }
  }

  lemma LastOut(s: seq<Pid>)
    requires NoDup(s) && s != []
    ensures NoDup(s[..|s| - 1])
    ensures forall q: Pid :: q in s[..|s| - 1] <==> q in s && q != s[|s| - 1]
  {
    assert s == s[..|s| - 1] + [s[|s| - 1]];
  }

  lemma AtEnd(s: seq<Pid>, p: Pid)
    ensures InsertAt(s, |s|, p) == s + [p]
  {
  }

  lemma SameKeys(s: seq<Pid>, key: seq<int>, key': seq<int>)
    requires |key| == |key'| == NPROC && Ascending(s, key)
    requires forall p: Pid :: p in s ==> key'[p] == key[p]
    ensures Ascending(s, key')
  {
    assert forall i :: 0 <= i < |s| ==> s[i] in s;
  }

  // ----- delta lists -----

  lemma {:induction false} DeltaPlaceSplits(s: seq<Pid>, key: seq<int>, x: int)
    requires |key| == NPROC && KeysNat(s, key) && x >= 0
    ensures var (i, y) := DeltaPlace(s, key, x);
            && 0 <= y <= x && (x > 0 ==> y > 0) && (i == 0 ==> y == x)
            && (i < |s| ==> key[s[i]] >= y)
  {
    if s != [] && key[s[0]] < x {
      assert forall p: Pid :: p in s[1..] ==> p in s;
      DeltaPlaceSplits(s[1..], key, x - key[s[0]]);
    }
  }

  lemma NoDupTail(s: seq<Pid>)
    requires NoDup(s) && s != []
    ensures NoDup(s[1..]) && s[0] !in s[1..]
    ensures forall p: Pid :: p in s <==> p == s[0] || p in s[1..]
  {
    assert s == [s[0]] + s[1..];
  }

  /** Ticks until p's turn: the keys up to and including its own. */
  function Remaining(s: seq<Pid>, key: seq<int>, p: Pid): int
    requires |key| == NPROC
  {
    if s == [] then 0 else if s[0] == p then key[p] else key[s[0]] + Remaining(s[1..], key, p)
  }

  lemma {:induction false} RemainingSame(s: seq<Pid>, key: seq<int>, key': seq<int>, p: Pid)
    requires |key| == |key'| == NPROC && forall q: Pid :: q in s ==> key'[q] == key[q]
    ensures Remaining(s, key', p) == Remaining(s, key, p)
  {
    if s != [] && s[0] != p {
      assert forall q: Pid :: q in s[1..] ==> q in s;
      RemainingSame(s[1..], key, key', p);
    }
  }

  /** What a delta list looks like after p has been put in with x ticks to wait. */
  ghost predicate PutIn(s: seq<Pid>, key: seq<int>, p: Pid, x: int, r: seq<Pid>, key': seq<int>)
    requires |key| == |key'| == NPROC
  {
    && r != [] && KeysNat(r, key')
    && key'[r[0]] == (if s == [] || key[s[0]] >= x then x else key[s[0]])
    && (forall q: Pid :: q !in s && q != p ==> key'[q] == key[q])
    && (forall q: Pid :: q in r <==> q in s || q == p)
    && Remaining(r, key', p) == x
    && (forall q: Pid :: q in s ==> Remaining(r, key', q) == Remaining(s, key, q))
  }

  /** insertd gives the new entry exactly its ticks and leaves every other entry its own. */
  lemma {:induction false} DeltaInserted(s: seq<Pid>, key: seq<int>, p: Pid, x: int)
    requires |key| == NPROC && NoDup(s) && p !in s && KeysNat(s, key) && x >= 0
    ensures PutIn(s, key, p, x, InsertAt(s, DeltaPlace(s, key, x).0, p), DeltaKeys(s, key, p, x))
  {
    hide PutIn;
    hide InsertAt;
    hide DeltaKeys;
    if s == [] || key[s[0]] >= x {
      DeltaInFront(s, key, p, x);
    } else {
      NoDupTail(s);
      var x' := x - key[s[0]];
      var i' := DeltaPlace(s[1..], key, x').0;
      DeltaInserted(s[1..], key, p, x');
      DeltaOneOn(s, key, p, x);
      DeltaBehind(s, key, p, x, InsertAt(s[1..], i', p), DeltaKeys(s[1..], key, p, x'));
    }
  }

  lemma DeltaOneOn(s: seq<Pid>, key: seq<int>, p: Pid, x: int)
    requires |key| == NPROC && s != [] && key[s[0]] < x
    ensures var i' := DeltaPlace(s[1..], key, x - key[s[0]]).0;
            InsertAt(s, DeltaPlace(s, key, x).0, p) == [s[0]] + InsertAt(s[1..], i', p)
    ensures DeltaKeys(s, key, p, x) == DeltaKeys(s[1..], key, p, x - key[s[0]])
  {
  }

  lemma DeltaInFront(s: seq<Pid>, key: seq<int>, p: Pid, x: int)
    requires |key| == NPROC && NoDup(s) && p !in s && KeysNat(s, key) && x >= 0
    requires s == [] || key[s[0]] >= x
    ensures PutIn(s, key, p, x, InsertAt(s, DeltaPlace(s, key, x).0, p), DeltaKeys(s, key, p, x))
  {
    var key' := DeltaKeys(s, key, p, x);
    var r := [p] + s;
    assert InsertAt(s, 0, p) == r && r[1..] == s;
    if s != [] {
      NoDupTail(s);
      forall q: Pid | q in s
        ensures Remaining(r, key', q) == Remaining(s, key, q)
      {
        RemainingSame(s[1..], key, key', q);
      }
    }
  }

  lemma DeltaBehind(s: seq<Pid>, key: seq<int>, p: Pid, x: int, r': seq<Pid>, key': seq<int>)
    requires |key| == |key'| == NPROC && NoDup(s) && p !in s && KeysNat(s, key) && s != [] && key[s[0]] < x
    requires PutIn(s[1..], key, p, x - key[s[0]], r', key')
    ensures PutIn(s, key, p, x, [s[0]] + r', key')
  {
    NoDupTail(s);
    var r := [s[0]] + r';
    assert r[1..] == r';
  }

  /** What a delta list looks like after p has left it. */
  ghost predicate TakenOut(s: seq<Pid>, key: seq<int>, p: Pid, r: seq<Pid>, key': seq<int>)
    requires |key| == |key'| == NPROC
  {
    && KeysNat(r, key')
    && (r != [] && s != [] ==> key'[r[0]] >= key[s[0]])
    && (forall q: Pid :: q !in s ==> key'[q] == key[q])
    && key'[p] == key[p]
    && (forall q: Pid :: q in r ==> Remaining(r, key', q) == Remaining(s, key, q))
  }

  lemma FirstRemoved(s: seq<Pid>, key: seq<int>)
    requires |key| == NPROC && NoDup(s) && s != [] && KeysNat(s, key)
    ensures TakenOut(s, key, s[0], s[1..], Handover(s, key, s[0]))
  {
    NoDupTail(s);
    if |s| >= 2 {
      var r, key' := s[1..], Handover(s, key, s[0]);
      NoDupTail(r);
      assert r[1..] == s[2..];
      forall q: Pid | q in r
        ensures Remaining(r, key', q) == Remaining(s, key, q)
      {
        RemainingSame(s[2..], key, key', q);
      }
    }
  }

  lemma LaterRemoved(s: seq<Pid>, key: seq<int>, p: Pid, r: seq<Pid>, key': seq<int>)
    requires |key| == |key'| == NPROC && NoDup(s) && s != [] && KeysNat(s, key)
    requires TakenOut(s[1..], key, p, r, key') && forall q :: q in r ==> q in s[1..]
    ensures TakenOut(s, key, p, [s[0]] + r, key')
  {
    NoDupTail(s);
    assert ([s[0]] + r)[1..] == r;
  }

  /** unsleep leaves every other entry its ticks. */
  lemma {:induction false} DeltaRemoved(s: seq<Pid>, key: seq<int>, p: Pid)
    requires |key| == NPROC && NoDup(s) && p in s && KeysNat(s, key)
    ensures TakenOut(s, key, p, Without(s, p), Handover(s, key, p))
  {
    hide TakenOut;
    if s[0] == p {
      FirstRemoved(s, key);
    } else {
      NoDupTail(s);
      DeltaRemoved(s[1..], key, p);
      WithoutMembers(s[1..], p);
      LaterRemoved(s, key, p, Without(s[1..], p), Handover(s[1..], key, p));
    }
  }

  /** One tick takes one off everybody's remaining time. */
  lemma RemainingTick(s: seq<Pid>, key: seq<int>, q: Pid)
    requires |key| == NPROC && NoDup(s) && q in s
    ensures Remaining(s, key[s[0] := key[s[0]] - 1], q) == Remaining(s, key, q) - 1
  {
    NoDupTail(s);
    RemainingSame(s[1..], key, key[s[0] := key[s[0]] - 1], q);
  }

  /** m deferred ticks take m off everybody's remaining time, down to none. */
  lemma {:induction false} RemainingMakeUp(s: seq<Pid>, key: seq<int>, m: int)
    requires |key| == NPROC && NoDup(s) && KeysNat(s, key) && m >= 0
    ensures var key' := MakeUp(s, key, m);
            && KeysNat(s, key') && (forall q: Pid :: q !in s ==> key'[q] == key[q])
            && forall q: Pid :: q in s ==>
                 Remaining(s, key', q) == if Remaining(s, key, q) > m then Remaining(s, key, q) - m else 0
  {
    if s != [] {
      NoDupTail(s);
      var key0 := key[s[0] := 0];
      var key' := MakeUp(s, key, m);
      if key[s[0]] < m {
        RemainingMakeUp(s[1..], key0, m - key[s[0]]);
        forall q: Pid | q in s[1..]
          ensures Remaining(s[1..], key0, q) == Remaining(s[1..], key, q)
        {
          RemainingSame(s[1..], key, key0, q);
        }
      } else {
        forall q: Pid | q in s[1..]
          ensures Remaining(s[1..], key', q) == Remaining(s[1..], key, q) >= 0
        {
          RemainingSame(s[1..], key, key', q);
          RemainingNat(s[1..], key, q);
        }
      }
    }
  }

  lemma {:induction false} RemainingNat(s: seq<Pid>, key: seq<int>, q: Pid)
    requires |key| == NPROC && KeysNat(s, key)
    ensures Remaining(s, key, q) >= 0 && (s != [] ==> Remaining(s, key, q) >= key[s[0]])
  {
    if s != [] && s[0] != q {
      assert forall p: Pid :: p in s[1..] ==> p in s;
      RemainingNat(s[1..], key, q);
    }
  }
}
