/** The kernel's tables in place: the process table, the semaphore table, and the one array of links that
    holds every list. Each method is proved equal to its function in KernelSpec. */
module Kernel {
  import opened KernelSpec
  import opened KernelLists
  import opened KernelInv
  import opened KernelRuns
  import opened KernelEffects
  import opened QTable

  class Kernel {
    const proctab: array<PEntry>
    const semaph: array<SEntry>
    const q: array<QEnt>
    var currpid: Pid
    var nextproc: Pid
    var nextsem: int
    var nextqueue: int
    var slnempty: bool
    var sltop: Pid
    var preempt: int
    var defclk: int
    var clkdiff: nat
    var count100: int
    ghost var lists: seq<seq<Pid>>

    ghost predicate Valid()
      reads this, proctab, semaph, q
    {
      && proctab.Length == NPROC && semaph.Length == NSEM && q.Length == NQENT
      && 0 <= nextsem < NSEM && |lists| == NLISTS && Table(q[..], lists)
    }

    ghost function Abs(): (k: K)
      reads this, proctab, semaph, q
      requires Valid()
      ensures Shaped(k)
    {
      K(proctab[..], semaph[..], KeysOf(q[..]), lists, currpid, nextproc, nextsem,
        slnempty, sltop, preempt, defclk, clkdiff, count100)
    }

    // ----- the start of the system -----

    /** sysinit */
    constructor ()
      ensures Valid() && Init(Abs()) && Inv(Abs())
      ensures fresh(proctab) && fresh(semaph) && fresh(q)
    {
      proctab := new PEntry[NPROC](_ => PEntry(Free, 0, 0, 0, 0, 0));
      semaph := new SEntry[NSEM](_ => SEntry(false, 0));
      q := new QEnt[NQENT](_ => QEnt(0, 0, 0));
      currpid, nextproc, nextsem, nextqueue := NULLPROC, NPROC - 1, NSEM - 1, NPROC;
      slnempty, sltop, preempt, defclk, clkdiff, count100 := false, 0, QUANTUM, 0, 0, 0;
      lists := seq(NLISTS, _ => []);
      new;
      proctab[NULLPROC] := proctab[NULLPROC].(state := Curr, prio := 0);
      var i := 0;
      while i < NLISTS
        modifies q, this`nextqueue
        invariant 0 <= i <= NLISTS && nextqueue == Head(i)
        invariant forall l :: 0 <= l < i ==> EmptyList(q[..], l)
      {
        ghost var q0 := q[..];
        var head := NewQueue();
        forall l | 0 <= l <= i ensures EmptyList(q[..], l) {
          assert l < i ==> EmptyList(q0, l);
        }
        i := i + 1;
      }
      EmptyTable(q[..], lists);
      Started();
    }

    lemma Started()
      requires Valid() && Init(Abs())
      ensures Inv(Abs())
    {
      hide Table;
      hide Inv;
      RunKeepsInv([Abs()], [], 0);
    }

    /** newqueue: the next two entries of the q table become the head and tail of an empty list. */
    method NewQueue() returns (head: int)
      requires q.Length == NQENT && NPROC <= nextqueue < NQENT - 1
      modifies this`nextqueue, q
      ensures head == old(nextqueue) && nextqueue == head + 2
      ensures q[..] == old(q[..])[head := QEnt(MININT, head + 1, EMPTY)][head + 1 := QEnt(MAXINT, EMPTY, head)]
    {
      head := nextqueue;
      nextqueue := nextqueue + 1;
      var tail := nextqueue;
      nextqueue := nextqueue + 1;
      q[head] := QEnt(MININT, tail, EMPTY);
      q[tail] := QEnt(MAXINT, EMPTY, head);
    }

    // ----- the lists of the q table -----

    /** insert(p, rdyhead, key) */
    method Insert(p: Pid, key: int)
      requires Valid() && OnNoList(lists, p) && key <= MAXINT
      modifies this`lists, q
      ensures Valid() && Abs() == KernelSpec.InsertReady(old(Abs()), p, key)
    {
      var next := FindKey(key);
      PutBefore(p, key, next, READY, Place(lists[READY], KeysOf(q[..]), key));
    }

    /** Links p with its key into list l before entry next, which is entry i of the list or its tail. */
    method PutBefore(p: Pid, key: int, next: int, ghost l: int, ghost i: nat)
      requires Valid() && OnNoList(lists, p) && 0 <= l < NLISTS && i <= |lists[l]|
      requires next == Chain(l, lists[l])[i + 1]
      modifies this`lists, q
      ensures Valid()
      ensures Abs() == SetList(old(Abs()), l, InsertAt(old(lists[l]), i, p)).(key := old(Abs()).key[p := key])
    {
      hide Table;
      hide InsertAt;
      ghost var s, q0 := lists[l], q[..];
      Walk(q0, lists, l, i);
      var prev := q[next].prev;
      KeyTable(q0, lists, p, key);
      ghost var q1 := q0[p := q0[p].(key := key)];
      SpliceTable(q1, lists, l, i, p);
      Link(p, key, prev, next);
      KeyKeys(q0, p, key);
      SpliceKeys(q1, p, prev, next);
      lists := lists[l := InsertAt(s, i, p)];
    }

    /** The search of insert: the table index of the first entry with a key at least as high. */
    method FindKey(key: int) returns (next: int)
      requires Valid() && key <= MAXINT
      ensures next == Chain(READY, lists[READY])[Place(lists[READY], KeysOf(q[..]), key) + 1]
    {
      hide Table;
      hide Place;
      hide Chain;
      ghost var s, keys, i := lists[READY], KeysOf(q[..]), 0;
      Walk(q[..], lists, READY, 0);
      next := q[Head(READY)].next;
      assert s[0..] == s;
      Reached(q[..], lists, READY, 0);
      while q[next].key < key
        invariant 0 <= i <= |s| && next == Chain(READY, s)[i + 1] && 0 <= next < NQENT
        invariant i < |s| ==> next == s[i] && q[next].next == Chain(READY, s)[i + 2]
        invariant i == |s| ==> q[next].key == MAXINT
        invariant Place(s, keys, key) == i + Place(s[i..], keys, key)
        decreases |s| - i
      {
        PlaceStep(s, keys, key, i);
        i := i + 1;
        Reached(q[..], lists, READY, i);
        next := q[next].next;
      }
      PlaceStep(s, keys, key, i);
    }

    /** Writes the three entries that a new link touches. */
    method Link(p: Pid, key: int, prev: int, next: int)
      requires q.Length == NQENT && 0 <= prev < NQENT && 0 <= next < NQENT && prev != p && next != p && prev != next
      modifies q
      ensures var q1 := old(q[..])[p := old(q[p]).(key := key)];
              q[..] == Splice(q1, p, prev, next)
    {
      q[p] := QEnt(key, next, prev);
      q[prev] := q[prev].(next := p);
      q[next] := q[next].(prev := p);
    }

    /** enqueue(p, tail of list l) */
    method Enqueue(p: Pid, l: int)
      requires Valid() && OnNoList(lists, p) && 0 <= l < NLISTS
      modifies this`lists, q
      ensures Valid() && Abs() == SetList(old(Abs()), l, old(lists[l]) + [p])
    {
      hide Table;
      hide InsertAt;
      ghost var s, q0 := lists[l], q[..];
      Walk(q0, lists, l, |s|);
      var tail := Tail(l);
      var prev := q[tail].prev;
      SpliceTable(q0, lists, l, |s|, p);
      assert q0[p := q0[p].(key := q0[p].key)] == q0;
      Link(p, q[p].key, prev, tail);
      SpliceKeys(q0, p, prev, tail);
      AtEnd(s, p);
      lists := lists[l := s + [p]];
    }

    /** dequeue(p); l and i say where p is. */
    method Dequeue(p: Pid, ghost l: int, ghost i: nat)
      requires Valid() && 0 <= l < NLISTS && i < |lists[l]| && lists[l][i] == p
      modifies this`lists, q
      ensures Valid() && Abs() == SetList(old(Abs()), l, RemoveAt(old(lists[l]), i)) && OnNoList(lists, p)
    {
      hide Table;
      hide RemoveAt;
      ghost var q0 := q[..];
      UnspliceTable(q0, lists, l, i);
      var prev, next := q[p].prev, q[p].next;
      q[prev] := q[prev].(next := next);
      UnspliceSame(q0, p);
      q[next] := q[next].(prev := prev);
      UnspliceKeys(q0, p);
      lists := lists[l := RemoveAt(lists[l], i)];
    }

    lemma UnspliceSame(q0: seq<QEnt>, p: Pid)
      requires |q0| == NQENT && 0 <= q0[p].prev < NQENT && 0 <= q0[p].next < NQENT
      ensures var r := q0[q0[p].prev := q0[q0[p].prev].(next := q0[p].next)];
              Unsplice(q0, p) == r[q0[p].next := r[q0[p].next].(prev := q0[p].prev)]
    {
    }

    /** getfirst(head of list l) */
    method GetFirst(l: int) returns (r: int)
      requires Valid() && 0 <= l < NLISTS
      modifies this`lists, q
      ensures Valid()
      ensures old(lists[l]) == [] ==> r == EMPTY && Abs() == old(Abs())
      ensures old(lists[l]) != [] ==> r == old(lists[l])[0] && OnNoList(lists, r)
                                      && Abs() == SetList(old(Abs()), l, old(lists[l])[1..])
    {
      hide Table;
      ghost var s := lists[l];
      Walk(q[..], lists, l, 0);
      var p := q[Head(l)].next;
      if p < NPROC {
        assert s != [];
        assert RemoveAt(s, 0) == s[1..];
        Dequeue(p, l, 0);
        return p;
      }
      return EMPTY;
    }

    /** getlast(rdytail) */
    method GetLast() returns (r: int)
      requires Valid()
      modifies this`lists, q
      ensures Valid()
      ensures old(lists[READY]) == [] ==> r == EMPTY && Abs() == old(Abs())
      ensures old(lists[READY]) != [] ==>
                var s := old(lists[READY]);
                r == s[|s| - 1] && Abs() == SetList(old(Abs()), READY, s[..|s| - 1])
    {
      hide Table;
      ghost var s := lists[READY];
      Walk(q[..], lists, READY, |s|);
      var p := q[Tail(READY)].prev;
      if p < NPROC {
        LastInChain(READY, s);
        assert RemoveAt(s, |s| - 1) == s[..|s| - 1];
        Dequeue(p, READY, |s| - 1);
        return p;
      }
      LastInChain(READY, s);
      return EMPTY;
    }

    lemma LastInChain(l: int, s: seq<Pid>)
      requires 0 <= l
      ensures Chain(l, s)[|s|] < NPROC <==> s != []
      ensures s != [] ==> Chain(l, s)[|s|] == s[|s| - 1]
    {
    }

    // ----- the sleep queue -----

    /** The search of insertd: the table index where it stops and the key left there. */
    method FindDelta(key: int) returns (next: int, rest: int)
      requires Valid() && key <= MAXINT && KeysNat(lists[CLOCK], KeysOf(q[..]))
      ensures var (i, x) := DeltaPlace(lists[CLOCK], KeysOf(q[..]), key);
              next == Chain(CLOCK, lists[CLOCK])[i + 1] && rest == x
    {
      hide Table;
      hide DeltaPlace;
      hide Chain;
      ghost var s, keys, i := lists[CLOCK], KeysOf(q[..]), 0;
      Walk(q[..], lists, CLOCK, 0);
      next, rest := q[Head(CLOCK)].next, key;
      assert s[0..] == s;
      Reached(q[..], lists, CLOCK, 0);
      while q[next].key < rest
        invariant 0 <= i <= |s| && next == Chain(CLOCK, s)[i + 1] && 0 <= next < NQENT && rest <= MAXINT
        invariant i < |s| ==> next == s[i] && q[next].next == Chain(CLOCK, s)[i + 2]
        invariant i == |s| ==> q[next].key == MAXINT
        invariant DeltaPlace(s, keys, key) == (i + DeltaPlace(s[i..], keys, rest).0, DeltaPlace(s[i..], keys, rest).1)
        decreases |s| - i
      {
        DeltaPlaceStep(s, keys, rest, i);
        assert s[i] in s;
        rest := rest - q[next].key;
        i := i + 1;
        Reached(q[..], lists, CLOCK, i);
        next := q[next].next;
      }
      DeltaPlaceStep(s, keys, rest, i);
    }

    /** insertd(p, clockq, key) */
    method InsertD(p: Pid, key: int)
      requires Valid() && OnNoList(lists, p) && key <= MAXINT && KeysNat(lists[CLOCK], KeysOf(q[..]))
      modifies this`lists, q
      ensures Valid()
      ensures var k, s := old(Abs()), old(lists[CLOCK]);
              Abs() == SetList(k, CLOCK, InsertAt(s, DeltaPlace(s, k.key, key).0, p)).(key := DeltaKeys(s, k.key, p, key))
    {
      hide Table;
      hide InsertAt;
      ghost var s, keys := lists[CLOCK], KeysOf(q[..]);
      var next, rest := FindDelta(key);
      ghost var i := DeltaPlace(s, keys, key).0;
      Walk(q[..], lists, CLOCK, i);
      PutBefore(p, rest, next, CLOCK, i);
      if next < NPROC {
        AddKey(next, -rest);
      }
    }

    /** Changes the key of an entry. */
    method AddKey(p: Pid, x: int)
      requires Valid()
      modifies q
      ensures Valid() && Abs() == old(Abs()).(key := old(Abs()).key[p := old(Abs()).key[p] + x])
    {
      hide Table;
      KeyTable(q[..], lists, p, q[p].key + x);
      KeyKeys(q[..], p, q[p].key + x);
      q[p] := q[p].(key := q[p].key + x);
    }

    /** The sleep queue is not empty after an insertion, and the first entry may be a new one. */
    method SetTop()
      requires Valid() && lists[CLOCK] != []
      modifies this`slnempty, this`sltop
      ensures Valid() && Abs() == KernelSpec.Retop(old(Abs()))
    {
      Walk(q[..], lists, CLOCK, 0);
      slnempty := true;
      sltop := q[Head(CLOCK)].next;
    }

    /** unsleep, by itself and as a part of send and kill, which give the process its next state */
    method Unsleep(pid: int) returns (ok: bool)
      requires Valid() && Mid(Abs(), -1, true)
      modifies this`lists, this`slnempty, this`sltop, q
      ensures Valid()
      ensures ok == (!BadPid(pid) && (proctab[pid].state == Sleep || proctab[pid].state == TRecv))
      ensures Abs() == UnsleepCall(old(Abs()), pid)
      ensures ok ==> OnNoList(lists, pid)
    {
      hide Table;
      hide Mid;
      hide Handover;
      if pid <= 0 || pid >= NPROC || (proctab[pid].state != Sleep && proctab[pid].state != TRecv) {
        return false;
      }
      WasAwake(Abs(), pid);
      ghost var s, i := lists[CLOCK], SleepIndex(pid);
      PassOn(pid, i);
      Dequeue(pid, CLOCK, i);
      ApartNoDup(old(lists), CLOCK);
      RemoveAtIsWithout(s, i);
      Retop();
      return true;
    }

    /** The entry behind pid inherits its waiting time. */
    method PassOn(pid: Pid, ghost i: nat)
      requires Valid() && i < |lists[CLOCK]| && lists[CLOCK][i] == pid
      modifies q
      ensures Valid() && Abs() == old(Abs()).(key := Handover(lists[CLOCK], old(Abs()).key, pid))
      ensures Apart(lists)
    {
      hide Table;
      hide Handover;
      TableApart(q[..], lists);
      ApartNoDup(lists, CLOCK);
      Walk(q[..], lists, CLOCK, i);
      Walk(q[..], lists, CLOCK, i + 1);
      HandoverAt(lists[CLOCK], KeysOf(q[..]), i);
      var remain, next := q[pid].key, q[pid].next;
      if next < NPROC {
        AddKey(next, remain);
      }
    }

    /** sltop, or slnempty, after a removal. */
    method Retop()
      requires Valid() && slnempty
      modifies this`slnempty, this`sltop
      ensures Valid() && Abs() == KernelSpec.Retop(old(Abs()))
    {
      hide Table;
      Walk(q[..], lists, CLOCK, 0);
      var next := q[Head(CLOCK)].next;
      if next < NPROC {
        sltop := next;
      } else {
        slnempty := false;
      }
    }

    // ----- scheduling -----

    /** ready(pid, RESCHNO) */
    method Ready(pid: int)
      requires Valid() && (!BadPid(pid) ==> OnNoList(lists, pid) && proctab[pid].prio <= MAXINT)
      modifies this`lists, proctab, q
      ensures Valid() && Abs() == MakeReady(old(Abs()), pid)
    {
      hide Table;
      if pid <= 0 || pid >= NPROC {
        return;
      }
      proctab[pid] := proctab[pid].(state := PState.Ready);
      Insert(pid, proctab[pid].prio);
    }

    method Resched()
      requires Valid() && Mid(Abs(), -1, true)
      modifies this`lists, this`currpid, this`preempt, proctab, q
      ensures Valid() && Abs() == KernelSpec.Resched(old(Abs())) && Inv(Abs())
    {
      hide Table;
      hide Mid;
      hide Inv;
      hide Dispatch;
      ghost var k := Abs();
      ReschedInv(k);
      if proctab[currpid].state == Curr {
        var last := LastReadyKey();
        if last < proctab[currpid].prio {
          return;
        }
        CurrUnlisted(k);
        EnlistReady(k, currpid, -1, true);
        proctab[currpid] := proctab[currpid].(state := PState.Ready);
        Insert(currpid, proctab[currpid].prio);
      }
      SomeoneIsReady(Abs(), -1, true);
      RunLast();
    }

    lemma CurrUnlisted(k: K)
      requires Mid(k, -1, true) && k.proc[k.curr].state == Curr
      ensures OnNoList(k.lists, k.curr) && k.proc[k.curr].prio <= MAXINT && HomeOf(k.proc[k.curr]) == -1
    {
    }

    /** lastkey(rdytail) */
    method LastReadyKey() returns (key: int)
      requires Valid()
      ensures key == LastKey(Abs())
    {
      ghost var s := lists[READY];
      Walk(q[..], lists, READY, |s|);
      LastInChain(READY, s);
      key := q[q[Tail(READY)].prev].key;
    }

    /** The end of resched: the last process of the ready list becomes the current one. */
    method RunLast()
      requires Valid() && lists[READY] != []
      modifies this`lists, this`currpid, this`preempt, proctab, q
      ensures Valid() && Abs() == Dispatch(old(Abs()))
    {
      hide Table;
      var p := GetLast();
      currpid := p;
      proctab[p] := proctab[p].(state := Curr);
      preempt := QUANTUM;
    }

    /** ready(getfirst(l), RESCHNO) */
    method ReadyHead(l: int, ghost x: int, ghost top: bool)
      requires Valid() && Mid(Abs(), x, top) && 0 <= l < NLISTS && l != READY
      modifies this`lists, proctab, q
      ensures Valid() && Abs() == ReadyFirst(old(Abs()), l)
    {
      hide Table;
      hide Mid;
      hide InsertReady;
      if lists[l] != [] {
        HeadPrio(Abs(), l, x, top);
      }
      var p := GetFirst(l);
      Ready(p);
    }

    lemma HeadPrio(k: K, l: int, x: int, top: bool)
      requires Mid(k, x, top) && 0 <= l < NLISTS && l != READY && k.lists[l] != []
      ensures k.proc[k.lists[l][0]].prio <= MAXINT
    {
      FirstIsListed(k, l, x, top);
    }

    // ----- semaphores -----

    method Wait(sem: int) returns (ok: bool)
      requires Valid() && Inv(Abs()) && currpid != NULLPROC
      modifies this, proctab, semaph, q
      ensures Valid() && Abs() == WaitCall(old(Abs()), sem) && Inv(Abs())
      ensures ok == (!BadSem(sem) && old(semaph[sem].used))
    {
      hide Table;
      hide Mid;
      ghost var k := Abs();
      WaitInv(k, sem);
      if sem < 0 || sem >= NSEM || !semaph[sem].used {
        return false;
      }
      semaph[sem] := semaph[sem].(cnt := semaph[sem].cnt - 1);
      if semaph[sem].cnt < 0 {
        BlockMid(k, sem);
        CurrUnlisted(k) by {
          InvMid(k);
        }
        proctab[currpid] := proctab[currpid].(state := PState.Wait, sem := sem);
        Enqueue(currpid, sem);
        Resched();
      }
      return true;
    }

    /** One signal: the count goes up, and the first waiter becomes ready if there was one. */
    method SignalStep(sem: int)
      requires Valid() && Mid(Abs(), -1, true) && 0 <= sem < NSEM
      modifies this`lists, proctab, semaph, q
      ensures Valid() && Abs() == SignalOnce(old(Abs()), sem)
    {
      hide Table;
      hide Mid;
      ghost var k := Abs();
      SetCountMid(k, sem, k.sem[sem].cnt + 1, -1, true);
      var cnt := semaph[sem].cnt;
      semaph[sem] := semaph[sem].(cnt := cnt + 1);
      assert Abs() == SetCount(k, sem, k.sem[sem].cnt + 1);
      if cnt < 0 {
        ReadyHead(sem, sem, true);
      }
    }

    method Signal(sem: int) returns (ok: bool)
      requires Valid() && Inv(Abs())
      modifies this, proctab, semaph, q
      ensures Valid() && Abs() == SignalCall(old(Abs()), sem) && Inv(Abs())
      ensures ok == (!BadSem(sem) && old(semaph[sem].used))
    {
      hide Table;
      hide Mid;
      hide SignalOnce;
      ghost var k := Abs();
      SignalInv(k, sem, 0);
      if sem < 0 || sem >= NSEM || !semaph[sem].used {
        return false;
      }
      var waiting := semaph[sem].cnt < 0;
      SignalOnceMid(k, sem);
      SignalStep(sem);
      if waiting {
        Resched();
      }
      return true;
    }

    method SignalN(sem: int, count: int) returns (ok: bool)
      requires Valid() && Inv(Abs())
      modifies this, proctab, semaph, q
      ensures Valid() && Abs() == SignalNCall(old(Abs()), sem, count) && Inv(Abs())
      ensures ok == (!BadSem(sem) && old(semaph[sem].used) && count > 0)
    {
      hide Table;
      hide Mid;
      hide SignalOnce;
      ghost var k := Abs();
      SignalInv(k, sem, count);
      if sem < 0 || sem >= NSEM || !semaph[sem].used || count <= 0 {
        return false;
      }
      var n := count;
      while n > 0
        invariant 0 <= n && Valid() && Mid(Abs(), -1, true) && semaph[sem].used
        invariant SignalTimes(Abs(), sem, n) == SignalTimes(k, sem, count)
      {
        SignalOnceMid(Abs(), sem);
        SignalStep(sem);
        n := n - 1;
      }
      Resched();
      return true;
    }

    /** The draining loop of sdelete and sreset. */
    method DrainList(sem: int)
      requires Valid() && Mid(Abs(), sem, true) && 0 <= sem < NSEM
      modifies this`lists, proctab, q
      ensures Valid() && Abs() == Drain(old(Abs()), sem)
    {
      hide Table;
      hide Mid;
      hide ReadyFirst;
      var more := Nonempty(sem);
      while more
        invariant Valid() && Mid(Abs(), sem, true) && Drain(Abs(), sem) == Drain(old(Abs()), sem)
        invariant more == (lists[sem] != [])
        decreases |lists[sem]|
      {
        ReadyFirstMid(Abs(), sem, sem, true);
        ReadyHead(sem, sem, true);
        more := Nonempty(sem);
      }
    }

    method SDelete(sem: int) returns (ok: bool)
      requires Valid() && Inv(Abs())
      modifies this, proctab, semaph, q
      ensures Valid() && Abs() == SDeleteCall(old(Abs()), sem) && Inv(Abs())
      ensures ok == (!BadSem(sem) && old(semaph[sem].used))
    {
      hide Table;
      hide Mid;
      hide Drain;
      ghost var k := Abs();
      SDeleteInv(k, sem);
      if sem < 0 || sem >= NSEM || !semaph[sem].used {
        return false;
      }
      InvMid(k);
      SDeleteMid(k, sem);
      semaph[sem] := semaph[sem].(used := false);
      var waiting := Nonempty(sem);
      if waiting {
        DrainList(sem);
        Resched();
      }
      return true;
    }

    /** nonempty(head of list l) */
    method Nonempty(l: int) returns (b: bool)
      requires Valid() && 0 <= l < NLISTS
      ensures b == (lists[l] != [])
    {
      Walk(q[..], lists, l, 0);
      b := q[Head(l)].next < NPROC;
    }

    method SReset(sem: int, count: int) returns (ok: bool)
      requires Valid() && Inv(Abs())
      modifies this, proctab, semaph, q
      ensures Valid() && Abs() == SResetCall(old(Abs()), sem, count) && Inv(Abs())
      ensures ok == (!BadSem(sem) && old(semaph[sem].used) && count >= 0)
    {
      hide Table;
      hide Mid;
      hide Drain;
      ghost var k := Abs();
      SResetInv(k, sem, count);
      if sem < 0 || sem >= NSEM || count < 0 || !semaph[sem].used {
        return false;
      }
      InvMid(k);
      SetCountMid(k, sem, k.sem[sem].cnt, -1, true);
      assert SetCount(k, sem, k.sem[sem].cnt) == k;
      SResetMid(k, sem, count);
      DrainList(sem);
      semaph[sem] := semaph[sem].(cnt := count);
      Resched();
      return true;
    }

    method SCreate(count: int) returns (sem: int)
      requires Valid() && Inv(Abs())
      modifies this`nextsem, semaph
      ensures Valid() && Abs() == SCreateCall(old(Abs()), count) && Inv(Abs())
      ensures sem < 0 <==> count < 0 || forall s :: 0 <= s < NSEM ==> old(semaph[s].used)
    {
      hide Table;
      hide Mid;
      ghost var k := Abs();
      SCreateInv(k, count);
      SCreateFails(k);
      if count < 0 {
        return -1;
      }
      sem := NewSem();
      if sem >= 0 {
        semaph[sem] := semaph[sem].(cnt := count);
      }
    }

    method NewSem() returns (sem: int)
      requires Valid()
      modifies this`nextsem, semaph
      ensures Valid() && (sem, nextsem) == SearchSem(old(semaph[..]), old(nextsem), NSEM)
      ensures semaph[..] == if sem < 0 then old(semaph[..]) else old(semaph[..])[sem := old(semaph[sem]).(used := true)]
    {
      hide Table;
      var i := 0;
      while i < NSEM
        invariant 0 <= i <= NSEM && 0 <= nextsem < NSEM && semaph[..] == old(semaph[..])
        invariant SearchSem(semaph[..], old(nextsem), NSEM) == SearchSem(semaph[..], nextsem, NSEM - i)
      {
        sem := nextsem;
        nextsem := nextsem - 1;
        if nextsem < 0 {
          nextsem := NSEM - 1;
        }
        if !semaph[sem].used {
          semaph[sem] := semaph[sem].(used := true);
          return;
        }
        i := i + 1;
      }
      sem := -1;
    }

    // ----- processes -----

    method Create(stack: bool, even: bool, prio: int) returns (pid: int)
      requires Valid() && Inv(Abs()) && prio <= MAXINT
      modifies this`nextproc, proctab
      ensures Valid() && Abs() == CreateCall(old(Abs()), stack, even, prio) && Inv(Abs())
      ensures pid < 0 <==> !stack || !even || prio < 1 || forall p: Pid :: old(proctab[p].state) != Free
    {
      hide Table;
      hide Mid;
      ghost var k := Abs();
      CreateInv(k, stack, even, prio);
      CreateFails(k);
      SearchPidFinds(k.proc, k.nextproc, NPROC);
      if !stack {
        return -1;
      }
      pid := NewPid();
      if pid < 0 || !even || prio < 1 {
        return -1;
      }
      proctab[pid] := PEntry(Susp, prio, 0, 0, proctab[pid].msg, -1);
    }

    method NewPid() returns (pid: int)
      requires Valid()
      modifies this`nextproc
      ensures Valid() && (pid, nextproc) == SearchPid(proctab[..], old(nextproc), NPROC)
    {
      hide Table;
      var i := 0;
      while i < NPROC
        invariant 0 <= i <= NPROC
        invariant SearchPid(proctab[..], old(nextproc), NPROC) == SearchPid(proctab[..], nextproc, NPROC - i)
      {
        pid := nextproc;
        nextproc := if pid <= 0 then NPROC - 1 else pid - 1;
        if proctab[pid].state == Free {
          return;
        }
        i := i + 1;
      }
      pid := -1;
    }

    method Resume(pid: int) returns (ok: bool)
      requires Valid() && Inv(Abs())
      modifies this, proctab, q
      ensures Valid() && Abs() == ResumeCall(old(Abs()), pid) && Inv(Abs())
      ensures ok == (!BadPid(pid) && old(proctab[pid].state) == Susp)
    {
      hide Table;
      hide Mid;
      hide InsertReady;
      ghost var k := Abs();
      ResumeInv(k, pid);
      if pid <= 0 || pid >= NPROC || proctab[pid].state != Susp {
        return false;
      }
      InvMid(k);
      Unlisted(k, pid);
      EnlistReady(k, pid, -1, true);
      Ready(pid);
      Resched();
      return true;
    }

    lemma Unlisted(k: K, p: Pid)
      requires Mid(k, -1, true) && HomeOf(k.proc[p]) == -1 && k.proc[p].state != Free
      ensures OnNoList(k.lists, p) && k.proc[p].prio <= MAXINT
    {
    }

    /** Where a ready process is in the ready list, and a waiting one in its semaphore's. */
    ghost function IndexOn(pid: Pid, l: int): (i: nat)
      reads this, proctab, semaph, q
      requires Valid() && Mid(Abs(), -1, true) && 0 <= l < NLISTS && HomeOf(proctab[pid]) == l
      ensures i < |lists[l]| && lists[l][i] == pid && RemoveAt(lists[l], i) == Without(lists[l], pid)
    {
      assert pid in Abs().lists[l];
      var i :| 0 <= i < |lists[l]| && lists[l][i] == pid;
      ListedNoDup(Abs(), l);
      RemoveAtIsWithout(lists[l], i);
      i
    }

    method Suspend(pid: int) returns (ok: bool)
      requires Valid() && Inv(Abs())
      modifies this, proctab, q
      ensures Valid() && Abs() == SuspendCall(old(Abs()), pid) && Inv(Abs())
      ensures ok == (!BadPid(pid) && Runnable(old(Abs()), pid))
    {
      hide Table;
      hide Mid;
      hide Without;
      hide RemoveAt;
      ghost var k := Abs();
      SuspendInv(k, pid);
      InvMid(k);
      if pid <= 0 || pid >= NPROC || (proctab[pid].state != Curr && proctab[pid].state != PState.Ready) {
        return false;
      }
      if proctab[pid].state == PState.Ready {
        ghost var i := IndexOn(pid, READY);
        proctab[pid] := proctab[pid].(state := Susp);
        Dequeue(pid, READY, i);
      } else {
        SetUnlisted(k, pid, Susp, -1, true);
        proctab[pid] := proctab[pid].(state := Susp);
        Resched();
      }
      return true;
    }

    method ChPrio(pid: int, newprio: int) returns (ok: bool, oldprio: int)
      requires Valid() && Inv(Abs()) && newprio <= MAXINT
      modifies this, proctab, q
      ensures Valid() && Abs() == ChPrioCall(old(Abs()), pid, newprio) && Inv(Abs())
      ensures ok == (!BadPid(pid) && newprio > 0 && old(proctab[pid].state) != Free)
      ensures ok ==> oldprio == old(proctab[pid].prio)
    {
      hide Table;
      hide Mid;
      hide Without;
      hide RemoveAt;
      hide InsertReady;
      ghost var k := Abs();
      ChPrioInv(k, pid, newprio);
      InvMid(k);
      if pid <= 0 || newprio <= 0 || pid >= NPROC || proctab[pid].state == Free {
        return false, -1;
      }
      oldprio := proctab[pid].prio;
      if proctab[pid].state == PState.Ready {
        ghost var i := IndexOn(pid, READY);
        ChPrioMid(k, pid, newprio);
        proctab[pid] := proctab[pid].(prio := newprio);
        Dequeue(pid, READY, i);
        Insert(pid, newprio);
        Resched();
      } else {
        SetPrioMid(k, pid, newprio);
        proctab[pid] := proctab[pid].(prio := newprio);
        if proctab[pid].state == Curr {
          Resched();
        }
      }
      return true, oldprio;
    }

    // ----- messages -----

    method Send(pid: int, msg: int) returns (ok: bool)
      requires Valid() && Inv(Abs())
      modifies this, proctab, q
      ensures Valid() && Abs() == SendCall(old(Abs()), pid, msg) && Inv(Abs())
      ensures ok == (!BadPid(pid) && old(proctab[pid].state) != Free && !old(proctab[pid].HasMsg()))
    {
      hide Table;
      hide Mid;
      hide InsertReady;
      ghost var k := Abs();
      SendInv(k, pid, msg);
      InvMid(k);
      if pid <= 0 || pid >= NPROC || proctab[pid].state == Free || proctab[pid].HasMsg() {
        return false;
      }
      proctab[pid] := proctab[pid].(msg := msg, msgs := 1);
      SameCoreMid(k, Abs(), -1, true);
      if proctab[pid].state == Recv {
        Unlisted(Abs(), pid);
        EnlistReady(Abs(), pid, -1, true);
        Ready(pid);
        Resched();
      } else if proctab[pid].state == TRecv {
        WakeReceiver(pid);
      }
      return true;
    }

    method SendF(pid: int, msg: int) returns (ok: bool)
      requires Valid() && Inv(Abs())
      modifies this, proctab, q
      ensures Valid() && Abs() == SendFCall(old(Abs()), pid, msg) && Inv(Abs())
      ensures ok == (!BadPid(pid) && old(proctab[pid].state) != Free)
    {
      hide Table;
      hide Mid;
      hide InsertReady;
      ghost var k := Abs();
      SendFInv(k, pid, msg);
      InvMid(k);
      if pid <= 0 || pid >= NPROC || proctab[pid].state == Free {
        return false;
      }
      proctab[pid] := proctab[pid].(msg := msg, msgs := (proctab[pid].msgs + 1) % 256);
      SameCoreMid(k, Abs(), -1, true);
      if proctab[pid].state == Recv {
        Unlisted(Abs(), pid);
        EnlistReady(Abs(), pid, -1, true);
        Ready(pid);
        Resched();
      }
      return true;
    }

    /** A timed receiver is taken off the sleep queue and made ready. */
    method WakeReceiver(pid: Pid)
      requires Valid() && Mid(Abs(), -1, true) && 0 < pid && proctab[pid].state == TRecv
      modifies this, proctab, q
      ensures Valid() && Abs() == KernelSpec.Resched(MakeReady(KernelSpec.Unsleep(old(Abs()), pid), pid)) && Inv(Abs())
    {
      hide Table;
      hide Mid;
      hide InsertReady;
      hide KernelSpec.Unsleep;
      ghost var k := Abs();
      UnsleepMid(k, pid);
      var ok := Unsleep(pid);
      ghost var k2 := SetState(Abs(), pid, Susp);
      Unlisted(k2, pid);
      EnlistReady(k2, pid, -1, true);
      assert SetState(k2, pid, PState.Ready) == SetState(Abs(), pid, PState.Ready);
      assert MakeReady(Abs(), pid) == InsertReady(SetState(k2, pid, PState.Ready), pid, k2.proc[pid].prio);
      Ready(pid);
      Resched();
    }

    /** receive up to the point where the caller may be switched out. */
    method Receive()
      requires Valid() && Inv(Abs()) && currpid != NULLPROC
      modifies this, proctab, q
      ensures Valid() && Abs() == ReceiveCall(old(Abs())) && Inv(Abs())
    {
      hide Table;
      hide Mid;
      ghost var k := Abs();
      ReceiveInv(k, 0);
      InvMid(k);
      if !proctab[currpid].HasMsg() {
        SetUnlisted(k, currpid, Recv, -1, true);
        proctab[currpid] := proctab[currpid].(state := Recv);
        Resched();
      } else {
        proctab[currpid] := proctab[currpid].(msgs := 0);
      }
    }

    /** recvclr, and the end of receive and recvtim when the caller runs again; without a message ok is
        false, which is a timeout for recvtim. */
    method TakeMsg() returns (ok: bool, msg: int)
      requires Valid() && Inv(Abs())
      modifies proctab
      ensures Valid() && Abs() == TakeMessage(old(Abs())) && Inv(Abs())
      ensures ok == old(proctab[currpid].HasMsg()) && msg == old(proctab[currpid].msg)
    {
      hide Table;
      ghost var k := Abs();
      InvMid(k);
      SameCoreMid(k, TakeMessage(k), -1, true);
      ok, msg := proctab[currpid].HasMsg(), proctab[currpid].msg;
      proctab[currpid] := proctab[currpid].(msgs := 0);
    }

    /** insertd on the sleep queue, then slnempty, sltop and the new state. */
    method GoToSleep(n: int, st: PState)
      requires Valid() && Inv(Abs()) && currpid != NULLPROC && 1 <= n <= MAXINT && (st == Sleep || st == TRecv)
      modifies this, proctab, q
      ensures Valid() && Abs() == KernelSpec.Resched(SleepFor(old(Abs()), old(currpid), n, st)) && Inv(Abs())
    {
      hide Table;
      hide Mid;
      hide InsertAt;
      hide DeltaKeys;
      hide DeltaPlace;
      ghost var k := Abs();
      InvMid(k);
      CurrUnlisted(k);
      SleepMid(k, n, st);
      SleepersNat(k);
      InsertD(currpid, n);
      InsertedLength(k.lists[CLOCK], DeltaPlace(k.lists[CLOCK], k.key, n).0, currpid);
      SetTop();
      proctab[currpid] := proctab[currpid].(state := st);
      assert Abs() == SleepFor(k, k.curr, n, st);
      Resched();
    }

    lemma SleepersNat(k: K)
      requires Mid(k, -1, false)
      ensures KeysNat(k.lists[CLOCK], k.key)
    {
    }

    /** recvtim up to the point where the caller may be switched out. */
    method RecvTim(maxwait: int) returns (ok: bool)
      requires Valid() && Inv(Abs()) && currpid != NULLPROC && maxwait <= MAXINT
      requires maxwait != 0 || proctab[currpid].HasMsg()
      modifies this, proctab, q
      ensures Valid() && Abs() == RecvTimCall(old(Abs()), maxwait) && Inv(Abs())
      ensures ok == (maxwait >= 0)
    {
      hide Table;
      hide Mid;
      hide SleepFor;
      ghost var k := Abs();
      ReceiveInv(k, maxwait);
      InvMid(k);
      if maxwait < 0 {
        return false;
      }
      if !proctab[currpid].HasMsg() {
        GoToSleep(maxwait, TRecv);
      } else {
        proctab[currpid] := proctab[currpid].(msgs := 0);
      }
      return true;
    }

    method Sleep10(n: int) returns (ok: bool)
      requires Valid() && Inv(Abs()) && currpid != NULLPROC && n <= MAXINT
      modifies this, proctab, q
      ensures Valid() && Abs() == SleepCall(old(Abs()), n) && Inv(Abs())
      ensures ok == (n >= 0)
    {
      hide Table;
      hide Mid;
      hide SleepFor;
      ReceiveInv(Abs(), n);
      InvMid(Abs());
      if n < 0 {
        return false;
      }
      if n == 0 {
        Resched();
      } else {
        GoToSleep(n, Sleep);
      }
      return true;
    }

    // ----- the end of a process -----

    method SetNok(nok: int, pid: int) returns (ok: bool)
      requires Valid() && Inv(Abs())
      modifies proctab
      ensures Valid() && Abs() == SetNokCall(old(Abs()), nok, pid) && Inv(Abs())
      ensures ok == !BadPid(pid)
    {
      hide Table;
      hide Mid;
      ghost var k := Abs();
      InvMid(k);
      SameCoreMid(k, SetNokCall(k, nok, pid), -1, true);
      ok := 0 < pid < NPROC;
      if ok {
        proctab[pid] := proctab[pid].(nxtkin := nok);
      }
    }

    /** kill up to the message to the next of kin, which may let another process run. */
    method KillSend(pid: int) returns (ok: bool)
      requires Valid() && Inv(Abs())
      modifies this, proctab, q
      ensures Valid() && Abs() == KillSendCall(old(Abs()), pid) && Inv(Abs())
      ensures ok == (!BadPid(pid) && old(proctab[pid].state) != Free)
    {
      hide Table;
      hide Inv;
      hide SendCall;
      if pid <= 0 || pid >= NPROC || proctab[pid].state == Free {
        return false;
      }
      var told := Send(proctab[pid].nxtkin, pid);
      return true;
    }

    /** kill, after the message to the next of kin. */
    method KillRest(pid: Pid)
      requires Valid() && Inv(Abs()) && 0 < pid
      modifies this, proctab, semaph, q
      ensures Valid() && Abs() == KillFinishCall(old(Abs()), pid) && Inv(Abs())
    {
      hide Table;
      hide Mid;
      hide Inv;
      hide KernelSpec.Resched;
      hide Without;
      hide RemoveAt;
      hide KernelSpec.Unsleep;
      ghost var k := Abs();
      KillFinishInv(k, pid);
      InvMid(k);
      match proctab[pid].state {
        case Curr =>
          SetUnlisted(k, pid, Free, -1, true);
          proctab[pid] := proctab[pid].(state := Free);
          Resched();
        case Wait =>
          WaitsSomewhere(k, pid);
          ghost var i := IndexOn(pid, proctab[pid].sem);
          var sem := proctab[pid].sem;
          semaph[sem] := semaph[sem].(cnt := semaph[sem].cnt + 1);
          Dequeue(pid, sem, i);
          proctab[pid] := proctab[pid].(state := Free);
        case Ready =>
          ghost var i := IndexOn(pid, READY);
          Dequeue(pid, READY, i);
          proctab[pid] := proctab[pid].(state := Free);
        case Sleep =>
          var ok := Unsleep(pid);
          proctab[pid] := proctab[pid].(state := Free);
        case TRecv =>
          var ok := Unsleep(pid);
          proctab[pid] := proctab[pid].(state := Free);
        case _ =>
          proctab[pid] := proctab[pid].(state := Free);
      }
    }

    lemma WaitsSomewhere(k: K, p: Pid)
      requires Mid(k, -1, true) && k.proc[p].state == PState.Wait
      ensures !BadSem(k.proc[p].sem)
    {
    }

    // ----- the clock -----

    method WakeupAll()
      requires Valid() && Mid(Abs(), -1, false)
      modifies this, proctab, q
      ensures Valid() && Abs() == KernelSpec.Wakeup(old(Abs())) && Inv(Abs())
    {
      hide Table;
      hide Mid;
      hide WakeDue;
      ghost var k := Abs();
      WakeDueMid(k);
      WakeLoop();
      TopMid(Abs());
      var more := Nonempty(CLOCK);
      slnempty := more;
      if more {
        Walk(q[..], lists, CLOCK, 0);
        sltop := q[Head(CLOCK)].next;
      }
      Resched();
    }

    lemma TopMid(k: K)
      requires Mid(k, -1, false) && (k.lists[CLOCK] != [] ==> k.key[k.lists[CLOCK][0]] > 0)
      ensures Mid(KernelSpec.Retop(k), -1, true)
    {
    }

    /** The loop of wakeup: sleepers without time left become ready. */
    method WakeLoop()
      requires Valid() && Mid(Abs(), -1, false)
      modifies this`lists, proctab, q
      ensures Valid() && Abs() == WakeDue(old(Abs()))
    {
      hide Table;
      hide Mid;
      hide ReadyFirst;
      var due := FirstDue();
      while due
        invariant Valid() && Mid(Abs(), -1, false) && WakeDue(Abs()) == WakeDue(old(Abs()))
        invariant due == (lists[CLOCK] != [] && Abs().key[lists[CLOCK][0]] <= 0)
        decreases |lists[CLOCK]|
      {
        ReadyFirstMid(Abs(), CLOCK, -1, false);
        ReadyHead(CLOCK, -1, false);
        due := FirstDue();
      }
    }

    method FirstDue() returns (due: bool)
      requires Valid()
      ensures due == (lists[CLOCK] != [] && Abs().key[lists[CLOCK][0]] <= 0)
    {
      hide Table;
      Walk(q[..], lists, CLOCK, 0);
      var first := q[Head(CLOCK)].next;
      due := first < NPROC && q[first].key <= 0;
    }

    /** c_clockisr; when waking the sleepers switches the interrupted process out, ClockRest is what it
        still has to do. */
    method ClockIsr() returns (switched: bool)
      requires Valid() && Inv(Abs())
      modifies this, proctab, q
      ensures Valid() && Abs() == ClockCall(old(Abs())) && Inv(Abs())
      ensures switched ==> currpid != old(currpid)
    {
      hide Table;
      hide Mid;
      hide CountDown;
      hide SliceTick;
      hide Inv;
      ghost var k := Abs();
      ClockInv(k);
      count100 := count100 + 1;
      if count100 != 10 {
        return false;
      }
      count100 := 0;
      InvMid(k);
      SameCoreMid(k, Abs(), -1, true);
      var interrupted := currpid;
      TickSleepers();
      if currpid != interrupted {
        return true;
      }
      ClockRest();
      return false;
    }

    /** The end of c_clockisr: a tick of the time slice. */
    method ClockRest()
      requires Valid() && Inv(Abs())
      modifies this, proctab, q
      ensures Valid() && Abs() == SliceTick(old(Abs())) && Inv(Abs())
    {
      hide Table;
      hide Mid;
      hide Inv;
      ghost var k := Abs();
      InvMid(k);
      preempt := preempt - 1;
      SameCoreMid(k, Abs(), -1, true);
      if preempt == 0 {
        Resched();
      }
    }

    /** A tick of the sleep queue: the first sleeper's key goes down, and at 0 the due are woken. */
    method TickSleepers()
      requires Valid() && Inv(Abs())
      modifies this, proctab, q
      ensures Valid() && Abs() == CountDown(old(Abs())) && Inv(Abs())
    {
      hide Table;
      hide Mid;
      hide KernelSpec.Wakeup;
      CountDownInv(Abs());
      if slnempty {
        CountedDown(Abs());
        AddKey(sltop, -1);
        if q[sltop].key == 0 {
          WakeupAll();
        }
      }
    }

    lemma CountedDown(k: K)
      requires Inv(k) && k.slnempty
      ensures Mid(k.(key := k.key[k.sltop := k.key[k.sltop] + -1]), -1, false)
    {
      hide Ascending;
      ClockKeys(k, k.key[k.sltop := k.key[k.sltop] + -1]);
    }

    method StopClk()
      requires Valid() && Inv(Abs())
      modifies this`defclk
      ensures Valid() && Abs() == Next(old(Abs()), DoStopClk) && Inv(Abs())
    {
      hide Table;
      hide Mid;
      ghost var k := Abs();
      InvMid(k);
      defclk := defclk + 1;
      SameCoreMid(k, Abs(), -1, true);
    }

    method StrtClk() returns (switched: bool)
      requires Valid() && Inv(Abs())
      modifies this, proctab, q
      ensures Valid() && Abs() == StrtClkCall(old(Abs())) && Inv(Abs())
      ensures switched ==> currpid != old(currpid)
    {
      hide Table;
      hide Mid;
      hide Inv;
      hide KernelSpec.CatchUp;
      hide SliceEnd;
      ghost var k := Abs();
      StrtClkInv(k);
      InvMid(k);
      if defclk <= 0 {
        return false;
      }
      defclk := defclk - 1;
      if defclk > 0 {
        return false;
      }
      var makeup := clkdiff;
      preempt := preempt - makeup;
      clkdiff := 0;
      SameCoreMid(k, Abs(), -1, true);
      var caller := currpid;
      CatchUp(makeup);
      if currpid != caller {
        return true;
      }
      StrtClkRest();
      return false;
    }

    /** The end of strtclk: the caller's time slice may have run out. */
    method StrtClkRest()
      requires Valid() && Inv(Abs())
      modifies this, proctab, q
      ensures Valid() && Abs() == SliceEnd(old(Abs())) && Inv(Abs())
    {
      hide Table;
      hide Mid;
      hide Inv;
      InvMid(Abs());
      if preempt <= 0 {
        Resched();
      }
    }

    /** What strtclk does about the sleepers. */
    method CatchUp(m: nat)
      requires Valid() && Inv(Abs())
      modifies this, proctab, q
      ensures Valid() && Abs() == KernelSpec.CatchUp(old(Abs()), m) && Inv(Abs())
    {
      hide Table;
      hide Mid;
      hide Inv;
      hide KernelSpec.Wakeup;
      hide MakeUp;
      InvMid(Abs());
      if slnempty {
        MadeUp(Abs(), m);
        TakeTicks(m);
        WakeupAll();
      }
    }

    lemma MadeUp(k: K, m: nat)
      requires Mid(k, -1, false)
      ensures Mid(k.(key := MakeUp(k.lists[CLOCK], k.key, m)), -1, false)
    {
      hide MakeUp;
      ReadyNotAsleep(k);
      RemainingMakeUp(k.lists[CLOCK], k.key, m);
      ClockKeys(k, MakeUp(k.lists[CLOCK], k.key, m));
    }

    /** The loop of strtclk over the sleep queue. */
    method TakeTicks(m: nat)
      requires Valid()
      modifies q
      ensures Valid() && Abs() == old(Abs()).(key := MakeUp(lists[CLOCK], old(Abs()).key, m))
    {
      hide Table;
      hide Chain;
      hide MakeUp;
      ghost var s, k0, i := lists[CLOCK], Abs(), 0;
      var makeup := m;
      Walk(q[..], lists, CLOCK, 0);
      var next := q[Head(CLOCK)].next;
      Reached(q[..], lists, CLOCK, 0);
      assert s[0..] == s;
      while next < NPROC && q[next].key < makeup
        invariant Valid() && 0 <= i <= |s| && 0 <= next < NQENT && next == Chain(CLOCK, s)[i + 1]
        invariant if i < |s| then next == s[i] && q[next].next == Chain(CLOCK, s)[i + 2] else next >= NPROC
        invariant Abs() == k0.(key := Abs().key)
        invariant MakeUp(s, k0.key, m) == MakeUp(s[i..], Abs().key, makeup)
        decreases |s| - i
      {
        MakeUpStep(s, Abs().key, makeup, i);
        makeup := makeup - q[next].key;
        AddKey(next, -q[next].key);
        i := i + 1;
        Reached(q[..], lists, CLOCK, i);
        Walk(q[..], lists, CLOCK, i);
        next := q[next].next;
      }
      MakeUpStep(s, Abs().key, makeup, i);
      if next < NPROC {
        AddKey(next, -makeup);
      }
    }

    /** Where a sleeping process is in the sleep queue. */
    ghost function SleepIndex(pid: Pid): (i: nat)
      reads this, proctab, semaph, q
      requires Valid() && Mid(Abs(), -1, true) && HomeOf(proctab[pid]) == CLOCK
      ensures i < |lists[CLOCK]| && lists[CLOCK][i] == pid
    {
      assert pid in Abs().lists[CLOCK];
      var i :| 0 <= i < |lists[CLOCK]| && lists[CLOCK][i] == pid;
      i
    }

    lemma WasAwake(k: K, pid: Pid)
      requires Mid(k, -1, true) && HomeOf(k.proc[pid]) == CLOCK
      ensures k.slnempty
    {
      assert pid in k.lists[CLOCK];
    }
  }

  lemma ApartNoDup(lists: seq<seq<Pid>>, l: int)
    requires |lists| == NLISTS && Apart(lists) && 0 <= l < NLISTS
    ensures NoDup(lists[l])
  {
  }

  lemma TableApart(q: seq<QEnt>, lists: seq<seq<Pid>>)
    requires Table(q, lists)
    ensures Apart(lists)
  {
  }

  /** Handover, by position. */
  lemma {:induction false} HandoverAt(s: seq<Pid>, key: seq<int>, i: nat)
    requires |key| == NPROC && NoDup(s) && i < |s|
    ensures Handover(s, key, s[i]) ==
            if i + 1 < |s| then key[s[i + 1] := key[s[i + 1]] + key[s[i]]] else key
  {
    if |s| >= 2 && i > 0 {
      NoDupTail(s);
      assert s[1..][i - 1] == s[i];
      HandoverAt(s[1..], key, i - 1);
    }
  }

  lemma MakeUpStep(s: seq<Pid>, key: seq<int>, m: int, i: nat)
    requires |key| == NPROC && i <= |s|
    ensures MakeUp(s[i..], key, m) ==
            if i == |s| then key
            else if key[s[i]] < m then MakeUp(s[i + 1..], key[s[i] := 0], m - key[s[i]])
            else key[s[i] := key[s[i]] - m]
  {
    if i < |s| {
      assert s[i..][1..] == s[i + 1..];
    }
  }
}
