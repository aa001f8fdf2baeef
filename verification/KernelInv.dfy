/** What every system call keeps. */
module KernelInv {
  import opened KernelSpec
  import opened KernelLists

  // ----- the invariant -----

  /** The list a process in this state belongs to, if any. */
  function HomeOf(e: PEntry): int {
    match e.state
    case Ready => READY
    case Sleep => CLOCK
    case TRecv => CLOCK
    case Wait => e.sem
    case _ => -1
  }

  /** Every process is on the list its state calls for, once, and on no other. */
  ghost predicate Listed(k: K)
    requires Shaped(k)
  {
    && (forall p: Pid :: k.proc[p].state == Wait ==> 0 <= k.proc[p].sem < NSEM)
    && (forall l, p: Pid :: 0 <= l < NSEM + 2 ==> (p in k.lists[l] <==> HomeOf(k.proc[p]) == l))
    && (forall l :: 0 <= l < NSEM + 2 ==> NoDup(k.lists[l]))
  }

  ghost predicate CountOk(e: SEntry, waiting: nat) {
    waiting == if e.used && e.cnt < 0 then -e.cnt else 0
  }

  /** A used semaphore's count tells how many wait; x is one in the middle of a change, or -1. */
  ghost predicate Counted(k: K, x: int)
    requires Shaped(k)
  {
    forall s :: 0 <= s < NSEM && s != x ==> CountOk(k.sem[s], |k.lists[s]|)
  }

  ghost predicate ReadyKeys(k: K)
    requires Shaped(k)
  {
    && Ascending(k.lists[READY], k.key)
    && forall p: Pid :: p in k.lists[READY] ==> k.key[p] == k.proc[p].prio
  }

  /** The null process is never blocked, every other priority is above its own, and only the current
      process is Curr. */
  ghost predicate Ranked(k: K)
    requires Shaped(k)
  {
    && k.proc[NULLPROC].prio == 0
    && k.proc[NULLPROC].state in {Curr, Ready}
    && (forall p: Pid :: k.proc[p].state == Curr ==> p == k.curr)
    && (forall p: Pid :: 0 < p && k.proc[p].state != Free ==> 0 < k.proc[p].prio <= MAXINT)
  }

  /** sltop and slnempty describe the first sleeper, which has time left. */
  ghost predicate Topped(k: K)
    requires Shaped(k)
  {
    var s := k.lists[CLOCK];
    if s == [] then !k.slnempty else k.slnempty && k.sltop == s[0] && k.key[s[0]] >= 1
  }

  /** Holds in the middle of a system call; top is false while the sleep queue is being changed. */
  ghost predicate Mid(k: K, x: int, top: bool) {
    && Shaped(k) && Listed(k) && Counted(k, x) && ReadyKeys(k) && Ranked(k)
    && KeysNat(k.lists[CLOCK], k.key) && (top ==> Topped(k))
  }

  ghost predicate Inv(k: K) {
    && Mid(k, -1, true) && k.proc[k.curr].state == Curr
    && forall p: Pid :: p in k.lists[READY] ==> k.proc[p].prio <= k.proc[k.curr].prio
  }

  // ----- small changes -----

  /** A process that is on no list may change between the states that belong to none. */
  lemma SetUnlisted(k: K, p: Pid, st: PState, x: int, top: bool)
    requires Mid(k, x, top) && 0 < p && HomeOf(k.proc[p]) == -1 && k.proc[p].state != Free
    requires st == Susp || st == Recv || st == Free
    ensures Mid(SetState(k, p, st), x, top)
  {
  }

  /** Putting a process that is on no list on list l. */
  lemma EnlistListed(k: K, p: Pid, e: PEntry, l: int, i: nat)
    requires Shaped(k) && Listed(k) && HomeOf(k.proc[p]) == -1
    requires 0 <= l < NSEM + 2 && i <= |k.lists[l]|
    requires HomeOf(e) == l && (e.state == Wait ==> 0 <= e.sem < NSEM)
    ensures p !in k.lists[l]
    ensures Listed(SetList(SetProc(k, p, e), l, InsertAt(k.lists[l], i, p)))
  {
    InsertAtMembers(k.lists[l], i, p);
  }

  lemma EnlistReady(k: K, p: Pid, x: int, top: bool)
    requires Mid(k, x, top) && HomeOf(k.proc[p]) == -1 && k.proc[p].state != Free
    ensures Mid(InsertReady(SetState(k, p, Ready), p, k.proc[p].prio), x, top)
  {
    hide InsertAt;
    var s, prio := k.lists[READY], k.proc[p].prio;
    var i := Place(s, k.key, prio);
    EnlistListed(k, p, k.proc[p].(state := Ready), READY, i);
    InsertAscending(s, k.key, p, prio);
    InsertAtMembers(s, i, p);
    assert p !in k.lists[CLOCK];
  }

  /** Taking a process off list l. */
  lemma UnlistListed(k: K, p: Pid, e: PEntry, l: int)
    requires Shaped(k) && Listed(k) && HomeOf(k.proc[p]) == l && 0 <= l < NSEM + 2
    requires HomeOf(e) == -1 && e.state != Wait
    ensures Listed(SetList(SetProc(k, p, e), l, Without(k.lists[l], p)))
    ensures p in k.lists[l] && |Without(k.lists[l], p)| == |k.lists[l]| - 1
  {
    WithoutMembers(k.lists[l], p);
    assert p in k.lists[l];
  }

  lemma HomeRange(k: K, p: Pid)
    requires Shaped(k) && Listed(k)
    ensures HomeOf(k.proc[p]) < NSEM + 2
  {
  }

  /** A process taken off its list and suspended. */
  lemma Unlist(k: K, p: Pid, x: int, top: bool)
    requires Mid(k, x, top) && 0 < p && HomeOf(k.proc[p]) >= 0 && (HomeOf(k.proc[p]) == CLOCK ==> !top)
    requires HomeOf(k.proc[p]) < NSEM ==> x == HomeOf(k.proc[p])
    ensures var l := HomeOf(k.proc[p]);
            Mid(SetState(SetList(k, l, Without(k.lists[l], p)), p, Susp), x, top)
  {
    hide Without;
    hide Listed;
    hide NoDup;
    hide Ascending;
    var l := HomeOf(k.proc[p]);
    HomeRange(k, p);
    UnlistListed(k, p, k.proc[p].(state := Susp), l);
    ListedNoDup(k, l);
    WithoutMembers(k.lists[l], p);
    if l == READY {
      WithoutAscending(k.lists[READY], p, k.key);
    }
  }

  /** Moving the first process of a semaphore's list or of the sleep queue to the ready list. */
  lemma ReadyFirstMid(k: K, l: int, x: int, top: bool)
    requires Mid(k, x, top) && (0 <= l < NSEM || l == CLOCK) && k.lists[l] != []
    requires (l < NSEM ==> x == l) && (l == CLOCK ==> !top)
    ensures Mid(ReadyFirst(k, l), x, top) && ReadyFirst(k, l).lists[l] == k.lists[l][1..]
    ensures ReadyFirst(k, l).sem == k.sem && ReadyFirst(k, l).curr == k.curr
  {
    hide InsertReady;
    hide Mid;
    FirstIsListed(k, l, x, top);
    var p := k.lists[l][0];
    WithoutFirst(k.lists[l]);
    Unlist(k, p, x, top);
    var k1 := SetState(SetList(k, l, k.lists[l][1..]), p, Susp);
    EnlistReady(k1, p, x, top);
    assert SetState(k1, p, Ready) == SetState(SetList(k, l, k.lists[l][1..]), p, Ready);
    assert ReadyFirst(k, l) == InsertReady(SetState(k1, p, Ready), p, k1.proc[p].prio);
    InsertReadyFrame(SetState(k1, p, Ready), p, k1.proc[p].prio, l);
  }

  lemma InsertReadyFrame(k: K, p: Pid, x: int, l: int)
    requires Shaped(k) && 0 <= l < NSEM + 2 && l != READY
    ensures var k' := InsertReady(k, p, x);
            k'.lists[l] == k.lists[l] && k'.sem == k.sem && k'.curr == k.curr && k'.proc == k.proc
  {
  }

  lemma FirstIsListed(k: K, l: int, x: int, top: bool)
    requires Mid(k, x, top) && 0 <= l < NSEM + 2 && k.lists[l] != [] && l != READY
    ensures Shaped(k)
    ensures HomeOf(k.proc[k.lists[l][0]]) == l && 0 < k.lists[l][0] && NoDup(k.lists[l])
    ensures k.proc[k.lists[l][0]].state != Free && |k.lists[l][1..]| == |k.lists[l]| - 1
  {
    assert k.lists[l][0] in k.lists[l];
  }

  // ----- semaphores -----

  lemma BlockMid(k: K, s: int)
    requires Inv(k) && k.curr != NULLPROC && 0 <= s < NSEM && k.sem[s].used && k.sem[s].cnt - 1 < 0
    ensures Mid(Block(SetCount(k, s, k.sem[s].cnt - 1), s), -1, true)
  {
    hide InsertAt;
    var c, l := k.curr, k.lists[s];
    EnlistListed(k, c, k.proc[c].(state := Wait, sem := s), s, |l|);
    assert InsertAt(l, |l|, c) == l + [c] by {
      AtEnd(l, c);
    }
  }

  lemma SetCountMid(k: K, s: int, n: int, x: int, top: bool)
    requires Mid(k, x, top) && 0 <= s < NSEM && (x == -1 || x == s)
    ensures Mid(SetCount(k, s, n), s, top)
    ensures CountOk(SEntry(k.sem[s].used, n), |k.lists[s]|) ==> Mid(SetCount(k, s, n), -1, top)
  {
  }

  lemma SignalOnceMid(k: K, s: int)
    requires Mid(k, -1, true) && 0 <= s < NSEM && k.sem[s].used
    ensures Mid(SignalOnce(k, s), -1, true) && SignalOnce(k, s).sem[s].used
  {
    hide ReadyFirst;
    var n := k.sem[s].cnt + 1;
    SetCountMid(k, s, n, -1, true);
    assert CountOk(k.sem[s], |k.lists[s]|);
    if k.sem[s].cnt < 0 {
      var k1 := SetCount(k, s, n);
      ReadyFirstMid(k1, s, s, true);
      var k2 := ReadyFirst(k1, s);
      SetCountMid(k2, s, n, s, true);
      assert SetCount(k2, s, n) == k2;
    }
  }

  lemma {:induction false} SignalTimesMid(k: K, s: int, n: nat)
    requires Mid(k, -1, true) && 0 <= s < NSEM && k.sem[s].used
    ensures Mid(SignalTimes(k, s, n), -1, true)
    decreases n
  {
    hide SignalOnce;
    if n > 0 {
      SignalOnceMid(k, s);
      SignalTimesMid(SignalOnce(k, s), s, n - 1);
    }
  }

  lemma {:induction false} DrainMid(k: K, s: int)
    requires Mid(k, s, true) && 0 <= s < NSEM
    ensures Mid(Drain(k, s), s, true) && Drain(k, s).lists[s] == [] && Drain(k, s).sem == k.sem
    decreases |k.lists[s]|
  {
    hide ReadyFirst;
    if k.lists[s] != [] {
      ReadyFirstMid(k, s, s, true);
      DrainMid(ReadyFirst(k, s), s);
    }
  }

  lemma SDeleteMid(k: K, s: int)
    requires Mid(k, -1, true) && 0 <= s < NSEM
    ensures var k1 := k.(sem := k.sem[s := k.sem[s].(used := false)]);
            Mid(k1, s, true) && (k.lists[s] == [] ==> Mid(k1, -1, true)) && Mid(Drain(k1, s), -1, true)
  {
    hide Drain;
    var k1 := k.(sem := k.sem[s := k.sem[s].(used := false)]);
    assert Mid(k1, s, true);
    DrainMid(k1, s);
    var k2 := Drain(k1, s);
    SetCountMid(k2, s, k2.sem[s].cnt, s, true);
    assert SetCount(k2, s, k2.sem[s].cnt) == k2;
  }

  lemma SResetMid(k: K, s: int, n: nat)
    requires Mid(k, -1, true) && 0 <= s < NSEM
    ensures Mid(SetCount(Drain(k, s), s, n), -1, true)
  {
    hide Drain;
    SetCountMid(k, s, k.sem[s].cnt, -1, true);
    assert SetCount(k, s, k.sem[s].cnt) == k;
    DrainMid(k, s);
    SetCountMid(Drain(k, s), s, n, s, true);
  }

  // ----- dispatching -----

  lemma SomeoneIsReady(k: K, x: int, top: bool)
    requires Mid(k, x, top) && k.proc[k.curr].state != Curr
    ensures k.lists[READY] != []
  {
    assert k.proc[NULLPROC].state == Ready;
    assert HomeOf(k.proc[NULLPROC]) == READY;
  }

  lemma HighestLast(k: K)
    requires Shaped(k) && ReadyKeys(k) && k.lists[READY] != []
    ensures var s := k.lists[READY];
            forall p: Pid :: p in s ==> k.proc[p].prio <= k.proc[s[|s| - 1]].prio == LastKey(k)
  {
    var s := k.lists[READY];
    assert s[|s| - 1] in s;
    forall p: Pid | p in s
      ensures k.proc[p].prio <= k.key[s[|s| - 1]]
    {
      var i :| 0 <= i < |s| && s[i] == p;
      assert k.key[s[i]] <= k.key[s[|s| - 1]];
    }
  }

  lemma DispatchListed(k: K)
    requires Shaped(k) && Listed(k) && k.lists[READY] != []
    ensures Listed(Dispatch(k))
    ensures var s := k.lists[READY]; HomeOf(k.proc[s[|s| - 1]]) == READY
  {
    var s := k.lists[READY];
    LastOut(s);
    assert s[|s| - 1] in s;
  }

  lemma DispatchReadyKeys(k: K)
    requires Shaped(k) && Listed(k) && ReadyKeys(k) && k.lists[READY] != []
    ensures ReadyKeys(Dispatch(k))
  {
    var s := k.lists[READY];
    ListedNoDup(k, READY);
    LastOut(s);
    assert forall i :: 0 <= i < |s| - 1 ==> s[..|s| - 1][i] == s[i];
  }

  /** The process that is dispatched has the highest priority of all that are ready. */
  lemma DispatchInv(k: K)
    requires Mid(k, -1, true) && k.proc[k.curr].state != Curr
    ensures Inv(Dispatch(k))
  {
    hide Listed;
    hide ReadyKeys;
    SomeoneIsReady(k, -1, true);
    var s := k.lists[READY];
    ListedNoDup(k, READY);
    LastOut(s);
    DispatchListed(k);
    DispatchReadyKeys(k);
    HighestLast(k);
  }

  lemma ListedNoDup(k: K, l: int)
    requires Shaped(k) && Listed(k) && 0 <= l < NSEM + 2
    ensures NoDup(k.lists[l])
  {
  }

  lemma ReschedInv(k: K)
    requires Mid(k, -1, true)
    ensures Inv(Resched(k))
  {
    if k.proc[k.curr].state != Curr {
      DispatchInv(k);
    } else if LastKey(k) < k.proc[k.curr].prio {
      if k.lists[READY] != [] {
        HighestLast(k);
      }
    } else {
      EnlistReady(k, k.curr, -1, true);
      DispatchInv(InsertReady(SetState(k, k.curr, Ready), k.curr, k.proc[k.curr].prio));
    }
  }

  // ----- the sleep queue -----

  /** Going to sleep keeps everything in order if and only if it is for at least one tick. */
  lemma SleepMid(k: K, n: int, st: PState)
    requires Inv(k) && k.curr != NULLPROC && n >= 0 && (st == Sleep || st == TRecv)
    ensures Mid(SleepFor(k, k.curr, n, st), -1, false)
    ensures Mid(SleepFor(k, k.curr, n, st), -1, true) <==> n >= 1
  {
    hide InsertAt;
    hide Ascending;
    hide DeltaPlace;
    hide DeltaKeys;
    var s, c := k.lists[CLOCK], k.curr;
    EnlistListed(k, c, k.proc[c].(state := st), CLOCK, DeltaPlace(s, k.key, n).0);
    NotReady(k, c);
    DeltaInserted(s, k.key, c, n);
    var k' := SleepFor(k, c, n, st);
    SameKeys(k.lists[READY], k.key, k'.key);
  }

  lemma NotReady(k: K, c: Pid)
    requires Shaped(k) && Listed(k) && HomeOf(k.proc[c]) == -1
    ensures forall p: Pid :: p in k.lists[READY] ==> p !in k.lists[CLOCK] && p != c
    ensures NoDup(k.lists[CLOCK]) && c !in k.lists[CLOCK]
  {
    forall p: Pid | p in k.lists[READY]
      ensures p !in k.lists[CLOCK] && p != c
    {
      assert HomeOf(k.proc[p]) == READY;
    }
  }

  lemma UnsleepMid(k: K, p: Pid)
    requires Mid(k, -1, true) && 0 < p && HomeOf(k.proc[p]) == CLOCK
    ensures Mid(SetState(Unsleep(k, p), p, Susp), -1, true)
  {
    hide Without;
    hide Handover;
    hide Ascending;
    var s := k.lists[CLOCK];
    UnlistListed(k, p, k.proc[p].(state := Susp), CLOCK);
    DeltaRemoved(s, k.key, p);
    ReadyNotAsleep(k);
    SameKeys(k.lists[READY], k.key, Handover(s, k.key, p));
  }

  lemma ReadyNotAsleep(k: K)
    requires Shaped(k) && Listed(k)
    ensures forall p: Pid :: p in k.lists[READY] ==> p !in k.lists[CLOCK]
    ensures NoDup(k.lists[CLOCK])
  {
    forall p: Pid | p in k.lists[READY]
      ensures p !in k.lists[CLOCK]
    {
      assert HomeOf(k.proc[p]) == READY;
    }
  }

  lemma {:induction false} WakeDueMid(k: K)
    requires Mid(k, -1, false)
    ensures var k' := WakeDue(k);
            Mid(k', -1, false) && (k'.lists[CLOCK] != [] ==> k'.key[k'.lists[CLOCK][0]] > 0)
    decreases |k.lists[CLOCK]|
  {
    hide ReadyFirst;
    hide Mid;
    assert Shaped(k) by {
      MidShaped(k, -1, false);
    }
    if k.lists[CLOCK] != [] && k.key[k.lists[CLOCK][0]] <= 0 {
      ReadyFirstMid(k, CLOCK, -1, false);
      WakeDueMid(ReadyFirst(k, CLOCK));
    }
  }

  lemma MidShaped(k: K, x: int, top: bool)
    requires Mid(k, x, top)
    ensures Shaped(k)
  {
  }

  lemma WakeupInv(k: K)
    requires Mid(k, -1, false)
    ensures Inv(Wakeup(k))
  {
    hide WakeDue;
    WakeDueMid(k);
    assert Mid(Retop(WakeDue(k)), -1, true);
    ReschedInv(Retop(WakeDue(k)));
  }

  /** Changing only the keys of sleepers. */
  lemma ClockKeys(k: K, key: seq<int>)
    requires Mid(k, -1, false) && |key| == NPROC && KeysNat(k.lists[CLOCK], key)
    requires forall q: Pid :: q !in k.lists[CLOCK] ==> key[q] == k.key[q]
    ensures Mid(k.(key := key), -1, false)
  {
    ReadyNotAsleep(k);
    SameKeys(k.lists[READY], k.key, key);
  }

  /** Fields that no part of the invariant looks at. */
  ghost predicate SameCore(k: K, k': K) {
    && k' == k.(proc := k'.proc, nextproc := k'.nextproc, nextsem := k'.nextsem, preempt := k'.preempt,
                defclk := k'.defclk, clkdiff := k'.clkdiff, count100 := k'.count100)
    && Shaped(k) && Shaped(k')
    && forall p: Pid :: k'.proc[p].state == k.proc[p].state && k'.proc[p].prio == k.proc[p].prio
                        && k'.proc[p].sem == k.proc[p].sem
  }

  lemma SameCoreMid(k: K, k': K, x: int, top: bool)
    requires SameCore(k, k') && Mid(k, x, top)
    ensures Mid(k', x, top) && (Inv(k) ==> Inv(k'))
  {
  }

  lemma CountDownInv(k: K)
    requires Inv(k)
    ensures Inv(CountDown(k))
  {
    hide Wakeup;
    hide Ascending;
    if k.slnempty {
      var key := k.key[k.sltop := k.key[k.sltop] - 1];
      ClockKeys(k, key);
      if key[k.sltop] == 0 {
        WakeupInv(k.(key := key));
      }
    }
  }

  lemma SliceInv(k: K)
    requires Inv(k)
    ensures Inv(SliceTick(k)) && Inv(SliceEnd(k))
  {
    hide Resched;
    hide Inv;
    InvMid(k);
    SameCoreMid(k, k.(preempt := k.preempt - 1), -1, true);
    ReschedInv(k.(preempt := k.preempt - 1));
    ReschedInv(k);
  }

  lemma ClockInv(k: K)
    requires Inv(k)
    ensures Inv(ClockCall(k))
  {
    hide CountDown;
    hide SliceTick;
    hide Inv;
    InvMid(k);
    SameCoreMid(k, k.(count100 := k.count100 + 1), -1, true);
    SameCoreMid(k, k.(count100 := 0), -1, true);
    CountDownInv(k.(count100 := 0));
    SliceInv(CountDown(k.(count100 := 0)));
  }

  lemma InvMid(k: K)
    requires Inv(k)
    ensures Mid(k, -1, true) && Mid(k, -1, false) && Shaped(k) && HomeOf(k.proc[k.curr]) == -1
    ensures k.proc[k.curr].state == Curr
  {
  }

  lemma CatchUpInv(k: K, m: nat)
    requires Inv(k)
    ensures Inv(CatchUp(k, m))
  {
    hide Wakeup;
    hide MakeUp;
    hide Inv;
    InvMid(k);
    ReadyNotAsleep(k);
    RemainingMakeUp(k.lists[CLOCK], k.key, m);
    var key := MakeUp(k.lists[CLOCK], k.key, m);
    ClockKeys(k, key);
    WakeupInv(k.(key := key));
  }

  lemma StrtClkInv(k: K)
    requires Inv(k)
    ensures Inv(StrtClkCall(k))
  {
    hide CatchUp;
    hide SliceEnd;
    hide Inv;
    InvMid(k);
    SameCoreMid(k, k.(defclk := k.defclk - 1), -1, true);
    var k1 := k.(defclk := 0, preempt := k.preempt - k.clkdiff, clkdiff := 0);
    SameCoreMid(k, k1, -1, true);
    CatchUpInv(k1, k.clkdiff);
    SliceInv(CatchUp(k1, k.clkdiff));
  }

  // ----- the system calls -----

  /** A change that does not touch who runs, and makes nobody ready. */
  lemma InvFromMid(k: K, k': K)
    requires Inv(k) && Mid(k', -1, true) && k'.curr == k.curr && k'.proc[k.curr] == k.proc[k.curr]
    requires forall p: Pid :: p in k'.lists[READY] ==> p in k.lists[READY] && k'.proc[p].prio == k.proc[p].prio
    ensures Inv(k')
  {
  }

  lemma WaitInv(k: K, s: int)
    requires Inv(k) && k.curr != NULLPROC
    ensures Inv(WaitCall(k, s))
  {
    hide Resched;
    hide Block;
    if !BadSem(s) && k.sem[s].used {
      assert CountOk(k.sem[s], |k.lists[s]|);
      if k.sem[s].cnt - 1 < 0 {
        BlockMid(k, s);
        ReschedInv(Block(SetCount(k, s, k.sem[s].cnt - 1), s));
      } else {
        SetCountMid(k, s, k.sem[s].cnt - 1, -1, true);
      }
    }
  }

  lemma SignalInv(k: K, s: int, n: int)
    requires Inv(k)
    ensures Inv(SignalCall(k, s)) && Inv(SignalNCall(k, s, n))
  {
    hide Resched;
    hide ReadyFirst;
    hide SignalTimes;
    if !BadSem(s) && k.sem[s].used {
      SignalOnceMid(k, s);
      if k.sem[s].cnt < 0 {
        ReschedInv(SignalOnce(k, s));
      }
      if n > 0 {
        SignalTimesMid(k, s, n);
        ReschedInv(SignalTimes(k, s, n));
      }
    }
  }

  lemma SDeleteInv(k: K, s: int)
    requires Inv(k)
    ensures Inv(SDeleteCall(k, s))
  {
    hide Resched;
    hide Drain;
    if !BadSem(s) && k.sem[s].used {
      SDeleteMid(k, s);
      ReschedInv(Drain(k.(sem := k.sem[s := k.sem[s].(used := false)]), s));
    }
  }

  lemma SResetInv(k: K, s: int, n: int)
    requires Inv(k)
    ensures Inv(SResetCall(k, s, n))
  {
    hide Resched;
    hide Drain;
    if !BadSem(s) && k.sem[s].used && n >= 0 {
      SResetMid(k, s, n);
      ReschedInv(SetCount(Drain(k, s), s, n));
    }
  }

  /** newsem: the slot found is free; when none is found, the n slots from next downwards, wrapping to
      the top of the table, are all in use. */
  lemma {:induction false} SearchSemFinds(sem: seq<SEntry>, next: int, n: nat)
    requires |sem| == NSEM && 0 <= next < NSEM && n <= NSEM
    ensures var s := SearchSem(sem, next, n).0;
            && (s >= 0 ==> !sem[s].used)
            && (s < 0 ==> forall t :: 0 <= t < NSEM && (next - n < t <= next || t > next - n + NSEM) ==> sem[t].used)
    decreases n
  {
    if n > 0 && sem[next].used {
      SearchSemFinds(sem, if next - 1 < 0 then NSEM - 1 else next - 1, n - 1);
    }
  }

  /** screate fails only for a negative count or when all semaphores are in use. */
  lemma SCreateFails(k: K)
    requires Shaped(k)
    ensures SearchSem(k.sem, k.nextsem, NSEM).0 < 0 <==> forall s :: 0 <= s < NSEM ==> k.sem[s].used
  {
    SearchSemFinds(k.sem, k.nextsem, NSEM);
  }

  lemma SCreateInv(k: K, cnt: int)
    requires Inv(k)
    ensures Inv(SCreateCall(k, cnt))
  {
    hide SearchSem;
    if cnt >= 0 {
      SearchSemFinds(k.sem, k.nextsem, NSEM);
      var s := SearchSem(k.sem, k.nextsem, NSEM).0;
      if s >= 0 {
        assert CountOk(k.sem[s], |k.lists[s]|);
      }
    }
  }

  /** newpid, in the same way. */
  lemma {:induction false} SearchPidFinds(proc: seq<PEntry>, next: Pid, n: nat)
    requires |proc| == NPROC && n <= NPROC
    ensures var p := SearchPid(proc, next, n).0;
            && -1 <= p < NPROC && (p >= 0 ==> proc[p].state == Free)
            && (p < 0 ==> forall t: Pid :: next - n < t <= next || t > next - n + NPROC ==> proc[t].state != Free)
    decreases n
  {
    if n > 0 && proc[next].state != Free {
      SearchPidFinds(proc, if next <= 0 then NPROC - 1 else next - 1, n - 1);
    }
  }

  /** create finds no slot only when every process number is taken. */
  lemma CreateFails(k: K)
    requires Shaped(k)
    ensures SearchPid(k.proc, k.nextproc, NPROC).0 < 0 <==> forall p: Pid :: k.proc[p].state != Free
  {
    SearchPidFinds(k.proc, k.nextproc, NPROC);
  }

  /** A free slot becomes a suspended process. */
  lemma Born(k: K, p: Pid, e: PEntry)
    requires Inv(k) && 0 < p && k.proc[p].state == Free && e.state == Susp && 0 < e.prio <= MAXINT
    ensures Inv(SetProc(k, p, e))
  {
  }

  lemma CreateInv(k: K, stack: bool, even: bool, prio: int)
    requires Inv(k) && prio <= MAXINT
    ensures Inv(CreateCall(k, stack, even, prio))
  {
    hide Inv;
    hide SearchPid;
    InvMid(k);
    var (p, next) := SearchPid(k.proc, k.nextproc, NPROC);
    SearchPidFinds(k.proc, k.nextproc, NPROC);
    SameCoreMid(k, k.(nextproc := next), -1, true);
    if 0 <= p < NPROC && prio >= 1 {
      NullNotFree(k);
      Born(k.(nextproc := next), p, PEntry(Susp, prio, 0, 0, k.proc[p].msg, -1));
    }
  }

  lemma NullNotFree(k: K)
    requires Inv(k)
    ensures k.proc[NULLPROC].state != Free
  {
  }

  lemma ResumeInv(k: K, p: int)
    requires Inv(k)
    ensures Inv(ResumeCall(k, p))
  {
    hide Resched;
    hide InsertReady;
    if !BadPid(p) && k.proc[p].state == Susp {
      EnlistReady(k, p, -1, true);
      ReschedInv(MakeReady(k, p));
    }
  }

  lemma SuspendInv(k: K, p: int)
    requires Inv(k)
    ensures Inv(SuspendCall(k, p))
  {
    hide Resched;
    hide Without;
    if !BadPid(p) && k.proc[p].state == Curr {
      SetUnlisted(k, p, Susp, -1, true);
      ReschedInv(SetState(k, p, Susp));
    } else if !BadPid(p) && k.proc[p].state == Ready {
      Unlist(k, p, -1, true);
      var k' := SetState(SetList(k, READY, Without(k.lists[READY], p)), p, Susp);
      assert SuspendCall(k, p) == k';
      ListedNoDup(k, READY);
      WithoutMembers(k.lists[READY], p);
      InvFromMid(k, k');
    }
  }

  lemma SetPrioMid(k: K, p: Pid, prio: int)
    requires Mid(k, -1, true) && 0 < p && 0 < prio <= MAXINT && k.proc[p].state != Ready
    ensures Mid(SetProc(k, p, k.proc[p].(prio := prio)), -1, true)
    ensures Inv(k) && p != k.curr ==> Inv(SetProc(k, p, k.proc[p].(prio := prio)))
  {
    assert p !in k.lists[READY];
  }

  /** A ready process re-inserted with another priority. */
  lemma ChPrioMid(k: K, p: Pid, prio: int)
    requires Inv(k) && 0 < p && 0 < prio <= MAXINT && k.proc[p].state == Ready
    ensures var k3 := SetList(SetProc(k, p, k.proc[p].(prio := prio)), READY, Without(k.lists[READY], p));
            Mid(InsertReady(k3, p, prio), -1, true)
  {
    hide Without;
    hide InsertReady;
    Unlist(k, p, -1, true);
    var k1 := SetState(SetList(k, READY, Without(k.lists[READY], p)), p, Susp);
    SetPrioMid(k1, p, prio);
    var k2 := SetProc(k1, p, k1.proc[p].(prio := prio));
    EnlistReady(k2, p, -1, true);
    var k3 := SetList(SetProc(k, p, k.proc[p].(prio := prio)), READY, Without(k.lists[READY], p));
    assert SetState(k2, p, Ready) == k3;
  }

  lemma ChPrioInv(k: K, p: int, prio: int)
    requires Inv(k) && prio <= MAXINT
    ensures Inv(ChPrioCall(k, p, prio))
  {
    hide Resched;
    hide Without;
    hide InsertReady;
    if !BadPid(p) && prio > 0 && k.proc[p].state != Free {
      if k.proc[p].state == Ready {
        ChPrioMid(k, p, prio);
        var k1 := SetProc(k, p, k.proc[p].(prio := prio));
        ReschedInv(InsertReady(SetList(k1, READY, Without(k.lists[READY], p)), p, prio));
      } else {
        SetPrioMid(k, p, prio);
        if k.proc[p].state == Curr {
          ReschedInv(SetProc(k, p, k.proc[p].(prio := prio)));
        }
      }
    }
  }

  lemma SendInv(k: K, p: int, msg: int)
    requires Inv(k)
    ensures Inv(SendCall(k, p, msg))
  {
    hide Resched;
    hide Unsleep;
    hide InsertReady;
    if !BadPid(p) && k.proc[p].state != Free && !k.proc[p].HasMsg() {
      var k1 := SetProc(k, p, k.proc[p].(msg := msg, msgs := 1));
      SameCoreMid(k, k1, -1, true);
      if k.proc[p].state == Recv {
        EnlistReady(k1, p, -1, true);
        ReschedInv(MakeReady(k1, p));
      } else if k.proc[p].state == TRecv {
        UnsleepMid(k1, p);
        var k2 := SetState(Unsleep(k1, p), p, Susp);
        EnlistReady(k2, p, -1, true);
        assert SetState(k2, p, Ready) == SetState(Unsleep(k1, p), p, Ready);
        assert MakeReady(Unsleep(k1, p), p) == InsertReady(SetState(k2, p, Ready), p, k2.proc[p].prio);
        ReschedInv(MakeReady(Unsleep(k1, p), p));
      }
    }
  }

  lemma SendFInv(k: K, p: int, msg: int)
    requires Inv(k)
    ensures Inv(SendFCall(k, p, msg))
  {
    hide Resched;
    hide InsertReady;
    if !BadPid(p) && k.proc[p].state != Free {
      var k1 := SetProc(k, p, k.proc[p].(msg := msg, msgs := (k.proc[p].msgs + 1) % 256));
      SameCoreMid(k, k1, -1, true);
      if k.proc[p].state == Recv {
        EnlistReady(k1, p, -1, true);
        ReschedInv(MakeReady(k1, p));
      }
    }
  }

  lemma ReceiveInv(k: K, n: int)
    requires Inv(k) && k.curr != NULLPROC
    ensures Inv(TakeMessage(k)) && Inv(ReceiveCall(k))
    ensures n != 0 || k.proc[k.curr].HasMsg() ==> Inv(RecvTimCall(k, n))
    ensures Inv(SleepCall(k, n))
  {
    hide Resched;
    hide SleepFor;
    SameCoreMid(k, TakeMessage(k), -1, true);
    SetUnlisted(k, k.curr, Recv, -1, true);
    ReschedInv(SetState(k, k.curr, Recv));
    ReschedInv(k);
    if n >= 1 {
      SleepMid(k, n, Sleep);
      SleepMid(k, n, TRecv);
      ReschedInv(SleepFor(k, k.curr, n, TRecv));
      ReschedInv(SleepFor(k, k.curr, n, Sleep));
    }
  }

  /** A timed receive keeps the invariant unless it has to wait and asks for no time at all: recvtim(0)
      leaves an entry without time left in the sleep queue, which the clock then counts below 0. */
  lemma RecvTimInv(k: K, n: int)
    requires Inv(k) && k.curr != NULLPROC
    ensures Inv(RecvTimCall(k, n)) <==> n != 0 || k.proc[k.curr].HasMsg()
  {
    hide Resched;
    hide SleepFor;
    ReceiveInv(k, n);
    if n == 0 && !k.proc[k.curr].HasMsg() {
      NoTimeLeft(k);
      var k1 := SleepFor(k, k.curr, 0, TRecv);
      DispatchKeys(k1);
      assert !Topped(Dispatch(k1));
    }
  }

  lemma NoTimeLeft(k: K)
    requires Inv(k)
    ensures var k1 := SleepFor(k, k.curr, 0, TRecv);
            k1.lists[CLOCK] != [] && k1.key[k1.lists[CLOCK][0]] == 0 && k1.proc[k1.curr].state == TRecv
  {
    var s := k.lists[CLOCK];
    assert s != [] ==> s[0] in s;
  }

  lemma DispatchKeys(k: K)
    requires Shaped(k) && k.proc[k.curr].state != Curr
    ensures Resched(k) == Dispatch(k) && Dispatch(k).key == k.key && Dispatch(k).lists[CLOCK] == k.lists[CLOCK]
  {
  }

  /** unsleep by itself keeps the invariant if and only if it does nothing: a sleeper that is taken off the
      queue keeps the state of one that is on it. */
  lemma UnsleepInv(k: K, p: int)
    requires Inv(k)
    ensures Inv(UnsleepCall(k, p)) <==> BadPid(p) || (k.proc[p].state != Sleep && k.proc[p].state != TRecv)
  {
    hide Handover;
    hide Without;
    if !BadPid(p) && (k.proc[p].state == Sleep || k.proc[p].state == TRecv) {
      InvMid(k);
      ListedNoDup(k, CLOCK);
      WithoutMembers(k.lists[CLOCK], p);
      var k' := Unsleep(k, p);
      assert p !in k'.lists[CLOCK] && HomeOf(k'.proc[p]) == CLOCK;
      assert !Listed(k');
    }
  }

  /** A killed waiter, off its semaphore's list, whose count has been raised for it. */
  function Unwaited(k: K, p: Pid): (r: K)
    requires Shaped(k) && !BadSem(k.proc[p].sem)
    ensures Shaped(r)
  {
    var s := k.proc[p].sem;
    SetState(SetList(SetCount(k, s, k.sem[s].cnt + 1), s, Without(k.lists[s], p)), p, Susp)
  }

  lemma UnwaitedMid(k: K, p: Pid)
    requires Inv(k) && 0 < p && k.proc[p].state == Wait
    ensures Mid(Unwaited(k, p), k.proc[p].sem, true)
    ensures CountOk(Unwaited(k, p).sem[k.proc[p].sem], |Unwaited(k, p).lists[k.proc[p].sem]|)
  {
    hide Without;
    var s := k.proc[p].sem;
    assert CountOk(k.sem[s], |k.lists[s]|);
    SetCountMid(k, s, k.sem[s].cnt + 1, -1, true);
    Unlist(SetCount(k, s, k.sem[s].cnt + 1), p, s, true);
    UnlistListed(k, p, k.proc[p].(state := Susp), s);
  }

  lemma KillWaiting(k: K, p: Pid)
    requires Inv(k) && 0 < p && k.proc[p].state == Wait
    ensures Inv(KillFinishCall(k, p))
  {
    hide Without;
    hide CountOk;
    UnwaitedMid(k, p);
    var s := k.proc[p].sem;
    var k2 := Unwaited(k, p);
    SetCountMid(k2, s, k2.sem[s].cnt, s, true);
    assert SetCount(k2, s, k2.sem[s].cnt) == k2;
    SetUnlisted(k2, p, Free, -1, true);
    assert KillFinishCall(k, p) == SetState(k2, p, Free);
    InvFromMid(k, SetState(k2, p, Free));
  }

  lemma KillOthers(k: K, p: Pid)
    requires Inv(k) && 0 < p && (k.proc[p].state == Ready || HomeOf(k.proc[p]) == CLOCK)
    ensures Inv(KillFinishCall(k, p))
  {
    hide Without;
    hide Unsleep;
    var k1;
    if k.proc[p].state == Ready {
      Unlist(k, p, -1, true);
      k1 := SetList(k, READY, Without(k.lists[READY], p));
      ListedNoDup(k, READY);
      WithoutMembers(k.lists[READY], p);
    } else {
      UnsleepMid(k, p);
      k1 := Unsleep(k, p);
      UnsleepFrame(k, p);
    }
    var k2 := SetState(k1, p, Susp);
    SetUnlisted(k2, p, Free, -1, true);
    assert KillFinishCall(k, p) == SetState(k2, p, Free);
    InvFromMid(k, SetState(k2, p, Free));
  }

  lemma UnsleepFrame(k: K, p: Pid)
    requires Shaped(k)
    ensures Unsleep(k, p).lists[READY] == k.lists[READY] && Unsleep(k, p).proc == k.proc && Unsleep(k, p).curr == k.curr
    ensures Unsleep(k, p).sem == k.sem
  {
  }

  lemma KillFinishInv(k: K, p: int)
    requires Inv(k)
    ensures Inv(KillFinishCall(k, p))
  {
    hide Resched;
    hide Unsleep;
    hide Without;
    if !BadPid(p) {
      match k.proc[p].state
      case Curr => SetUnlisted(k, p, Free, -1, true); ReschedInv(SetState(k, p, Free));
      case Wait => KillWaiting(k, p);
      case Ready => KillOthers(k, p);
      case Sleep => KillOthers(k, p);
      case TRecv => KillOthers(k, p);
      case Free => assert SetState(k, p, Free) == k;
      case _ => SetUnlisted(k, p, Free, -1, true);
    }
  }

  /** The kernel-wide theorem: every call that changes processes, semaphores or lists, and every clock
      interrupt, keeps the invariant. */
  lemma StepKeepsInv(k: K, c: Call)
    requires Inv(k) && Enabled(k, c)
    ensures Inv(Next(k, c))
  {
    hide Inv;
    hide Mid;
    hide WaitCall;
    hide SignalCall;
    hide SignalNCall;
    hide SDeleteCall;
    hide SResetCall;
    hide SCreateCall;
    hide CreateCall;
    hide SuspendCall;
    hide ChPrioCall;
    hide SendCall;
    hide SendFCall;
    hide UnsleepCall;
    hide KillFinishCall;
    hide StrtClkCall;
    hide ClockCall;
    hide SliceEnd;
    hide SliceTick;
    InvMid(k);
    match c
    case DoWait(s) => WaitInv(k, s);
    case DoSignal(s) => SignalInv(k, s, 0);
    case DoSignalN(s, n) => SignalInv(k, s, n);
    case DoSCreate(cnt) => SCreateInv(k, cnt);
    case DoSDelete(s) => SDeleteInv(k, s);
    case DoSReset(s, n) => SResetInv(k, s, n);
    case DoCreate(stack, even, prio) => CreateInv(k, stack, even, prio);
    case DoResume(p) => ResumeInv(k, p);
    case DoSuspend(p) => SuspendInv(k, p);
    case DoChPrio(p, prio) => ChPrioInv(k, p, prio);
    case DoSend(p, msg) => SendInv(k, p, msg);
    case DoSendF(p, msg) => SendFInv(k, p, msg);
    case DoReceive => ReceiveInv(k, 0);
    case DoRecvTim(n) => ReceiveInv(k, n);
    case TakeMsg => SameCoreMid(k, TakeMessage(k), -1, true);
    case DoSleep10(n) => ReceiveInv(k, n);
    case DoUnsleep(p) => UnsleepInv(k, p);
    case DoSetNok(nok, p) => SameCoreMid(k, SetNokCall(k, nok, p), -1, true);
    case KillSend(p) => if !BadPid(p) { SendInv(k, k.proc[p].nxtkin, p); }
    case KillFinish(p) => KillFinishInv(k, p);
    case DoStopClk => SameCoreMid(k, Next(k, c), -1, true);
    case DoStrtClk => StrtClkInv(k);
    case StrtClkRest => SliceInv(k);
    case ClockInterrupt => ClockInv(k);
    case ClockRest => SliceInv(k);
  }
}
