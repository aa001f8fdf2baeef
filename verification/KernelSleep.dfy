/** The sleep queue: a sleeper wakes on exactly the tick it asked for. And, over all calls, exactly who
    can run after a step. */
module KernelSleep {
  import opened KernelSpec
  import opened KernelLists
  import opened KernelInv
  import opened KernelRuns
  import opened KernelEffects

  predicate Asleep(k: K, p: Pid)
    requires Shaped(k)
  {
    p in k.lists[CLOCK]
  }

  /** Ticks until p wakes. */
  function Left(k: K, p: Pid): int
    requires Shaped(k)
  {
    Remaining(k.lists[CLOCK], k.key, p)
  }

  /** Sleep queue ticks that a step accounts for. */
  function Ticks(k: K, c: Call): nat {
    if c.ClockInterrupt? && k.count100 + 1 == 10 then 1
    else if c.DoStrtClk? && k.defclk == 1 then k.clkdiff
    else 0
  }

  /** p is in a timed receive and no message has come, be it by sendf, which leaves it asleep. */
  predicate Expects(k: K, p: Pid)
    requires Shaped(k)
  {
    k.proc[p].state == TRecv && !k.proc[p].HasMsg()
  }

  /** Steps that take p off the sleep queue for another reason than time: its death, or a message when
      it is in a timed receive. */
  predicate Evicts(k: K, c: Call, p: Pid)
    requires Shaped(k)
  {
    || (c.KillFinish? && c.p == p)
    || (Expects(k, p) && c.DoSend? && c.p == p)
    || (Expects(k, p) && c.KillSend? && !BadPid(c.p) && k.proc[c.p].state != Free && k.proc[c.p].nxtkin == p)
  }

  /** The queue, its keys and the states of its processes are unchanged. */
  ghost predicate SameClock(k: K, k': K) {
    && Shaped(k) && Shaped(k') && k'.lists[CLOCK] == k.lists[CLOCK]
    && forall p: Pid :: p in k.lists[CLOCK] ==> k'.key[p] == k.key[p] && k'.proc[p].state == k.proc[p].state
  }

  lemma SameLeft(k: K, k': K, p: Pid)
    requires SameClock(k, k')
    ensures Left(k', p) == Left(k, p)
  {
    RemainingSame(k.lists[CLOCK], k.key, k'.key, p);
  }

  lemma DispatchClock(k: K)
    requires Mid(k, -1, false)
    ensures SameClock(k, Dispatch(k))
  {
    ReadyNotAsleep(k);
    var s := k.lists[READY];
    if s != [] {
      assert s[|s| - 1] in s;
    }
  }

  lemma ReschedClock(k: K)
    requires Mid(k, -1, false)
    ensures SameClock(k, Resched(k))
  {
    hide Mid;
    hide Dispatch;
    MidShaped(k, -1, false);
    ClockFacts(k);
    DispatchClock(k);
    if k.proc[k.curr].state == Curr {
      EnlistReady(k, k.curr, -1, false);
      DispatchClock(InsertReady(SetState(k, k.curr, Ready), k.curr, k.proc[k.curr].prio));
    }
  }

  lemma ReadyFirstClock(k: K, l: int, x: int, top: bool)
    requires Mid(k, x, top) && 0 <= l < NSEM && x == l && k.lists[l] != []
    ensures SameClock(k, ReadyFirst(k, l))
  {
    FirstIsListed(k, l, x, top);
    assert k.lists[l][0] !in k.lists[CLOCK];
  }

  lemma {:induction false} DrainClock(k: K, s: int)
    requires Mid(k, s, true) && 0 <= s < NSEM
    ensures SameClock(k, Drain(k, s))
    decreases |k.lists[s]|
  {
    hide ReadyFirst;
    hide Mid;
    MidShaped(k, s, true);
    if k.lists[s] != [] {
      ReadyFirstClock(k, s, s, true);
      ReadyFirstMid(k, s, s, true);
      DrainClock(ReadyFirst(k, s), s);
    }
  }

  lemma {:induction false} SignalTimesClock(k: K, s: int, n: nat)
    requires Mid(k, -1, true) && 0 <= s < NSEM && k.sem[s].used
    ensures SameClock(k, SignalTimes(k, s, n))
    decreases n
  {
    hide ReadyFirst;
    hide Mid;
    MidShaped(k, -1, true);
    if n > 0 {
      SignalOnceMid(k, s);
      SetCountMid(k, s, k.sem[s].cnt + 1, -1, true);
      var k1 := SetCount(k, s, k.sem[s].cnt + 1);
      if k1.lists[s] != [] {
        ReadyFirstClock(k1, s, s, true);
      } else {
        ReadyFirstNone(k1, s);
      }
      SignalTimesClock(SignalOnce(k, s), s, n - 1);
    }
  }

  lemma ReadyFirstNone(k: K, s: int)
    requires Shaped(k) && 0 <= s < NSEM && k.lists[s] == []
    ensures ReadyFirst(k, s) == k
  {
  }

  // ----- waking -----

  /** wakeup removes exactly those with no time left. */
  lemma {:induction false} WakeDueLeft(k: K, p: Pid)
    requires Mid(k, -1, false)
    ensures var k' := WakeDue(k);
            && (Asleep(k', p) <==> Asleep(k, p) && Left(k, p) > 0)
            && (Asleep(k', p) ==> Left(k', p) == Left(k, p) && k'.proc[p].state == k.proc[p].state)
    decreases |k.lists[CLOCK]|
  {
    hide Mid;
    hide Listed;
    hide ReadyFirst;
    MidShaped(k, -1, false);
    ClockFacts(k);
    var s := k.lists[CLOCK];
    if s != [] {
      RemainingNat(s, k.key, p);
      if k.key[s[0]] <= 0 {
        ReadyFirstMid(k, CLOCK, -1, false);
        WakeDueLeft(ReadyFirst(k, CLOCK), p);
        WakeOne(k, p);
      }
    }
  }

  /** Who leaves the sleep queue can run; nobody else stops or starts. */
  ghost predicate Wakes(k: K, k': K) {
    && Shaped(k) && Shaped(k')
    && forall p: Pid ::
         && (Asleep(k', p) ==> Asleep(k, p))
         && (Runnable(k', p) <==> Runnable(k, p) || (Asleep(k, p) && !Asleep(k', p)))
         && (!Runnable(k', p) ==> k'.proc[p].state == k.proc[p].state)
  }

  lemma WakesMore(k: K, k1: K, k2: K)
    requires Wakes(k, k1) && Wakes(k1, k2)
    ensures Wakes(k, k2)
  {
  }

  lemma NobodyWakes(k: K)
    requires Shaped(k)
    ensures Wakes(k, k)
  {
  }

  lemma FirstWakes(k: K)
    requires Mid(k, -1, false) && k.lists[CLOCK] != []
    ensures Wakes(k, ReadyFirst(k, CLOCK))
  {
    hide ReadyFirst;
    var s := k.lists[CLOCK];
    ReadyFirstRuns(k, CLOCK, -1, false);
    ReadyFirstMid(k, CLOCK, -1, false);
    ClockFacts(k);
    NoDupTail(s);
  }

  lemma {:induction false} WakeDueWakes(k: K)
    requires Mid(k, -1, false)
    ensures Wakes(k, WakeDue(k))
    decreases |k.lists[CLOCK]|
  {
    hide Mid;
    hide ReadyFirst;
    hide Wakes;
    MidShaped(k, -1, false);
    NobodyWakes(k);
    if k.lists[CLOCK] != [] && k.key[k.lists[CLOCK][0]] <= 0 {
      FirstWakes(k);
      ReadyFirstMid(k, CLOCK, -1, false);
      WakeDueWakes(ReadyFirst(k, CLOCK));
      WakesMore(k, ReadyFirst(k, CLOCK), WakeDue(ReadyFirst(k, CLOCK)));
    }
  }

  lemma WakeupWakes(k: K)
    requires Mid(k, -1, false)
    ensures Wakes(k, Wakeup(k))
  {
    hide WakeDue;
    hide Resched;
    hide Mid;
    WakeDueWakes(k);
    WakeDueMid(k);
    var k1 := Retop(WakeDue(k));
    assert Mid(k1, -1, false) by {
      RetopMid(WakeDue(k));
    }
    ReschedWakes(k1);
    WakesMore(k, k1, Resched(k1));
  }

  lemma RetopMid(k: K)
    requires Mid(k, -1, false)
    ensures Mid(Retop(k), -1, false)
  {
  }

  lemma ReschedWakes(k: K)
    requires Mid(k, -1, false)
    ensures Wakes(k, Resched(k))
  {
    hide Resched;
    hide Mid;
    MidShaped(k, -1, false);
    ReschedRuns(k, -1, false);
    ReschedClock(k);
  }

  lemma ClockFacts(k: K)
    requires Mid(k, -1, false)
    ensures Shaped(k) && NoDup(k.lists[CLOCK]) && KeysNat(k.lists[CLOCK], k.key)
    ensures k.curr !in k.lists[CLOCK] || k.proc[k.curr].state != Curr
  {
  }

  lemma WakeOne(k: K, p: Pid)
    requires Mid(k, -1, false) && k.lists[CLOCK] != [] && k.key[k.lists[CLOCK][0]] == 0
    ensures var k' := ReadyFirst(k, CLOCK);
            && (Asleep(k', p) <==> Asleep(k, p) && p != k.lists[CLOCK][0])
            && (Asleep(k', p) ==> Left(k', p) == Left(k, p) && k'.proc[p].state == k.proc[p].state)
            && (p == k.lists[CLOCK][0] ==> Left(k, p) == 0)
  {
    var s := k.lists[CLOCK];
    ReadyFirstMid(k, CLOCK, -1, false);
    NoDupTail(s);
    var k' := ReadyFirst(k, CLOCK);
    if p in s[1..] {
      RemainingSame(s[1..], k.key, k'.key, p);
    }
  }

  lemma WakeupLeft(k: K, p: Pid)
    requires Mid(k, -1, false)
    ensures var k' := Wakeup(k);
            && (Asleep(k', p) <==> Asleep(k, p) && Left(k, p) > 0)
            && (Asleep(k', p) ==> Left(k', p) == Left(k, p) && k'.proc[p].state == k.proc[p].state)
  {
    hide WakeDue;
    hide Resched;
    WakeDueLeft(k, p);
    WakeDueMid(k);
    var k1 := Retop(WakeDue(k));
    assert Mid(k1, -1, false);
    ReschedClock(k1);
    SameLeft(k1, Resched(k1), p);
  }

  // ----- single steps -----

  /** After the step p sleeps on if it has more time left than the step's ticks, and can run if not. */
  ghost predicate SleepsOn(k: K, c: Call, p: Pid, k': K) {
    && Shaped(k) && Shaped(k')
    && (Asleep(k', p) <==> Left(k, p) > Ticks(k, c))
    && (Asleep(k', p) ==> Left(k', p) == Left(k, p) - Ticks(k, c) && k'.proc[p].state == k.proc[p].state)
    && (!Asleep(k', p) ==> Runnable(k', p))
  }

  lemma LeftPositive(k: K, p: Pid)
    requires Inv(k) && Asleep(k, p)
    ensures Left(k, p) > 0
  {
    RemainingNat(k.lists[CLOCK], k.key, p);
  }

  lemma SameClockSleepsOn(k: K, c: Call, p: Pid, k': K)
    requires Inv(k) && Asleep(k, p) && SameClock(k, k') && Ticks(k, c) == 0
    ensures SleepsOn(k, c, p, k')
  {
    LeftPositive(k, p);
    SameLeft(k, k', p);
  }

  lemma SliceClock(k: K)
    requires Inv(k)
    ensures SameClock(k, SliceTick(k)) && SameClock(k, SliceEnd(k))
  {
    hide Resched;
    InvMid(k);
    var k1 := k.(preempt := k.preempt - 1);
    SameCoreMid(k, k1, -1, false);
    ReschedClock(k1);
    ReschedClock(k);
  }

  /** What one tick does to a sleeper, or several made up at once. */
  ghost predicate TicksPass(k: K, p: Pid, m: int, k': K) {
    && Shaped(k) && Shaped(k')
    && (Asleep(k', p) <==> Left(k, p) > m)
    && (Asleep(k', p) ==> Left(k', p) == Left(k, p) - m && k'.proc[p].state == k.proc[p].state)
    && (!Asleep(k', p) ==> Runnable(k', p))
  }

  lemma TicksPassOn(k: K, p: Pid, m: int, k1: K, k2: K)
    requires Inv(k1) && TicksPass(k, p, m, k1) && (k2 == SliceTick(k1) || k2 == SliceEnd(k1))
    ensures TicksPass(k, p, m, k2)
  {
    hide SliceTick;
    hide SliceEnd;
    SliceClock(k1);
    SliceRuns(k1);
    SameLeft(k1, k2, p);
  }

  lemma SliceRuns(k: K)
    requires Inv(k)
    ensures Readies(k, SliceTick(k), []) && Readies(k, SliceEnd(k), [])
  {
    hide Resched;
    hide Mid;
    InvMid(k);
    var k1 := k.(preempt := k.preempt - 1);
    SameCoreMid(k, k1, -1, true);
    Unchanged(k1);
    CountSame(k, k1, k1, []);
    AndResched(k, k1, []);
    Unchanged(k);
    AndResched(k, k, []);
  }

  lemma ClockSleepsOn(k: K, p: Pid)
    requires Inv(k) && Asleep(k, p)
    ensures SleepsOn(k, ClockInterrupt, p, ClockCall(k))
  {
    hide SliceTick;
    hide CountDown;
    hide Inv;
    hide Left;
    LeftPositive(k, p);
    InvMid(k);
    if k.count100 + 1 == 10 {
      var k0 := k.(count100 := 0);
      SameCoreMid(k, k0, -1, true);
      SameClockLeft(k, k0, p);
      CountDownLeft(k0, p);
      CountDownInv(k0);
      TicksPassOn(k0, p, 1, CountDown(k0), SliceTick(CountDown(k0)));
    } else {
      SameClockLeft(k, ClockCall(k), p);
    }
  }

  lemma SameClockLeft(k: K, k': K, p: Pid)
    requires Shaped(k) && Shaped(k') && k'.lists == k.lists && k'.key == k.key
    ensures Left(k', p) == Left(k, p) && Asleep(k', p) == Asleep(k, p)
  {
  }

  lemma CountDownLeft(k: K, p: Pid)
    requires Inv(k) && Asleep(k, p)
    ensures TicksPass(k, p, 1, CountDown(k))
  {
    hide Wakeup;
    hide Ascending;
    var s := k.lists[CLOCK];
    var key := k.key[k.sltop := k.key[k.sltop] - 1];
    ClockKeys(k, key);
    RemainingTick(s, k.key, p);
    if key[k.sltop] == 0 {
      WakeupLeft(k.(key := key), p);
      WakeupWakes(k.(key := key));
    } else {
      RemainingNat(s, key, p);
    }
  }

  lemma CatchUpLeft(k: K, p: Pid, m: nat)
    requires Inv(k) && Asleep(k, p)
    ensures TicksPass(k, p, m, CatchUp(k, m))
  {
    hide Wakeup;
    hide MakeUp;
    hide Mid;
    InvMid(k);
    LeftPositive(k, p);
    ClockFacts(k);
    RemainingMakeUp(k.lists[CLOCK], k.key, m);
    var k2 := k.(key := MakeUp(k.lists[CLOCK], k.key, m));
    ClockKeys(k, k2.key);
    WakeupLeft(k2, p);
    WakeupWakes(k2);
    AsleepTopped(k, p);
  }

  lemma StrtClkSleepsOn(k: K, p: Pid)
    requires Inv(k) && Asleep(k, p)
    ensures SleepsOn(k, DoStrtClk, p, StrtClkCall(k))
  {
    hide SliceEnd;
    hide CatchUp;
    hide Inv;
    hide Left;
    LeftPositive(k, p);
    InvMid(k);
    if k.defclk == 1 {
      var k1 := k.(defclk := 0, preempt := k.preempt - k.clkdiff, clkdiff := 0);
      SameCoreMid(k, k1, -1, true);
      SameClockLeft(k, k1, p);
      CatchUpLeft(k1, p, k.clkdiff);
      CatchUpInv(k1, k.clkdiff);
      TicksPassOn(k1, p, k.clkdiff, CatchUp(k1, k.clkdiff), SliceEnd(CatchUp(k1, k.clkdiff)));
    } else {
      SameClockLeft(k, StrtClkCall(k), p);
    }
  }

  lemma AsleepTopped(k: K, p: Pid)
    requires Inv(k) && Asleep(k, p)
    ensures k.slnempty
  {
  }

  /** Someone else going to sleep. */
  lemma OthersSleep(k: K, n: int, st: PState, p: Pid)
    requires Inv(k) && Asleep(k, p) && k.curr != NULLPROC && n >= 1 && (st == Sleep || st == TRecv)
    ensures var k' := Resched(SleepFor(k, k.curr, n, st));
            Asleep(k', p) && Left(k', p) == Left(k, p) && k'.proc[p].state == k.proc[p].state
  {
    hide Resched;
    hide DeltaKeys;
    hide DeltaPlace;
    hide InsertAt;
    var s := k.lists[CLOCK];
    assert k.curr !in s;
    DeltaInserted(s, k.key, k.curr, n);
    SleepMid(k, n, st);
    var k1 := SleepFor(k, k.curr, n, st);
    ReschedClock(k1);
    SameLeft(k1, Resched(k1), p);
  }

  /** A process that goes to sleep for n ticks has n ticks left. */
  lemma GoesToSleep(k: K, n: int, st: PState)
    requires Inv(k) && k.curr != NULLPROC && n >= 1 && (st == Sleep || st == TRecv)
    ensures var k' := Resched(SleepFor(k, k.curr, n, st));
            Asleep(k', k.curr) && Left(k', k.curr) == n && k'.proc[k.curr].state == st
  {
    hide Resched;
    hide DeltaKeys;
    hide DeltaPlace;
    hide InsertAt;
    var s := k.lists[CLOCK];
    assert k.curr !in s;
    DeltaInserted(s, k.key, k.curr, n);
    SleepMid(k, n, st);
    var k1 := SleepFor(k, k.curr, n, st);
    ReschedClock(k1);
    SameLeft(k1, Resched(k1), k.curr);
  }

  /** Someone else leaving early. */
  lemma OthersUnsleep(k: K, q: Pid, p: Pid)
    requires Mid(k, -1, true) && Asleep(k, p) && Asleep(k, q) && p != q && 0 < q
    ensures var k' := Unsleep(k, q);
            Asleep(k', p) && Left(k', p) == Left(k, p) && !Asleep(k', q) && k'.proc == k.proc && k'.curr == k.curr
  {
    hide Handover;
    hide Without;
    ListedNoDup(k, CLOCK);
    WithoutMembers(k.lists[CLOCK], q);
    DeltaRemoved(k.lists[CLOCK], k.key, q);
  }

  lemma MessageStored(k: K, q: Pid, msg: int, n: nat, p: Pid)
    requires Inv(k)
    ensures var k1 := SetProc(k, q, k.proc[q].(msg := msg, msgs := n));
            Mid(k1, -1, true) && k1.proc[q].state == k.proc[q].state && k1.proc[p].state == k.proc[p].state
            && Asleep(k1, p) == Asleep(k, p) && Left(k1, p) == Left(k, p)
  {
    hide Mid;
    InvMid(k);
    SameCoreMid(k, SetProc(k, q, k.proc[q].(msg := msg, msgs := n)), -1, true);
  }

  lemma SendSleepsOn(k: K, c: Call, q: int, msg: int, p: Pid)
    requires Inv(k) && Asleep(k, p) && Ticks(k, c) == 0
    requires q == p ==> !Expects(k, p)
    ensures SleepsOn(k, c, p, SendCall(k, q, msg))
  {
    hide Resched;
    hide Unsleep;
    hide MakeReady;
    hide Inv;
    hide Mid;
    hide Left;
    LeftPositive(k, p);
    InvMid(k);
    if !BadPid(q) && !k.proc[q].HasMsg() {
      MessageStored(k, q, msg, 1, p);
      var k1 := SetProc(k, q, k.proc[q].(msg := msg, msgs := 1));
      if k.proc[q].state == Recv {
        SendWaiting(k1, q, p);
      } else if k.proc[q].state == TRecv {
        SendTimed(k1, q, p);
      }
    }
  }

  lemma SendFSleepsOn(k: K, q: int, msg: int, p: Pid)
    requires Inv(k) && Asleep(k, p)
    ensures SleepsOn(k, DoSendF(q, msg), p, SendFCall(k, q, msg))
  {
    hide Resched;
    hide MakeReady;
    hide Inv;
    hide Mid;
    hide Left;
    LeftPositive(k, p);
    InvMid(k);
    if !BadPid(q) {
      var n := (k.proc[q].msgs + 1) % 256;
      MessageStored(k, q, msg, n, p);
      if k.proc[q].state == Recv {
        SendWaiting(SetProc(k, q, k.proc[q].(msg := msg, msgs := n)), q, p);
      }
    }
  }

  lemma SendWaiting(k: K, q: Pid, p: Pid)
    requires Mid(k, -1, true) && 0 < q && k.proc[q].state == Recv && Asleep(k, p)
    ensures var k' := Resched(MakeReady(k, q));
            Asleep(k', p) && Left(k', p) == Left(k, p) && k'.proc[p].state == k.proc[p].state
  {
    hide Resched;
    hide InsertReady;
    EnlistReady(k, q, -1, true);
    MakeReadyClock(k, q);
    ReschedClock(MakeReady(k, q));
    SameLeft(k, MakeReady(k, q), p);
    SameLeft(MakeReady(k, q), Resched(MakeReady(k, q)), p);
  }

  lemma MakeReadyClock(k: K, q: Pid)
    requires Mid(k, -1, true) && 0 < q && HomeOf(k.proc[q]) == -1
    ensures SameClock(k, MakeReady(k, q))
  {
  }

  lemma SendTimed(k: K, q: Pid, p: Pid)
    requires Mid(k, -1, true) && 0 < q && k.proc[q].state == TRecv && p != q && Asleep(k, p)
    ensures var k' := Resched(MakeReady(Unsleep(k, q), q));
            Asleep(k', p) && Left(k', p) == Left(k, p) && k'.proc[p].state == k.proc[p].state
  {
    hide Resched;
    hide Unsleep;
    hide InsertReady;
    assert Asleep(k, q) by {
      assert HomeOf(k.proc[q]) == CLOCK;
    }
    OthersUnsleep(k, q, p);
    UnsleepMid(k, q);
    var k2 := SetState(Unsleep(k, q), q, Susp);
    EnlistReady(k2, q, -1, true);
    var k3 := MakeReady(Unsleep(k, q), q);
    assert SetState(k2, q, Ready) == SetState(Unsleep(k, q), q, Ready);
    assert k3 == InsertReady(SetState(k2, q, Ready), q, k2.proc[q].prio);
    MakeReadyClock(k2, q);
    assert MakeReady(k2, q) == k3;
    SameLeft(k2, k3, p);
    ReschedClock(k3);
    SameLeft(k3, Resched(k3), p);
    assert Left(k2, p) == Left(Unsleep(k, q), p);
  }

  lemma KillSleepsOn(k: K, q: int, p: Pid)
    requires Inv(k) && Asleep(k, p) && q != p
    ensures SleepsOn(k, KillFinish(q), p, KillFinishCall(k, q))
  {
    hide Resched;
    hide Unsleep;
    hide Without;
    LeftPositive(k, p);
    if !BadPid(q) {
      if HomeOf(k.proc[q]) == CLOCK {
        assert Asleep(k, q);
        OthersUnsleep(k, q, p);
        assert Left(KillFinishCall(k, q), p) == Left(Unsleep(k, q), p);
      } else if k.proc[q].state == Curr {
        SetUnlisted(k, q, Free, -1, true);
        assert SameClock(k, SetState(k, q, Free));
        ReschedClock(SetState(k, q, Free));
        SameLeft(k, Resched(SetState(k, q, Free)), p);
      } else {
        SameClockSleepsOn(k, KillFinish(q), p, KillFinishCall(k, q));
      }
    }
  }

  lemma WaitClock(k: K, s: int)
    requires Inv(k) && k.curr != NULLPROC
    ensures SameClock(k, WaitCall(k, s))
  {
    hide Resched;
    if !BadSem(s) && k.sem[s].used && k.sem[s].cnt - 1 < 0 {
      CountNow(k, s);
      BlockMid(k, s);
      assert k.curr !in k.lists[CLOCK];
      ReschedClock(Block(SetCount(k, s, k.sem[s].cnt - 1), s));
    }
  }

  lemma SemaphoreSleepsOn(k: K, c: Call, p: Pid)
    requires Inv(k) && Asleep(k, p) && Enabled(k, c)
    requires c.DoWait? || c.DoSignal? || c.DoSignalN? || c.DoSDelete? || c.DoSReset?
    ensures SameClock(k, Next(k, c))
  {
    hide Resched;
    hide Drain;
    hide SignalTimes;
    hide SignalOnce;
    hide WaitCall;
    if c.DoWait? {
      WaitClock(k, c.s);
    } else if !BadSem(c.s) && k.sem[c.s].used {
      match c
      case DoSignal(s) =>
        SignalTimesClock(k, s, 1);
        OneSignal(k, s);
        SignalOnceMid(k, s);
        ReschedClock(SignalOnce(k, s));
      case DoSignalN(s, n) =>
        if n > 0 {
          SignalTimesClock(k, s, n);
          SignalTimesMid(k, s, n);
          ReschedClock(SignalTimes(k, s, n));
        }
      case DoSDelete(s) =>
        SDeleteMid(k, s);
        var k1 := k.(sem := k.sem[s := k.sem[s].(used := false)]);
        DrainClock(k1, s);
        ReschedClock(Drain(k1, s));
      case DoSReset(s, n) =>
        if n >= 0 {
          SResetMid(k, s, n);
          SetCountMid(k, s, k.sem[s].cnt, -1, true);
          assert SetCount(k, s, k.sem[s].cnt) == k;
          DrainClock(k, s);
          ReschedClock(SetCount(Drain(k, s), s, n));
        }
    }
  }

  lemma CountNow(k: K, s: int)
    requires Inv(k) && 0 <= s < NSEM
    ensures CountOk(k.sem[s], |k.lists[s]|)
  {
  }

  lemma OtherSleepsOn(k: K, c: Call, p: Pid)
    requires Inv(k) && Asleep(k, p) && Enabled(k, c)
    requires c.DoResume? || c.DoSuspend? || c.DoChPrio? || c.DoReceive? || c.DoCreate? || c.DoSCreate?
    ensures SameClock(k, Next(k, c))
  {
    hide Resched;
    hide Inv;
    hide Mid;
    hide SameClock;
    InvMid(k);
    NoChange(k);
    match c
    case DoResume(q) =>
      if !BadPid(q) && k.proc[q].state == Susp {
        EnlistReady(k, q, -1, true);
        MakeReadyClock(k, q);
        MidWeaker(MakeReady(k, q));
        ReschedClock(MakeReady(k, q));
        SameClockTwice(k, MakeReady(k, q), Resched(MakeReady(k, q)));
      }
    case DoSuspend(q) => SuspendClock(k, q);
    case DoChPrio(q, prio) => ChPrioClock(k, q, prio);
    case DoReceive =>
      SetUnlisted(k, k.curr, Recv, -1, true) by {
        assert 0 < k.curr;
        NotFreeCurr(k);
      }
      MidWeaker(SetState(k, k.curr, Recv));
      UnlistedClock(k, k.curr, Recv);
      ReschedClock(SetState(k, k.curr, Recv));
      SameClockTwice(k, SetState(k, k.curr, Recv), Resched(SetState(k, k.curr, Recv)));
      TakeMsgClock(k);
    case DoCreate(stack, even, prio) => CreateClock(k, stack, even, prio);
    case DoSCreate(cnt) => SCreateClock(k, cnt);
  }

  lemma NoChange(k: K)
    requires Shaped(k)
    ensures SameClock(k, k)
  {
  }

  lemma MidWeaker(k: K)
    requires Mid(k, -1, true)
    ensures Mid(k, -1, false)
  {
  }

  lemma NotFreeCurr(k: K)
    requires Inv(k)
    ensures k.proc[k.curr].state == Curr
  {
  }

  lemma SameClockTwice(k: K, k1: K, k2: K)
    requires SameClock(k, k1) && SameClock(k1, k2)
    ensures SameClock(k, k2)
  {
  }

  lemma UnlistedClock(k: K, q: Pid, st: PState)
    requires Mid(k, -1, false) && HomeOf(k.proc[q]) == -1
    ensures SameClock(k, SetState(k, q, st))
  {
  }

  lemma TakeMsgClock(k: K)
    requires Shaped(k)
    ensures SameClock(k, TakeMessage(k))
  {
  }

  lemma CreateClock(k: K, stack: bool, even: bool, prio: int)
    requires Mid(k, -1, false)
    ensures SameClock(k, CreateCall(k, stack, even, prio))
  {
    hide SearchPid;
    SearchPidFinds(k.proc, k.nextproc, NPROC);
  }

  lemma SCreateClock(k: K, cnt: int)
    requires Shaped(k)
    ensures SameClock(k, SCreateCall(k, cnt))
  {
    hide SearchSem;
  }

  lemma SuspendClock(k: K, q: int)
    requires Inv(k)
    ensures SameClock(k, SuspendCall(k, q))
  {
    hide Resched;
    hide Without;
    if !BadPid(q) && k.proc[q].state == Curr {
      SetUnlisted(k, q, Susp, -1, true);
      ReschedClock(SetState(k, q, Susp));
    }
  }

  lemma ChPrioClock(k: K, q: int, prio: int)
    requires Inv(k) && prio <= MAXINT
    ensures SameClock(k, ChPrioCall(k, q, prio))
  {
    hide Resched;
    hide Without;
    if !BadPid(q) && prio > 0 && k.proc[q].state != Free {
      if k.proc[q].state == Ready {
        ChPrioMid(k, q, prio);
        ReinsertClock(k, q, prio);
      } else if k.proc[q].state == Curr {
        SetPrioMid(k, q, prio);
        ReschedClock(SetProc(k, q, k.proc[q].(prio := prio)));
      }
    }
  }

  lemma ReinsertClock(k: K, q: Pid, prio: int)
    requires Inv(k) && k.proc[q].state == Ready
    requires var k3 := SetList(SetProc(k, q, k.proc[q].(prio := prio)), READY, Without(k.lists[READY], q));
             Mid(InsertReady(k3, q, prio), -1, true)
    ensures var k3 := SetList(SetProc(k, q, k.proc[q].(prio := prio)), READY, Without(k.lists[READY], q));
            SameClock(k, Resched(InsertReady(k3, q, prio)))
  {
    hide Resched;
    hide Without;
    var k3 := SetList(SetProc(k, q, k.proc[q].(prio := prio)), READY, Without(k.lists[READY], q));
    assert q !in k.lists[CLOCK];
    ReschedClock(InsertReady(k3, q, prio));
  }

  /** Being killed, and getting the message it expects, takes a process off the sleep queue at once. */
  lemma EvictsSleeper(k: K, c: Call, p: Pid)
    requires Inv(k) && Enabled(k, c) && Asleep(k, p) && Evicts(k, c, p)
    ensures var k' := Next(k, c);
            && !Asleep(k', p) && (if c.KillFinish? then k'.proc[p].state == Free else Runnable(k', p))
  {
    hide KillFinishCall;
    hide SendCall;
    hide Mid;
    InvMid(k);
    StepKeepsInv(k, c);
    NotNull(k, p);
    if c.KillFinish? {
      KillStops(k, p);
      AwakeState(Next(k, c), p);
    } else {
      SendReadies(k, p, if c.DoSend? then c.msg else c.p);
      AwakeState(Next(k, c), p);
    }
  }

  lemma NotNull(k: K, p: Pid)
    requires Inv(k) && Asleep(k, p)
    ensures !BadPid(p) && k.proc[p].state != Free
  {
    assert p in k.lists[CLOCK];
  }

  lemma AwakeState(k: K, p: Pid)
    requires Inv(k) && k.proc[p].state != Sleep && k.proc[p].state != TRecv
    ensures !Asleep(k, p)
  {
    assert HomeOf(k.proc[p]) != CLOCK;
  }

  /** The exact effect of any step on any sleeper that the step does not evict. */
  lemma StepSleeper(k: K, c: Call, p: Pid)
    requires Inv(k) && Enabled(k, c) && Asleep(k, p) && !Evicts(k, c, p)
    ensures SleepsOn(k, c, p, Next(k, c))
  {
    hide Inv;
    hide SleepsOn;
    hide SameClock;
    hide Resched;
    hide SleepFor;
    InvMid(k);
    match c
    case DoWait(_) => SemaphoreSleepsOn(k, c, p); SameClockSleepsOn(k, c, p, Next(k, c));
    case DoSignal(_) => SemaphoreSleepsOn(k, c, p); SameClockSleepsOn(k, c, p, Next(k, c));
    case DoSignalN(_, _) => SemaphoreSleepsOn(k, c, p); SameClockSleepsOn(k, c, p, Next(k, c));
    case DoSDelete(_) => SemaphoreSleepsOn(k, c, p); SameClockSleepsOn(k, c, p, Next(k, c));
    case DoSReset(_, _) => SemaphoreSleepsOn(k, c, p); SameClockSleepsOn(k, c, p, Next(k, c));
    case DoSend(q, msg) => SendSleepsOn(k, c, q, msg, p);
    case DoSendF(q, msg) => SendFSleepsOn(k, q, msg, p);
    case KillSend(q) =>
      if BadPid(q) || k.proc[q].state == Free {
        NothingSleepsOn(k, c, p);
      } else {
        SendSleepsOn(k, c, k.proc[q].nxtkin, q, p);
      }
    case KillFinish(q) => KillSleepsOn(k, q, p);
    case DoRecvTim(n) => NapSleepsOn(k, c, n, TRecv, p);
    case DoSleep10(n) => NapSleepsOn(k, c, n, Sleep, p);
    case DoStrtClk => StrtClkSleepsOn(k, p);
    case ClockInterrupt => ClockSleepsOn(k, p);
    case TakeMsg => PlainSleepsOn(k, c, p);
    case DoSetNok(_, _) => PlainSleepsOn(k, c, p);
    case DoStopClk => PlainSleepsOn(k, c, p);
    case DoUnsleep(_) => NothingSleepsOn(k, c, p);
    case StrtClkRest => SliceClock(k); SameClockSleepsOn(k, c, p, Next(k, c));
    case ClockRest => SliceClock(k); SameClockSleepsOn(k, c, p, Next(k, c));
    case _ => OtherSleepsOn(k, c, p); SameClockSleepsOn(k, c, p, Next(k, c));
  }

  lemma NothingSleepsOn(k: K, c: Call, p: Pid)
    requires Inv(k) && Asleep(k, p) && Ticks(k, c) == 0
    ensures SleepsOn(k, c, p, k)
  {
    LeftPositive(k, p);
  }

  lemma PlainSleepsOn(k: K, c: Call, p: Pid)
    requires Inv(k) && Asleep(k, p) && (c.TakeMsg? || c.DoSetNok? || c.DoStopClk?)
    ensures SleepsOn(k, c, p, Next(k, c))
  {
    SameClockSleepsOn(k, c, p, Next(k, c));
  }

  lemma NapSleepsOn(k: K, c: Call, n: int, st: PState, p: Pid)
    requires Inv(k) && Enabled(k, c) && Asleep(k, p)
    requires (c == DoRecvTim(n) && st == TRecv) || (c == DoSleep10(n) && st == Sleep)
    ensures SleepsOn(k, c, p, Next(k, c))
  {
    hide Resched;
    hide SleepFor;
    LeftPositive(k, p);
    if c.DoRecvTim? && k.proc[k.curr].HasMsg() {
      assert SameClock(k, TakeMessage(k));
      SameClockSleepsOn(k, c, p, TakeMessage(k));
    } else if n >= 1 {
      OthersSleep(k, n, st, p);
    } else {
      ReschedClock(k);
      SameLeft(k, Resched(k), p);
    }
  }

  // ----- runs -----

  function TickSum(run: seq<K>, calls: seq<Call>, i: nat, j: nat): nat
    requires i <= j <= |calls| < |run|
    decreases j
  {
    if i == j then 0 else TickSum(run, calls, i, j - 1) + Ticks(run[j - 1], calls[j - 1])
  }

  /** Sleeping is exact. A process that asked for n ticks at step i and has slept through to state j has
      n less the ticks since then left; after the next step it still sleeps if and only if fewer than n
      ticks have gone by, and if it does not it can run. */
  lemma {:induction false} SleepIsExact(run: seq<K>, calls: seq<Call>, i: nat, j: nat, n: int)
    requires Run(run, calls) && i < j < |calls|
    requires Shaped(run[i]) && n >= 1
    requires calls[i] == DoSleep10(n) || (calls[i] == DoRecvTim(n) && !run[i].proc[run[i].curr].HasMsg())
    requires forall m :: i < m <= j ==> Shaped(run[m]) && Asleep(run[m], run[i].curr)
    requires forall m :: i < m <= j ==> !Evicts(run[m], calls[m], run[i].curr)
    ensures Left(run[j], run[i].curr) == n - TickSum(run, calls, i + 1, j)
    ensures Shaped(run[j + 1])
    ensures Asleep(run[j + 1], run[i].curr) <==> TickSum(run, calls, i + 1, j + 1) < n
    ensures !Asleep(run[j + 1], run[i].curr) ==> Runnable(run[j + 1], run[i].curr)
    decreases j
  {
    hide Next;
    hide Inv;
    hide Evicts;
    var p := run[i].curr;
    RunKeepsInv(run, calls, j);
    assert run[j + 1] == Next(run[j], calls[j]);
    if j == i + 1 {
      RunKeepsInv(run, calls, i);
      FirstNap(run[i], calls[i], n);
    } else {
      SleepIsExact(run, calls, i, j - 1, n);
      RunKeepsInv(run, calls, j - 1);
      assert run[j - 1 + 1] == Next(run[j - 1], calls[j - 1]);
      StepSleeper(run[j - 1], calls[j - 1], p);
    }
    StepSleeper(run[j], calls[j], p);
  }

  lemma FirstNap(k: K, c: Call, n: int)
    requires Inv(k) && Enabled(k, c) && n >= 1
    requires c == DoSleep10(n) || (c == DoRecvTim(n) && !k.proc[k.curr].HasMsg())
    ensures Left(Next(k, c), k.curr) == n
  {
    hide Resched;
    hide SleepFor;
    GoesToSleep(k, n, Sleep);
    GoesToSleep(k, n, TRecv);
  }

  // ----- who can run -----

  predicate UsedSem(k: K, s: int)
    requires Shaped(k)
  {
    !BadSem(s) && k.sem[s].used
  }

  /** A message to q would make p run: p is q, waits for a message, and has none. */
  predicate WakesReceiver(k: K, q: int, p: Pid)
    requires Shaped(k)
  {
    p == q && !BadPid(q) && (Expects(k, p) || (k.proc[p].state == Recv && !k.proc[p].HasMsg()))
  }

  /** Whom a step starts. */
  predicate Starts(k: K, c: Call, p: Pid)
    requires Shaped(k)
  {
    match c
    case DoSignal(s) => UsedSem(k, s) && k.lists[s] != [] && p == k.lists[s][0]
    case DoSignalN(s, n) => UsedSem(k, s) && n > 0 && p in k.lists[s][..if |k.lists[s]| < n then |k.lists[s]| else n]
    case DoSDelete(s) => UsedSem(k, s) && p in k.lists[s]
    case DoSReset(s, n) => UsedSem(k, s) && n >= 0 && p in k.lists[s]
    case DoResume(q) => p == q && !BadPid(q) && k.proc[p].state == Susp
    case DoSend(q, _) => WakesReceiver(k, q, p)
    case DoSendF(q, _) => p == q && !BadPid(q) && k.proc[p].state == Recv
    case KillSend(q) => !BadPid(q) && k.proc[q].state != Free && WakesReceiver(k, k.proc[q].nxtkin, p)
    case DoStrtClk => Asleep(k, p) && Left(k, p) <= Ticks(k, c)
    case ClockInterrupt => Asleep(k, p) && Left(k, p) <= Ticks(k, c)
    case _ => false
  }

  /** Whom a step stops. */
  predicate Halts(k: K, c: Call, p: Pid)
    requires Shaped(k)
  {
    match c
    case DoWait(s) => p == k.curr && UsedSem(k, s) && k.sem[s].cnt <= 0
    case DoSuspend(q) => p == q && !BadPid(q) && Runnable(k, p)
    case DoReceive => p == k.curr && !k.proc[p].HasMsg()
    case DoRecvTim(n) => p == k.curr && n > 0 && !k.proc[p].HasMsg()
    case DoSleep10(n) => p == k.curr && n > 0
    case KillFinish(q) => p == q && !BadPid(q)
    case _ => false
  }

  /** Exactly who can run after a step, and that nobody else changes state, unless it is created. */
  ghost predicate RunsAs(k: K, c: Call, k': K) {
    && Shaped(k) && Shaped(k')
    && forall p: Pid ::
         && (Runnable(k', p) <==> (Runnable(k, p) && !Halts(k, c, p)) || Starts(k, c, p))
         && (!Runnable(k', p) && !Halts(k, c, p) ==>
               k'.proc[p].state == k.proc[p].state || (c.DoCreate? && k.proc[p].state == Free && k'.proc[p].state == Susp))
  }

  lemma ReadiesRunsAs(k: K, c: Call, k': K, w: seq<Pid>)
    requires Readies(k, k', w)
    requires forall p: Pid :: !Halts(k, c, p) && (p in w <==> Starts(k, c, p))
    ensures RunsAs(k, c, k')
  {
  }

  lemma StopsRunsAs(k: K, c: Call, k': K, q: Pid, st: PState)
    requires Stops(k, k', q, st) && st != Ready && st != Curr
    requires forall p: Pid :: !Starts(k, c, p) && (Halts(k, c, p) <==> p == q)
    ensures RunsAs(k, c, k')
  {
  }

  lemma SemaphoreRunsAs(k: K, c: Call)
    requires Inv(k) && Enabled(k, c)
    requires c.DoWait? || c.DoSignal? || c.DoSignalN? || c.DoSDelete? || c.DoSReset?
    ensures RunsAs(k, c, Next(k, c))
  {
    hide Inv;
    hide Readies;
    hide Stops;
    hide RunsAs;
    hide Resched;
    hide Drain;
    hide SignalTimes;
    hide SignalOnce;
    hide Block;
    InvMid(k);
    Unchanged(k);
    if !UsedSem(k, c.s) {
      ReadiesRunsAs(k, c, k, []);
    } else {
      match c
      case DoWait(s) =>
        WaitStops(k, s);
        if k.sem[s].cnt <= 0 {
          StopsRunsAs(k, c, WaitCall(k, s), k.curr, Wait);
        } else {
          ReadiesRunsAs(k, c, WaitCall(k, s), []);
        }
      case DoSignal(s) =>
        SignalReleases(k, s, 1);
        ReadiesRunsAs(k, c, SignalCall(k, s), k.lists[s][..if k.lists[s] == [] then 0 else 1]);
      case DoSignalN(s, n) =>
        if n > 0 {
          SignalReleases(k, s, n);
          ReadiesRunsAs(k, c, SignalNCall(k, s, n), k.lists[s][..if |k.lists[s]| < n then |k.lists[s]| else n]);
        } else {
          ReadiesRunsAs(k, c, k, []);
        }
      case DoSDelete(s) =>
        SDeleteReleases(k, s);
        ReadiesRunsAs(k, c, SDeleteCall(k, s), k.lists[s]);
      case DoSReset(s, n) =>
        if n >= 0 {
          SResetReleases(k, s, n);
          ReadiesRunsAs(k, c, SResetCall(k, s, n), k.lists[s]);
        } else {
          ReadiesRunsAs(k, c, k, []);
        }
    }
  }

  lemma SendRunsAs(k: K, c: Call, q: int, msg: int)
    requires Inv(k) && (c == DoSend(q, msg) || (c == KillSend(msg) && !BadPid(msg) && k.proc[msg].state != Free && k.proc[msg].nxtkin == q))
    ensures RunsAs(k, c, SendCall(k, q, msg))
  {
    hide Inv;
    hide Readies;
    hide RunsAs;
    hide Resched;
    hide Unsleep;
    hide MakeReady;
    InvMid(k);
    Unchanged(k);
    if BadPid(q) || k.proc[q].state == Free || k.proc[q].HasMsg() {
      ReadiesRunsAs(k, c, k, []);
    } else {
      SendReadies(k, q, msg);
      ReadiesRunsAs(k, c, SendCall(k, q, msg), if k.proc[q].state == Recv || k.proc[q].state == TRecv then [q] else []);
    }
  }

  lemma SendFRunsAs(k: K, q: int, msg: int)
    requires Inv(k)
    ensures RunsAs(k, DoSendF(q, msg), SendFCall(k, q, msg))
  {
    hide Inv;
    hide Readies;
    hide RunsAs;
    hide Resched;
    hide MakeReady;
    InvMid(k);
    Unchanged(k);
    var c := DoSendF(q, msg);
    if BadPid(q) || k.proc[q].state == Free {
      ReadiesRunsAs(k, c, k, []);
    } else {
      SendFReadies(k, q, msg);
      ReadiesRunsAs(k, c, SendFCall(k, q, msg), if k.proc[q].state == Recv then [q] else []);
    }
  }

  lemma WakesRunsAs(k: K, c: Call, k': K)
    requires Wakes(k, k') && (c.ClockInterrupt? || c.DoStrtClk?)
    requires forall p: Pid :: Asleep(k, p) ==> (Asleep(k', p) <==> Left(k, p) > Ticks(k, c))
    ensures RunsAs(k, c, k')
  {
  }

  lemma CountDownWakes(k: K)
    requires Inv(k)
    ensures Wakes(k, CountDown(k))
  {
    hide Wakeup;
    hide Ascending;
    NobodyWakes(k);
    if k.slnempty {
      var key := k.key[k.sltop := k.key[k.sltop] - 1];
      ClockKeys(k, key);
      WakeupWakes(k.(key := key));
    }
  }

  lemma CatchUpWakes(k: K, m: nat)
    requires Inv(k)
    ensures Wakes(k, CatchUp(k, m))
  {
    hide Wakeup;
    hide MakeUp;
    hide Mid;
    InvMid(k);
    NobodyWakes(k);
    ClockFacts(k);
    RemainingMakeUp(k.lists[CLOCK], k.key, m);
    var k2 := k.(key := MakeUp(k.lists[CLOCK], k.key, m));
    ClockKeys(k, k2.key);
    WakeupWakes(k2);
  }

  lemma SliceWakes(k: K)
    requires Inv(k)
    ensures Wakes(k, SliceTick(k)) && Wakes(k, SliceEnd(k))
  {
    hide SliceTick;
    hide SliceEnd;
    SliceClock(k);
    SliceRuns(k);
  }

  lemma ClockWakes(k: K)
    requires Inv(k)
    ensures Wakes(k, ClockCall(k))
  {
    hide Inv;
    hide CountDown;
    hide SliceTick;
    InvMid(k);
    NobodyWakes(k);
    var k0 := k.(count100 := 0);
    SameCoreMid(k, k0, -1, true);
    CountDownWakes(k0);
    CountDownInv(k0);
    SliceWakes(CountDown(k0));
  }

  lemma StrtClkWakes(k: K)
    requires Inv(k)
    ensures Wakes(k, StrtClkCall(k))
  {
    hide Inv;
    hide CatchUp;
    hide SliceEnd;
    InvMid(k);
    NobodyWakes(k);
    var k0 := k.(defclk := 0, preempt := k.preempt - k.clkdiff, clkdiff := 0);
    SameCoreMid(k, k0, -1, true);
    CatchUpWakes(k0, k.clkdiff);
    CatchUpInv(k0, k.clkdiff);
    SliceWakes(CatchUp(k0, k.clkdiff));
  }

  lemma ClockRunsAs(k: K, c: Call)
    requires Inv(k) && (c.ClockInterrupt? || c.DoStrtClk?)
    ensures RunsAs(k, c, Next(k, c))
  {
    hide Inv;
    hide RunsAs;
    hide Wakes;
    hide Left;
    hide ClockCall;
    hide StrtClkCall;
    InvMid(k);
    ClockWakes(k);
    StrtClkWakes(k);
    var k' := Next(k, c);
    forall p: Pid | Asleep(k, p)
      ensures Asleep(k', p) <==> Left(k, p) > Ticks(k, c)
    {
      if c.ClockInterrupt? {
        ClockSleepsOn(k, p);
      } else {
        StrtClkSleepsOn(k, p);
      }
    }
    WakesRunsAs(k, c, k');
  }

  lemma NapRunsAs(k: K, c: Call)
    requires Inv(k) && Enabled(k, c) && (c.DoReceive? || c.DoRecvTim? || c.DoSleep10?)
    ensures RunsAs(k, c, Next(k, c))
  {
    hide Inv;
    hide Readies;
    hide Stops;
    hide RunsAs;
    hide Resched;
    hide SleepFor;
    InvMid(k);
    Unchanged(k);
    Unchanged(TakeMessage(k));
    AndResched(k, k, []);
    StateSame(k, TakeMessage(k));
    match c
    case DoReceive =>
      ReceiveStops(k);
      if k.proc[k.curr].HasMsg() {
        ReadiesRunsAs(k, c, TakeMessage(k), []);
      } else {
        StopsRunsAs(k, c, ReceiveCall(k), k.curr, Recv);
      }
    case DoRecvTim(n) =>
      if n > 0 && !k.proc[k.curr].HasMsg() {
        NapStops(k, n, TRecv);
        StopsRunsAs(k, c, RecvTimCall(k, n), k.curr, TRecv);
      } else {
        ReadiesRunsAs(k, c, RecvTimCall(k, n), []);
      }
    case DoSleep10(n) =>
      if n > 0 {
        NapStops(k, n, Sleep);
        StopsRunsAs(k, c, SleepCall(k, n), k.curr, Sleep);
      } else {
        ReadiesRunsAs(k, c, SleepCall(k, n), []);
      }
  }

  lemma StateSame(k: K, k': K)
    requires Shaped(k) && Shaped(k') && forall p: Pid :: k'.proc[p].state == k.proc[p].state
    ensures Readies(k, k', [])
  {
  }

  lemma ProcessRunsAs(k: K, c: Call)
    requires Inv(k) && Enabled(k, c) && (c.DoResume? || c.DoSuspend? || c.DoChPrio? || c.KillFinish?)
    ensures RunsAs(k, c, Next(k, c))
  {
    hide Inv;
    hide Readies;
    hide Stops;
    hide RunsAs;
    hide Resched;
    hide Without;
    hide MakeReady;
    hide ChPrioCall;
    hide KillFinishCall;
    InvMid(k);
    Unchanged(k);
    match c
    case DoResume(p) =>
      if !BadPid(p) && k.proc[p].state == Susp {
        ResumeReadies(k, p);
        ReadiesRunsAs(k, c, ResumeCall(k, p), [p]);
      } else {
        ReadiesRunsAs(k, c, k, []);
      }
    case DoSuspend(p) =>
      if !BadPid(p) && Runnable(k, p) {
        SuspendStops(k, p);
        StopsRunsAs(k, c, SuspendCall(k, p), p, Susp);
      } else {
        SuspendRefused(k, p);
      }
    case DoChPrio(p, prio) =>
      if !BadPid(p) && 0 < prio && k.proc[p].state != Free {
        ChPrioRuns(k, p, prio);
        ReadiesRunsAs(k, c, ChPrioCall(k, p, prio), []);
      } else {
        ReadiesRunsAs(k, c, k, []) by {
          assert forall q: Pid :: q in [] <==> Starts(k, c, q);
        }
        ChPrioRefused(k, p, prio);
      }
    case KillFinish(p) =>
      if BadPid(p) {
        KillRefused(k, p);
        ReadiesRunsAs(k, c, k, []);
      } else {
        KillStops(k, p);
        StopsRunsAs(k, c, KillFinishCall(k, p), p, Free);
      }
  }

  lemma SuspendRefused(k: K, p: int)
    requires Shaped(k) && (BadPid(p) || !Runnable(k, p))
    ensures RunsAs(k, DoSuspend(p), SuspendCall(k, p))
  {
  }

  lemma ChPrioRefused(k: K, p: int, prio: int)
    requires Shaped(k) && (BadPid(p) || prio <= 0 || k.proc[p].state == Free)
    ensures ChPrioCall(k, p, prio) == k
  {
  }

  lemma KillRefused(k: K, p: int)
    requires Shaped(k) && BadPid(p)
    ensures KillFinishCall(k, p) == k
  {
  }

  lemma CreateRunsAs(k: K, stack: bool, even: bool, prio: int)
    requires Shaped(k)
    ensures RunsAs(k, DoCreate(stack, even, prio), CreateCall(k, stack, even, prio))
  {
    hide SearchPid;
    SearchPidFinds(k.proc, k.nextproc, NPROC);
  }

  lemma QuietRunsAs(k: K, c: Call)
    requires Shaped(k) && Enabled(k, c)
    requires c.DoSCreate? || c.TakeMsg? || c.DoUnsleep? || c.DoSetNok? || c.DoStopClk?
    ensures RunsAs(k, c, Next(k, c))
  {
    hide RunsAs;
    hide SearchSem;
    StateSame(k, Next(k, c));
    ReadiesRunsAs(k, c, Next(k, c), []);
  }

  /** The whole kernel's scheduling theorem: after any step exactly those can run who could and are not
      stopped by it, or whom it starts. */
  lemma WhoCanRun(k: K, c: Call)
    requires Inv(k) && Enabled(k, c)
    ensures RunsAs(k, c, Next(k, c))
  {
    hide Inv;
    hide RunsAs;
    InvMid(k);
    match c
    case DoWait(_) => SemaphoreRunsAs(k, c);
    case DoSignal(_) => SemaphoreRunsAs(k, c);
    case DoSignalN(_, _) => SemaphoreRunsAs(k, c);
    case DoSDelete(_) => SemaphoreRunsAs(k, c);
    case DoSReset(_, _) => SemaphoreRunsAs(k, c);
    case DoSend(q, msg) => SendRunsAs(k, c, q, msg);
    case DoSendF(q, msg) => SendFRunsAs(k, q, msg);
    case KillSend(q) =>
      if BadPid(q) || k.proc[q].state == Free {
        Unchanged(k);
        ReadiesRunsAs(k, c, k, []);
      } else {
        SendRunsAs(k, c, k.proc[q].nxtkin, q);
      }
    case DoReceive => NapRunsAs(k, c);
    case DoRecvTim(_) => NapRunsAs(k, c);
    case DoSleep10(_) => NapRunsAs(k, c);
    case DoStrtClk => ClockRunsAs(k, c);
    case ClockInterrupt => ClockRunsAs(k, c);
    case StrtClkRest => SliceRuns(k); ReadiesRunsAs(k, c, SliceEnd(k), []);
    case ClockRest => SliceRuns(k); ReadiesRunsAs(k, c, SliceTick(k), []);
    case DoResume(_) => ProcessRunsAs(k, c);
    case DoSuspend(_) => ProcessRunsAs(k, c);
    case DoChPrio(_, _) => ProcessRunsAs(k, c);
    case KillFinish(_) => ProcessRunsAs(k, c);
    case DoCreate(stack, even, prio) => CreateRunsAs(k, stack, even, prio);
    case _ => QuietRunsAs(k, c);
  }
}
