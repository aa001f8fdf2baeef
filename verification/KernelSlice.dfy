/** The time slice: when the clock takes the processor from the running process, and for whom. */
module KernelSlice {
  import opened KernelSpec
  import opened KernelLists
  import opened KernelInv
  import opened KernelRuns
  import opened KernelEffects
  import opened KernelFrames
  import opened KernelReady

  /** Somebody who is ready has the priority of the running process. */
  ghost predicate Rival(k: K)
    requires Shaped(k)
  {
    exists p: Pid :: k.proc[p].state == Ready && k.proc[p].prio == k.proc[k.curr].prio
  }

  /** The slice is never longer than a quantum, and while there is a rival it has not run out. The clock counts
      to ten. */
  ghost predicate SliceOk(k: K) {
    && Shaped(k) && k.preempt <= QUANTUM && (k.preempt <= 0 ==> !Rival(k)) && 0 <= k.count100 < 10
  }

  lemma ReadyListed(k: K, p: Pid)
    requires Inv(k)
    ensures p in k.lists[READY] <==> k.proc[p].state == Ready
  {
    assert HomeOf(k.proc[p]) == READY <==> p in k.lists[READY];
  }

  /** After resched either a new slice has begun or there is no rival. */
  lemma ReschedSlice(k: K)
    requires Shaped(k) && Inv(Resched(k)) && k.preempt <= QUANTUM && 0 <= k.count100 < 10
    ensures SliceOk(Resched(k))
  {
    var k' := Resched(k);
    ReschedKeeps(k);
    if k'.preempt <= 0 {
      assert k' == k;
      forall p: Pid | k.proc[p].state == Ready
        ensures k.proc[p].prio != k.proc[k.curr].prio
      {
        ReadyListed(k, p);
        HighestLast(k);
      }
    }
  }

  /** A step that neither reschedules nor makes anybody ready, nor changes a priority that matters. */
  lemma StaysSlice(k: K, k': K)
    requires SliceOk(k) && Shaped(k') && k'.preempt == k.preempt && k'.curr == k.curr && k'.count100 == k.count100
    requires k'.proc[k.curr].prio == k.proc[k.curr].prio
    requires forall p: Pid :: k'.proc[p].state == Ready ==> k.proc[p].state == Ready && k'.proc[p].prio == k.proc[p].prio
    ensures SliceOk(k')
  {
  }

  lemma WaitSlice(k: K, s: int)
    requires Inv(k) && SliceOk(k) && Inv(WaitCall(k, s))
    ensures SliceOk(WaitCall(k, s))
  {
    hide Inv;
    hide Resched;
    if !BadSem(s) && k.sem[s].used && k.sem[s].cnt <= 0 {
      ReschedSlice(Block(SetCount(k, s, k.sem[s].cnt - 1), s));
    } else {
      StaysSlice(k, WaitCall(k, s));
    }
  }

  lemma SignalSlice(k: K, s: int, n: int)
    requires Inv(k) && SliceOk(k) && Inv(SignalCall(k, s)) && Inv(SignalNCall(k, s, n))
    ensures SliceOk(SignalCall(k, s)) && SliceOk(SignalNCall(k, s, n))
  {
    hide Inv;
    hide Resched;
    hide ReadyFirst;
    hide SignalTimes;
    if !BadSem(s) && k.sem[s].used {
      if n > 0 {
        SignalTimesKeeps(k, s, n);
        ReschedSlice(SignalTimes(k, s, n));
      }
      if k.sem[s].cnt < 0 {
        ReadyFirstKeeps(SetCount(k, s, k.sem[s].cnt + 1), s);
        ReschedSlice(SignalOnce(k, s));
      } else {
        StaysSlice(k, SignalOnce(k, s));
      }
    }
  }

  lemma DrainSlice(k: K, s: int, n: int)
    requires Inv(k) && SliceOk(k) && Inv(SDeleteCall(k, s)) && Inv(SResetCall(k, s, n))
    ensures SliceOk(SDeleteCall(k, s)) && SliceOk(SResetCall(k, s, n))
  {
    hide Inv;
    hide Resched;
    hide Drain;
    if !BadSem(s) && k.sem[s].used {
      var k1 := k.(sem := k.sem[s := k.sem[s].(used := false)]);
      if k.lists[s] == [] {
        StaysSlice(k, k1);
      } else {
        DrainKeeps(k1, s);
        ReschedSlice(Drain(k1, s));
      }
      if n >= 0 {
        DrainKeeps(k, s);
        ReschedSlice(SetCount(Drain(k, s), s, n));
      }
    }
  }

  lemma CreateSlice(k: K, c: Call)
    requires Inv(k) && SliceOk(k) && (c.DoSCreate? || c.DoCreate? || c.DoSetNok? || c.DoStopClk? || c.TakeMsg?)
    ensures SliceOk(Next(k, c))
  {
    hide SearchSem;
    hide SearchPid;
    SearchPidFinds(k.proc, k.nextproc, NPROC);
    StaysSlice(k, Next(k, c));
  }

  lemma ResumeSlice(k: K, p: int)
    requires Inv(k) && SliceOk(k) && Inv(ResumeCall(k, p))
    ensures SliceOk(ResumeCall(k, p))
  {
    hide Inv;
    hide Resched;
    hide InsertReady;
    if !BadPid(p) && k.proc[p].state == Susp {
      ReadyKeeps(k, p);
      ReschedSlice(MakeReady(k, p));
    }
  }

  lemma SuspendSlice(k: K, p: int)
    requires Inv(k) && SliceOk(k) && Inv(SuspendCall(k, p))
    ensures SliceOk(SuspendCall(k, p))
  {
    hide Resched;
    hide Without;
    if !BadPid(p) && p != NULLPROC {
      if k.proc[p].state == Curr {
        ReschedSlice(SetState(k, p, Susp));
      } else {
        StaysSlice(k, SuspendCall(k, p));
      }
    }
  }

  lemma PrioSlice(k: K, p: int, prio: int)
    requires Inv(k) && SliceOk(k) && Inv(ChPrioCall(k, p, prio))
    ensures SliceOk(ChPrioCall(k, p, prio))
  {
    hide Resched;
    hide Without;
    hide InsertReady;
    if !BadPid(p) && prio > 0 && k.proc[p].state != Free {
      var k1 := SetProc(k, p, k.proc[p].(prio := prio));
      if k.proc[p].state == Ready {
        var k2 := SetList(k1, READY, Without(k.lists[READY], p));
        InsertKeeps(k2, p, prio);
        ReschedSlice(InsertReady(k2, p, prio));
      } else if k.proc[p].state == Curr {
        ReschedSlice(k1);
      } else {
        StaysSlice(k, k1);
      }
    }
  }

  lemma SendSlice(k: K, p: int, msg: int)
    requires Inv(k) && SliceOk(k) && Inv(SendCall(k, p, msg))
    ensures SliceOk(SendCall(k, p, msg))
  {
    hide Inv;
    hide Resched;
    hide MakeReady;
    hide Unsleep;
    if !BadPid(p) && k.proc[p].state != Free && !k.proc[p].HasMsg() {
      var k1 := SetProc(k, p, k.proc[p].(msg := msg, msgs := 1));
      if k.proc[p].state == Recv {
        ReadyKeeps(k1, p);
        ReschedSlice(MakeReady(k1, p));
      } else if k.proc[p].state == TRecv {
        UnsleepKeeps(k1, p);
        ReadyKeeps(Unsleep(k1, p), p);
        ReschedSlice(MakeReady(Unsleep(k1, p), p));
      } else {
        StaysSlice(k, k1);
      }
    }
  }

  lemma SendFSlice(k: K, p: int, msg: int)
    requires Inv(k) && SliceOk(k) && Inv(SendFCall(k, p, msg))
    ensures SliceOk(SendFCall(k, p, msg))
  {
    hide Inv;
    hide Resched;
    hide MakeReady;
    if !BadPid(p) && k.proc[p].state != Free {
      var k1 := SetProc(k, p, k.proc[p].(msg := msg, msgs := (k.proc[p].msgs + 1) % 256));
      if k.proc[p].state == Recv {
        ReadyKeeps(k1, p);
        ReschedSlice(MakeReady(k1, p));
      } else {
        StaysSlice(k, k1);
      }
    }
  }

  lemma ReceiveSlice(k: K, c: Call)
    requires Inv(k) && SliceOk(k) && Inv(Next(k, c)) && (c.DoReceive? || c.DoRecvTim? || c.DoSleep10?)
    ensures SliceOk(Next(k, c))
  {
    hide Inv;
    hide Resched;
    hide SleepFor;
    match c
    case DoReceive =>
      ReschedIfSo(k, SetState(k, k.curr, Recv), ReceiveCall(k));
    case DoRecvTim(n) =>
      SleepKeeps(k, k.curr, n, TRecv);
      ReschedIfSo(k, SleepFor(k, k.curr, n, TRecv), RecvTimCall(k, n));
    case DoSleep10(n) =>
      SleepKeeps(k, k.curr, n, Sleep);
      ReschedIfSo(k, SleepFor(k, k.curr, n, Sleep), SleepCall(k, n));
      ReschedIfSo(k, k, SleepCall(k, n));
  }

  lemma ReschedIfSo(k: K, k1: K, k': K)
    requires SliceOk(k) && Shaped(k1) && k1.preempt == k.preempt && k1.count100 == k.count100 && Inv(k')
    ensures k' == Resched(k1) || k' == TakeMessage(k) || k' == k ==> SliceOk(k')
  {
    hide Inv;
    hide Resched;
    if k' == Resched(k1) {
      ReschedSlice(k1);
    } else if k' == TakeMessage(k) {
      StaysSlice(k, k');
    }
  }

  lemma KillSlice(k: K, p: int)
    requires Inv(k) && SliceOk(k) && Inv(KillFinishCall(k, p))
    ensures SliceOk(KillFinishCall(k, p))
  {
    hide Resched;
    hide Without;
    hide Unsleep;
    if !BadPid(p) {
      if k.proc[p].state == Curr {
        ReschedSlice(SetState(k, p, Free));
      } else {
        KilledOnly(k, p);
        hide KillFinishCall;
        StaysSlice(k, KillFinishCall(k, p));
      }
    }
  }

  lemma KilledOnly(k: K, p: Pid)
    requires Shaped(k) && k.proc[p].state != Curr && !BadPid(p)
    ensures var k' := KillFinishCall(k, p);
            && k'.preempt == k.preempt && k'.curr == k.curr && k'.count100 == k.count100
            && (k' == k || k'.proc == k.proc[p := k.proc[p].(state := Free)])
  {
    hide Without;
    hide Unsleep;
    UnsleepKeeps(k, p);
    UnsleepCurr(k, p);
  }

  lemma UnsleepCurr(k: K, p: Pid)
    requires Shaped(k)
    ensures Unsleep(k, p).curr == k.curr
  {
  }

  lemma TickSlice(k: K)
    requires Inv(k) && SliceOk(k)
    ensures SliceOk(SliceTick(k)) && SliceOk(SliceEnd(k))
  {
    SliceInv(k);
    hide Inv;
    hide Resched;
    var k1 := k.(preempt := k.preempt - 1);
    if k1.preempt == 0 {
      ReschedSlice(k1);
    }
    if k.preempt <= 0 {
      ReschedSlice(k);
    }
  }

  lemma WakeSlice(k: K)
    requires Shaped(k) && Inv(Wakeup(k)) && k.preempt <= QUANTUM && 0 <= k.count100 < 10
    ensures SliceOk(Wakeup(k))
  {
    hide Inv;
    hide Resched;
    hide WakeDue;
    WakeDueKeeps(k);
    ReschedSlice(Retop(WakeDue(k)));
  }

  lemma ClockSlice(k: K)
    requires Inv(k) && SliceOk(k)
    ensures SliceOk(ClockCall(k))
  {
    hide Inv;
    hide Wakeup;
    hide SliceTick;
    if k.count100 + 1 != 10 {
      StaysButCount(k, k.(count100 := k.count100 + 1));
    } else {
      var k0 := k.(count100 := 0);
      StaysButCount(k, k0);
      InvMid(k);
      SameCoreMid(k, k0, -1, true);
      CountDownInv(k0);
      var k1 := k0.(key := k0.key[k0.sltop := k0.key[k0.sltop] - 1]);
      if k0.slnempty && k1.key[k0.sltop] == 0 {
        WakeSlice(k1);
      } else if k0.slnempty {
        StaysSlice(k0, k1);
      }
      TickSlice(CountDown(k0));
    }
  }

  lemma StaysButCount(k: K, k': K)
    requires SliceOk(k) && k' == k.(count100 := k'.count100) && 0 <= k'.count100 < 10
    ensures SliceOk(k')
  {
  }

  lemma StrtSlice(k: K)
    requires Inv(k) && SliceOk(k)
    ensures SliceOk(StrtClkCall(k))
  {
    hide Inv;
    hide Wakeup;
    hide Resched;
    hide MakeUp;
    StrtClkInv(k);
    if k.defclk == 1 {
      var k1 := k.(defclk := 0, preempt := k.preempt - k.clkdiff, clkdiff := 0);
      InvMid(k);
      SameCoreMid(k, k1, -1, true);
      CatchUpInv(k1, k.clkdiff);
      var k2 := CatchUp(k1, k.clkdiff);
      if k1.slnempty {
        WakeSlice(k1.(key := MakeUp(k1.lists[CLOCK], k1.key, k.clkdiff)));
        TickSlice(k2);
      } else if k1.preempt <= 0 {
        ReschedSlice(k1);
      } else {
        FreshSlice(k1);
      }
    } else if k.defclk > 1 {
      StaysSlice(k, k.(defclk := k.defclk - 1));
    }
  }

  lemma FreshSlice(k: K)
    requires Shaped(k) && 0 < k.preempt <= QUANTUM && 0 <= k.count100 < 10
    ensures SliceOk(k)
  {
  }

  lemma StepKeepsSlice(k: K, c: Call)
    requires Inv(k) && SliceOk(k) && Enabled(k, c)
    ensures SliceOk(Next(k, c))
  {
    StepKeepsInv(k, c);
    hide Inv;
    hide SliceOk;
    hide WaitCall;
    hide SignalCall;
    hide SignalNCall;
    hide SDeleteCall;
    hide SResetCall;
    hide SuspendCall;
    hide ChPrioCall;
    hide SendCall;
    hide SendFCall;
    hide KillFinishCall;
    hide StrtClkCall;
    hide ClockCall;
    hide SliceEnd;
    hide SliceTick;
    match c
    case DoWait(s) => WaitSlice(k, s);
    case DoSignal(s) => SignalInv(k, s, 0); SignalSlice(k, s, 0);
    case DoSignalN(s, n) => SignalInv(k, s, n); SignalSlice(k, s, n);
    case DoSDelete(s) => SResetInv(k, s, 0); DrainSlice(k, s, 0);
    case DoSReset(s, n) => SDeleteInv(k, s); DrainSlice(k, s, n);
    case DoResume(p) => ResumeSlice(k, p);
    case DoSuspend(p) => SuspendSlice(k, p);
    case DoChPrio(p, prio) => PrioSlice(k, p, prio);
    case DoSend(p, msg) => SendSlice(k, p, msg);
    case DoSendF(p, msg) => SendFSlice(k, p, msg);
    case KillSend(p) => if !BadPid(p) && k.proc[p].state != Free { SendSlice(k, k.proc[p].nxtkin, p); }
    case KillFinish(p) => KillSlice(k, p);
    case DoStrtClk => StrtSlice(k);
    case StrtClkRest => TickSlice(k);
    case ClockInterrupt => ClockSlice(k);
    case ClockRest => TickSlice(k);
    case DoReceive => ReceiveSlice(k, c);
    case DoRecvTim(n) => ReceiveSlice(k, c);
    case DoSleep10(n) => ReceiveSlice(k, c);
    case DoUnsleep(p) =>
    case _ => CreateSlice(k, c);
  }

  /** In every state of every run, while a process of the running one's priority is ready, between one tick and
      a quantum is left of the slice. */
  lemma {:induction false} RivalHasSlice(run: seq<K>, calls: seq<Call>, n: nat)
    requires Run(run, calls) && n < |run|
    ensures Inv(run[n]) && SliceOk(run[n]) && (Rival(run[n]) ==> 1 <= run[n].preempt <= QUANTUM)
  {
    hide Inv;
    hide Next;
    RunKeepsInv(run, calls, n);
    if n > 0 {
      RivalHasSlice(run, calls, n - 1);
      StepKeepsSlice(run[n - 1], calls[n - 1]);
    }
  }

  /** n ticks of the time slice, and nothing else. */
  function Ticks(k: K, n: nat): (r: K)
    requires Shaped(k)
    ensures Shaped(r)
    decreases n
  {
    if n == 0 then k else SliceTick(Ticks(k, n - 1))
  }

  /** The clock takes the processor away exactly at the end of a slice with a rival, and gives it to the rival who
      has been ready longest, with a whole slice; the process that ran goes behind all its equals. */
  lemma SliceExact(k: K)
    requires Inv(k) && Shaped(k)
    ensures var k' := SliceTick(k);
            && (k'.curr != k.curr <==> k.preempt == 1 && Rival(k))
            && (k'.curr == k.curr ==> k' == k.(preempt := k.preempt - 1))
            && (k'.curr != k.curr ==>
                  && k.proc[k'.curr].state == Ready && k.proc[k'.curr].prio == k.proc[k.curr].prio
                  && (forall p: Pid :: k.proc[p].state == Ready ==> !Sooner(k, p, k'.curr))
                  && k'.preempt == QUANTUM && k'.proc[k.curr].state == Ready)
  {
    hide Inv;
    hide Resched;
    hide Rival;
    hide Sooner;
    if k.preempt == 1 {
      EndOfSlice(k);
      hide SliceTick;
      LongestReady(k);
    }
  }

  lemma LongestReady(k: K)
    requires Inv(k) && Shaped(k)
    ensures var q := SliceTick(k).curr;
            k.proc[q].state == Ready ==> forall p: Pid :: k.proc[p].state == Ready ==> !Sooner(k, p, q)
  {
    hide Inv;
    hide SliceTick;
    hide Sooner;
    var q := SliceTick(k).curr;
    if k.proc[q].state == Ready {
      forall p: Pid | k.proc[p].state == Ready
        ensures !Sooner(k, p, q)
      {
        ReadyKeepsTurn(k, ClockRest, p, q);
      }
    }
  }

  lemma EndOfSlice(k: K)
    requires Inv(k) && Shaped(k) && k.preempt == 1
    ensures var k' := SliceTick(k);
            && (k'.curr != k.curr <==> Rival(k))
            && (k'.curr == k.curr ==> k' == k.(preempt := 0))
            && (k'.curr != k.curr ==>
                  && k.proc[k'.curr].state == Ready && k.proc[k'.curr].prio == k.proc[k.curr].prio
                  && k'.preempt == QUANTUM && k'.proc[k.curr].state == Ready)
  {
    var k1 := k.(preempt := 0);
    InvMid(k);
    SameCoreMid(k, k1, -1, true);
    SliceInv(k);
    hide Inv;
    hide Mid;
    hide Rival;
    assert SliceTick(k) == Resched(k1);
    hide SliceTick;
    if LastKey(k1) < k1.proc[k1.curr].prio {
      NoRival(k);
      assert Resched(k1) == k1;
    } else {
      hide Resched;
      Handover(k1);
      ARival(k, Resched(k1).curr);
    }
  }

  lemma ARival(k: K, p: Pid)
    requires Shaped(k) && k.proc[p].state == Ready && k.proc[p].prio == k.proc[k.curr].prio
    ensures Rival(k)
  {
  }

  lemma NoRival(k: K)
    requires Inv(k) && LastKey(k) < k.proc[k.curr].prio
    ensures !Rival(k)
  {
    forall p: Pid | k.proc[p].state == Ready
      ensures k.proc[p].prio != k.proc[k.curr].prio
    {
      ReadyListed(k, p);
      HighestLast(k);
    }
  }

  lemma Handover(k: K)
    requires Inv(k) && Inv(Resched(k)) && LastKey(k) >= k.proc[k.curr].prio
    ensures var k' := Resched(k);
            && k'.curr != k.curr && k.proc[k'.curr].state == Ready && k.proc[k'.curr].prio == k.proc[k.curr].prio
            && k'.preempt == QUANTUM && k'.proc[k.curr].state == Ready
  {
    InvMid(k);
    NotReadyCurr(k);
    EnlistReady(k, k.curr, -1, true);
    ReschedRuns(k, -1, true);
    ReschedKeeps(k);
    hide Inv;
    hide Mid;
    DispatchRequeued(k, -1, true);
    HandedOver(k, Resched(k));
  }

  lemma NotReadyCurr(k: K)
    requires Inv(k)
    ensures !InReady(k, k.curr)
  {
    ReadyListed(k, k.curr);
  }

  lemma HandedOver(k: K, k': K)
    requires Inv(k) && Inv(k') && Readies(k, k', []) && Switches(k, k') && k'.curr != k.curr
    ensures k.proc[k'.curr].state == Ready && k'.proc[k.curr].state == Ready
    ensures k.proc[k'.curr].prio == k.proc[k.curr].prio && k'.preempt == QUANTUM
  {
    assert Runnable(k', k'.curr) && Runnable(k, k.curr);
    ReadyListed(k, k'.curr);
    ReadyListed(k', k.curr);
  }

  /** So with nothing else happening a rival runs after exactly as many ticks as are left of the slice. */
  lemma RivalRuns(k: K, n: nat)
    requires Inv(k) && SliceOk(k) && Rival(k) && n <= k.preempt
    ensures n < k.preempt ==> Ticks(k, n) == k.(preempt := k.preempt - n)
    ensures n == k.preempt ==> Ticks(k, n).curr != k.curr && k.proc[Ticks(k, n).curr].prio == k.proc[k.curr].prio
  {
    if n > 0 {
      StillTicking(k, n - 1);
      var k1 := Ticks(k, n - 1);
      LastTick(k, k1);
      hide SliceTick;
    }
  }

  lemma {:induction false} StillTicking(k: K, n: nat)
    requires Shaped(k) && n < k.preempt
    ensures Ticks(k, n) == k.(preempt := k.preempt - n)
    decreases n
  {
    hide Resched;
    if n > 0 {
      StillTicking(k, n - 1);
    }
  }

  lemma LastTick(k: K, k1: K)
    requires Inv(k) && Shaped(k) && Rival(k) && k1 == k.(preempt := k1.preempt)
    ensures k1.preempt > 1 ==> SliceTick(k1) == k1.(preempt := k1.preempt - 1)
    ensures k1.preempt == 1 ==> SliceTick(k1).curr != k.curr && k.proc[SliceTick(k1).curr].prio == k.proc[k.curr].prio
  {
    hide Resched;
    InvMid(k);
    SameCoreMid(k, k1, -1, true);
    hide Inv;
    assert Rival(k1) <==> Rival(k);
    if k1.preempt == 1 {
      EndOfSlice(k1);
    }
  }

  /** Nine interrupts out of ten only count; with nobody asleep the tenth is a tick of the slice and nothing else. */
  lemma EveryTenth(k: K)
    requires SliceOk(k)
    ensures k.count100 < 9 ==> ClockCall(k) == k.(count100 := k.count100 + 1)
    ensures k.count100 == 9 && !k.slnempty ==> ClockCall(k) == SliceTick(k.(count100 := 0))
  {
    hide Resched;
  }

  /** A sleep for no time gives the processor to a rival, if there is one, and else does nothing. */
  lemma SleepForNothing(k: K)
    requires Inv(k) && Shaped(k)
    ensures SleepCall(k, 0).curr != k.curr <==> Rival(k)
    ensures SleepCall(k, 0).curr == k.curr ==> SleepCall(k, 0) == k
    ensures SleepCall(k, 0).curr != k.curr ==> k.proc[SleepCall(k, 0).curr].prio == k.proc[k.curr].prio
  {
    InvMid(k);
    ReschedInv(k);
    hide Inv;
    hide Mid;
    hide Rival;
    if LastKey(k) < k.proc[k.curr].prio {
      NoRival(k);
    } else {
      hide Resched;
      Handover(k);
      ARival(k, Resched(k).curr);
    }
  }

  /** Calls of stopclk and strtclk nest: only the last strtclk makes up for the deferred ticks. */
  lemma DeferralNests(k: K)
    requires Shaped(k) && k.defclk >= 0
    ensures Next(k, DoStopClk) == k.(defclk := k.defclk + 1)
    ensures k.defclk > 0 ==> Next(Next(k, DoStopClk), DoStrtClk) == k
    ensures k.defclk == 0 ==> Next(k, DoStrtClk) == k
  {
    hide CatchUp;
    hide SliceEnd;
  }
}
