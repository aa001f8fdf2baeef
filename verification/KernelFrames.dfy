/** What each step leaves alone: which calls change a process's priority, messages or next of kin, and which
    change a semaphore; and what the two calls that create something put there. */
module KernelFrames {
  import opened KernelSpec
  import opened KernelLists
  import opened KernelInv
  import opened KernelRuns
  import opened KernelEffects

  /** A process's entry but for its state and the semaphore it waits on. */
  predicate SameData(a: PEntry, b: PEntry) {
    a.prio == b.prio && a.msgs == b.msgs && a.msg == b.msg && a.nxtkin == b.nxtkin
  }

  /** Every process has the same data, and the time slice, the tick counters and the semaphores are as they were. */
  ghost predicate Keeps(k: K, k': K) {
    && Shaped(k) && Shaped(k') && (forall p: Pid :: SameData(k.proc[p], k'.proc[p]))
    && k'.sem == k.sem && k'.preempt == k.preempt && k'.defclk == k.defclk && k'.clkdiff == k.clkdiff && k'.count100 == k.count100
  }

  /** As resched leaves it: a process that is switched to gets a whole slice. */
  ghost predicate Switches(k: K, k': K) {
    && Keeps(k, k'.(preempt := k.preempt)) && (k'.preempt == k.preempt || k'.preempt == QUANTUM)
    && (k'.curr != k.curr ==> k'.preempt == QUANTUM)
  }

  lemma KeepsMore(a: K, b: K, c: K)
    requires Keeps(a, b)
    ensures Keeps(b, c) ==> Keeps(a, c)
    ensures b.curr == a.curr && Switches(b, c) ==> Switches(a, c)
  {
  }

  lemma ReschedKeeps(k: K)
    requires Shaped(k)
    ensures Switches(k, Resched(k))
  {
  }

  lemma ReadyFirstKeeps(k: K, l: int)
    requires Shaped(k) && 0 <= l < NSEM + 2
    ensures Keeps(k, ReadyFirst(k, l)) && ReadyFirst(k, l).curr == k.curr
  {
  }

  lemma {:induction false} DrainKeeps(k: K, s: int)
    requires Shaped(k) && 0 <= s < NSEM
    ensures Keeps(k, Drain(k, s)) && Drain(k, s).curr == k.curr
    decreases |k.lists[s]|
  {
    hide ReadyFirst;
    hide Keeps;
    if k.lists[s] == [] {
      Same(k);
    } else {
      ReadyFirstKeeps(k, s);
      ReadyFirstLists(k, s, s);
      DrainKeeps(ReadyFirst(k, s), s);
      KeepsMore(k, ReadyFirst(k, s), Drain(k, s));
    }
  }

  lemma Same(k: K)
    requires Shaped(k)
    ensures Keeps(k, k)
  {
  }

  lemma {:induction false} WakeDueKeeps(k: K)
    requires Shaped(k)
    ensures Keeps(k, WakeDue(k)) && WakeDue(k).curr == k.curr
    decreases |k.lists[CLOCK]|
  {
    hide ReadyFirst;
    hide Keeps;
    var s := k.lists[CLOCK];
    if s == [] || k.key[s[0]] > 0 {
      Same(k);
    } else {
      ReadyFirstKeeps(k, CLOCK);
      ReadyFirstLists(k, CLOCK, CLOCK);
      WakeDueKeeps(ReadyFirst(k, CLOCK));
      KeepsMore(k, ReadyFirst(k, CLOCK), WakeDue(k));
    }
  }

  lemma WakeupKeeps(k: K)
    requires Shaped(k)
    ensures Switches(k, Wakeup(k))
  {
    hide WakeDue;
    hide Resched;
    WakeDueKeeps(k);
    ReschedKeeps(Retop(WakeDue(k)));
  }

  /** The same but for the count of one semaphore. */
  lemma {:induction false} SignalTimesKeeps(k: K, s: int, n: nat)
    requires Shaped(k) && 0 <= s < NSEM
    ensures var k' := SignalTimes(k, s, n);
            && k'.sem == k.sem[s := k'.sem[s]] && k'.sem[s].used == k.sem[s].used
            && Keeps(k, k'.(sem := k.sem)) && k'.curr == k.curr
    decreases n
  {
    hide ReadyFirst;
    if n > 0 {
      var k1 := SetCount(k, s, k.sem[s].cnt + 1);
      ReadyFirstKeeps(k1, s);
      SignalTimesKeeps(SignalOnce(k, s), s, n - 1);
    }
  }

  // ----- who changes what -----

  predicate Creates(k: K, c: Call, p: Pid)
    requires Shaped(k)
  {
    c.DoCreate? && k.proc[p].state == Free
  }

  /** A message for p, or p itself taking one. */
  predicate Messages(k: K, c: Call, p: Pid)
    requires Shaped(k)
  {
    || (c.DoSend? && c.p == p) || (c.DoSendF? && c.p == p)
    || (c.KillSend? && !BadPid(c.p) && k.proc[c.p].nxtkin == p)
    || (p == k.curr && (c.DoReceive? || c.DoRecvTim? || c.TakeMsg?))
  }

  predicate TouchesSem(k: K, c: Call, s: int)
    requires Shaped(k) && 0 <= s < NSEM
  {
    || c == DoWait(s) || Releases(c, s) || (c.DoSCreate? && !k.sem[s].used)
    || (c.KillFinish? && !BadPid(c.p) && k.proc[c.p].state == Wait && k.proc[c.p].sem == s)
  }

  ghost predicate Changes(k: K, c: Call, k': K) {
    && Shaped(k) && Shaped(k')
    && (forall p: Pid :: k'.proc[p].prio != k.proc[p].prio ==> (c.DoChPrio? && c.p == p) || Creates(k, c, p))
    && (forall p: Pid :: (k'.proc[p].msg, k'.proc[p].msgs) != (k.proc[p].msg, k.proc[p].msgs) ==> Messages(k, c, p) || Creates(k, c, p))
    && (forall p: Pid :: k'.proc[p].nxtkin != k.proc[p].nxtkin ==> (c.DoSetNok? && c.p == p) || Creates(k, c, p))
    && (forall s :: 0 <= s < NSEM && k'.sem[s] != k.sem[s] ==> TouchesSem(k, c, s))
  }

  lemma NoChange(k: K, c: Call)
    requires Shaped(k)
    ensures Changes(k, c, k)
  {
  }

  lemma ThenSwitches(k: K, c: Call, k1: K, k2: K)
    requires Changes(k, c, k1) && Switches(k1, k2)
    ensures Changes(k, c, k2)
  {
  }

  lemma ThenKeeps(k: K, c: Call, k1: K, k2: K)
    requires Changes(k, c, k1) && Keeps(k1, k2)
    ensures Changes(k, c, k2)
  {
  }

  lemma ThenReschedules(k: K, c: Call, k1: K)
    requires Changes(k, c, k1)
    ensures Changes(k, c, Resched(k1))
  {
    assert Shaped(k1);
    ReschedKeeps(k1);
    hide Resched;
    ThenSwitches(k, c, k1, Resched(k1));
  }

  lemma ThenReadies(k: K, c: Call, k1: K, p: Pid)
    requires Changes(k, c, k1)
    ensures Changes(k, c, MakeReady(k1, p))
  {
    assert Shaped(k1);
    ReadyKeeps(k1, p);
    hide MakeReady;
    ThenKeeps(k, c, k1, MakeReady(k1, p));
  }

  lemma InsertKeeps(k: K, p: Pid, x: int)
    requires Shaped(k)
    ensures Keeps(k, InsertReady(k, p, x)) && InsertReady(k, p, x).curr == k.curr
  {
  }

  lemma ReadyKeeps(k: K, p: Pid)
    requires Shaped(k)
    ensures Keeps(k, MakeReady(k, p)) && MakeReady(k, p).curr == k.curr
  {
  }

  lemma StateKeeps(k: K, p: Pid, st: PState)
    requires Shaped(k)
    ensures Keeps(k, SetState(k, p, st))
  {
  }

  lemma UnsleepKeeps(k: K, p: Pid)
    requires Shaped(k)
    ensures Keeps(k, Unsleep(k, p)) && Unsleep(k, p).proc == k.proc
  {
  }

  lemma SleepKeeps(k: K, p: Pid, n: int, st: PState)
    requires Shaped(k)
    ensures Keeps(k, SleepFor(k, p, n, st))
  {
    hide DeltaKeys;
    hide DeltaPlace;
  }

  lemma WaitChanges(k: K, s: int)
    requires Shaped(k)
    ensures Changes(k, DoWait(s), WaitCall(k, s))
  {
    hide Resched;
    if !BadSem(s) {
      var k1 := Block(SetCount(k, s, k.sem[s].cnt - 1), s);
      assert Changes(k, DoWait(s), k1);
      ThenReschedules(k, DoWait(s), k1);
    }
  }

  lemma SignalChanges(k: K, c: Call, s: int, n: int)
    requires Shaped(k) && (c == DoSignal(s) || c == DoSignalN(s, n))
    ensures Changes(k, c, SignalCall(k, s)) && Changes(k, c, SignalNCall(k, s, n))
  {
    hide Resched;
    hide ReadyFirst;
    hide SignalTimes;
    NoChange(k, c);
    if !BadSem(s) && k.sem[s].used {
      var k1 := SetCount(k, s, k.sem[s].cnt + 1);
      assert Changes(k, c, k1);
      ReadyFirstKeeps(k1, s);
      ThenKeeps(k, c, k1, ReadyFirst(k1, s));
      ThenReschedules(k, c, SignalOnce(k, s));
      if n > 0 {
        ManySignals(k, c, s, n);
        ThenReschedules(k, c, SignalTimes(k, s, n));
      }
    }
  }

  lemma ManySignals(k: K, c: Call, s: int, n: nat)
    requires Shaped(k) && 0 <= s < NSEM && (c == DoSignal(s) || c == DoSignalN(s, n))
    ensures Changes(k, c, SignalTimes(k, s, n))
  {
    hide SignalTimes;
    SignalTimesKeeps(k, s, n);
  }

  lemma DeleteChanges(k: K, s: int)
    requires Shaped(k)
    ensures Changes(k, DoSDelete(s), SDeleteCall(k, s))
  {
    hide Resched;
    hide Drain;
    NoChange(k, DoSDelete(s));
    if !BadSem(s) && k.sem[s].used {
      var k1 := k.(sem := k.sem[s := k.sem[s].(used := false)]);
      assert Changes(k, DoSDelete(s), k1);
      DrainKeeps(k1, s);
      ThenKeeps(k, DoSDelete(s), k1, Drain(k1, s));
      ThenReschedules(k, DoSDelete(s), Drain(k1, s));
    }
  }

  lemma ResetChanges(k: K, s: int, n: int)
    requires Shaped(k)
    ensures Changes(k, DoSReset(s, n), SResetCall(k, s, n))
  {
    hide Resched;
    hide Drain;
    var c := DoSReset(s, n);
    NoChange(k, c);
    if !BadSem(s) && k.sem[s].used && n >= 0 {
      DrainKeeps(k, s);
      ThenKeeps(k, c, k, Drain(k, s));
      var k1 := SetCount(Drain(k, s), s, n);
      assert Changes(k, c, k1);
      ThenReschedules(k, c, k1);
    }
  }

  lemma CreationChanges(k: K, c: Call)
    requires Shaped(k) && (c.DoSCreate? || c.DoCreate?)
    ensures Changes(k, c, Next(k, c))
  {
    hide SearchSem;
    hide SearchPid;
    SearchSemFinds(k.sem, k.nextsem, NSEM);
    SearchPidFinds(k.proc, k.nextproc, NPROC);
  }

  lemma ResumeChanges(k: K, p: int)
    requires Shaped(k)
    ensures Changes(k, DoResume(p), ResumeCall(k, p))
  {
    hide Resched;
    hide MakeReady;
    hide Changes;
    NoChange(k, DoResume(p));
    if !BadPid(p) {
      ThenReadies(k, DoResume(p), k, p);
      ThenReschedules(k, DoResume(p), MakeReady(k, p));
    }
  }

  lemma SuspendChanges(k: K, p: int)
    requires Shaped(k)
    ensures Changes(k, DoSuspend(p), SuspendCall(k, p))
  {
    hide Resched;
    hide Without;
    hide Changes;
    var c := DoSuspend(p);
    NoChange(k, c);
    if !BadPid(p) {
      var k1 := SetState(k, p, Susp);
      StateKeeps(k, p, Susp);
      ThenKeeps(k, c, k, k1);
      ThenReschedules(k, c, k1);
      ThenKeeps(k, c, k1, SetList(k1, READY, Without(k.lists[READY], p)));
    }
  }

  lemma PrioChanges(k: K, p: int, prio: int)
    requires Shaped(k)
    ensures Changes(k, DoChPrio(p, prio), ChPrioCall(k, p, prio))
  {
    hide Resched;
    hide InsertReady;
    hide Without;
    var c := DoChPrio(p, prio);
    NoChange(k, c);
    if !BadPid(p) {
      var k1 := SetProc(k, p, k.proc[p].(prio := prio));
      assert Changes(k, c, k1);
      hide Changes;
      ThenReschedules(k, c, k1);
      var k2 := SetList(k1, READY, Without(k.lists[READY], p));
      ThenKeeps(k, c, k1, k2);
      InsertKeeps(k2, p, prio);
      ThenKeeps(k, c, k2, InsertReady(k2, p, prio));
      ThenReschedules(k, c, InsertReady(k2, p, prio));
    }
  }

  lemma KillChanges(k: K, p: int)
    requires Shaped(k)
    ensures Changes(k, KillFinish(p), KillFinishCall(k, p))
  {
    hide Resched;
    hide Without;
    hide Unsleep;
    var c := KillFinish(p);
    NoChange(k, c);
    if !BadPid(p) {
      StateKeeps(k, p, Free);
      ThenKeeps(k, c, k, SetState(k, p, Free));
      ThenReschedules(k, c, SetState(k, p, Free));
      UnsleepKeeps(k, p);
      StateKeeps(Unsleep(k, p), p, Free);
      ThenKeeps(k, c, k, Unsleep(k, p));
      ThenKeeps(k, c, Unsleep(k, p), SetState(Unsleep(k, p), p, Free));
      if k.proc[p].state == Wait {
        KillWaiterChanges(k, p);
      }
    }
  }

  lemma KillWaiterChanges(k: K, p: Pid)
    requires Shaped(k) && !BadPid(p) && k.proc[p].state == Wait
    ensures Changes(k, KillFinish(p), KillFinishCall(k, p))
  {
    hide Without;
  }

  lemma MessageStored(k: K, c: Call, p: Pid, k1: K)
    requires Shaped(k) && Shaped(k1) && Messages(k, c, p)
    requires k1 == SetProc(k, p, k.proc[p].(msg := k1.proc[p].msg, msgs := k1.proc[p].msgs))
    ensures Changes(k, c, k1)
  {
  }

  lemma SendChanges(k: K, c: Call, p: int, msg: int)
    requires Shaped(k) && (!BadPid(p) ==> Messages(k, c, p))
    ensures Changes(k, c, SendCall(k, p, msg))
  {
    hide Resched;
    hide MakeReady;
    hide Unsleep;
    hide Changes;
    NoChange(k, c);
    if !BadPid(p) {
      var k1 := SetProc(k, p, k.proc[p].(msg := msg, msgs := 1));
      MessageStored(k, c, p, k1);
      ThenReadies(k, c, k1, p);
      ThenReschedules(k, c, MakeReady(k1, p));
      UnsleepKeeps(k1, p);
      ThenKeeps(k, c, k1, Unsleep(k1, p));
      ThenReadies(k, c, Unsleep(k1, p), p);
      ThenReschedules(k, c, MakeReady(Unsleep(k1, p), p));
    }
  }

  lemma SendFChanges(k: K, p: int, msg: int)
    requires Shaped(k)
    ensures Changes(k, DoSendF(p, msg), SendFCall(k, p, msg))
  {
    hide Resched;
    hide MakeReady;
    hide Changes;
    var c := DoSendF(p, msg);
    NoChange(k, c);
    if !BadPid(p) {
      var k1 := SetProc(k, p, k.proc[p].(msg := msg, msgs := (k.proc[p].msgs + 1) % 256));
      MessageStored(k, c, p, k1);
      ThenReadies(k, c, k1, p);
      ThenReschedules(k, c, MakeReady(k1, p));
    }
  }

  lemma ReceiveChanges(k: K, c: Call, n: int)
    requires Shaped(k) && (c.DoReceive? || c.DoRecvTim? || c.TakeMsg?)
    ensures Changes(k, c, ReceiveCall(k)) && Changes(k, c, RecvTimCall(k, n)) && Changes(k, c, TakeMessage(k))
  {
    hide Resched;
    hide SleepFor;
    NoChange(k, c);
    assert Changes(k, c, TakeMessage(k));
    hide Changes;
    StateKeeps(k, k.curr, Recv);
    ThenKeeps(k, c, k, SetState(k, k.curr, Recv));
    ThenReschedules(k, c, SetState(k, k.curr, Recv));
    SleepKeeps(k, k.curr, n, TRecv);
    ThenKeeps(k, c, k, SleepFor(k, k.curr, n, TRecv));
    ThenReschedules(k, c, SleepFor(k, k.curr, n, TRecv));
  }

  lemma SleepChanges(k: K, n: int)
    requires Shaped(k)
    ensures Changes(k, DoSleep10(n), SleepCall(k, n))
  {
    hide Resched;
    hide SleepFor;
    hide Changes;
    var c := DoSleep10(n);
    NoChange(k, c);
    ThenReschedules(k, c, k);
    SleepKeeps(k, k.curr, n, Sleep);
    ThenKeeps(k, c, k, SleepFor(k, k.curr, n, Sleep));
    ThenReschedules(k, c, SleepFor(k, k.curr, n, Sleep));
  }

  lemma ThenWakes(k: K, c: Call, k1: K)
    requires Changes(k, c, k1)
    ensures Changes(k, c, Wakeup(k1))
  {
    assert Shaped(k1);
    WakeupKeeps(k1);
    hide Wakeup;
    ThenSwitches(k, c, k1, Wakeup(k1));
  }

  lemma TickChanges(k: K, c: Call)
    requires Shaped(k)
    ensures Changes(k, c, ClockCall(k)) && Changes(k, c, SliceTick(k))
  {
    hide Wakeup;
    hide SliceTick;
    hide Changes;
    NoChange(k, c);
    ThenSlice(k, c, k);
    OtherFields(k, c, k.(count100 := k.count100 + 1));
    var k1 := k.(count100 := 0);
    OtherFields(k, c, k1);
    OtherFields(k, c, k1.(key := k1.key[k1.sltop := k1.key[k1.sltop] - 1]));
    ThenWakes(k, c, k1.(key := k1.key[k1.sltop := k1.key[k1.sltop] - 1]));
    ThenSlice(k, c, CountDown(k1));
  }

  lemma OtherFields(k: K, c: Call, k': K)
    requires Shaped(k) && Shaped(k') && k'.proc == k.proc && k'.sem == k.sem
    ensures Changes(k, c, k')
  {
  }

  lemma ThenSlice(k: K, c: Call, k1: K)
    requires Changes(k, c, k1)
    ensures Changes(k, c, SliceTick(k1))
  {
    hide Resched;
    ThenReschedules(k, c, k1.(preempt := k1.preempt - 1));
  }

  lemma StrtClkChanges(k: K)
    requires Shaped(k)
    ensures Changes(k, DoStrtClk, StrtClkCall(k)) && Changes(k, StrtClkRest, SliceEnd(k))
  {
    hide Resched;
    hide Wakeup;
    hide MakeUp;
    var c := DoStrtClk;
    NoChange(k, StrtClkRest);
    ThenReschedules(k, StrtClkRest, k);
    var k1 := k.(defclk := 0, preempt := k.preempt - k.clkdiff, clkdiff := 0);
    var k2 := k1.(key := MakeUp(k1.lists[CLOCK], k1.key, k.clkdiff));
    ThenWakes(k, c, k2);
    ThenReschedules(k, c, CatchUp(k1, k.clkdiff));
  }

  /** Over every step, a priority is changed only by chprio of that process or by its creation; its message only
      by a message for it, its own receiving or its creation; its next of kin only by setnok or its creation;
      and a semaphore only by a call for it, its creation, or the killing of a process that waits on it. */
  lemma StepChanges(k: K, c: Call)
    requires Shaped(k) && Enabled(k, c)
    ensures Changes(k, c, Next(k, c))
  {
    hide Changes;
    match c
    case DoWait(s) => WaitChanges(k, s);
    case DoSignal(s) => SignalChanges(k, c, s, 1);
    case DoSignalN(s, n) => SignalChanges(k, c, s, n);
    case DoSDelete(s) => DeleteChanges(k, s);
    case DoSReset(s, n) => ResetChanges(k, s, n);
    case DoResume(p) => ResumeChanges(k, p);
    case DoSuspend(p) => SuspendChanges(k, p);
    case DoChPrio(p, prio) => PrioChanges(k, p, prio);
    case DoSend(p, msg) => SendChanges(k, c, p, msg);
    case DoSendF(p, msg) => SendFChanges(k, p, msg);
    case DoReceive => ReceiveChanges(k, c, 0);
    case DoRecvTim(n) => ReceiveChanges(k, c, n);
    case TakeMsg => ReceiveChanges(k, c, 0);
    case DoSleep10(n) => SleepChanges(k, n);
    case KillFinish(p) => KillChanges(k, p);
    case DoStrtClk => StrtClkChanges(k);
    case StrtClkRest => StrtClkChanges(k);
    case ClockInterrupt => TickChanges(k, c);
    case ClockRest => TickChanges(k, c);
    case DoUnsleep(p) => UnsleepChanges(k, p);
    case KillSend(p) => KinChanges(k, p);
    case _ => OtherChanges(k, c);
  }

  lemma UnsleepChanges(k: K, p: int)
    requires Shaped(k)
    ensures Changes(k, DoUnsleep(p), UnsleepCall(k, p))
  {
    hide Unsleep;
    NoChange(k, DoUnsleep(p));
    if !BadPid(p) {
      UnsleepKeeps(k, p);
      ThenKeeps(k, DoUnsleep(p), k, Unsleep(k, p));
    }
  }

  lemma KinChanges(k: K, p: int)
    requires Shaped(k)
    ensures Changes(k, KillSend(p), KillSendCall(k, p))
  {
    hide SendCall;
    NoChange(k, KillSend(p));
    if !BadPid(p) {
      SendChanges(k, KillSend(p), k.proc[p].nxtkin, p);
    }
  }

  lemma OtherChanges(k: K, c: Call)
    requires Shaped(k) && (c.DoSetNok? || c.DoStopClk? || c.DoSCreate? || c.DoCreate?)
    ensures Changes(k, c, Next(k, c))
  {
    if c.DoSCreate? || c.DoCreate? {
      CreationChanges(k, c);
    }
  }

  // ----- creation -----

  /** screate gives one formerly unused semaphore the count asked for, and changes no other; it fails only for a
      negative count or when all are used. */
  lemma SCreateExact(k: K, cnt: int) returns (s: int)
    requires Inv(k)
    ensures var k' := Next(k, DoSCreate(cnt));
            && (s == -1 <==> cnt < 0 || forall t :: 0 <= t < NSEM ==> k.sem[t].used)
            && (s == -1 ==> k' == k.(nextsem := k'.nextsem))
            && (s != -1 ==> 0 <= s < NSEM && !k.sem[s].used && k.lists[s] == []
                            && k' == k.(nextsem := k'.nextsem, sem := k.sem[s := SEntry(true, cnt)]))
  {
    hide SearchSem;
    SearchSemFinds(k.sem, k.nextsem, NSEM);
    SCreateFails(k);
    s := if cnt < 0 then -1 else SearchSem(k.sem, k.nextsem, NSEM).0;
    if s >= 0 {
      assert CountOk(k.sem[s], |k.lists[s]|);
    }
  }

  /** n waits of the current process on s, one after the other. */
  function Waits(k: K, s: int, n: nat): (r: K)
    requires Shaped(k)
    ensures Shaped(r)
    decreases n
  {
    if n == 0 then k else Next(Waits(k, s, n - 1), DoWait(s))
  }

  /** So a semaphore created with count cnt lets exactly cnt waits pass before one blocks. */
  lemma {:induction false} CountPasses(k: K, s: int, n: nat)
    requires Inv(k) && k.curr != NULLPROC && 0 <= s < NSEM && k.sem[s].used && k.sem[s].cnt >= n
    ensures Inv(Waits(k, s, n)) && Waits(k, s, n).curr == k.curr && Waits(k, s, n).lists == k.lists
    ensures Waits(k, s, n).sem == k.sem[s := SEntry(true, k.sem[s].cnt - n)]
    ensures k.sem[s].cnt == n ==> Stops(Waits(k, s, n), Waits(k, s, n + 1), k.curr, Wait)
    decreases n
  {
    hide Inv;
    hide WaitCall;
    hide Readies;
    hide Stops;
    InvMid(k);
    if n > 0 {
      CountPasses(k, s, n - 1);
      WaitStops(Waits(k, s, n - 1), s);
      StepKeepsInv(Waits(k, s, n - 1), DoWait(s));
    }
    WaitStops(Waits(k, s, n), s);
    assert Waits(k, s, n + 1) == Next(Waits(k, s, n), DoWait(s));
  }

  /** create makes a formerly free slot a suspended process of the priority asked for, without a message and
      without next of kin, and changes no other. */
  lemma CreateExact(k: K, stack: bool, even: bool, prio: int) returns (p: int)
    requires Inv(k)
    ensures var k' := Next(k, DoCreate(stack, even, prio));
            && (p == -1 <==> !stack || !even || prio < 1 || forall q: Pid :: k.proc[q].state != Free)
            && (p == -1 ==> k' == k.(nextproc := k'.nextproc))
            && (p != -1 ==>
                  && 0 < p < NPROC && k.proc[p].state == Free
                  && k' == k.(nextproc := k'.nextproc, proc := k.proc[p := k'.proc[p]])
                  && k'.proc[p].state == Susp && k'.proc[p].prio == prio && !k'.proc[p].HasMsg()
                  && BadPid(k'.proc[p].nxtkin))
  {
    hide SearchPid;
    hide Inv;
    InvMid(k);
    SearchPidFinds(k.proc, k.nextproc, NPROC);
    NullNotFree(k);
    CreateFails(k);
    p := if !stack || !even || prio < 1 then -1 else SearchPid(k.proc, k.nextproc, NPROC).0;
  }

  /** setnok, and a message taken. */
  lemma SmallExact(k: K, nok: int, p: Pid)
    requires Inv(k)
    ensures Next(k, DoSetNok(nok, p)) == if p == NULLPROC then k else k.(proc := k.proc[p := k.proc[p].(nxtkin := nok)])
    ensures Next(k, TakeMsg) == k.(proc := k.proc[k.curr := k.proc[k.curr].(msgs := 0)])
  {
  }

  /** The next of kin of a killed process is sent its number. */
  lemma KinIsTold(k: K, p: int)
    requires Inv(k) && !BadPid(p) && k.proc[p].state != Free
    ensures var kin, k' := k.proc[p].nxtkin, Next(k, KillSend(p));
            if BadPid(kin) || k.proc[kin].state == Free || k.proc[kin].HasMsg() then k' == k
            else k'.proc[kin].HasMsg() && k'.proc[kin].msg == p
                 && (k.proc[kin].state == Recv || k.proc[kin].state == TRecv ==> Runnable(k', kin))
  {
    var kin := k.proc[p].nxtkin;
    if !(BadPid(kin) || k.proc[kin].state == Free || k.proc[kin].HasMsg()) {
      SendReadies(k, kin, p);
    }
    hide SendCall;
    hide Inv;
  }
}
