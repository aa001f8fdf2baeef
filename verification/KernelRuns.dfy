/** Runs of the kernel: sequences of system calls and clock interrupts from the state sysinit leaves. */
module KernelRuns {
  import opened KernelSpec
  import opened KernelLists
  import opened KernelInv

  ghost predicate Init(k: K) {
    && Shaped(k) && k.curr == NULLPROC && k.proc[NULLPROC].state == Curr && k.proc[NULLPROC].prio == 0
    && (forall p: Pid :: p != NULLPROC ==> k.proc[p].state == Free)
    && (forall s :: 0 <= s < NSEM ==> !k.sem[s].used)
    && (forall l :: 0 <= l < NSEM + 2 ==> k.lists[l] == [])
    && !k.slnempty && k.preempt == QUANTUM && k.count100 == 0
  }

  ghost predicate Run(run: seq<K>, calls: seq<Call>) {
    && |run| == |calls| + 1 && Init(run[0])
    && forall i :: 0 <= i < |calls| ==> Shaped(run[i]) && Enabled(run[i], calls[i]) && run[i + 1] == Next(run[i], calls[i])
  }

  /** In every state of every run the tables and lists agree, the null process is running or ready, and
      the running process has the highest priority. */
  lemma {:induction false} RunKeepsInv(run: seq<K>, calls: seq<Call>, n: nat)
    requires Run(run, calls) && n < |run|
    ensures Inv(run[n])
  {
    hide Next;
    if n > 0 {
      hide Inv;
      RunKeepsInv(run, calls, n - 1);
      StepKeepsInv(run[n - 1], calls[n - 1]);
    }
  }

  // ----- semaphore lists change only at their ends, or by a kill -----

  lemma ReschedLists(k: K, l: int)
    requires Shaped(k) && 0 <= l < NSEM + 2 && l != READY
    ensures Resched(k).lists[l] == k.lists[l]
  {
  }

  lemma ReadyFirstLists(k: K, m: int, l: int)
    requires Shaped(k) && 0 <= l < NSEM + 2 && l != READY && 0 <= m < NSEM + 2
    ensures ReadyFirst(k, m).lists[l] == if l == m && k.lists[l] != [] then k.lists[l][1..] else k.lists[l]
  {
  }

  lemma {:induction false} WakeDueLists(k: K, l: int)
    requires Shaped(k) && 0 <= l < NSEM
    ensures WakeDue(k).lists[l] == k.lists[l]
    decreases |k.lists[CLOCK]|
  {
    hide ReadyFirst;
    if k.lists[CLOCK] != [] && k.key[k.lists[CLOCK][0]] <= 0 {
      ReadyFirstLists(k, CLOCK, l);
      ReadyFirstLists(k, CLOCK, CLOCK);
      WakeDueLists(ReadyFirst(k, CLOCK), l);
    }
  }

  lemma WakeupLists(k: K, l: int)
    requires Shaped(k) && 0 <= l < NSEM
    ensures Wakeup(k).lists[l] == k.lists[l]
  {
    hide WakeDue;
    hide Resched;
    WakeDueLists(k, l);
    ReschedLists(Retop(WakeDue(k)), l);
  }

  lemma {:induction false} DrainLists(k: K, m: int, l: int)
    requires Shaped(k) && 0 <= l < NSEM + 2 && l != READY && 0 <= m < NSEM
    ensures Drain(k, m).lists[l] == if l == m then [] else k.lists[l]
    decreases |k.lists[m]|
  {
    hide ReadyFirst;
    if k.lists[m] != [] {
      ReadyFirstLists(k, m, m);
      ReadyFirstLists(k, m, l);
      DrainLists(ReadyFirst(k, m), m, l);
    }
  }

  lemma SignalOnceLists(k: K, m: int, l: int)
    requires Shaped(k) && 0 <= l < NSEM + 2 && l != READY && 0 <= m < NSEM
    ensures var a, b := k.lists[l], SignalOnce(k, m).lists[l];
            b == a || (l == m && a != [] && b == a[1..])
  {
    hide ReadyFirst;
    ReadyFirstLists(SetCount(k, m, k.sem[m].cnt + 1), m, l);
  }

  lemma {:induction false} SignalTimesLists(k: K, m: int, n: nat, l: int)
    requires Shaped(k) && 0 <= l < NSEM + 2 && l != READY && 0 <= m < NSEM
    ensures var r := SignalTimes(k, m, n).lists[l];
            |r| <= |k.lists[l]| && r == k.lists[l][|k.lists[l]| - |r|..] && (l != m ==> r == k.lists[l])
    decreases n
  {
    hide SignalOnce;
    if n > 0 {
      SignalOnceLists(k, m, l);
      SignalTimesLists(SignalOnce(k, m), m, n - 1, l);
      SuffixOfTail(k.lists[l], SignalOnce(k, m).lists[l], SignalTimes(SignalOnce(k, m), m, n - 1).lists[l]);
    }
  }

  lemma SuffixOfTail(a: seq<Pid>, b: seq<Pid>, c: seq<Pid>)
    requires b == a || (a != [] && b == a[1..])
    requires |c| <= |b| && c == b[|b| - |c|..]
    ensures c == a[|a| - |c|..]
  {
  }

  predicate Releases(c: Call, s: int) {
    c == DoSignal(s) || (c.DoSignalN? && c.s == s) || c == DoSDelete(s) || (c.DoSReset? && c.s == s)
  }

  /** How one step may change the list of semaphore s: not at all, by the caller of wait arriving at the
      end, by a signal, delete or reset of s releasing from the front, or by the killing of a waiter. */
  ghost predicate ListStep(k: K, c: Call, s: int, b: seq<Pid>)
    requires Shaped(k) && 0 <= s < NSEM
  {
    var a := k.lists[s];
    || b == a
    || (c == DoWait(s) && b == a + [k.curr] && k.curr !in a)
    || (Releases(c, s) && |b| <= |a| && b == a[|a| - |b|..])
    || (c.KillFinish? && !BadPid(c.p) && b == Without(a, c.p))
  }

  lemma WaitListStep(k: K, m: int, s: int)
    requires Inv(k) && k.curr != NULLPROC && 0 <= s < NSEM
    ensures ListStep(k, DoWait(m), s, WaitCall(k, m).lists[s])
  {
    hide Resched;
    if !BadSem(m) && k.sem[m].used && k.sem[m].cnt - 1 < 0 {
      ReschedLists(Block(SetCount(k, m, k.sem[m].cnt - 1), m), s);
      assert HomeOf(k.proc[k.curr]) == -1;
      assert k.curr !in k.lists[s];
    }
  }

  lemma SignalListStep(k: K, m: int, n: int, s: int)
    requires Shaped(k) && 0 <= s < NSEM
    ensures ListStep(k, DoSignal(m), s, SignalCall(k, m).lists[s])
    ensures ListStep(k, DoSignalN(m, n), s, SignalNCall(k, m, n).lists[s])
  {
    hide Resched;
    hide SignalOnce;
    hide SignalTimes;
    if !BadSem(m) {
      SignalTimesLists(k, m, 1, s);
      assert SignalTimes(k, m, 1) == SignalOnce(k, m) by {
        OneSignal(k, m);
      }
      ReschedLists(SignalOnce(k, m), s);
      if n > 0 {
        SignalTimesLists(k, m, n, s);
        ReschedLists(SignalTimes(k, m, n), s);
      }
    }
  }

  lemma OneSignal(k: K, m: int)
    requires Shaped(k) && 0 <= m < NSEM
    ensures SignalTimes(k, m, 1) == SignalOnce(k, m)
  {
    assert SignalTimes(SignalOnce(k, m), m, 0) == SignalOnce(k, m);
  }

  lemma DrainListStep(k: K, m: int, n: int, s: int)
    requires Shaped(k) && 0 <= s < NSEM
    ensures ListStep(k, DoSDelete(m), s, SDeleteCall(k, m).lists[s])
    ensures ListStep(k, DoSReset(m, n), s, SResetCall(k, m, n).lists[s])
  {
    hide Resched;
    hide Drain;
    if !BadSem(m) {
      var k1 := k.(sem := k.sem[m := k.sem[m].(used := false)]);
      DrainLists(k1, m, s);
      ReschedLists(Drain(k1, m), s);
      DrainLists(k, m, s);
      ReschedLists(SetCount(Drain(k, m), m, n), s);
    }
  }

  lemma SliceLists(k: K, s: int)
    requires Shaped(k) && 0 <= s < NSEM
    ensures SliceTick(k).lists[s] == k.lists[s] && SliceEnd(k).lists[s] == k.lists[s]
  {
    hide Resched;
    ReschedLists(k.(preempt := k.preempt - 1), s);
    ReschedLists(k, s);
  }

  lemma ClockListStep(k: K, s: int)
    requires Shaped(k) && 0 <= s < NSEM
    ensures ClockCall(k).lists[s] == k.lists[s] && StrtClkCall(k).lists[s] == k.lists[s]
  {
    hide SliceTick;
    hide SliceEnd;
    hide Wakeup;
    hide MakeUp;
    var k0 := k.(count100 := 0);
    WakeupLists(k0.(key := k0.key[k0.sltop := k0.key[k0.sltop] - 1]), s);
    SliceLists(CountDown(k0), s);
    var k2 := k.(defclk := 0, preempt := k.preempt - k.clkdiff, clkdiff := 0);
    WakeupLists(k2.(key := MakeUp(k2.lists[CLOCK], k2.key, k.clkdiff)), s);
    SliceLists(CatchUp(k2, k.clkdiff), s);
  }

  lemma SendListStep(k: K, p: int, msg: int, s: int)
    requires Shaped(k) && 0 <= s < NSEM
    ensures SendCall(k, p, msg).lists[s] == k.lists[s]
  {
    hide Resched;
    if !BadPid(p) {
      var k1 := SetProc(k, p, k.proc[p].(msg := msg, msgs := 1));
      ReschedLists(MakeReady(k1, p), s);
      ReschedLists(MakeReady(Unsleep(k1, p), p), s);
    }
  }

  lemma SendFListStep(k: K, p: int, msg: int, s: int)
    requires Shaped(k) && 0 <= s < NSEM
    ensures SendFCall(k, p, msg).lists[s] == k.lists[s]
  {
    hide Resched;
    if !BadPid(p) {
      var k1 := SetProc(k, p, k.proc[p].(msg := msg, msgs := (k.proc[p].msgs + 1) % 256));
      ReschedLists(MakeReady(k1, p), s);
    }
  }

  lemma ChPrioLists(k: K, p: int, prio: int, s: int)
    requires Shaped(k) && 0 <= s < NSEM
    ensures ChPrioCall(k, p, prio).lists[s] == k.lists[s]
  {
    hide Resched;
    hide Without;
    if !BadPid(p) {
      var k1 := SetProc(k, p, k.proc[p].(prio := prio));
      ReschedLists(k1, s);
      ReschedLists(InsertReady(SetList(k1, READY, Without(k.lists[READY], p)), p, prio), s);
    }
  }

  lemma OtherListStep(k: K, c: Call, s: int)
    requires Shaped(k) && 0 <= s < NSEM
    requires c.DoResume? || c.DoSuspend? || c.DoChPrio? || c.DoReceive? || c.DoRecvTim? || c.DoSleep10?
    ensures Next(k, c).lists[s] == k.lists[s]
  {
    hide Resched;
    hide ChPrioCall;
    hide DeltaKeys;
    hide Without;
    match c
    case DoResume(p) => ReschedLists(MakeReady(k, p), s);
    case DoSuspend(p) => if !BadPid(p) { ReschedLists(SetState(k, p, Susp), s); }
    case DoChPrio(p, prio) => ChPrioLists(k, p, prio, s);
    case DoReceive => ReschedLists(SetState(k, k.curr, Recv), s);
    case DoRecvTim(n) => ReschedLists(SleepFor(k, k.curr, n, TRecv), s);
    case DoSleep10(n) => ReschedLists(k, s); ReschedLists(SleepFor(k, k.curr, n, Sleep), s);
  }

  lemma KillListStep(k: K, p: int, s: int)
    requires Shaped(k) && 0 <= s < NSEM
    ensures ListStep(k, KillFinish(p), s, KillFinishCall(k, p).lists[s])
  {
    hide Resched;
    if !BadPid(p) {
      ReschedLists(SetState(k, p, Free), s);
      if k.proc[p].state == Wait && k.proc[p].sem == s {
        assert KillFinishCall(k, p).lists[s] == Without(k.lists[s], p);
      }
    }
  }

  lemma StepLists(k: K, c: Call, s: int)
    requires Inv(k) && Enabled(k, c) && 0 <= s < NSEM
    ensures ListStep(k, c, s, Next(k, c).lists[s])
  {
    hide Inv;
    InvMid(k);
    match c
    case DoWait(m) => WaitListStep(k, m, s);
    case DoSignal(m) => SignalListStep(k, m, 0, s);
    case DoSignalN(m, n) => SignalListStep(k, m, n, s);
    case DoSCreate(cnt) => assert SCreateCall(k, cnt).lists == k.lists;
    case DoSDelete(m) => DrainListStep(k, m, 0, s);
    case DoSReset(m, n) => DrainListStep(k, m, n, s);
    case DoCreate(stack, even, prio) => assert CreateCall(k, stack, even, prio).lists == k.lists;
    case DoSend(p, msg) => SendListStep(k, p, msg, s);
    case DoSendF(p, msg) => SendFListStep(k, p, msg, s);
    case TakeMsg =>
    case DoUnsleep(p) =>
    case DoSetNok(nok, p) =>
    case KillSend(p) => if !BadPid(p) { SendListStep(k, k.proc[p].nxtkin, p, s); }
    case KillFinish(p) => KillListStep(k, p, s);
    case DoStopClk =>
    case DoStrtClk => ClockListStep(k, s);
    case StrtClkRest => SliceLists(k, s);
    case ClockInterrupt => ClockListStep(k, s);
    case ClockRest => SliceLists(k, s);
    case _ => OtherListStep(k, c, s);
  }

  // ----- nobody overtakes -----

  /** The processes in front of q. */
  function Ahead(a: seq<Pid>, q: Pid): set<Pid> {
    if a == [] || a[0] == q then {} else {a[0]} + Ahead(a[1..], q)
  }

  lemma {:induction false} AheadSuffix(a: seq<Pid>, n: nat, q: Pid)
    requires n <= |a| && NoDup(a) && q in a[n..]
    ensures Ahead(a[n..], q) <= Ahead(a, q)
  {
    if n > 0 {
      NoDupTail(a);
      assert a[1..][n - 1..] == a[n..];
      AheadSuffix(a[1..], n - 1, q);
      assert q in a[1..];
    } else {
      assert a[0..] == a;
    }
  }

  lemma {:induction false} AheadAppend(a: seq<Pid>, p: Pid, q: Pid)
    requires q in a
    ensures Ahead(a + [p], q) == Ahead(a, q)
  {
    if a[0] != q {
      AheadAppend(a[1..], p, q);
      assert (a + [p])[1..] == a[1..] + [p];
    }
  }

  lemma {:induction false} AheadWithout(a: seq<Pid>, p: Pid, q: Pid)
    requires NoDup(a) && q in Without(a, p)
    ensures Ahead(Without(a, p), q) <= Ahead(a, q)
  {
    if a != [] {
      NoDupTail(a);
      if a[0] == p {
        assert q in a[1..];
      } else if a[0] != q {
        assert Without(a, p) == [a[0]] + Without(a[1..], p);
        AheadWithout(a[1..], p, q);
      }
    }
  }

  lemma AheadStep(k: K, c: Call, s: int, b: seq<Pid>, q: Pid)
    requires Shaped(k) && 0 <= s < NSEM && NoDup(k.lists[s]) && ListStep(k, c, s, b)
    requires q in k.lists[s] && q in b
    ensures Ahead(b, q) <= Ahead(k.lists[s], q)
  {
    hide Without;
    hide Ahead;
    hide NoDup;
    var a := k.lists[s];
    if b == a {
    } else if c.DoWait? {
      AheadAppend(a, k.curr, q);
    } else if c.KillFinish? {
      AheadWithout(a, c.p, q);
    } else {
      AheadSuffix(a, |a| - |b|, q);
    }
  }

  /** A process that waits on a semaphore before and after a step has nobody new in front of it. */
  lemma StepNoOvertaking(k: K, c: Call, s: int, q: Pid)
    requires Inv(k) && Enabled(k, c) && 0 <= s < NSEM
    requires q in k.lists[s] && q in Next(k, c).lists[s]
    ensures Ahead(Next(k, c).lists[s], q) <= Ahead(k.lists[s], q)
  {
    hide Next;
    StepLists(k, c, s);
    ListedNoDup(k, s);
    hide ListStep;
    hide Inv;
    hide Enabled;
    AheadStep(k, c, s, Next(k, c).lists[s], q);
  }

  /** Arrival order: while q keeps waiting on s, whoever is in front of it was in front of it before. */
  lemma {:induction false} WaitersKeepOrder(run: seq<K>, calls: seq<Call>, s: int, q: Pid, i: nat, j: nat)
    requires Run(run, calls) && 0 <= s < NSEM && i <= j < |run|
    requires forall m :: i <= m <= j ==> Shaped(run[m]) && q in run[m].lists[s]
    ensures Shaped(run[i]) && Shaped(run[j])
    ensures Ahead(run[j].lists[s], q) <= Ahead(run[i].lists[s], q)
    decreases j
  {
    hide Next;
    hide Inv;
    if i < j {
      WaitersKeepOrder(run, calls, s, q, i, j - 1);
      RunKeepsInv(run, calls, j - 1);
      assert run[j - 1 + 1] == Next(run[j - 1], calls[j - 1]);
      StepNoOvertaking(run[j - 1], calls[j - 1], s, q);
    }
  }

  /** Of two processes on a list one is in front of the other, and only one. */
  lemma {:induction false} AheadTotal(a: seq<Pid>, p: Pid, q: Pid)
    requires NoDup(a) && p in a && q in a && p != q
    ensures p in Ahead(a, q) <==> q !in Ahead(a, p)
  {
    NoDupTail(a);
    if a[0] == p {
      AheadMembers(a[1..], q);
    } else if a[0] == q {
      AheadMembers(a[1..], p);
    } else {
      AheadTotal(a[1..], p, q);
    }
  }

  lemma {:induction false} AheadMembers(a: seq<Pid>, q: Pid)
    ensures forall p: Pid :: p in Ahead(a, q) ==> p in a
  {
    if a != [] && a[0] != q {
      AheadMembers(a[1..], q);
    }
  }

  /** While both keep waiting, who is in front stays in front. */
  lemma {:induction false} StaysAhead(run: seq<K>, calls: seq<Call>, s: int, p: Pid, q: Pid, i: nat, j: nat)
    requires Run(run, calls) && 0 <= s < NSEM && i <= j < |run|
    requires forall m :: i <= m <= j ==> Shaped(run[m]) && p in run[m].lists[s] && q in run[m].lists[s]
    requires Shaped(run[i]) && p in Ahead(run[i].lists[s], q)
    ensures Shaped(run[j]) && p in Ahead(run[j].lists[s], q) && p != q
  {
    hide Inv;
    RunKeepsInv(run, calls, i);
    RunKeepsInv(run, calls, j);
    assert NoDup(run[i].lists[s]) && NoDup(run[j].lists[s]) by {
      InvMid(run[i]);
      InvMid(run[j]);
      ListedNoDup(run[i], s);
      ListedNoDup(run[j], s);
    }
    NotAheadOfItself(run[i].lists[s], q);
    AheadTotal(run[i].lists[s], p, q);
    WaitersKeepOrder(run, calls, s, p, i, j);
    AheadTotal(run[j].lists[s], p, q);
  }

  lemma {:induction false} NotAheadOfItself(a: seq<Pid>, q: Pid)
    ensures q !in Ahead(a, q)
  {
    if a != [] && a[0] != q {
      NotAheadOfItself(a[1..], q);
    }
  }

  lemma {:induction false} AheadLeavesFirst(a: seq<Pid>, n: nat, p: Pid, q: Pid)
    requires n <= |a| && NoDup(a) && p in Ahead(a, q) && q in a && q !in a[n..]
    ensures p !in a[n..]
  {
    NoDupTail(a);
    if n > 0 {
      assert a[1..][n - 1..] == a[n..];
      if a[0] == p {
        assert forall x: Pid :: x in a[n..] ==> x in a[1..];
      } else {
        AheadLeavesFirst(a[1..], n - 1, p, q);
      }
    }
  }

  /** Waiters are released in the order of their arrival: when a step other than its own killing takes q
      off the list, nobody who was waiting in front of it is left there. */
  lemma ReleasedInOrder(run: seq<K>, calls: seq<Call>, s: int, p: Pid, q: Pid, i: nat, j: nat)
    requires Run(run, calls) && 0 <= s < NSEM && i <= j < |calls|
    requires forall m :: i <= m <= j ==> Shaped(run[m]) && p in run[m].lists[s] && q in run[m].lists[s]
    requires Shaped(run[i]) && p in Ahead(run[i].lists[s], q)
    requires calls[j] != KillFinish(q) && Shaped(run[j + 1]) && q !in run[j + 1].lists[s]
    ensures p !in run[j + 1].lists[s]
  {
    hide Inv;
    hide Next;
    hide Ahead;
    hide Without;
    StaysAhead(run, calls, s, p, q, i, j);
    RunKeepsInv(run, calls, j);
    assert run[j + 1] == Next(run[j], calls[j]);
    StepLists(run[j], calls[j], s);
    InvMid(run[j]);
    ListedNoDup(run[j], s);
    var a, b := run[j].lists[s], run[j + 1].lists[s];
    if calls[j].KillFinish? && !BadPid(calls[j].p) {
      WithoutMembers(a, calls[j].p);
    }
    if Releases(calls[j], s) && |b| <= |a| && b == a[|a| - |b|..] {
      AheadLeavesFirst(a, |a| - |b|, p, q);
    }
  }
}
