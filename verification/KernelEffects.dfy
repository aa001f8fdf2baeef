/** What the system calls do: exactly who can run afterwards, and what becomes of the others. */
module KernelEffects {
  import opened KernelSpec
  import opened KernelLists
  import opened KernelInv
  import opened KernelRuns

  predicate Runnable(k: K, p: Pid)
    requires Shaped(k)
  {
    k.proc[p].state == Ready || k.proc[p].state == Curr
  }

  /** Everybody of w, and nobody else, can run who could not before; nothing else changes state. */
  ghost predicate Readies(k: K, k': K, w: seq<Pid>) {
    && Shaped(k) && Shaped(k')
    && forall p: Pid ::
         && (Runnable(k', p) <==> Runnable(k, p) || p in w)
         && (!Runnable(k', p) ==> k'.proc[p].state == k.proc[p].state)
  }

  /** p stops, in state st; nothing else changes state, but for who of the runnable processes runs. */
  ghost predicate Stops(k: K, k': K, p: Pid, st: PState) {
    && Shaped(k) && Shaped(k') && k'.proc[p].state == st
    && forall q: Pid :: q != p ==>
         && (Runnable(k', q) <==> Runnable(k, q))
         && (!Runnable(k', q) ==> k'.proc[q].state == k.proc[q].state)
  }

  lemma ReadiesMore(k: K, k1: K, k2: K, w1: seq<Pid>, w2: seq<Pid>)
    requires Readies(k, k1, w1) && Readies(k1, k2, w2)
    ensures Readies(k, k2, w1 + w2)
  {
  }

  lemma StopsMore(k: K, k1: K, k2: K, p: Pid, st: PState)
    requires Stops(k, k1, p, st) && Readies(k1, k2, []) && st != Ready && st != Curr
    ensures Stops(k, k2, p, st)
  {
  }

  // ----- parts of system calls -----

  lemma DispatchRuns(k: K, x: int, top: bool)
    requires Mid(k, x, top)
    ensures Readies(k, Dispatch(k), []) && Dispatch(k).sem == k.sem
  {
    var s := k.lists[READY];
    if s != [] {
      assert s[|s| - 1] in s;
    }
  }

  /** resched changes who runs, but not who can. */
  lemma ReschedRuns(k: K, x: int, top: bool)
    requires Mid(k, x, top)
    ensures Readies(k, Resched(k), []) && Resched(k).sem == k.sem
  {
    hide Mid;
    hide Dispatch;
    hide Readies;
    MidShaped(k, x, top);
    DispatchRuns(k, x, top);
    Unchanged(k);
    if k.proc[k.curr].state == Curr {
      NotFree(k, x, top);
      EnlistReady(k, k.curr, x, top);
      var k1 := InsertReady(SetState(k, k.curr, Ready), k.curr, k.proc[k.curr].prio);
      assert Readies(k, k1, []) by {
        Requeued(k);
      }
      DispatchRuns(k1, x, top);
      ReadiesMore(k, k1, Dispatch(k1), [], []);
      var none: seq<Pid> := [];
      assert none + none == none;
    }
  }

  lemma NotFree(k: K, x: int, top: bool)
    requires Mid(k, x, top) && k.proc[k.curr].state == Curr
    ensures HomeOf(k.proc[k.curr]) == -1
  {
  }

  lemma Requeued(k: K)
    requires Shaped(k) && k.proc[k.curr].state == Curr
    ensures Readies(k, InsertReady(SetState(k, k.curr, Ready), k.curr, k.proc[k.curr].prio), [])
  {
  }

  lemma ReadyFirstRuns(k: K, l: int, x: int, top: bool)
    requires Mid(k, x, top) && (0 <= l < NSEM || l == CLOCK) && k.lists[l] != []
    ensures Readies(k, ReadyFirst(k, l), [k.lists[l][0]])
  {
    FirstIsListed(k, l, x, top);
  }

  lemma {:induction false} DrainRuns(k: K, s: int)
    requires Mid(k, s, true) && 0 <= s < NSEM
    ensures Readies(k, Drain(k, s), k.lists[s])
    decreases |k.lists[s]|
  {
    hide ReadyFirst;
    hide Mid;
    hide Readies;
    MidShaped(k, s, true);
    var w := k.lists[s];
    if w == [] {
      Unchanged(k);
    } else {
      ReadyFirstRuns(k, s, s, true);
      ReadyFirstMid(k, s, s, true);
      var k1 := ReadyFirst(k, s);
      DrainRuns(k1, s);
      ReadiesMore(k, k1, Drain(k1, s), [w[0]], w[1..]);
      assert w == [w[0]] + w[1..];
    }
  }

  lemma Unchanged(k: K)
    requires Shaped(k)
    ensures Readies(k, k, [])
  {
  }

  lemma SignalOnceRuns(k: K, s: int)
    requires Mid(k, -1, true) && 0 <= s < NSEM && k.sem[s].used
    ensures var k', w := SignalOnce(k, s), k.lists[s][..if k.lists[s] == [] then 0 else 1];
            && Readies(k, k', w) && k'.lists[s] == k.lists[s][|w|..] && k'.sem[s].cnt == k.sem[s].cnt + 1
  {
    hide ReadyFirst;
    hide Readies;
    var k1 := SetCount(k, s, k.sem[s].cnt + 1);
    SetCountMid(k, s, k.sem[s].cnt + 1, -1, true);
    assert CountOk(k.sem[s], |k.lists[s]|);
    if k.sem[s].cnt < 0 {
      ReadyFirstRuns(k1, s, s, true);
      ReadyFirstMid(k1, s, s, true);
      CountSame(k, k1, ReadyFirst(k1, s), [k.lists[s][0]]);
      assert k.lists[s][..1] == [k.lists[s][0]];
    } else {
      Unchanged(k1);
      CountSame(k, k1, k1, []);
      assert k.lists[s][..0] == [];
    }
  }

  lemma CountSame(k: K, k1: K, k2: K, w: seq<Pid>)
    requires Shaped(k) && Shaped(k1) && k1.proc == k.proc && Readies(k1, k2, w)
    ensures Readies(k, k2, w)
  {
  }

  lemma {:induction false} SignalTimesRuns(k: K, s: int, n: nat)
    requires Mid(k, -1, true) && 0 <= s < NSEM && k.sem[s].used
    ensures var k', w := SignalTimes(k, s, n), k.lists[s][..if |k.lists[s]| < n then |k.lists[s]| else n];
            && Readies(k, k', w) && k'.lists[s] == k.lists[s][|w|..] && k'.sem[s].cnt == k.sem[s].cnt + n
    decreases n
  {
    hide SignalOnce;
    hide Mid;
    hide Readies;
    MidShaped(k, -1, true);
    var a := k.lists[s];
    if n == 0 {
      Unchanged(k);
      assert a[..0] == [];
    } else {
      SignalOnceMid(k, s);
      SignalOnceRuns(k, s);
      var k1 := SignalOnce(k, s);
      SignalTimesRuns(k1, s, n - 1);
      var w1, w2 := a[..if a == [] then 0 else 1], k1.lists[s][..if |k1.lists[s]| < n - 1 then |k1.lists[s]| else n - 1];
      ReadiesMore(k, k1, SignalTimes(k1, s, n - 1), w1, w2);
      assert w1 + w2 == a[..if |a| < n then |a| else n];
    }
  }

  // ----- the calls -----

  /** A signal releases the first waiter, n signals the first n, or all when there are fewer; nobody else
      is released, the rest keep waiting in order, and the count goes up by the number of signals. */
  lemma SignalReleases(k: K, s: int, n: int)
    requires Inv(k) && 0 <= s < NSEM && k.sem[s].used && n > 0
    ensures var k', w := SignalNCall(k, s, n), k.lists[s][..if |k.lists[s]| < n then |k.lists[s]| else n];
            && Readies(k, k', w) && k'.lists[s] == k.lists[s][|w|..] && k'.sem[s].cnt == k.sem[s].cnt + n
    ensures n == 1 ==> Readies(k, SignalCall(k, s), k.lists[s][..if k.lists[s] == [] then 0 else 1])
                       && SignalCall(k, s).lists[s] == SignalNCall(k, s, 1).lists[s]
                       && SignalCall(k, s).sem == SignalNCall(k, s, 1).sem
  {
    hide Resched;
    hide SignalOnce;
    hide SignalTimes;
    hide Readies;
    hide Mid;
    InvMid(k);
    SignalTimesRuns(k, s, n);
    SignalTimesMid(k, s, n);
    AndResched(k, SignalTimes(k, s, n), k.lists[s][..if |k.lists[s]| < n then |k.lists[s]| else n]);
    ReschedLists(SignalTimes(k, s, n), s);
    if n == 1 {
      OneSignal(k, s);
      ReschedLists(SignalOnce(k, s), s);
      assert |k.lists[s]| < 1 <==> k.lists[s] == [];
    }
  }

  lemma AndResched(k: K, k1: K, w: seq<Pid>)
    requires Readies(k, k1, w) && Mid(k1, -1, true)
    ensures Readies(k, Resched(k1), w) && Resched(k1).sem == k1.sem
  {
    hide Resched;
    hide Mid;
    hide Readies;
    MidShaped(k1, -1, true);
    ReschedRuns(k1, -1, true);
    ReadiesMore(k, k1, Resched(k1), w, []);
    assert w + [] == w;
  }

  /** Deleting a semaphore releases everybody who waits on it. */
  lemma SDeleteReleases(k: K, s: int)
    requires Inv(k) && 0 <= s < NSEM && k.sem[s].used
    ensures var k' := SDeleteCall(k, s);
            && Readies(k, k', k.lists[s]) && k'.lists[s] == [] && k'.sem == k.sem[s := k.sem[s].(used := false)]
  {
    hide Resched;
    hide Drain;
    hide Readies;
    hide Mid;
    InvMid(k);
    SDeleteMid(k, s);
    var k1 := k.(sem := k.sem[s := k.sem[s].(used := false)]);
    Unchanged(k);
    if k.lists[s] == [] {
      Unchanged(k1);
      CountSame(k, k1, k1, []);
    } else {
      DrainRuns(k1, s);
      DrainMid(k1, s);
      CountSame(k, k1, Drain(k1, s), k.lists[s]);
      AndResched(k, Drain(k1, s), k.lists[s]);
      ReschedLists(Drain(k1, s), s);
    }
  }

  /** Resetting a semaphore releases everybody who waits on it and sets its count. */
  lemma SResetReleases(k: K, s: int, n: int)
    requires Inv(k) && 0 <= s < NSEM && k.sem[s].used && n >= 0
    ensures var k' := SResetCall(k, s, n);
            && Readies(k, k', k.lists[s]) && k'.lists[s] == [] && k'.sem == k.sem[s := k.sem[s].(cnt := n)]
  {
    hide Resched;
    hide Drain;
    hide Readies;
    hide Mid;
    InvMid(k);
    SResetMid(k, s, n);
    SetCountMid(k, s, k.sem[s].cnt, -1, true);
    assert SetCount(k, s, k.sem[s].cnt) == k;
    DrainRuns(k, s);
    DrainMid(k, s);
    var k1 := Drain(k, s);
    var k2 := SetCount(k1, s, n);
    Unchanged(k1);
    CountSame(k2, k1, k1, []);
    Unchanged(k2);
    CountSame(k1, k2, k2, []);
    ReadiesMore(k, k1, k2, k.lists[s], []);
    assert k.lists[s] + [] == k.lists[s];
    AndResched(k, k2, k.lists[s]);
    ReschedLists(k2, s);
  }

  /** A wait that must block stops the caller, who joins the end of the list; any other only takes from
      the count. */
  lemma WaitStops(k: K, s: int)
    requires Inv(k) && k.curr != NULLPROC && 0 <= s < NSEM && k.sem[s].used
    ensures var k' := WaitCall(k, s);
            && k'.sem == k.sem[s := k.sem[s].(cnt := k.sem[s].cnt - 1)]
            && (k.sem[s].cnt <= 0 ==> Stops(k, k', k.curr, Wait) && k'.lists[s] == k.lists[s] + [k.curr])
            && (k.sem[s].cnt > 0 ==> Readies(k, k', []) && k'.lists == k.lists && k'.curr == k.curr)
  {
    hide Resched;
    hide Mid;
    InvMid(k);
    if k.sem[s].cnt <= 0 {
      BlockMid(k, s);
      var k1 := Block(SetCount(k, s, k.sem[s].cnt - 1), s);
      ReschedRuns(k1, -1, true);
      StopsMore(k, k1, Resched(k1), k.curr, Wait);
      ReschedLists(k1, s);
    }
  }

  /** A suspended process can be resumed, and is then the only one who can run that could not before. */
  lemma ResumeReadies(k: K, p: int)
    requires Inv(k) && !BadPid(p) && k.proc[p].state == Susp
    ensures Readies(k, ResumeCall(k, p), [p])
  {
    hide Resched;
    hide Mid;
    InvMid(k);
    EnlistReady(k, p, -1, true);
    assert Readies(k, MakeReady(k, p), [p]);
    AndResched(k, MakeReady(k, p), [p]);
  }

  lemma SuspendStops(k: K, p: int)
    requires Inv(k) && !BadPid(p) && Runnable(k, p)
    ensures Stops(k, SuspendCall(k, p), p, Susp)
  {
    hide Resched;
    hide Without;
    if k.proc[p].state == Curr {
      SetUnlisted(k, p, Susp, -1, true);
      ReschedRuns(SetState(k, p, Susp), -1, true);
      StopsMore(k, SetState(k, p, Susp), Resched(SetState(k, p, Susp)), p, Susp);
    }
  }

  /** A message that is accepted is stored, and a process that waits for one can run again, whether or
      not for a limited time; nobody else can run who could not before. */
  lemma SendReadies(k: K, p: int, msg: int)
    requires Inv(k) && !BadPid(p) && k.proc[p].state != Free && !k.proc[p].HasMsg()
    ensures var k', waits := SendCall(k, p, msg), k.proc[p].state == Recv || k.proc[p].state == TRecv;
            && Readies(k, k', if waits then [p] else [])
            && k'.proc[p].HasMsg() && k'.proc[p].msg == msg && k'.sem == k.sem
  {
    hide Resched;
    hide Unsleep;
    hide InsertReady;
    hide Mid;
    InvMid(k);
    var k1 := SetProc(k, p, k.proc[p].(msg := msg, msgs := 1));
    SameCoreMid(k, k1, -1, true);
    if k.proc[p].state == Recv {
      EnlistReady(k1, p, -1, true);
      MakeReadyRuns(k, k1, p);
    } else if k.proc[p].state == TRecv {
      UnsleepMid(k1, p);
      var k2 := SetState(Unsleep(k1, p), p, Susp);
      EnlistReady(k2, p, -1, true);
      UnsleepFrame(k1, p);
      assert SetState(k2, p, Ready) == SetState(Unsleep(k1, p), p, Ready);
      assert MakeReady(Unsleep(k1, p), p) == InsertReady(SetState(k2, p, Ready), p, k2.proc[p].prio);
      MakeReadyRuns(k, Unsleep(k1, p), p);
    }
  }

  /** p made ready after a change that left all states and all semaphores alone. */
  lemma MakeReadyRuns(k: K, k1: K, p: Pid)
    requires Shaped(k) && Shaped(k1) && 0 < p && Mid(MakeReady(k1, p), -1, true) && k1.sem == k.sem
    requires forall q: Pid :: k1.proc[q].state == k.proc[q].state
    ensures var k' := Resched(MakeReady(k1, p));
            && Readies(k, k', [p]) && k'.sem == k.sem
            && k'.proc[p].msg == k1.proc[p].msg && k'.proc[p].msgs == k1.proc[p].msgs
  {
    hide Resched;
    hide Mid;
    var k2 := MakeReady(k1, p);
    assert Readies(k, k2, [p]);
    AndResched(k, k2, [p]);
    ReschedMessages(k2, p);
  }

  lemma ReschedMessages(k: K, p: Pid)
    requires Shaped(k)
    ensures Resched(k).proc[p].msg == k.proc[p].msg && Resched(k).proc[p].msgs == k.proc[p].msgs
  {
  }

  /** sendf replaces a message that has not been taken. It wakes a receiver that waits without a limit, but
      not one in a timed receive; and the 256th message that is forced on a process that takes none is
      lost, for the byte that counts them is 0 again. */
  lemma SendFReadies(k: K, p: int, msg: int)
    requires Inv(k) && !BadPid(p) && k.proc[p].state != Free
    ensures var k' := SendFCall(k, p, msg);
            && Readies(k, k', if k.proc[p].state == Recv then [p] else [])
            && k'.proc[p].msg == msg && (k'.proc[p].HasMsg() <==> k.proc[p].msgs % 256 != 255)
  {
    hide Resched;
    hide InsertReady;
    hide Mid;
    InvMid(k);
    var k1 := SetProc(k, p, k.proc[p].(msg := msg, msgs := (k.proc[p].msgs + 1) % 256));
    SameCoreMid(k, k1, -1, true);
    if k.proc[p].state == Recv {
      EnlistReady(k1, p, -1, true);
      MakeReadyRuns(k, k1, p);
    }
  }

  /** receive without a message stops the caller; with one it takes it. */
  lemma ReceiveStops(k: K)
    requires Inv(k) && k.curr != NULLPROC
    ensures var k' := ReceiveCall(k);
            if k.proc[k.curr].HasMsg() then Readies(k, k', []) && k'.curr == k.curr && !k'.proc[k.curr].HasMsg()
            else Stops(k, k', k.curr, Recv)
  {
    hide Resched;
    var k1 := SetState(k, k.curr, Recv);
    if !k.proc[k.curr].HasMsg() {
      SetUnlisted(k, k.curr, Recv, -1, true);
      ReschedRuns(k1, -1, true);
      StopsMore(k, k1, Resched(k1), k.curr, Recv);
    }
  }

  /** Going to sleep stops the caller. */
  lemma NapStops(k: K, n: int, st: PState)
    requires Inv(k) && k.curr != NULLPROC && n >= 1 && (st == Sleep || st == TRecv)
    ensures Stops(k, Resched(SleepFor(k, k.curr, n, st)), k.curr, st)
  {
    hide Resched;
    hide DeltaKeys;
    hide DeltaPlace;
    hide InsertAt;
    SleepMid(k, n, st);
    var k1 := SleepFor(k, k.curr, n, st);
    ReschedRuns(k1, -1, true);
    StopsMore(k, k1, Resched(k1), k.curr, st);
  }

  /** A changed priority stops nobody and starts nobody; it only decides who runs. */
  lemma ChPrioRuns(k: K, p: int, prio: int)
    requires Inv(k) && !BadPid(p) && 0 < prio <= MAXINT && k.proc[p].state != Free
    ensures Readies(k, ChPrioCall(k, p, prio), []) && ChPrioCall(k, p, prio).proc[p].prio == prio
  {
    hide Resched;
    hide Without;
    hide InsertAt;
    hide Mid;
    InvMid(k);
    if k.proc[p].state == Ready {
      ChPrioMid(k, p, prio);
      var k3 := SetList(SetProc(k, p, k.proc[p].(prio := prio)), READY, Without(k.lists[READY], p));
      var k4 := InsertReady(k3, p, prio);
      assert Readies(k, k4, []);
      AndResched(k, k4, []);
      ReschedPrio(k4, p);
    } else {
      SetPrioMid(k, p, prio);
      var k1 := SetProc(k, p, k.proc[p].(prio := prio));
      assert Readies(k, k1, []);
      if k.proc[p].state == Curr {
        AndResched(k, k1, []);
        ReschedPrio(k1, p);
      }
    }
  }

  lemma ReschedPrio(k: K, p: Pid)
    requires Shaped(k)
    ensures Resched(k).proc[p].prio == k.proc[p].prio
  {
  }

  /** A killed process is free, whatever it was doing; nobody else stops or starts. */
  lemma KillStops(k: K, p: int)
    requires Inv(k) && !BadPid(p)
    ensures Stops(k, KillFinishCall(k, p), p, Free)
  {
    hide Resched;
    hide Without;
    hide Handover;
    if k.proc[p].state == Curr {
      SetUnlisted(k, p, Free, -1, true);
      ReschedRuns(SetState(k, p, Free), -1, true);
      StopsMore(k, SetState(k, p, Free), Resched(SetState(k, p, Free)), p, Free);
    }
  }

  /** The count of the semaphore that a killed process waited on is corrected, and no other. */
  lemma KillCounts(k: K, p: int)
    requires Inv(k) && !BadPid(p)
    ensures KillFinishCall(k, p).sem ==
            if k.proc[p].state != Wait then k.sem
            else var s := k.proc[p].sem; k.sem[s := k.sem[s].(cnt := k.sem[s].cnt + 1)]
  {
    hide Resched;
    hide Without;
    hide Handover;
    if k.proc[p].state == Curr {
      SetUnlisted(k, p, Free, -1, true);
      ReschedRuns(SetState(k, p, Free), -1, true);
    }
  }
}
