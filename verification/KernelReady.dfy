/** The ready list in time: within each priority, processes run in the order in which they became ready. */
module KernelReady {
  import opened KernelSpec
  import opened KernelLists
  import opened KernelInv
  import opened KernelRuns
  import opened KernelEffects

  // ----- positions in a list -----

  /** The part of the list behind q: the ready list is emptied from its end. */
  function After(s: seq<Pid>, q: Pid): seq<Pid> {
    if s == [] then [] else if s[0] == q then s[1..] else After(s[1..], q)
  }

  lemma {:induction false} AfterMembers(s: seq<Pid>, q: Pid)
    ensures forall p: Pid :: p in After(s, q) ==> p in s && q in s
  {
    if s != [] && s[0] != q {
      AfterMembers(s[1..], q);
    }
  }

  predicate Behind(s: seq<Pid>, key: seq<int>, p: Pid, q: Pid)
    requires |key| == NPROC
  {
    p in After(s, q) && key[p] == key[q]
  }

  lemma AfterCons(a: Pid, s: seq<Pid>, q: Pid)
    ensures After([a] + s, q) == if a == q then s else After(s, q)
  {
    assert ([a] + s)[1..] == s;
  }

  /** insert puts the new process in front of all of its own key, so that it changes nothing for them. */
  lemma {:induction false} InsertBehind(s: seq<Pid>, key: seq<int>, r: Pid, x: int, p: Pid, q: Pid)
    requires |key| == NPROC && NoDup(s) && r !in s && q in s
    ensures Behind(InsertAt(s, Place(s, key, x), r), key[r := x], p, q) <==> Behind(s, key, p, q)
  {
    hide InsertAt;
    AfterMembers(s, q);
    if s == [] || key[s[0]] >= x {
      AtFront(s, r);
      AfterCons(r, s, q);
    } else {
      var t, i := s[1..], Place(s[1..], key, x);
      NoDupTail(s);
      InsertCons(s, i, r);
      AfterCons(s[0], InsertAt(t, i, r), q);
      if s[0] == q {
        InsertAtMembers(t, i, r);
      } else {
        AfterMembers(t, q);
        InsertBehind(t, key, r, x, p, q);
      }
    }
  }

  lemma AtFront(s: seq<Pid>, r: Pid)
    ensures InsertAt(s, 0, r) == [r] + s
  {
  }

  lemma InsertCons(s: seq<Pid>, i: nat, r: Pid)
    requires i < |s|
    ensures InsertAt(s, i + 1, r) == [s[0]] + InsertAt(s[1..], i, r)
  {
  }

  lemma {:induction false} WithoutBehind(s: seq<Pid>, r: Pid, p: Pid, q: Pid)
    requires NoDup(s) && q in s && q != r
    ensures p in After(Without(s, r), q) <==> p in After(s, q) && p != r
  {
    NoDupTail(s);
    if s[0] == r {
      AfterMembers(s[1..], q);
    } else {
      AfterCons(s[0], Without(s[1..], r), q);
      if s[0] == q {
        WithoutMembers(s[1..], r);
      } else {
        WithoutBehind(s[1..], r, p, q);
      }
    }
  }

  lemma {:induction false} LastBehind(s: seq<Pid>, p: Pid, q: Pid)
    requires NoDup(s) && s != [] && q in s
    ensures q == s[|s| - 1] ==> After(s, q) == []
    ensures q != s[|s| - 1] ==> (p in After(s[..|s| - 1], q) <==> p in After(s, q) && p != s[|s| - 1])
  {
    NoDupTail(s);
    var n := |s| - 1;
    if s[0] == q {
      assert n > 0 ==> s[..n][1..] == s[1..][..n - 1];
      assert n > 0 ==> s[1..] == s[1..][..n - 1] + [s[n]];
    } else {
      LastBehind(s[1..], p, q);
      assert s[..n] == [s[0]] + s[1..][..n - 1];
      AfterCons(s[0], s[1..][..n - 1], q);
    }
  }

  lemma {:induction false} AfterTotal(s: seq<Pid>, p: Pid, q: Pid)
    requires NoDup(s) && p in s && q in s && p != q
    ensures p in After(s, q) <==> q !in After(s, p)
  {
    NoDupTail(s);
    if s[0] == p {
      AfterMembers(s[1..], q);
    } else if s[0] == q {
      AfterMembers(s[1..], p);
    } else {
      AfterTotal(s[1..], p, q);
    }
  }

  // ----- parts of system calls -----

  /** p and q are ready, with equal keys, and p will be dispatched first. */
  predicate First(k: K, p: Pid, q: Pid)
    requires Shaped(k)
  {
    Behind(k.lists[READY], k.key, p, q)
  }

  predicate InReady(k: K, p: Pid)
    requires Shaped(k)
  {
    p in k.lists[READY]
  }

  /** Nobody leaves the ready list, and the order of those on it stays. */
  ghost predicate Grows(k: K, k': K) {
    && Shaped(k) && Shaped(k')
    && (forall q: Pid :: InReady(k, q) ==> InReady(k', q))
    && forall p: Pid, q: Pid :: InReady(k, q) ==> (First(k', p, q) <==> First(k, p, q))
  }

  /** But for x: who stays ready keeps its place among its equals, and who is dispatched was the first of
      them; and x goes behind. */
  ghost predicate InTurn(k: K, k': K, x: set<Pid>) {
    && Shaped(k) && Shaped(k')
    && (forall p: Pid, q: Pid :: InReady(k, q) && q !in x && InReady(k', q) ==>
          (First(k', p, q) <==> First(k, p, q) && InReady(k', p) && p !in x))
    && (forall p: Pid, q: Pid :: InReady(k, q) && q !in x && q == k'.curr && p !in x ==> !First(k, p, q))
  }

  lemma GrowsMore(k: K, k1: K, k2: K)
    requires Grows(k, k1) && Grows(k1, k2)
    ensures Grows(k, k2)
  {
  }

  lemma GrowsInTurn(k: K, k1: K, k2: K, x: set<Pid>)
    requires Grows(k, k1) && InTurn(k1, k2, x)
    ensures InTurn(k, k2, x)
  {
  }

  /** Everybody in front of a ready process is ready. */
  lemma FirstIsReady(k: K, p: Pid, q: Pid)
    requires Shaped(k) && First(k, p, q)
    ensures InReady(k, p) && InReady(k, q)
  {
    AfterMembers(k.lists[READY], q);
  }

  lemma GrownInTurn(k: K, k': K)
    requires Grows(k, k') && !InReady(k, k'.curr)
    ensures InTurn(k, k', {})
  {
    forall p: Pid, q: Pid | InReady(k, q) && First(k, p, q)
      ensures InReady(k', p)
    {
      FirstIsReady(k, p, q);
    }
  }

  lemma SameReady(k: K, k': K)
    requires Shaped(k) && Shaped(k') && k'.lists[READY] == k.lists[READY]
    requires forall p: Pid :: p in k.lists[READY] ==> k'.key[p] == k.key[p]
    ensures Grows(k, k')
  {
    forall p: Pid, q: Pid | InReady(k, q)
      ensures First(k', p, q) <==> First(k, p, q)
    {
      AfterMembers(k.lists[READY], q);
    }
  }

  lemma InsertGrows(k: K, r: Pid, x: int)
    requires Shaped(k) && NoDup(k.lists[READY]) && !InReady(k, r)
    ensures Grows(k, InsertReady(k, r, x))
  {
    hide InsertAt;
    var s := k.lists[READY];
    InsertAtMembers(s, Place(s, k.key, x), r);
    forall p: Pid, q: Pid | InReady(k, q)
      ensures First(InsertReady(k, r, x), p, q) <==> First(k, p, q)
    {
      InsertBehind(s, k.key, r, x, p, q);
    }
  }

  lemma ReadyNoDup(k: K, x: int, top: bool)
    requires Mid(k, x, top)
    ensures Shaped(k) && NoDup(k.lists[READY])
    ensures forall p: Pid :: InReady(k, p) <==> k.proc[p].state == Ready
  {
    forall p: Pid
      ensures InReady(k, p) <==> k.proc[p].state == Ready
    {
      assert InReady(k, p) <==> HomeOf(k.proc[p]) == READY;
    }
  }

  lemma MakeReadyGrows(k: K, p: int)
    requires Shaped(k) && NoDup(k.lists[READY]) && (!BadPid(p) ==> !InReady(k, p))
    ensures Grows(k, MakeReady(k, p))
  {
    hide InsertReady;
    if BadPid(p) {
      SameReady(k, k);
    } else {
      var k1 := SetState(k, p, Ready);
      SameReady(k, k1);
      InsertGrows(k1, p, k.proc[p].prio);
      GrowsMore(k, k1, MakeReady(k, p));
    }
  }

  lemma ReadyFirstGrows(k: K, l: int, x: int, top: bool)
    requires Mid(k, x, top) && (0 <= l < NSEM || l == CLOCK) && k.lists[l] != []
    ensures Grows(k, ReadyFirst(k, l))
  {
    hide MakeReady;
    FirstIsListed(k, l, x, top);
    ReadyNoDup(k, x, top);
    var k1 := SetList(k, l, k.lists[l][1..]);
    SameReady(k, k1);
    MakeReadyGrows(k1, k.lists[l][0]);
    GrowsMore(k, k1, ReadyFirst(k, l));
  }

  lemma {:induction false} DrainGrows(k: K, s: int)
    requires Mid(k, s, true) && 0 <= s < NSEM
    ensures Grows(k, Drain(k, s))
    decreases |k.lists[s]|
  {
    hide ReadyFirst;
    hide Mid;
    hide Grows;
    MidShaped(k, s, true);
    SameReady(k, k);
    if k.lists[s] != [] {
      ReadyFirstGrows(k, s, s, true);
      ReadyFirstMid(k, s, s, true);
      DrainGrows(ReadyFirst(k, s), s);
      GrowsMore(k, ReadyFirst(k, s), Drain(ReadyFirst(k, s), s));
    }
  }

  lemma SignalOnceGrows(k: K, s: int)
    requires Mid(k, -1, true) && 0 <= s < NSEM && k.sem[s].used
    ensures Grows(k, SignalOnce(k, s))
  {
    hide ReadyFirst;
    hide Mid;
    hide Grows;
    MidShaped(k, -1, true);
    var k1 := SetCount(k, s, k.sem[s].cnt + 1);
    SetCountMid(k, s, k.sem[s].cnt + 1, -1, true);
    SameReady(k, k1);
    if k1.lists[s] != [] {
      ReadyFirstGrows(k1, s, s, true);
      GrowsMore(k, k1, ReadyFirst(k1, s));
    } else {
      NoneFirst(k1, s);
    }
  }

  lemma NoneFirst(k: K, s: int)
    requires Shaped(k) && 0 <= s < NSEM && k.lists[s] == []
    ensures ReadyFirst(k, s) == k
  {
  }

  lemma {:induction false} SignalTimesGrows(k: K, s: int, n: nat)
    requires Mid(k, -1, true) && 0 <= s < NSEM && k.sem[s].used
    ensures Grows(k, SignalTimes(k, s, n))
    decreases n
  {
    hide SignalOnce;
    hide Mid;
    hide Grows;
    MidShaped(k, -1, true);
    SameReady(k, k);
    if n > 0 {
      SignalOnceGrows(k, s);
      SignalOnceMid(k, s);
      SignalTimesGrows(SignalOnce(k, s), s, n - 1);
      GrowsMore(k, SignalOnce(k, s), SignalTimes(SignalOnce(k, s), s, n - 1));
    }
  }

  lemma {:induction false} WakeDueGrows(k: K)
    requires Mid(k, -1, false)
    ensures Grows(k, WakeDue(k))
    decreases |k.lists[CLOCK]|
  {
    hide ReadyFirst;
    hide Mid;
    hide Grows;
    MidShaped(k, -1, false);
    SameReady(k, k);
    if k.lists[CLOCK] != [] && k.key[k.lists[CLOCK][0]] <= 0 {
      ReadyFirstGrows(k, CLOCK, -1, false);
      ReadyFirstMid(k, CLOCK, -1, false);
      WakeDueGrows(ReadyFirst(k, CLOCK));
      GrowsMore(k, ReadyFirst(k, CLOCK), WakeDue(ReadyFirst(k, CLOCK)));
    }
  }

  /** The dispatcher takes the first of the highest priority. */
  lemma DispatchInTurn(k: K, x: int, top: bool)
    requires Mid(k, x, top) && !InReady(k, k.curr)
    ensures InTurn(k, Dispatch(k), {})
  {
    ReadyNoDup(k, x, top);
    var s := k.lists[READY];
    var k' := Dispatch(k);
    if s == [] {
      SameReady(k, k');
    } else {
      forall p: Pid, q: Pid | InReady(k, q)
        ensures InReady(k', q) ==> (First(k', p, q) <==> First(k, p, q) && InReady(k', p))
        ensures q == k'.curr ==> !First(k, p, q)
      {
        DispatchedPair(k, p, q);
      }
      hide Mid;
      hide Dispatch;
    }
  }

  lemma DispatchedPair(k: K, p: Pid, q: Pid)
    requires Shaped(k) && NoDup(k.lists[READY]) && InReady(k, q)
    ensures var k' := Dispatch(k);
            && (InReady(k', q) ==> (First(k', p, q) <==> First(k, p, q) && InReady(k', p)))
            && (q == k'.curr ==> !First(k, p, q))
  {
    var s := k.lists[READY];
    LastOut(s);
    LastBehind(s, p, q);
    AfterMembers(s, q);
  }

  lemma ReschedInTurn(k: K, x: int, top: bool)
    requires Mid(k, x, top) && !InReady(k, k.curr)
    ensures InTurn(k, Resched(k), {})
  {
    hide Mid;
    hide Grows;
    hide InTurn;
    hide Dispatch;
    hide InsertReady;
    MidShaped(k, x, top);
    ReadyNoDup(k, x, top);
    SameReady(k, k);
    if k.proc[k.curr].state != Curr {
      DispatchInTurn(k, x, top);
    } else if LastKey(k) < k.proc[k.curr].prio {
      GrownInTurn(k, k);
    } else {
      NotFree(k, x, top);
      EnlistReady(k, k.curr, x, top);
      MakeRequeued(k);
      DispatchRequeued(k, x, top);
    }
  }

  lemma MakeRequeued(k: K)
    requires Shaped(k) && NoDup(k.lists[READY]) && !InReady(k, k.curr)
    ensures Grows(k, InsertReady(SetState(k, k.curr, Ready), k.curr, k.proc[k.curr].prio))
  {
    hide InsertReady;
    var k1 := SetState(k, k.curr, Ready);
    SameReady(k, k1);
    InsertGrows(k1, k.curr, k.proc[k.curr].prio);
    GrowsMore(k, k1, InsertReady(k1, k.curr, k.proc[k.curr].prio));
  }

  /** The process switched out does not run again at once: it went in front of an equal or higher one. */
  lemma DispatchRequeued(k: K, x: int, top: bool)
    requires Mid(k, x, top) && !InReady(k, k.curr) && k.proc[k.curr].state == Curr
    requires LastKey(k) >= k.proc[k.curr].prio
    requires Mid(InsertReady(SetState(k, k.curr, Ready), k.curr, k.proc[k.curr].prio), x, top)
    ensures InTurn(k, Resched(k), {}) && Resched(k).curr != k.curr
  {
    hide Mid;
    hide InsertAt;
    MidShaped(k, x, top);
    ReadyNoDup(k, x, top);
    var k1 := InsertReady(SetState(k, k.curr, Ready), k.curr, k.proc[k.curr].prio);
    ReadyNoDup(k1, x, top);
    MakeRequeued(k);
    LowestIsNotLast(k, x, top);
    var s := k1.lists[READY];
    LastOut(s);
    forall p: Pid, q: Pid | InReady(k1, q)
      ensures InReady(Dispatch(k1), q) ==> (First(Dispatch(k1), p, q) <==> First(k1, p, q) && InReady(Dispatch(k1), p))
      ensures q == Dispatch(k1).curr ==> !First(k1, p, q)
    {
      LastBehind(s, p, q);
      AfterMembers(s, q);
    }
    assert InTurn(k1, Dispatch(k1), {});
    GrowsInTurn(k, k1, Dispatch(k1), {});
  }

  lemma LowestIsNotLast(k: K, x: int, top: bool)
    requires Mid(k, x, top) && k.proc[k.curr].state == Curr && LastKey(k) >= k.proc[k.curr].prio
    ensures var s := InsertReady(SetState(k, k.curr, Ready), k.curr, k.proc[k.curr].prio).lists[READY];
            s != [] && s[|s| - 1] != k.curr
  {
    var s, x := k.lists[READY], k.proc[k.curr].prio;
    var i := Place(s, k.key, x);
    PlaceSeparates(s, k.key, x);
    assert k.curr !in s;
    assert s != [] ==> i < |s|;
  }

  // ----- the calls -----

  /** The process whose priority a call changes: it goes behind its new equals. */
  function Moved(k: K, c: Call): set<Pid>
    requires Shaped(k)
  {
    if c.DoChPrio? && !BadPid(c.p) && c.prio > 0 && k.proc[c.p].state != Free then {c.p} else {}
  }

  lemma InTurnWith(k: K, k': K, x: set<Pid>)
    requires InTurn(k, k', {}) && forall p: Pid :: p in x ==> !InReady(k, p)
    ensures InTurn(k, k', x)
  {
    forall p: Pid, q: Pid | p in x
      ensures !First(k, p, q)
    {
      AfterMembers(k.lists[READY], q);
    }
  }

  lemma ThenResched(k: K, k1: K)
    requires Grows(k, k1) && Mid(k1, -1, true) && k1.proc[k1.curr].state != Ready
    ensures InTurn(k, Resched(k1), {})
  {
    hide Mid;
    hide Grows;
    hide InTurn;
    ReadyNoDup(k1, -1, true);
    ReschedInTurn(k1, -1, true);
    GrowsInTurn(k, k1, Resched(k1), {});
  }

  /** A step that leaves the same process running and takes nobody off the ready list. */
  lemma StillRunning(k: K, k': K)
    requires Inv(k) && Grows(k, k') && k'.curr == k.curr
    ensures InTurn(k, k', {})
  {
    ReadyNoDup(k, -1, true);
    GrownInTurn(k, k');
  }

  lemma WaitInTurn(k: K, s: int)
    requires Inv(k) && k.curr != NULLPROC
    ensures InTurn(k, WaitCall(k, s), {})
  {
    hide InTurn;
    hide Resched;
    SameReady(k, k);
    StillRunning(k, k);
    if !BadSem(s) && k.sem[s].used {
      var k1 := SetCount(k, s, k.sem[s].cnt - 1);
      if k.sem[s].cnt - 1 < 0 {
        BlockMid(k, s);
        SameReady(k, Block(k1, s));
        ThenResched(k, Block(k1, s));
      } else {
        SameReady(k, k1);
        StillRunning(k, k1);
      }
    }
  }

  lemma SignalInTurn(k: K, s: int, n: int)
    requires Inv(k)
    ensures InTurn(k, SignalCall(k, s), {}) && InTurn(k, SignalNCall(k, s, n), {})
  {
    hide Mid;
    hide Grows;
    hide InTurn;
    hide Resched;
    hide SignalOnce;
    hide SignalTimes;
    InvMid(k);
    SameReady(k, k);
    StillRunning(k, k);
    if !BadSem(s) && k.sem[s].used {
      SignalOnceMid(k, s);
      SignalOnceGrows(k, s);
      SignalOnceRuns(k, s);
      SignalCurr(k, s, 1);
      OneSignal(k, s);
      StillRunning(k, SignalOnce(k, s));
      ThenResched(k, SignalOnce(k, s));
      if n > 0 {
        SignalTimesMid(k, s, n);
        SignalTimesGrows(k, s, n);
        SignalCurr(k, s, n);
        ThenResched(k, SignalTimes(k, s, n));
      }
    }
  }

  /** Signals leave the current process alone. */
  lemma {:induction false} SignalCurr(k: K, s: int, n: nat)
    requires Mid(k, -1, true) && 0 <= s < NSEM && k.sem[s].used && k.proc[k.curr].state == Curr
    ensures var k' := SignalTimes(k, s, n); k'.curr == k.curr && k'.proc[k.curr].state == Curr
    decreases n
  {
    hide Mid;
    hide SignalOnce;
    MidShaped(k, -1, true);
    if n > 0 {
      SignalOnceMid(k, s);
      OnceCurr(k, s);
      SignalCurr(SignalOnce(k, s), s, n - 1);
    }
  }

  lemma OnceCurr(k: K, s: int)
    requires Mid(k, -1, true) && 0 <= s < NSEM && k.sem[s].used && k.proc[k.curr].state == Curr
    ensures var k' := SignalOnce(k, s); k'.curr == k.curr && k'.proc[k.curr].state == Curr
  {
    if k.lists[s] != [] {
      FirstIsListed(k, s, -1, true);
    }
  }

  lemma {:induction false} DrainCurr(k: K, s: int)
    requires Mid(k, s, true) && 0 <= s < NSEM && k.proc[k.curr].state == Curr
    ensures var k' := Drain(k, s); k'.curr == k.curr && k'.proc[k.curr].state == Curr
    decreases |k.lists[s]|
  {
    hide Mid;
    MidShaped(k, s, true);
    if k.lists[s] != [] {
      FirstIsListed(k, s, s, true);
      ReadyFirstMid(k, s, s, true);
      DrainCurr(ReadyFirst(k, s), s);
    }
  }

  lemma DrainInTurn(k: K, s: int, n: int)
    requires Inv(k)
    ensures InTurn(k, SDeleteCall(k, s), {}) && InTurn(k, SResetCall(k, s, n), {})
  {
    hide Mid;
    hide Grows;
    hide InTurn;
    hide Resched;
    hide Drain;
    InvMid(k);
    SameReady(k, k);
    StillRunning(k, k);
    if !BadSem(s) && k.sem[s].used {
      SDeleteMid(k, s);
      var k1 := k.(sem := k.sem[s := k.sem[s].(used := false)]);
      SameReady(k, k1);
      StillRunning(k, k1);
      DrainGrows(k1, s);
      DrainCurr(k1, s);
      GrowsMore(k, k1, Drain(k1, s));
      ThenResched(k, Drain(k1, s));
      if n >= 0 {
        SResetMid(k, s, n);
        SetCountMid(k, s, k.sem[s].cnt, -1, true);
        assert SetCount(k, s, k.sem[s].cnt) == k;
        DrainGrows(k, s);
        DrainCurr(k, s);
        var k2 := SetCount(Drain(k, s), s, n);
        SameReady(Drain(k, s), k2);
        GrowsMore(k, Drain(k, s), k2);
        ThenResched(k, k2);
      }
    }
  }

  lemma ReadyMadeInTurn(k: K, k1: K, p: Pid)
    requires Inv(k) && Shaped(k1) && 0 < p && Mid(MakeReady(k1, p), -1, true)
    requires Grows(k, k1) && NoDup(k1.lists[READY]) && !InReady(k1, p) && k1.curr == k.curr && p != k.curr
    requires k1.proc[k.curr].state == Curr
    ensures InTurn(k, Resched(MakeReady(k1, p)), {})
  {
    hide Mid;
    hide Inv;
    hide Grows;
    hide InTurn;
    hide Resched;
    MakeReadyGrows(k1, p);
    GrowsMore(k, k1, MakeReady(k1, p));
    ThenResched(k, MakeReady(k1, p));
  }

  lemma ResumeInTurn(k: K, p: int)
    requires Inv(k)
    ensures InTurn(k, ResumeCall(k, p), {})
  {
    hide Mid;
    hide InTurn;
    hide Resched;
    hide MakeReady;
    InvMid(k);
    SameReady(k, k);
    StillRunning(k, k);
    if !BadPid(p) && k.proc[p].state == Susp {
      ReadyNoDup(k, -1, true);
      EnlistReady(k, p, -1, true);
      assert MakeReady(k, p) == InsertReady(SetState(k, p, Ready), p, k.proc[p].prio) by {
        MadeReady(k, p);
      }
      ReadyMadeInTurn(k, k, p);
    }
  }

  lemma MadeReady(k: K, p: Pid)
    requires Shaped(k) && 0 < p
    ensures MakeReady(k, p) == InsertReady(SetState(k, p, Ready), p, k.proc[p].prio)
  {
  }

  lemma SendInTurn(k: K, p: int, msg: int)
    requires Inv(k)
    ensures InTurn(k, SendCall(k, p, msg), {}) && InTurn(k, SendFCall(k, p, msg), {})
  {
    hide Mid;
    hide InTurn;
    hide Resched;
    hide MakeReady;
    hide Unsleep;
    InvMid(k);
    SameReady(k, k);
    StillRunning(k, k);
    if !BadPid(p) && k.proc[p].state != Free {
      MessageInTurn(k, p, msg, (k.proc[p].msgs + 1) % 256);
      MessageInTurn(k, p, msg, 1);
    }
  }

  lemma MessageInTurn(k: K, p: Pid, msg: int, n: nat)
    requires Inv(k) && 0 < p
    ensures var k1 := SetProc(k, p, k.proc[p].(msg := msg, msgs := n));
            && InTurn(k, k1, {})
            && (k.proc[p].state == Recv ==> InTurn(k, Resched(MakeReady(k1, p)), {}))
            && (k.proc[p].state == TRecv ==> InTurn(k, Resched(MakeReady(Unsleep(k1, p), p)), {}))
  {
    hide Mid;
    hide InTurn;
    hide Resched;
    hide MakeReady;
    hide Unsleep;
    InvMid(k);
    var k1 := SetProc(k, p, k.proc[p].(msg := msg, msgs := n));
    SameCoreMid(k, k1, -1, true);
    SameReady(k, k1);
    StillRunning(k, k1);
    ReadyNoDup(k1, -1, true);
    MadeReady(k1, p);
    if k.proc[p].state == Recv {
      EnlistReady(k1, p, -1, true);
      ReadyMadeInTurn(k, k1, p);
    } else if k.proc[p].state == TRecv {
      UnsleepMid(k1, p);
      UnsleepReady(k1, p);
      var k2 := SetState(Unsleep(k1, p), p, Susp);
      EnlistReady(k2, p, -1, true);
      MadeReady(Unsleep(k1, p), p);
      assert SetState(k2, p, Ready) == SetState(Unsleep(k1, p), p, Ready);
      GrowsMore(k, k1, Unsleep(k1, p));
      UnsleepFrame(k1, p);
      ReadyMadeInTurn(k, Unsleep(k1, p), p);
    }
  }

  lemma UnsleepReady(k: K, p: Pid)
    requires Mid(k, -1, true) && HomeOf(k.proc[p]) == CLOCK
    ensures Grows(k, Unsleep(k, p))
  {
    hide Handover;
    hide Without;
    ReadyNotAsleep(k);
    assert p in k.lists[CLOCK];
    DeltaRemoved(k.lists[CLOCK], k.key, p);
    SameReady(k, Unsleep(k, p));
  }

  lemma NapInTurn(k: K, n: int)
    requires Inv(k) && k.curr != NULLPROC
    ensures InTurn(k, ReceiveCall(k), {}) && InTurn(k, SleepCall(k, n), {})
    ensures n != 0 || k.proc[k.curr].HasMsg() ==> InTurn(k, RecvTimCall(k, n), {})
  {
    hide Mid;
    hide InTurn;
    hide Resched;
    hide SleepFor;
    InvMid(k);
    SameReady(k, k);
    StillRunning(k, k);
    ThenResched(k, k);
    SameReady(k, TakeMessage(k));
    StillRunning(k, TakeMessage(k));
    var k1 := SetState(k, k.curr, Recv);
    SameReady(k, k1);
    SetUnlisted(k, k.curr, Recv, -1, true);
    ThenResched(k, k1);
    if n > 0 {
      GoneToSleep(k, n, Sleep);
      GoneToSleep(k, n, TRecv);
    }
  }

  lemma GoneToSleep(k: K, n: int, st: PState)
    requires Inv(k) && k.curr != NULLPROC && n > 0 && (st == Sleep || st == TRecv)
    ensures InTurn(k, Resched(SleepFor(k, k.curr, n, st)), {})
  {
    hide DeltaKeys;
    hide DeltaPlace;
    hide InsertAt;
    hide InTurn;
    hide Resched;
    SleepMid(k, n, st);
    NotReady(k, k.curr);
    DeltaInserted(k.lists[CLOCK], k.key, k.curr, n);
    SameReady(k, SleepFor(k, k.curr, n, st));
    ThenResched(k, SleepFor(k, k.curr, n, st));
  }

  // ----- leaving the ready list out of turn -----

  /** A ready process taken off the list: the others keep their order. */
  lemma TakenOff(k: K, k1: K, r: Pid)
    requires Inv(k) && Shaped(k1) && InReady(k, r)
    requires k1.lists[READY] == Without(k.lists[READY], r) && k1.key == k.key
    ensures forall p: Pid, q: Pid :: InReady(k, q) && q != r ==> (First(k1, p, q) <==> First(k, p, q) && p != r)
    ensures forall p: Pid :: InReady(k1, p) <==> InReady(k, p) && p != r
  {
    hide Without;
    ReadyNoDup(k, -1, true);
    WithoutMembers(k.lists[READY], r);
    forall p: Pid, q: Pid | InReady(k, q) && q != r
      ensures First(k1, p, q) <==> First(k, p, q) && p != r
    {
      WithoutBehind(k.lists[READY], r, p, q);
    }
  }

  lemma OffInTurn(k: K, k1: K, r: Pid)
    requires Inv(k) && Shaped(k1) && InReady(k, r) && k1.curr == k.curr
    requires k1.lists[READY] == Without(k.lists[READY], r) && k1.key == k.key
    ensures InTurn(k, k1, {})
  {
    TakenOff(k, k1, r);
    ReadyNoDup(k, -1, true);
    forall p: Pid, q: Pid | First(k, p, q)
      ensures InReady(k, p)
    {
      FirstIsReady(k, p, q);
    }
  }

  lemma SuspendInTurn(k: K, p: int)
    requires Inv(k)
    ensures InTurn(k, SuspendCall(k, p), {})
  {
    hide Mid;
    hide Without;
    hide InTurn;
    hide Resched;
    InvMid(k);
    SameReady(k, k);
    StillRunning(k, k);
    ReadyNoDup(k, -1, true);
    if !BadPid(p) && k.proc[p].state == Ready {
      OffInTurn(k, SuspendCall(k, p), p);
    } else if !BadPid(p) && k.proc[p].state == Curr {
      IsCurrent(k, p);
      SetUnlisted(k, p, Susp, -1, true);
      SameReady(k, SetState(k, p, Susp));
      ThenResched(k, SetState(k, p, Susp));
    }
  }

  lemma IsCurrent(k: K, p: Pid)
    requires Inv(k) && k.proc[p].state == Curr
    ensures p == k.curr
  {
  }

  lemma KillInTurn(k: K, p: int)
    requires Inv(k)
    ensures InTurn(k, KillFinishCall(k, p), {})
  {
    hide Mid;
    hide Without;
    hide Unsleep;
    hide InTurn;
    hide Resched;
    InvMid(k);
    SameReady(k, k);
    StillRunning(k, k);
    ReadyNoDup(k, -1, true);
    if !BadPid(p) {
      if k.proc[p].state == Ready {
        OffInTurn(k, KillFinishCall(k, p), p);
      } else if k.proc[p].state == Curr {
        IsCurrent(k, p);
        SetUnlisted(k, p, Free, -1, true);
        SameReady(k, SetState(k, p, Free));
        ThenResched(k, SetState(k, p, Free));
      } else if k.proc[p].state == Sleep || k.proc[p].state == TRecv {
        UnsleepReady(k, p);
        UnsleepFrame(k, p);
        SameReady(Unsleep(k, p), KillFinishCall(k, p));
        GrowsMore(k, Unsleep(k, p), KillFinishCall(k, p));
        StillRunning(k, KillFinishCall(k, p));
      } else {
        if k.proc[p].state == Wait {
          WaitsOnSem(k, p);
        }
        SameReady(k, KillFinishCall(k, p));
        StillRunning(k, KillFinishCall(k, p));
      }
    }
  }

  lemma WaitsOnSem(k: K, p: Pid)
    requires Inv(k) && k.proc[p].state == Wait
    ensures !BadSem(k.proc[p].sem)
  {
  }

  lemma ReinsertedInTurn(k: K, p: Pid, prio: int)
    requires Inv(k) && 0 < p && 0 < prio <= MAXINT && k.proc[p].state == Ready
    ensures var k3 := SetList(SetProc(k, p, k.proc[p].(prio := prio)), READY, Without(k.lists[READY], p));
            InTurn(k, Resched(InsertReady(k3, p, prio)), {p})
  {
    hide Mid;
    hide Without;
    hide Resched;
    hide InsertReady;
    hide First;
    hide InReady;
    InvMid(k);
    ReadyNoDup(k, -1, true);
    var k3 := SetList(SetProc(k, p, k.proc[p].(prio := prio)), READY, Without(k.lists[READY], p));
    assert InReady(k, p);
    TakenOff(k, k3, p);
    WithoutMembers(k.lists[READY], p);
    InsertGrows(k3, p, prio);
    ChPrioMid(k, p, prio);
    var k4 := InsertReady(k3, p, prio);
    InsertReadyFrame(k3, p, prio, CLOCK);
    ReadyNoDup(k4, -1, true);
    ReschedInTurn(k4, -1, true);
  }

  lemma ChPrioInTurn(k: K, p: int, prio: int)
    requires Inv(k) && prio <= MAXINT
    ensures InTurn(k, ChPrioCall(k, p, prio), Moved(k, DoChPrio(p, prio)))
  {
    hide Mid;
    hide Without;
    hide InTurn;
    hide Resched;
    InvMid(k);
    SameReady(k, k);
    StillRunning(k, k);
    if !BadPid(p) && prio > 0 && k.proc[p].state != Free {
      if k.proc[p].state == Ready {
        ReinsertedInTurn(k, p, prio);
      } else {
        SetPrioMid(k, p, prio);
        var k1 := SetProc(k, p, k.proc[p].(prio := prio));
        SameReady(k, k1);
        StillRunning(k, k1);
        ReadyNoDup(k, -1, true);
        InTurnWith(k, k1, {p});
        if k.proc[p].state == Curr {
          ThenResched(k, k1);
          InTurnWith(k, Resched(k1), {p});
        }
      }
    }
  }

  // ----- the clock -----

  /** A wakeup after which the same process runs has not rescheduled. */
  lemma WakeupSwitches(k: K)
    requires Mid(k, -1, false) && k.proc[k.curr].state == Curr
    ensures InTurn(k, Wakeup(k), {})
    ensures Wakeup(k).curr == k.curr ==> Grows(k, Wakeup(k))
  {
    hide Mid;
    hide Grows;
    hide InTurn;
    hide Resched;
    hide WakeDue;
    MidShaped(k, -1, false);
    WakeDueGrows(k);
    WakeDueMid(k);
    WakeDueCurr(k);
    var k1 := Retop(WakeDue(k));
    SameReady(WakeDue(k), k1);
    GrowsMore(k, WakeDue(k), k1);
    TopIsRight(WakeDue(k));
    ThenResched(k, k1);
    ReadyNoDup(k1, -1, true);
    SwitchesOrNot(k1);
  }

  lemma TopIsRight(k: K)
    requires Mid(k, -1, false) && (k.lists[CLOCK] != [] ==> k.key[k.lists[CLOCK][0]] > 0)
    ensures Mid(Retop(k), -1, true)
  {
  }

  lemma SwitchesOrNot(k: K)
    requires Mid(k, -1, true) && !InReady(k, k.curr) && k.proc[k.curr].state == Curr
    ensures Resched(k) == k || Resched(k).curr != k.curr
  {
    hide Mid;
    hide Dispatch;
    hide InsertReady;
    hide InTurn;
    MidShaped(k, -1, true);
    if LastKey(k) >= k.proc[k.curr].prio {
      NotFree(k, -1, true);
      EnlistReady(k, k.curr, -1, true);
      DispatchRequeued(k, -1, true);
    }
  }

  lemma {:induction false} WakeDueCurr(k: K)
    requires Mid(k, -1, false) && k.proc[k.curr].state == Curr
    ensures WakeDue(k).curr == k.curr && WakeDue(k).proc[k.curr].state == Curr
    decreases |k.lists[CLOCK]|
  {
    hide Mid;
    MidShaped(k, -1, false);
    if k.lists[CLOCK] != [] && k.key[k.lists[CLOCK][0]] <= 0 {
      FirstIsListed(k, CLOCK, -1, false);
      ReadyFirstMid(k, CLOCK, -1, false);
      WakeDueCurr(ReadyFirst(k, CLOCK));
    }
  }

  lemma SliceInTurn(k: K)
    requires Inv(k)
    ensures InTurn(k, SliceTick(k), {}) && InTurn(k, SliceEnd(k), {})
  {
    hide Mid;
    hide InTurn;
    hide Resched;
    InvMid(k);
    SameReady(k, k);
    StillRunning(k, k);
    ThenResched(k, k);
    var k1 := k.(preempt := k.preempt - 1);
    SameCoreMid(k, k1, -1, true);
    SameReady(k, k1);
    StillRunning(k, k1);
    ThenResched(k, k1);
  }

  /** The sleepers' share k1 of a clock step on k, after which the same process runs or not. */
  ghost predicate Woken(k: K, k1: K) {
    && Shaped(k) && Shaped(k1) && Inv(k1) && InTurn(k, k1, {}) && (k1.curr == k.curr ==> Grows(k, k1))
  }

  lemma WokenThenSlice(k: K, k1: K)
    requires Woken(k, k1) && k1.curr == k.curr
    ensures InTurn(k, SliceTick(k1), {}) && InTurn(k, SliceEnd(k1), {})
  {
    hide Grows;
    hide InTurn;
    hide SliceTick;
    hide SliceEnd;
    SliceInTurn(k1);
    GrowsInTurn(k, k1, SliceTick(k1), {});
    GrowsInTurn(k, k1, SliceEnd(k1), {});
  }

  lemma KeysThenWakeup(k: K, key: seq<int>)
    requires Inv(k) && |key| == NPROC && KeysNat(k.lists[CLOCK], key)
    requires forall p: Pid :: p !in k.lists[CLOCK] ==> key[p] == k.key[p]
    ensures Woken(k, Wakeup(k.(key := key)))
  {
    hide Mid;
    hide Grows;
    hide InTurn;
    hide Wakeup;
    InvMid(k);
    var k1 := k.(key := key);
    ClockKeys(k, key);
    ReadyNotAsleep(k) by {
      MidListed(k);
    }
    SameReady(k, k1);
    WakeupSwitches(k1);
    WakeupInv(k1);
    GrowsInTurn(k, k1, Wakeup(k1), {});
    if Wakeup(k1).curr == k.curr {
      GrowsMore(k, k1, Wakeup(k1));
    }
  }

  lemma MidListed(k: K)
    requires Mid(k, -1, false)
    ensures Shaped(k) && Listed(k)
  {
  }

  lemma CountDownWoken(k: K)
    requires Inv(k)
    ensures Woken(k, CountDown(k))
  {
    hide Grows;
    hide InTurn;
    hide Wakeup;
    hide Ascending;
    CountDownInv(k);
    SameReady(k, k);
    StillRunning(k, k);
    if k.slnempty {
      var key := k.key[k.sltop := k.key[k.sltop] - 1];
      KeysThenWakeup(k, key);
      ReadyNotAsleep(k);
      var k1 := k.(key := key);
      SameReady(k, k1);
      StillRunning(k, k1);
    }
  }

  lemma CatchUpWoken(k: K, m: nat)
    requires Inv(k)
    ensures Woken(k, CatchUp(k, m))
  {
    hide Mid;
    hide Grows;
    hide InTurn;
    hide Wakeup;
    hide MakeUp;
    InvMid(k);
    CatchUpInv(k, m);
    SameReady(k, k);
    StillRunning(k, k);
    if k.slnempty {
      ReadyNotAsleep(k) by {
        MidListed(k);
      }
      SleepersKeys(k);
      RemainingMakeUp(k.lists[CLOCK], k.key, m);
      KeysThenWakeup(k, MakeUp(k.lists[CLOCK], k.key, m));
    }
  }

  lemma SleepersKeys(k: K)
    requires Mid(k, -1, false)
    ensures Shaped(k) && KeysNat(k.lists[CLOCK], k.key)
  {
  }

  lemma ClockInTurn(k: K)
    requires Inv(k)
    ensures InTurn(k, ClockCall(k), {}) && InTurn(k, StrtClkCall(k), {})
  {
    hide Mid;
    hide Inv;
    hide InTurn;
    hide CountDown;
    hide CatchUp;
    hide SliceTick;
    hide SliceEnd;
    InvMid(k);
    FieldInTurn(k, k.(count100 := k.count100 + 1));
    FieldInTurn(k, k.(defclk := k.defclk - 1));
    FieldInTurn(k, k);
    var k0 := k.(count100 := 0);
    FieldWoken(k, k0, CountDown(k0)) by {
      SameCoreMid(k, k0, -1, true);
      CountDownWoken(k0);
    }
    if CountDown(k0).curr == k.curr {
      WokenThenSlice(k, CountDown(k0));
    }
    var k2 := k.(defclk := 0, preempt := k.preempt - k.clkdiff, clkdiff := 0);
    FieldWoken(k, k2, CatchUp(k2, k.clkdiff)) by {
      SameCoreMid(k, k2, -1, true);
      CatchUpWoken(k2, k.clkdiff);
    }
    if CatchUp(k2, k.clkdiff).curr == k.curr {
      WokenThenSlice(k, CatchUp(k2, k.clkdiff));
    }
  }

  lemma FieldInTurn(k: K, k': K)
    requires Inv(k) && Shaped(k') && k'.lists == k.lists && k'.key == k.key && k'.curr == k.curr
    ensures InTurn(k, k', {})
  {
    SameReady(k, k');
    StillRunning(k, k');
  }

  lemma FieldWoken(k: K, k0: K, k1: K)
    requires Shaped(k) && Shaped(k0) && k0.lists == k.lists && k0.key == k.key && k0.curr == k.curr && Woken(k0, k1)
    ensures Woken(k, k1)
  {
    hide InTurn;
    SameReady(k, k0);
    GrowsInTurn(k, k0, k1, {});
  }

  // ----- all calls -----

  lemma OtherInTurn(k: K, c: Call)
    requires Inv(k) && Enabled(k, c)
    requires c.DoSCreate? || c.DoCreate? || c.TakeMsg? || c.DoUnsleep? || c.DoSetNok? || c.DoStopClk?
    ensures InTurn(k, Next(k, c), {})
  {
    hide Inv;
    hide InTurn;
    hide SearchPid;
    hide SearchSem;
    InvMid(k);
    FieldInTurn(k, Next(k, c));
  }

  lemma StepInTurn(k: K, c: Call)
    requires Inv(k) && Enabled(k, c)
    ensures InTurn(k, Next(k, c), Moved(k, c))
  {
    hide Inv;
    hide InTurn;
    hide SendCall;
    InvMid(k);
    match c
    case DoWait(s) => WaitInTurn(k, s);
    case DoSignal(s) => SignalInTurn(k, s, 0);
    case DoSignalN(s, n) => SignalInTurn(k, s, n);
    case DoSDelete(s) => DrainInTurn(k, s, 0);
    case DoSReset(s, n) => DrainInTurn(k, s, n);
    case DoResume(p) => ResumeInTurn(k, p);
    case DoSuspend(p) => SuspendInTurn(k, p);
    case DoChPrio(p, prio) => ChPrioInTurn(k, p, prio);
    case DoSend(p, msg) => SendInTurn(k, p, msg);
    case DoSendF(p, msg) => SendInTurn(k, p, msg);
    case DoReceive => NapInTurn(k, 0);
    case DoRecvTim(n) => NapInTurn(k, n);
    case DoSleep10(n) => NapInTurn(k, n);
    case KillSend(p) =>
      FieldInTurn(k, k);
      if !BadPid(p) {
        SendInTurn(k, k.proc[p].nxtkin, p);
      }
    case KillFinish(p) => KillInTurn(k, p);
    case DoStrtClk => ClockInTurn(k);
    case StrtClkRest => SliceInTurn(k);
    case ClockInterrupt => ClockInTurn(k);
    case ClockRest => SliceInTurn(k);
    case _ => OtherInTurn(k, c);
  }

  /** p and q are ready, have the same priority, and p is to run first. */
  predicate Sooner(k: K, p: Pid, q: Pid)
    requires Shaped(k)
  {
    p in After(k.lists[READY], q) && k.proc[p].prio == k.proc[q].prio
  }

  lemma SoonerIsFirst(k: K, p: Pid, q: Pid)
    requires Inv(k)
    ensures Shaped(k) && (Sooner(k, p, q) <==> First(k, p, q))
  {
    AfterMembers(k.lists[READY], q);
  }

  /** One step of the scheduler. A process that stays ready keeps its place among those of its priority:
      whoever was in front of it and is still ready stays in front, and nobody new comes in front. And a
      process that is dispatched has nobody of its priority in front of it. Only a process whose priority
      is being changed goes to the back of its new equals. */
  lemma ReadyKeepsTurn(k: K, c: Call, p: Pid, q: Pid)
    requires Inv(k) && Enabled(k, c) && k.proc[q].state == Ready && q !in Moved(k, c)
    ensures var k' := Next(k, c);
            && (k'.proc[q].state == Ready ==>
                  (Sooner(k', p, q) <==> Sooner(k, p, q) && k'.proc[p].state == Ready && p !in Moved(k, c)))
            && (k'.curr == q && p !in Moved(k, c) ==> !Sooner(k, p, q))
  {
    hide Next;
    hide Inv;
    hide Enabled;
    hide First;
    hide InReady;
    hide Sooner;
    hide Moved;
    InvMid(k);
    StepInTurn(k, c);
    StepKeepsInv(k, c);
    InvMid(Next(k, c));
    ReadyNoDup(k, -1, true);
    ReadyNoDup(Next(k, c), -1, true);
    SoonerIsFirst(k, p, q);
    SoonerIsFirst(Next(k, c), p, q);
  }

  /** A process that becomes ready does so behind everybody of its priority who already was. */
  lemma ReadyJoinsAtBack(k: K, c: Call, p: Pid, q: Pid)
    requires Inv(k) && Enabled(k, c) && p !in Moved(k, c)
    requires k.proc[p].state == Ready && k.proc[q].state != Ready
    requires Next(k, c).proc[p].state == Ready && Next(k, c).proc[q].state == Ready
    requires Next(k, c).proc[p].prio == Next(k, c).proc[q].prio
    ensures Sooner(Next(k, c), p, q) && !Sooner(Next(k, c), q, p)
  {
    hide Next;
    hide Inv;
    hide Enabled;
    hide Moved;
    InvMid(k);
    StepKeepsInv(k, c);
    var k' := Next(k, c);
    InvMid(k');
    ReadyKeepsTurn(k, c, q, p);
    ReadyNoDup(k, -1, true);
    ReadyNoDup(k', -1, true);
    AfterMembers(k.lists[READY], p);
    assert !Sooner(k, q, p);
    assert InReady(k', p) && InReady(k', q);
    AfterTotal(k'.lists[READY], p, q);
  }

  // ----- runs -----

  /** While both stay ready and neither's priority is changed, who is to run first stays to run first. */
  lemma {:induction false} StaysSooner(run: seq<K>, calls: seq<Call>, p: Pid, q: Pid, i: nat, j: nat)
    requires Run(run, calls) && i <= j < |run|
    requires forall m :: i <= m <= j ==> Shaped(run[m]) && run[m].proc[p].state == run[m].proc[q].state == Ready
    requires forall m :: i <= m < j ==> p !in Moved(run[m], calls[m]) && q !in Moved(run[m], calls[m])
    ensures Shaped(run[i]) && Shaped(run[j]) && (Sooner(run[j], p, q) <==> Sooner(run[i], p, q))
    decreases j
  {
    hide Next;
    hide Inv;
    hide Moved;
    hide Sooner;
    if i < j {
      StaysSooner(run, calls, p, q, i, j - 1);
      RunKeepsInv(run, calls, j - 1);
      assert run[j - 1 + 1] == Next(run[j - 1], calls[j - 1]);
      ReadyKeepsTurn(run[j - 1], calls[j - 1], p, q);
    }
  }

  /** Processes of equal priority run in the order in which they became ready: while p, who is to run
      before q, is ready, q is not dispatched. */
  lemma DispatchedInOrder(run: seq<K>, calls: seq<Call>, p: Pid, q: Pid, i: nat, j: nat)
    requires Run(run, calls) && i <= j < |calls|
    requires forall m :: i <= m <= j ==> Shaped(run[m]) && run[m].proc[p].state == run[m].proc[q].state == Ready
    requires forall m :: i <= m <= j ==> p !in Moved(run[m], calls[m]) && q !in Moved(run[m], calls[m])
    requires Shaped(run[i]) && Sooner(run[i], p, q)
    ensures run[j + 1].curr != q
  {
    hide Next;
    hide Inv;
    hide Moved;
    hide Sooner;
    StaysSooner(run, calls, p, q, i, j);
    RunKeepsInv(run, calls, j);
    assert run[j + 1] == Next(run[j], calls[j]);
    ReadyKeepsTurn(run[j], calls[j], p, q);
  }

  /** The same from the moment q becomes ready: whoever of its priority was ready before runs first. */
  lemma FirstReadyFirstRun(run: seq<K>, calls: seq<Call>, p: Pid, q: Pid, i: nat, j: nat)
    requires Run(run, calls) && i < j < |calls|
    requires Shaped(run[i]) && run[i].proc[p].state == Ready && run[i].proc[q].state != Ready
    requires forall m :: i < m <= j ==> Shaped(run[m]) && run[m].proc[p].state == run[m].proc[q].state == Ready
    requires forall m :: i <= m <= j ==> Shaped(run[m]) && p !in Moved(run[m], calls[m])
    requires forall m :: i < m <= j ==> q !in Moved(run[m], calls[m])
    requires Shaped(run[i + 1]) && run[i + 1].proc[p].prio == run[i + 1].proc[q].prio
    ensures run[j + 1].curr != q
  {
    hide Next;
    hide Inv;
    hide Moved;
    hide Sooner;
    RunKeepsInv(run, calls, i);
    assert run[i + 1] == Next(run[i], calls[i]);
    ReadyJoinsAtBack(run[i], calls[i], p, q);
    DispatchedInOrder(run, calls, p, q, i + 1, j);
  }
}
