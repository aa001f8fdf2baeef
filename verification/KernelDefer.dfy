/** Deferred clock ticks. strtclk takes them off the sleep queue in one go. That is the same as ticking
    them off one by one on the board whose clock routine wakes when a key reaches 0 (mio), but not on the
    one whose routine waits until it has passed 0 (sun350), which is the only one that defers ticks. */
module KernelDefer {
  import opened KernelSpec
  import opened KernelLists
  import opened KernelInv
  import opened KernelSleep

  // ----- the queue by itself -----

  /** An entry of the sleep queue: a process and its key. */
  datatype Due = Due(pid: Pid, left: int)

  function QueueOf(s: seq<Pid>, key: seq<int>): (d: seq<Due>)
    requires |key| == NPROC
    ensures |d| == |s|
  {
    if s == [] then [] else [Due(s[0], key[s[0]])] + QueueOf(s[1..], key)
  }

  /** The removals of wakeup. */
  function DropDue(d: seq<Due>): (r: seq<Due>)
    ensures |r| <= |d|
  {
    if d == [] || d[0].left > 0 then d else DropDue(d[1..])
  }

  /** The loop of strtclk. */
  function TakeOff(d: seq<Due>, m: int): seq<Due> {
    if d == [] then d
    else if d[0].left < m then [Due(d[0].pid, 0)] + TakeOff(d[1..], m - d[0].left)
    else [Due(d[0].pid, d[0].left - m)] + d[1..]
  }

  function MadeUp(d: seq<Due>, m: int): seq<Due> {
    DropDue(TakeOff(d, m))
  }

  function Less(d: seq<Due>): (r: seq<Due>)
    requires d != []
    ensures |r| == |d|
  {
    [Due(d[0].pid, d[0].left - 1)] + d[1..]
  }

  /** One tick that wakes at 0. */
  function Tick(d: seq<Due>): seq<Due> {
    if d == [] then d else if d[0].left - 1 == 0 then DropDue(Less(d)) else Less(d)
  }

  /** One tick that wakes below 0. */
  function LateTick(d: seq<Due>): seq<Due> {
    if d == [] then d else if d[0].left - 1 < 0 then DropDue(Less(d)) else Less(d)
  }

  function Ticks(d: seq<Due>, m: nat): seq<Due>
    decreases m
  {
    if m == 0 then d else Ticks(Tick(d), m - 1)
  }

  function LateTicks(d: seq<Due>, m: nat): seq<Due>
    decreases m
  {
    if m == 0 then d else LateTicks(LateTick(d), m - 1)
  }

  predicate NoneNegative(d: seq<Due>) {
    forall i :: 0 <= i < |d| ==> d[i].left >= 0
  }

  /** The ticks until the queue is empty, when each group that is due together costs one more. */
  function LateTime(d: seq<Due>): int
    decreases |d|
  {
    if d == [] then 0 else d[0].left + 1 + LateTime(DropDue(d[1..]))
  }

  function Total(d: seq<Due>): int {
    if d == [] then 0 else d[0].left + Total(d[1..])
  }

  // ----- ticks that wake at 0 -----

  lemma MadeUpNone(d: seq<Due>)
    requires d != [] && d[0].left > 0
    ensures MadeUp(d, 0) == d
  {
    assert [Due(d[0].pid, d[0].left - 0)] + d[1..] == d;
  }

  lemma MadeUpLess(d: seq<Due>, m: nat)
    requires d != [] && m > 0
    ensures MadeUp(d, m) == MadeUp(Less(d), m - 1)
  {
    assert Less(d)[1..] == d[1..];
  }

  lemma {:induction false} MadeUpDrops(d: seq<Due>, m: nat)
    requires NoneNegative(d)
    ensures MadeUp(d, m) == MadeUp(DropDue(d), m)
  {
    if d != [] && d[0].left <= 0 {
      MadeUpDrops(d[1..], m);
      if m == 0 {
        TakeOffNone(d);
        TakeOffNone(d[1..]);
      } else {
        assert ([Due(d[0].pid, 0)] + TakeOff(d[1..], m))[1..] == TakeOff(d[1..], m);
      }
    }
  }

  lemma TakeOffNone(d: seq<Due>)
    requires NoneNegative(d)
    ensures TakeOff(d, 0) == d
  {
    if d != [] {
      assert [Due(d[0].pid, d[0].left - 0)] + d[1..] == d;
    }
  }

  /** Deferred ticks are made up exactly when a tick wakes at 0: same processes, same order, same keys. */
  lemma {:induction false} MadeUpIsTicks(d: seq<Due>, m: nat)
    requires NoneNegative(d) && (d != [] ==> d[0].left > 0)
    ensures MadeUp(d, m) == Ticks(d, m)
    decreases m
  {
    if d == [] {
      EmptyTicks(m);
    } else if m == 0 {
      MadeUpNone(d);
    } else {
      MadeUpLess(d, m);
      assert NoneNegative(Less(d));
      if d[0].left == 1 {
        MadeUpDrops(Less(d), m - 1);
        DropDueFacts(Less(d));
      }
      MadeUpIsTicks(Tick(d), m - 1);
    }
  }

  lemma {:induction false} EmptyTicks(m: nat)
    ensures Ticks([], m) == [] && LateTicks([], m) == []
  {
    if m > 0 {
      EmptyTicks(m - 1);
    }
  }

  lemma {:induction false} DropDueFacts(d: seq<Due>)
    requires NoneNegative(d) || (d != [] && NoneNegative(d[1..]))
    ensures var r := DropDue(d); NoneNegative(r) && (r != [] ==> r[0].left > 0) && (NoneNegative(d) ==> Total(r) == Total(d))
  {
    if d != [] && d[0].left <= 0 {
      DropDueFacts(d[1..]);
    }
  }

  // ----- ticks that wake below 0 -----

  /** m late ticks at once. */
  lemma {:induction false} LateTicksAre(d: seq<Due>, m: nat)
    requires NoneNegative(d) && d != []
    ensures LateTicks(d, m) ==
            if m <= d[0].left then [Due(d[0].pid, d[0].left - m)] + d[1..]
            else LateTicks(DropDue(d[1..]), m - d[0].left - 1)
    decreases m
  {
    if m == 0 {
      assert [Due(d[0].pid, d[0].left - 0)] + d[1..] == d;
    } else if d[0].left == 0 {
      assert Less(d)[1..] == d[1..];
    } else {
      assert Less(d)[1..] == d[1..];
      LateTicksAre(Less(d), m - 1);
    }
  }

  lemma {:induction false} LateTimeFacts(d: seq<Due>)
    requires NoneNegative(d)
    ensures Total(d) >= 0 && LateTime(d) >= 0 && (d != [] ==> LateTime(d) > Total(d))
    decreases |d|
  {
    if d != [] {
      assert NoneNegative(d[1..]);
      DropDueFacts(d[1..]);
      LateTimeFacts(DropDue(d[1..]));
    }
  }

  /** The queue is empty after exactly LateTime late ticks; until then they take off no more than their
      number, and less once somebody has been woken. */
  lemma {:induction false} LateTicksLeft(d: seq<Due>, m: nat)
    requires NoneNegative(d)
    ensures LateTicks(d, m) == [] <==> m >= LateTime(d)
    ensures LateTicks(d, m) != [] ==> Total(LateTicks(d, m)) >= Total(d) - m
    ensures LateTicks(d, m) != [] && m > d[0].left ==> Total(LateTicks(d, m)) > Total(d) - m
    decreases |d|
  {
    if d == [] {
      EmptyTicks(m);
    } else {
      LateTicksAre(d, m);
      assert NoneNegative(d[1..]);
      DropDueFacts(d[1..]);
      LateTimeFacts(DropDue(d[1..]));
      if m > d[0].left {
        LateTicksLeft(DropDue(d[1..]), m - d[0].left - 1);
      }
    }
  }

  lemma {:induction false} MadeUpTotal(d: seq<Due>, m: nat)
    requires NoneNegative(d)
    ensures var r := MadeUp(d, m);
            && (r != [] ==> r[0].left > 0 && Total(r) == Total(d) - m)
            && (m >= Total(d) ==> r == [])
  {
    if d != [] {
      LateTimeFacts(d);
      LateTimeFacts(d[1..]);
      if d[0].left < m {
        MadeUpTotal(d[1..], m - d[0].left);
        assert ([Due(d[0].pid, 0)] + TakeOff(d[1..], m - d[0].left))[1..] == TakeOff(d[1..], m - d[0].left);
      } else {
        var r := [Due(d[0].pid, d[0].left - m)] + d[1..];
        assert r[1..] == d[1..];
        DropDueFacts(r);
        if m >= Total(d) {
          AllDrop(r);
        }
      }
    }
  }

  lemma {:induction false} AllDrop(d: seq<Due>)
    requires NoneNegative(d) && Total(d) <= 0
    ensures DropDue(d) == []
  {
    if d != [] {
      LateTimeFacts(d[1..]);
      AllDrop(d[1..]);
    }
  }

  /** When a tick wakes only below 0, making up for m ticks is the same as ticking m times if and only if
      nobody is asleep, or nobody would be due, or everybody would have woken by then in any case. */
  lemma MadeUpIsLateTicksIff(d: seq<Due>, m: nat)
    requires NoneNegative(d)
    ensures MadeUp(d, m) == LateTicks(d, m) <==> d == [] || d[0].left > m || m >= LateTime(d)
  {
    if d == [] {
      EmptyTicks(m);
    } else {
      LateTicksAre(d, m);
      LateTicksLeft(d, m);
      MadeUpTotal(d, m);
      LateTimeFacts(d);
    }
  }

  // ----- the kernel -----

  function Queue(k: K): seq<Due>
    requires Shaped(k)
  {
    QueueOf(k.lists[CLOCK], k.key)
  }

  /** What both boards keep of the sleep queue: nobody on it twice, none of its processes ready or running,
      no negative keys, and slnempty and sltop telling what is first. */
  ghost predicate Tidy(k: K) {
    && Shaped(k) && NoDup(k.lists[CLOCK]) && k.curr !in k.lists[CLOCK]
    && (forall p: Pid :: p in k.lists[READY] ==> p !in k.lists[CLOCK])
    && KeysNat(k.lists[CLOCK], k.key)
    && (if k.lists[CLOCK] == [] then !k.slnempty else k.slnempty && k.sltop == k.lists[CLOCK][0])
  }

  lemma InvTidy(k: K)
    requires Inv(k)
    ensures Tidy(k) && (Queue(k) != [] ==> Queue(k)[0].left > 0)
  {
    ReadyNotAsleep(k);
    assert k.curr !in k.lists[CLOCK];
  }

  /** Tidy but for the key of the first sleeper and for what tells of it. */
  ghost predicate Apart(k: K) {
    && Shaped(k) && NoDup(k.lists[CLOCK]) && k.curr !in k.lists[CLOCK]
    && (forall p: Pid :: p in k.lists[READY] ==> p !in k.lists[CLOCK])
    && (k.lists[CLOCK] != [] ==> KeysNat(k.lists[CLOCK][1..], k.key))
  }

  lemma {:induction false} SameQueue(s: seq<Pid>, key: seq<int>, key': seq<int>)
    requires |key| == |key'| == NPROC && forall p: Pid :: p in s ==> key'[p] == key[p]
    ensures QueueOf(s, key') == QueueOf(s, key)
  {
    if s != [] {
      assert forall p: Pid :: p in s[1..] ==> p in s;
      SameQueue(s[1..], key, key');
    }
  }

  lemma {:induction false} QueueNat(s: seq<Pid>, key: seq<int>)
    requires |key| == NPROC && KeysNat(s, key)
    ensures NoneNegative(QueueOf(s, key))
  {
    if s != [] {
      assert forall p: Pid :: p in s[1..] ==> p in s;
      QueueNat(s[1..], key);
    }
  }

  lemma ReadyFirstQueue(k: K)
    requires Apart(k) && k.lists[CLOCK] != []
    ensures var k' := ReadyFirst(k, CLOCK); Apart(k') && k'.lists[CLOCK] == k.lists[CLOCK][1..] && Queue(k') == Queue(k)[1..]
  {
    hide InsertAt;
    var s := k.lists[CLOCK];
    NoDupTail(s);
    var k' := ReadyFirst(k, CLOCK);
    SameQueue(s[1..], k.key, k'.key);
    if !BadPid(s[0]) {
      InReadyNow(k.lists[READY], Place(k.lists[READY], k.key, k.proc[s[0]].prio), s[0]);
    }
    if s[1..] != [] {
      assert forall p: Pid :: p in s[1..][1..] ==> p in s[1..];
    }
  }

  lemma InReadyNow(s: seq<Pid>, i: nat, p: Pid)
    requires i <= |s|
    ensures forall q: Pid :: q in InsertAt(s, i, p) ==> q in s || q == p
  {
  }

  lemma {:induction false} WakeDueQueue(k: K)
    requires Apart(k)
    ensures var k' := WakeDue(k); Apart(k') && Queue(k') == DropDue(Queue(k))
    decreases |k.lists[CLOCK]|
  {
    hide ReadyFirst;
    hide Apart;
    ApartShaped(k);
    if k.lists[CLOCK] != [] && k.key[k.lists[CLOCK][0]] <= 0 {
      ReadyFirstQueue(k);
      WakeDueQueue(ReadyFirst(k, CLOCK));
    }
  }

  lemma ApartShaped(k: K)
    requires Apart(k)
    ensures Shaped(k)
  {
  }

  /** The same sleepers with the same keys. */
  ghost predicate SameSleepers(k: K, k': K) {
    && Shaped(k) && Shaped(k') && k'.lists[CLOCK] == k.lists[CLOCK]
    && (forall p: Pid :: p in k.lists[CLOCK] ==> k'.key[p] == k.key[p])
    && k'.slnempty == k.slnempty && k'.sltop == k.sltop
  }

  lemma DispatchSleepers(k: K)
    requires Apart(k)
    ensures SameSleepers(k, Dispatch(k)) && Apart(Dispatch(k))
  {
    var s := k.lists[READY];
    assert s != [] ==> s[|s| - 1] in s;
  }

  lemma RequeueSleepers(k: K)
    requires Apart(k)
    ensures var k' := InsertReady(SetState(k, k.curr, Ready), k.curr, k.proc[k.curr].prio);
            SameSleepers(k, k') && Apart(k')
  {
    hide InsertAt;
    var s := k.lists[READY];
    InReadyNow(s, Place(s, k.key, k.proc[k.curr].prio), k.curr);
    if k.lists[CLOCK] != [] {
      assert forall p: Pid :: p in k.lists[CLOCK][1..] ==> p in k.lists[CLOCK];
    }
  }

  lemma ReschedQueue(k: K)
    requires Apart(k)
    ensures var k' := Resched(k);
            && Apart(k') && k'.lists[CLOCK] == k.lists[CLOCK] && Queue(k') == Queue(k)
            && k'.slnempty == k.slnempty && k'.sltop == k.sltop
  {
    hide Apart;
    hide InsertReady;
    hide Dispatch;
    ApartShaped(k);
    DispatchSleepers(k);
    RequeueSleepers(k);
    DispatchSleepers(InsertReady(SetState(k, k.curr, Ready), k.curr, k.proc[k.curr].prio));
    SameQueue(k.lists[CLOCK], k.key, Resched(k).key);
  }

  lemma WakeupQueue(k: K)
    requires Apart(k)
    ensures Tidy(Wakeup(k)) && Queue(Wakeup(k)) == DropDue(Queue(k))
  {
    hide WakeDue;
    hide Resched;
    WakeDueQueue(k);
    var k1 := Retop(WakeDue(k));
    ReschedQueue(k1);
    DropsAll(k);
    PositiveFirst(Resched(k1));
  }

  lemma DropsAll(k: K)
    requires Apart(k)
    ensures var r := DropDue(Queue(k)); r != [] ==> r[0].left > 0
  {
    hide Apart;
    ApartShaped(k);
    DropStops(Queue(k));
  }

  lemma {:induction false} DropStops(d: seq<Due>)
    ensures var r := DropDue(d); r != [] ==> r[0].left > 0
  {
    if d != [] && d[0].left <= 0 {
      DropStops(d[1..]);
    }
  }

  lemma PositiveFirst(k: K)
    requires Apart(k) && (Queue(k) != [] ==> Queue(k)[0].left > 0)
    ensures KeysNat(k.lists[CLOCK], k.key)
  {
    var s := k.lists[CLOCK];
    forall p: Pid | p in s
      ensures k.key[p] >= 0
    {
      assert s == [s[0]] + s[1..];
    }
  }

  lemma TidyApart(k: K, key: seq<int>)
    requires Tidy(k) && |key| == NPROC && (k.lists[CLOCK] != [] ==> KeysNat(k.lists[CLOCK][1..], key))
    ensures Apart(k.(key := key))
  {
  }

  lemma {:induction false} MakeUpQueue(s: seq<Pid>, key: seq<int>, m: int)
    requires |key| == NPROC && NoDup(s)
    ensures QueueOf(s, MakeUp(s, key, m)) == TakeOff(QueueOf(s, key), m)
    ensures forall p: Pid :: p !in s ==> MakeUp(s, key, m)[p] == key[p]
  {
    if s != [] {
      NoDupTail(s);
      var d := QueueOf(s, key);
      assert d[1..] == QueueOf(s[1..], key);
      if key[s[0]] < m {
        var key0 := key[s[0] := 0];
        MakeUpQueue(s[1..], key0, m - key[s[0]]);
        SameQueue(s[1..], key, key0);
      } else {
        SameQueue(s[1..], key, key[s[0] := key[s[0]] - m]);
      }
    }
  }

  lemma CatchUpQueue(k: K, m: nat)
    requires Tidy(k)
    ensures Tidy(CatchUp(k, m)) && Queue(CatchUp(k, m)) == MadeUp(Queue(k), m)
  {
    hide Wakeup;
    hide MakeUp;
    var s := k.lists[CLOCK];
    MakeUpQueue(s, k.key, m);
    RemainingMakeUp(s, k.key, m);
    var key := MakeUp(s, k.key, m);
    if s != [] {
      assert forall p: Pid :: p in s[1..] ==> p in s;
      TidyApart(k, key);
      WakeupQueue(k.(key := key));
    }
  }

  /** strtclk, as far as the sleep queue goes. */
  lemma StrtClkQueue(k: K)
    requires Tidy(k) && k.defclk == 1
    ensures Queue(StrtClkCall(k)) == MadeUp(Queue(k), k.clkdiff)
  {
    hide CatchUp;
    hide Tidy;
    hide Resched;
    TidyShaped(k);
    var k1 := k.(defclk := 0, preempt := k.preempt - k.clkdiff, clkdiff := 0);
    OtherFields(k, k1);
    CatchUpQueue(k1, k.clkdiff);
    var k2 := CatchUp(k1, k.clkdiff);
    TidyResched(k2);
  }

  lemma TidyShaped(k: K)
    requires Tidy(k)
    ensures Shaped(k)
  {
  }

  lemma OtherFields(k: K, k': K)
    requires Tidy(k) && Shaped(k') && k' == k.(defclk := k'.defclk, preempt := k'.preempt, clkdiff := k'.clkdiff)
    ensures Tidy(k') && Queue(k') == Queue(k)
  {
  }

  lemma TidyResched(k: K)
    requires Tidy(k)
    ensures Tidy(Resched(k)) && Queue(Resched(k)) == Queue(k)
  {
    hide Resched;
    TidyApart(k, k.key) by {
      assert k.lists[CLOCK] != [] ==> forall p: Pid :: p in k.lists[CLOCK][1..] ==> p in k.lists[CLOCK];
    }
    assert k.(key := k.key) == k;
    ReschedQueue(k);
    var k' := Resched(k);
    QueueKeys(k.lists[CLOCK], k.key, k'.key);
  }

  lemma {:induction false} QueueKeys(s: seq<Pid>, key: seq<int>, key': seq<int>)
    requires |key| == |key'| == NPROC && QueueOf(s, key') == QueueOf(s, key)
    ensures forall p: Pid :: p in s ==> key'[p] == key[p]
  {
    if s != [] {
      var d, d' := QueueOf(s, key), QueueOf(s, key');
      assert d[0] == d'[0] && d[1..] == QueueOf(s[1..], key) && d'[1..] == QueueOf(s[1..], key');
      QueueKeys(s[1..], key, key');
      assert s == [s[0]] + s[1..];
    }
  }

  /** The decrement that both boards start a tick with. */
  lemma FirstLess(k: K)
    requires Tidy(k) && k.slnempty
    ensures var k1 := k.(key := k.key[k.sltop := k.key[k.sltop] - 1]);
            && Apart(k1) && Queue(k1) == Less(Queue(k)) && Queue(k) != [] && k1.key[k.sltop] == Queue(k)[0].left - 1
            && (k1.key[k.sltop] >= 0 ==> Tidy(k1))
  {
    var s := k.lists[CLOCK];
    NoDupTail(s);
    var key := k.key[k.sltop := k.key[k.sltop] - 1];
    SameQueue(s[1..], k.key, key);
    assert Queue(k)[1..] == QueueOf(s[1..], k.key);
  }

  lemma CountDownQueue(k: K)
    requires Tidy(k) && (Queue(k) != [] ==> Queue(k)[0].left > 0)
    ensures Tidy(CountDown(k)) && Queue(CountDown(k)) == Tick(Queue(k))
    ensures var r := Queue(CountDown(k)); r != [] ==> r[0].left > 0
  {
    hide Wakeup;
    if k.slnempty {
      FirstLess(k);
      var k1 := k.(key := k.key[k.sltop := k.key[k.sltop] - 1]);
      WakeupQueue(k1);
      DropsAll(k1);
    }
  }

  /** m ticks of the mio board, one by one. */
  function CountDowns(k: K, m: nat): (r: K)
    requires Shaped(k)
    ensures Shaped(r)
    decreases m
  {
    if m == 0 then k else CountDowns(CountDown(k), m - 1)
  }

  lemma {:induction false} CountDownsQueue(k: K, m: nat)
    requires Tidy(k) && (Queue(k) != [] ==> Queue(k)[0].left > 0)
    ensures Queue(CountDowns(k, m)) == Ticks(Queue(k), m)
    decreases m
  {
    hide CountDown;
    hide Tidy;
    TidyShaped(k);
    if m > 0 {
      CountDownQueue(k);
      CountDownsQueue(CountDown(k), m - 1);
    }
  }

  lemma TidyNat(k: K)
    requires Tidy(k)
    ensures NoneNegative(Queue(k))
  {
    QueueNat(k.lists[CLOCK], k.key);
  }

  /** With the clock routine of the mio board, restarting the clock leaves the sleep queue, processes and
      keys, just as that many single ticks would have. */
  lemma DeferredTicksMadeUp(k: K)
    requires Inv(k) && k.defclk == 1
    ensures Queue(StrtClkCall(k)) == Queue(CountDowns(k, k.clkdiff))
  {
    hide Inv;
    hide Tidy;
    hide StrtClkCall;
    hide CountDowns;
    InvTidy(k);
    StrtClkQueue(k);
    CountDownsQueue(k, k.clkdiff);
    TidyNat(k);
    MadeUpIsTicks(Queue(k), k.clkdiff);
  }

  // ----- the sun350 board -----

  /** The clock routine of the sun350 board on every tenth of its interrupts, but for the time slice. */
  function SunTick(k: K): (r: K)
    requires Shaped(k)
    ensures Shaped(r)
  {
    if k.defclk != 0 then k.(clkdiff := k.clkdiff + 1)
    else if !k.slnempty then k
    else
      var k1 := k.(key := k.key[k.sltop := k.key[k.sltop] - 1]);
      if k1.key[k.sltop] < 0 then Wakeup(k1) else k1
  }

  function SunTicks(k: K, m: nat): (r: K)
    requires Shaped(k)
    ensures Shaped(r)
    decreases m
  {
    if m == 0 then k else SunTicks(SunTick(k), m - 1)
  }

  lemma SunTickQueue(k: K)
    requires Tidy(k) && k.defclk == 0
    ensures Tidy(SunTick(k)) && Queue(SunTick(k)) == LateTick(Queue(k)) && SunTick(k).defclk == 0
  {
    hide Wakeup;
    if k.slnempty {
      FirstLess(k);
      WakeupQueue(k.(key := k.key[k.sltop := k.key[k.sltop] - 1]));
      WakeupDefclk(k.(key := k.key[k.sltop := k.key[k.sltop] - 1]));
    }
  }

  lemma WakeupDefclk(k: K)
    requires Shaped(k)
    ensures Wakeup(k).defclk == k.defclk
  {
    hide Resched;
    WakeDueDefclk(k);
    ReschedDefclk(Retop(WakeDue(k)));
  }

  lemma {:induction false} WakeDueDefclk(k: K)
    requires Shaped(k)
    ensures WakeDue(k).defclk == k.defclk
    decreases |k.lists[CLOCK]|
  {
    if k.lists[CLOCK] != [] && k.key[k.lists[CLOCK][0]] <= 0 {
      WakeDueDefclk(ReadyFirst(k, CLOCK));
    }
  }

  lemma ReschedDefclk(k: K)
    requires Shaped(k)
    ensures Resched(k).defclk == k.defclk
  {
  }

  lemma {:induction false} SunTicksQueue(k: K, m: nat)
    requires Tidy(k) && k.defclk == 0
    ensures Queue(SunTicks(k, m)) == LateTicks(Queue(k), m)
    decreases m
  {
    hide SunTick;
    hide Tidy;
    TidyShaped(k);
    if m > 0 {
      SunTickQueue(k);
      SunTicksQueue(SunTick(k), m - 1);
    }
  }

  lemma {:induction false} SunTicksDefer(k: K, m: nat)
    requires Shaped(k) && k.defclk != 0
    ensures SunTicks(k, m) == k.(clkdiff := k.clkdiff + m)
    decreases m
  {
    if m > 0 {
      SunTicksDefer(SunTick(k), m - 1);
    }
  }

  /** On the sun350 board, deferring m ticks and restarting the clock is the same as letting it tick m
      times if and only if nobody sleeps, or the first sleeper has more than m ticks left, or m is enough
      for everybody to wake late. */
  lemma SunDeferredTicks(k: K, m: nat)
    requires Tidy(k) && k.defclk == 0 && k.clkdiff == 0
    ensures Queue(StrtClkCall(SunTicks(k.(defclk := 1), m))) == Queue(SunTicks(k, m))
            <==> Queue(k) == [] || Queue(k)[0].left > m || m >= LateTime(Queue(k))
  {
    hide StrtClkCall;
    hide SunTicks;
    var k1 := k.(defclk := 1, clkdiff := m);
    SunTicksDefer(k.(defclk := 1), m);
    OtherFields(k, k1);
    StrtClkQueue(k1);
    SunTicksQueue(k, m);
    TidyNat(k);
    MadeUpIsLateTicksIff(Queue(k), m);
  }

  /** One sleeper with one tick left and one deferred tick: strtclk wakes it, a tick would not. */
  lemma SunWakesEarly(k: K, p: Pid)
    requires Tidy(k) && k.defclk == 0 && k.clkdiff == 0 && k.lists[CLOCK] == [p] && k.key[p] == 1
    ensures !Asleep(StrtClkCall(SunTicks(k.(defclk := 1), 1)), p) && Asleep(SunTicks(k, 1), p)
  {
    var k1 := k.(defclk := 1, clkdiff := 1);
    SunTicksDefer(k.(defclk := 1), 1);
    OtherFields(k, k1);
    StrtClkQueue(k1);
    SunTicksQueue(k, 1);
    assert Queue(k) == [Due(p, 1)];
    assert MadeUp([Due(p, 1)], 1) == [];
    assert LateTicks([Due(p, 1)], 1) == LateTick([Due(p, 1)]) == [Due(p, 0)];
    OneLeft(SunTicks(k, 1), p);
  }

  lemma OneLeft(k: K, p: Pid)
    requires Shaped(k) && Queue(k) == [Due(p, 0)]
    ensures k.lists[CLOCK] == [p]
  {
    assert |k.lists[CLOCK]| == 1 && Queue(k)[0].pid == k.lists[CLOCK][0];
  }
}
