/** The process kernel on values: every list of the q table is a sequence of process numbers, and each
    system call is a function on the whole state. */
module KernelSpec {

  const NPROC := 50
  const NSEM := 512
  const NULLPROC := 0
  const MAXINT := 0x7fff_ffff
  const MININT := -0x8000_0000
  const QUANTUM := 10
  const READY := NSEM        // the ready list follows the semaphore lists
  const CLOCK := NSEM + 1    // and the sleep queue follows the ready list

  /** A process number, which is also the process's index in the q table. */
  type Pid = p: int | 0 <= p < NPROC

  datatype PState = Curr | Free | Ready | Recv | Sleep | Susp | Wait | TRecv

  /** msgs is phasmsg, a byte: there is a message unless it is 0. */
  datatype PEntry = PEntry(state: PState, prio: int, sem: int, msgs: nat, msg: int, nxtkin: int) {
    predicate HasMsg() { msgs != 0 }
  }

  datatype SEntry = SEntry(used: bool, cnt: int)

  /** key is the q key of each process; sltop is the process whose key the clock counts down. */
  datatype K = K(
    proc: seq<PEntry>, sem: seq<SEntry>, key: seq<int>, lists: seq<seq<Pid>>,
    curr: Pid, nextproc: Pid, nextsem: int,
    slnempty: bool, sltop: Pid, preempt: int, defclk: int, clkdiff: nat, count100: int)

  predicate BadPid(p: int) { p <= 0 || p >= NPROC }

  predicate BadSem(s: int) { s < 0 || s >= NSEM }

  predicate Shaped(k: K) {
    |k.proc| == NPROC && |k.sem| == NSEM && |k.key| == NPROC && |k.lists| == NSEM + 2 && 0 <= k.nextsem < NSEM
  }

  // ----- list operations -----

  function Without(s: seq<Pid>, p: Pid): seq<Pid> {
    if s == [] then [] else if s[0] == p then s[1..] else [s[0]] + Without(s[1..], p)
  }

  function InsertAt(s: seq<Pid>, i: nat, p: Pid): seq<Pid>
    requires i <= |s|
  {
    s[..i] + [p] + s[i..]
  }

  /** Where insert stops: the first entry whose key is not smaller. */
  function Place(s: seq<Pid>, key: seq<int>, x: int): (i: nat)
    requires |key| == NPROC
    ensures i <= |s|
  {
    if s == [] || key[s[0]] >= x then 0 else 1 + Place(s[1..], key, x)
  }

  /** Where insertd stops, and what is left of x there. */
  function DeltaPlace(s: seq<Pid>, key: seq<int>, x: int): (r: (nat, int))
    requires |key| == NPROC
    ensures r.0 <= |s|
  {
    if s == [] || key[s[0]] >= x then (0, x)
    else var r := DeltaPlace(s[1..], key, x - key[s[0]]); (r.0 + 1, r.1)
  }

  /** The keys once insertd has put p in with x ticks to wait. */
  function DeltaKeys(s: seq<Pid>, key: seq<int>, p: Pid, x: int): (r: seq<int>)
    requires |key| == NPROC
    ensures |r| == NPROC
  {
    var (i, y) := DeltaPlace(s, key, x);
    var key' := key[p := y];
    if i < |s| then key'[s[i] := key'[s[i]] - y] else key'
  }

  /** The keys once p has left: the entry behind it inherits its waiting time. */
  function Handover(s: seq<Pid>, key: seq<int>, p: Pid): (r: seq<int>)
    requires |key| == NPROC
    ensures |r| == NPROC
  {
    if |s| < 2 then key
    else if s[0] == p then key[s[1] := key[s[1]] + key[p]]
    else Handover(s[1..], key, p)
  }

  // ----- parts of system calls -----

  function SetList(k: K, l: int, s: seq<Pid>): (r: K)
    requires Shaped(k) && 0 <= l < NSEM + 2
    ensures Shaped(r)
  {
    k.(lists := k.lists[l := s])
  }

  function SetProc(k: K, p: Pid, e: PEntry): (r: K)
    requires Shaped(k)
    ensures Shaped(r)
  {
    k.(proc := k.proc[p := e])
  }

  function SetState(k: K, p: Pid, st: PState): (r: K)
    requires Shaped(k)
    ensures Shaped(r)
  {
    SetProc(k, p, k.proc[p].(state := st))
  }

  function SetCount(k: K, s: int, n: int): (r: K)
    requires Shaped(k) && 0 <= s < NSEM
    ensures Shaped(r)
  {
    k.(sem := k.sem[s := k.sem[s].(cnt := n)])
  }

  /** insert(p, rdyhead, x) */
  function InsertReady(k: K, p: Pid, x: int): (r: K)
    requires Shaped(k)
    ensures Shaped(r)
  {
    var s := k.lists[READY];
    SetList(k, READY, InsertAt(s, Place(s, k.key, x), p)).(key := k.key[p := x])
  }

  /** ready(p, RESCHNO) */
  function MakeReady(k: K, p: int): (r: K)
    requires Shaped(k)
    ensures Shaped(r)
  {
    if BadPid(p) then k else InsertReady(SetState(k, p, Ready), p, k.proc[p].prio)
  }

  /** ready(getfirst(l), RESCHNO) */
  function ReadyFirst(k: K, l: int): (r: K)
    requires Shaped(k) && 0 <= l < NSEM + 2
    ensures Shaped(r)
  {
    var s := k.lists[l];
    if s == [] then k else MakeReady(SetList(k, l, s[1..]), s[0])
  }

  function LastKey(k: K): int
    requires Shaped(k)
  {
    var s := k.lists[READY];
    if s == [] then MININT else k.key[s[|s| - 1]]
  }

  /** Takes the last, and so highest, process off the ready list and runs it. */
  function Dispatch(k: K): (r: K)
    requires Shaped(k)
    ensures Shaped(r)
  {
    var s := k.lists[READY];
    if s == [] then k   // never: see SomeoneIsReady
    else
      var p := s[|s| - 1];
      SetState(SetList(k, READY, s[..|s| - 1]), p, Curr).(curr := p, preempt := QUANTUM)
  }

  function Resched(k: K): (r: K)
    requires Shaped(k)
    ensures Shaped(r)
  {
    if k.proc[k.curr].state != Curr then Dispatch(k)
    else if LastKey(k) < k.proc[k.curr].prio then k
    else Dispatch(InsertReady(SetState(k, k.curr, Ready), k.curr, k.proc[k.curr].prio))
  }

  /** The caller joins the end of semaphore s's list. */
  function Block(k: K, s: int): (r: K)
    requires Shaped(k) && 0 <= s < NSEM
    ensures Shaped(r)
  {
    SetList(SetProc(k, k.curr, k.proc[k.curr].(state := Wait, sem := s)), s, k.lists[s] + [k.curr])
  }

  /** slnempty and sltop as the sleep queue now stands. */
  function Retop(k: K): (r: K)
    requires Shaped(k)
    ensures Shaped(r)
  {
    var s := k.lists[CLOCK];
    if s == [] then k.(slnempty := false) else k.(slnempty := true, sltop := s[0])
  }

  /** insertd(p, clockq, n), for a process going to state st. */
  function SleepFor(k: K, p: Pid, n: int, st: PState): (r: K)
    requires Shaped(k)
    ensures Shaped(r)
  {
    var s := k.lists[CLOCK];
    var s' := InsertAt(s, DeltaPlace(s, k.key, n).0, p);
    Retop(SetState(SetList(k, CLOCK, s').(key := DeltaKeys(s, k.key, p, n)), p, st))
  }

  /** unsleep(p); the caller gives p its next state. */
  function Unsleep(k: K, p: Pid): (r: K)
    requires Shaped(k)
    ensures Shaped(r)
  {
    var s := k.lists[CLOCK];
    Retop(SetList(k, CLOCK, Without(s, p)).(key := Handover(s, k.key, p)))
  }

  /** The loop of wakeup. */
  function WakeDue(k: K): (r: K)
    requires Shaped(k)
    ensures Shaped(r)
    decreases |k.lists[CLOCK]|
  {
    var s := k.lists[CLOCK];
    if s == [] || k.key[s[0]] > 0 then k else WakeDue(ReadyFirst(k, CLOCK))
  }

  function Wakeup(k: K): (r: K)
    requires Shaped(k)
    ensures Shaped(r)
  {
    Resched(Retop(WakeDue(k)))
  }

  /** Everybody on list l made ready, from the front, without rescheduling. */
  function Drain(k: K, l: int): (r: K)
    requires Shaped(k) && 0 <= l < NSEM
    ensures Shaped(r)
    decreases |k.lists[l]|
  {
    if k.lists[l] == [] then k else Drain(ReadyFirst(k, l), l)
  }

  /** One turn of the loop of signaln. */
  function SignalOnce(k: K, s: int): (r: K)
    requires Shaped(k) && 0 <= s < NSEM
    ensures Shaped(r)
  {
    var k1 := SetCount(k, s, k.sem[s].cnt + 1);
    if k.sem[s].cnt < 0 then ReadyFirst(k1, s) else k1
  }

  function SignalTimes(k: K, s: int, n: nat): (r: K)
    requires Shaped(k) && 0 <= s < NSEM
    ensures Shaped(r)
    decreases n
  {
    if n == 0 then k else SignalTimes(SignalOnce(k, s), s, n - 1)
  }

  /** The search of newpid over n more slots: the free slot found, or -1, and the next search point. */
  function SearchPid(proc: seq<PEntry>, next: Pid, n: nat): (int, Pid)
    requires |proc| == NPROC
    decreases n
  {
    var next' := if next <= 0 then NPROC - 1 else next - 1;
    if n == 0 then (-1, next)
    else if proc[next].state == Free then (next, next')
    else SearchPid(proc, next', n - 1)
  }

  function SearchSem(sem: seq<SEntry>, next: int, n: nat): (r: (int, int))
    requires |sem| == NSEM && 0 <= next < NSEM
    ensures 0 <= r.1 < NSEM && -1 <= r.0 < NSEM
    decreases n
  {
    var next' := if next - 1 < 0 then NSEM - 1 else next - 1;
    if n == 0 then (-1, next)
    else if !sem[next].used then (next, next')
    else SearchSem(sem, next', n - 1)
  }

  /** Deferred ticks taken off the front of the sleep queue. */
  function MakeUp(s: seq<Pid>, key: seq<int>, m: int): (r: seq<int>)
    requires |key| == NPROC
    ensures |r| == NPROC
  {
    if s == [] then key
    else if key[s[0]] < m then MakeUp(s[1..], key[s[0] := 0], m - key[s[0]])
    else key[s[0] := key[s[0]] - m]
  }

  // ----- system calls, made by the current process -----

  datatype Call =
    | DoWait(s: int)
    | DoSignal(s: int)
    | DoSignalN(s: int, n: int)
    | DoSCreate(cnt: int)
    | DoSDelete(s: int)
    | DoSReset(s: int, n: int)
    | DoCreate(stack: bool, even: bool, prio: int)
    | DoResume(p: int)
    | DoSuspend(p: int)
    | DoChPrio(p: int, prio: int)
    | DoSend(p: int, msg: int)
    | DoSendF(p: int, msg: int)
    | DoReceive
    | DoRecvTim(n: int)
    | TakeMsg                    // recvclr, and the rest of receive and recvtim when the caller runs again
    | DoSleep10(n: int)
    | DoUnsleep(p: int)
    | DoSetNok(nok: int, p: int)
    | KillSend(p: int)           // kill up to the message to the next of kin
    | KillFinish(p: int)         // the rest of kill
    | DoStopClk
    | DoStrtClk
    | StrtClkRest                // the rest of strtclk, if waking the sleepers switched the caller out
    | ClockInterrupt
    | ClockRest                  // the rest of the clock routine, if waking switched the interrupted process out

  function WaitCall(k: K, s: int): (r: K)
    requires Shaped(k)
    ensures Shaped(r)
  {
    if BadSem(s) || !k.sem[s].used then k
    else
      var k1 := SetCount(k, s, k.sem[s].cnt - 1);
      if k1.sem[s].cnt < 0 then Resched(Block(k1, s)) else k1
  }

  function SignalCall(k: K, s: int): (r: K)
    requires Shaped(k)
    ensures Shaped(r)
  {
    if BadSem(s) || !k.sem[s].used then k
    else if k.sem[s].cnt < 0 then Resched(SignalOnce(k, s))
    else SignalOnce(k, s)
  }

  function SignalNCall(k: K, s: int, n: int): (r: K)
    requires Shaped(k)
    ensures Shaped(r)
  {
    if BadSem(s) || !k.sem[s].used || n <= 0 then k else Resched(SignalTimes(k, s, n))
  }

  function SCreateCall(k: K, cnt: int): (r: K)
    requires Shaped(k)
    ensures Shaped(r)
  {
    if cnt < 0 then k
    else
      var (s, next) := SearchSem(k.sem, k.nextsem, NSEM);
      if s < 0 then k.(nextsem := next) else k.(nextsem := next, sem := k.sem[s := SEntry(true, cnt)])
  }

  function SDeleteCall(k: K, s: int): (r: K)
    requires Shaped(k)
    ensures Shaped(r)
  {
    if BadSem(s) || !k.sem[s].used then k
    else
      var k1 := k.(sem := k.sem[s := k.sem[s].(used := false)]);
      if k.lists[s] == [] then k1 else Resched(Drain(k1, s))
  }

  function SResetCall(k: K, s: int, n: int): (r: K)
    requires Shaped(k)
    ensures Shaped(r)
  {
    if BadSem(s) || n < 0 || !k.sem[s].used then k
    else Resched(SetCount(Drain(k, s), s, n))
  }

  function CreateCall(k: K, stack: bool, even: bool, prio: int): (r: K)
    requires Shaped(k)
    ensures Shaped(r)
  {
    if !stack then k
    else
      var (p, next) := SearchPid(k.proc, k.nextproc, NPROC);
      var k1 := k.(nextproc := next);
      if p < 0 || !even || prio < 1 || p >= NPROC then k1
      else SetProc(k1, p, PEntry(Susp, prio, 0, 0, k.proc[p].msg, -1))
  }

  function ResumeCall(k: K, p: int): (r: K)
    requires Shaped(k)
    ensures Shaped(r)
  {
    if BadPid(p) || k.proc[p].state != Susp then k else Resched(MakeReady(k, p))
  }

  function SuspendCall(k: K, p: int): (r: K)
    requires Shaped(k)
    ensures Shaped(r)
  {
    if BadPid(p) || p == NULLPROC || (k.proc[p].state != Curr && k.proc[p].state != Ready) then k
    else if k.proc[p].state == Ready then
      SetList(SetState(k, p, Susp), READY, Without(k.lists[READY], p))
    else Resched(SetState(k, p, Susp))
  }

  function ChPrioCall(k: K, p: int, prio: int): (r: K)
    requires Shaped(k)
    ensures Shaped(r)
  {
    if BadPid(p) || prio <= 0 || k.proc[p].state == Free then k
    else
      var k1 := SetProc(k, p, k.proc[p].(prio := prio));
      match k.proc[p].state
      case Ready => Resched(InsertReady(SetList(k1, READY, Without(k.lists[READY], p)), p, prio))
      case Curr => Resched(k1)
      case _ => k1
  }

  function SendCall(k: K, p: int, msg: int): (r: K)
    requires Shaped(k)
    ensures Shaped(r)
  {
    if BadPid(p) || k.proc[p].state == Free || k.proc[p].HasMsg() then k
    else
      var k1 := SetProc(k, p, k.proc[p].(msg := msg, msgs := 1));
      match k.proc[p].state
      case Recv => Resched(MakeReady(k1, p))
      case TRecv => Resched(MakeReady(Unsleep(k1, p), p))
      case _ => k1
  }

  /** sendf: the message replaces one that has not been taken, and wakes only a receiver that waits for ever. */
  function SendFCall(k: K, p: int, msg: int): (r: K)
    requires Shaped(k)
    ensures Shaped(r)
  {
    if BadPid(p) || k.proc[p].state == Free then k
    else
      var k1 := SetProc(k, p, k.proc[p].(msg := msg, msgs := (k.proc[p].msgs + 1) % 256));
      if k.proc[p].state == Recv then Resched(MakeReady(k1, p)) else k1
  }

  function TakeMessage(k: K): (r: K)
    requires Shaped(k)
    ensures Shaped(r)
  {
    SetProc(k, k.curr, k.proc[k.curr].(msgs := 0))
  }

  function ReceiveCall(k: K): (r: K)
    requires Shaped(k)
    ensures Shaped(r)
  {
    if k.proc[k.curr].HasMsg() then TakeMessage(k) else Resched(SetState(k, k.curr, Recv))
  }

  function RecvTimCall(k: K, n: int): (r: K)
    requires Shaped(k)
    ensures Shaped(r)
  {
    if n < 0 then k
    else if k.proc[k.curr].HasMsg() then TakeMessage(k)
    else Resched(SleepFor(k, k.curr, n, TRecv))
  }

  function SleepCall(k: K, n: int): (r: K)
    requires Shaped(k)
    ensures Shaped(r)
  {
    if n < 0 then k
    else if n == 0 then Resched(k)
    else Resched(SleepFor(k, k.curr, n, Sleep))
  }

  /** unsleep called by itself: the process keeps the state of a sleeper. */
  function UnsleepCall(k: K, p: int): (r: K)
    requires Shaped(k)
    ensures Shaped(r)
  {
    if BadPid(p) || (k.proc[p].state != Sleep && k.proc[p].state != TRecv) then k else Unsleep(k, p)
  }

  function SetNokCall(k: K, nok: int, p: int): (r: K)
    requires Shaped(k)
    ensures Shaped(r)
  {
    if BadPid(p) then k else SetProc(k, p, k.proc[p].(nxtkin := nok))
  }

  function KillSendCall(k: K, p: int): (r: K)
    requires Shaped(k)
    ensures Shaped(r)
  {
    if BadPid(p) || k.proc[p].state == Free then k else SendCall(k, k.proc[p].nxtkin, p)
  }

  function KillFinishCall(k: K, p: int): (r: K)
    requires Shaped(k)
    ensures Shaped(r)
  {
    if BadPid(p) then k
    else
      match k.proc[p].state
      case Curr => Resched(SetState(k, p, Free))
      case Wait =>
        var s := k.proc[p].sem;
        if BadSem(s) then k   // never: a waiting process waits on a semaphore
        else SetState(SetList(SetCount(k, s, k.sem[s].cnt + 1), s, Without(k.lists[s], p)), p, Free)
      case Ready => SetState(SetList(k, READY, Without(k.lists[READY], p)), p, Free)
      case Sleep => SetState(Unsleep(k, p), p, Free)
      case TRecv => SetState(Unsleep(k, p), p, Free)
      case _ => SetState(k, p, Free)
  }

  /** The end of strtclk. */
  function SliceEnd(k: K): (r: K)
    requires Shaped(k)
    ensures Shaped(r)
  {
    if k.preempt <= 0 then Resched(k) else k
  }

  /** What strtclk does to the sleep queue after m deferred ticks. */
  function CatchUp(k: K, m: nat): (r: K)
    requires Shaped(k)
    ensures Shaped(r)
  {
    if k.slnempty then Wakeup(k.(key := MakeUp(k.lists[CLOCK], k.key, m))) else k
  }

  function StrtClkCall(k: K): (r: K)
    requires Shaped(k)
    ensures Shaped(r)
  {
    if k.defclk <= 0 then k
    else if k.defclk - 1 > 0 then k.(defclk := k.defclk - 1)
    else
      var k1 := CatchUp(k.(defclk := 0, preempt := k.preempt - k.clkdiff, clkdiff := 0), k.clkdiff);
      if k1.curr == k.curr then SliceEnd(k1) else k1
  }

  /** The sleep queue's share of a clock interrupt. */
  function CountDown(k: K): (r: K)
    requires Shaped(k)
    ensures Shaped(r)
  {
    if !k.slnempty then k
    else
      var k1 := k.(key := k.key[k.sltop := k.key[k.sltop] - 1]);
      if k1.key[k.sltop] == 0 then Wakeup(k1) else k1
  }

  /** The time slice's share of a clock interrupt. */
  function SliceTick(k: K): (r: K)
    requires Shaped(k)
    ensures Shaped(r)
  {
    var k1 := k.(preempt := k.preempt - 1);
    if k1.preempt == 0 then Resched(k1) else k1
  }

  /** c_clockisr: every tenth interrupt is a tick of the sleep queue and, once the interrupted process
      runs again, of the time slice. */
  function ClockCall(k: K): (r: K)
    requires Shaped(k)
    ensures Shaped(r)
  {
    if k.count100 + 1 != 10 then k.(count100 := k.count100 + 1)
    else
      var k1 := CountDown(k.(count100 := 0));
      if k1.curr == k.curr then SliceTick(k1) else k1
  }

  /** What callers owe: the null process makes no call that could block it, numbers are 32-bit integers,
      a receiver that will have to wait waits for at least one tick, and unsleep is left to those calls
      that give the process its next state. */
  predicate Enabled(k: K, c: Call)
    requires Shaped(k)
  {
    match c
    case DoWait(_) => k.curr != NULLPROC
    case DoReceive => k.curr != NULLPROC
    case DoRecvTim(n) => k.curr != NULLPROC && n <= MAXINT && (n != 0 || k.proc[k.curr].HasMsg())
    case DoSleep10(n) => k.curr != NULLPROC && n <= MAXINT
    case DoCreate(_, _, prio) => prio <= MAXINT
    case DoChPrio(_, prio) => prio <= MAXINT
    case DoUnsleep(p) => BadPid(p) || (k.proc[p].state != Sleep && k.proc[p].state != TRecv)
    case _ => true
  }

  function Next(k: K, c: Call): (r: K)
    requires Shaped(k)
    ensures Shaped(r)
  {
    match c
    case DoWait(s) => WaitCall(k, s)
    case DoSignal(s) => SignalCall(k, s)
    case DoSignalN(s, n) => SignalNCall(k, s, n)
    case DoSCreate(cnt) => SCreateCall(k, cnt)
    case DoSDelete(s) => SDeleteCall(k, s)
    case DoSReset(s, n) => SResetCall(k, s, n)
    case DoCreate(stack, even, prio) => CreateCall(k, stack, even, prio)
    case DoResume(p) => ResumeCall(k, p)
    case DoSuspend(p) => SuspendCall(k, p)
    case DoChPrio(p, prio) => ChPrioCall(k, p, prio)
    case DoSend(p, msg) => SendCall(k, p, msg)
    case DoSendF(p, msg) => SendFCall(k, p, msg)
    case DoReceive => ReceiveCall(k)
    case DoRecvTim(n) => RecvTimCall(k, n)
    case TakeMsg => TakeMessage(k)
    case DoSleep10(n) => SleepCall(k, n)
    case DoUnsleep(p) => UnsleepCall(k, p)
    case DoSetNok(nok, p) => SetNokCall(k, nok, p)
    case KillSend(p) => KillSendCall(k, p)
    case KillFinish(p) => KillFinishCall(k, p)
    case DoStopClk => k.(defclk := k.defclk + 1)
    case DoStrtClk => StrtClkCall(k)
    case StrtClkRest => SliceEnd(k)
    case ClockInterrupt => ClockCall(k)
    case ClockRest => SliceTick(k)
  }
}
