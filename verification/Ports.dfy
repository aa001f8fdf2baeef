/** Ports (xinu/sys/common/p*.c): bounded message queues, each guarded by a counting semaphore for senders
    and one for receivers, on a pool of nodes that all ports share. Calls that block are split where
    another process can run. */
module Ports {

  const NPORTS := 200
  const MAXMSGS := 100

  type PortId = p: int | 0 <= p < NPORTS

  /** A process inside psend or preceive, with the sequence number the port had when it came. */
  datatype Ticket = Ticket(pid: nat, port: PortId, sending: bool, msg: int, epoch: int)

  /** In limbo, round counts the semaphores already reset; keep says that the port stays allocated. */
  datatype PtState = PtFree | PtLimbo(round: nat, keep: bool) | PtAlloc

  /** A semaphore: its count and those who wait, in order of arrival. */
  datatype Sema = Sema(cnt: int, waiting: seq<Ticket>)

  /** sent and got are the messages that have gone into and come out of the queue in this epoch. */
  datatype Port = Port(
    state: PtState, ssem: Sema, rsem: Sema, maxcnt: int, epoch: int, queue: seq<int>,
    sent: seq<int>, got: seq<int>)

  /** released holds the processes that a semaphore has let go and that have not run yet; free is the number
      of free nodes. */
  datatype Sys = Sys(ports: seq<Port>, free: int, nextp: PortId, released: seq<Ticket>)

  predicate Shaped(s: Sys) { |s.ports| == NPORTS }

  function SetPort(s: Sys, p: PortId, pt: Port): (r: Sys)
    requires Shaped(s)
    ensures Shaped(r)
  {
    s.(ports := s.ports[p := pt])
  }

  // ----- semaphores -----

  /** signal: the count rises, and the first waiter, if any, is released. */
  function Signalled(m: Sema): (Sema, seq<Ticket>) {
    if m.cnt < 0 && m.waiting != [] then (Sema(m.cnt + 1, m.waiting[1..]), [m.waiting[0]])
    else (m.(cnt := m.cnt + 1), [])
  }

  /** wait, when it blocks. */
  function Blocked(m: Sema, t: Ticket): Sema { Sema(m.cnt - 1, m.waiting + [t]) }

  // ----- the parts of system calls -----

  /** psend, once it has a place: a node from the pool is linked at the tail and ptrsem is signalled. */
  function Link(s: Sys, p: PortId, msg: int): (r: Sys)
    requires Shaped(s)
    ensures Shaped(r)
  {
    var pt := s.ports[p];
    var (m, out) := Signalled(pt.rsem);
    SetPort(s, p, pt.(queue := pt.queue + [msg], sent := pt.sent + [msg], rsem := m))
      .(free := s.free - 1, released := s.released + out)
  }

  /** preceive, once there is a message for it: the head is unlinked and ptssem is signalled. */
  function Unlink(s: Sys, p: PortId): (r: Sys)
    requires Shaped(s) && s.ports[p].queue != []
    ensures Shaped(r)
  {
    var pt := s.ports[p];
    var (m, out) := Signalled(pt.ssem);
    SetPort(s, p, pt.(queue := pt.queue[1..], got := pt.got + [pt.queue[0]], ssem := m))
      .(free := s.free + 1, released := s.released + out)
  }

  datatype Outcome = Ok(s: Sys) | Panic

  /** psend from its start: to its end if there is room, else until it blocks. */
  function PSend(s: Sys, pid: nat, p: int, msg: int): Outcome
    requires Shaped(s)
  {
    if p < 0 || p >= NPORTS || s.ports[p].state != PtAlloc then Ok(s)
    else
      var pt := s.ports[p];
      if pt.ssem.cnt - 1 < 0 then
        Ok(SetPort(s, p, pt.(ssem := Blocked(pt.ssem, Ticket(pid, p, true, msg, pt.epoch)))))
      else if s.free == 0 then Panic
      else Ok(Link(SetPort(s, p, pt.(ssem := pt.ssem.(cnt := pt.ssem.cnt - 1))), p, msg))
  }

  function PReceive(s: Sys, pid: nat, p: int): Outcome
    requires Shaped(s)
  {
    if p < 0 || p >= NPORTS || s.ports[p].state != PtAlloc then Ok(s)
    else
      var pt := s.ports[p];
      if pt.rsem.cnt - 1 < 0 then
        Ok(SetPort(s, p, pt.(rsem := Blocked(pt.rsem, Ticket(pid, p, false, 0, pt.epoch)))))
      else if pt.queue == [] then Panic   // never: see ReceiverFindsMessage
      else Ok(Unlink(SetPort(s, p, pt.(rsem := pt.rsem.(cnt := pt.rsem.cnt - 1))), p))
  }

  predicate Stale(s: Sys, t: Ticket)
    requires Shaped(s)
  {
    s.ports[t.port].state != PtAlloc || s.ports[t.port].epoch != t.epoch
  }

  function RemoveAt<T>(a: seq<T>, i: nat): seq<T>
    requires i < |a|
  {
    a[..i] + a[i + 1..]
  }

  /** The rest of psend or preceive, when a released process runs. */
  function Resume(s: Sys, i: nat): Outcome
    requires Shaped(s) && i < |s.released|
  {
    var t := s.released[i];
    var s1 := s.(released := RemoveAt(s.released, i));
    if Stale(s, t) then Ok(s1)
    else if t.sending then
      if s.free == 0 then Panic else Ok(Link(s1, t.port, t.msg))
    else if s.ports[t.port].queue == [] then Panic   // never: see ReceiverFindsMessage
    else Ok(Unlink(s1, t.port))
  }

  /** The search of pcreate over n more ports: the free one found, or -1, and the next search point. */
  function SearchPort(ports: seq<Port>, next: PortId, n: nat): (int, PortId)
    requires |ports| == NPORTS
    decreases n
  {
    var next' := if next <= 0 then NPORTS - 1 else next - 1;
    if n == 0 then (-1, next)
    else if ports[next].state == PtFree then (next, next')
    else SearchPort(ports, next', n - 1)
  }

  function PCreate(s: Sys, count: int): (r: Sys)
    requires Shaped(s)
    ensures Shaped(r)
  {
    if count < 0 then s
    else
      var (p, next) := SearchPort(s.ports, s.nextp, NPORTS);
      var s1 := s.(nextp := next);
      if p < 0 || p >= NPORTS then s1
      else SetPort(s1, p, Port(PtAlloc, Sema(count, []), Sema(0, []), count, s.ports[p].epoch + 1, [], [], []))
  }

  /** pdelete or preset, up to and with the release of the senders: the port is in limbo, its sequence
      number has changed and its nodes are free. */
  function ClearStart(s: Sys, p: int, keep: bool): (r: Sys)
    requires Shaped(s)
    ensures Shaped(r)
  {
    if p < 0 || p >= NPORTS || s.ports[p].state != PtAlloc then s
    else
      var pt := s.ports[p];
      SetPort(s, p, Port(PtLimbo(1, keep), Sema(pt.maxcnt, []), pt.rsem, pt.maxcnt, pt.epoch + 1, [], [], []))
        .(free := s.free + |pt.queue|, released := s.released + pt.ssem.waiting)
  }

  /** The same call later: the receivers are released, and then the port leaves limbo. */
  function ClearOn(s: Sys, p: PortId): (r: Sys)
    requires Shaped(s) && s.ports[p].state.PtLimbo?
    ensures Shaped(r)
  {
    var pt := s.ports[p];
    if pt.state.round == 1 then
      SetPort(s, p, pt.(state := PtLimbo(2, pt.state.keep), rsem := Sema(0, [])))
        .(released := s.released + pt.rsem.waiting)
    else SetPort(s, p, pt.(state := if pt.state.keep then PtAlloc else PtFree))
  }

  /** kill of a process that waits on one of the semaphores. */
  function KillWaiter(s: Sys, p: PortId, sender: bool, i: nat): (r: Sys)
    requires Shaped(s) && i < |(if sender then s.ports[p].ssem else s.ports[p].rsem).waiting|
    ensures Shaped(r)
  {
    var pt := s.ports[p];
    var m := if sender then pt.ssem else pt.rsem;
    var m' := Sema(m.cnt + 1, RemoveAt(m.waiting, i));
    SetPort(s, p, if sender then pt.(ssem := m') else pt.(rsem := m'))
  }

  datatype Step =
    | DoSend(pid: nat, p: int, msg: int)
    | DoReceive(pid: nat, p: int)
    | DoResume(i: nat)
    | DoCreate(count: int)
    | DoClear(p: int, keep: bool)
    | DoClearOn(port: PortId)
    | DoKill(port: PortId, sender: bool, i: nat)

  predicate Enabled(s: Sys, e: Step)
    requires Shaped(s)
  {
    match e
    case DoResume(i) => i < |s.released|
    case DoClearOn(p) => s.ports[p].state.PtLimbo?
    case DoKill(p, sender, i) => i < |(if sender then s.ports[p].ssem else s.ports[p].rsem).waiting|
    case _ => true
  }

  function Next(s: Sys, e: Step): Outcome
    requires Shaped(s) && Enabled(s, e)
  {
    match e
    case DoSend(pid, p, msg) => PSend(s, pid, p, msg)
    case DoReceive(pid, p) => PReceive(s, pid, p)
    case DoResume(i) => Resume(s, i)
    case DoCreate(count) => Ok(PCreate(s, count))
    case DoClear(p, keep) => Ok(ClearStart(s, p, keep))
    case DoClearOn(p) => Ok(ClearOn(s, p))
    case DoKill(p, sender, i) => Ok(KillWaiter(s, p, sender, i))
  }

  // ----- what every step keeps -----

  /** How many released processes hold a place or a message of the port's current epoch. */
  function Holding(released: seq<Ticket>, p: PortId, sending: bool, epoch: int): nat {
    if released == [] then 0
    else
      var n, t := |released| - 1, released[|released| - 1];
      Holding(released[..n], p, sending, epoch) +
      if t.port == p && t.sending == sending && t.epoch == epoch then 1 else 0
  }

  predicate SemaOk(m: Sema) {
    |m.waiting| == if m.cnt < 0 then -m.cnt else 0
  }

  function Left(m: Sema): int { if m.cnt < 0 then 0 else m.cnt }

  predicate WaitingOk(m: Sema, p: PortId, sending: bool, epoch: int) {
    forall t :: t in m.waiting ==> t.port == p && t.sending == sending && t.epoch == epoch
  }

  /** Every place in the queue is free, held by a released sender, or taken by a message; and every message
      is available or held by a released receiver. What has come out and what is queued, in that order, is
      what went in. The running process itself holds a place or a message when hs or hr is 1. */
  predicate PortInv(pt: Port, p: PortId, released: seq<Ticket>, hs: nat, hr: nat) {
    && pt.maxcnt >= 0 && pt.sent == pt.got + pt.queue
    && (pt.state == PtAlloc ==>
          && SemaOk(pt.ssem) && SemaOk(pt.rsem)
          && WaitingOk(pt.ssem, p, true, pt.epoch) && WaitingOk(pt.rsem, p, false, pt.epoch)
          && Left(pt.ssem) + Holding(released, p, true, pt.epoch) + hs + |pt.queue| == pt.maxcnt
          && Left(pt.rsem) + Holding(released, p, false, pt.epoch) + hr == |pt.queue|)
    && (pt.state != PtAlloc ==>
          && hs == hr == 0
          && pt.queue == [] && Holding(released, p, true, pt.epoch) == 0 && Holding(released, p, false, pt.epoch) == 0)
    && (pt.state.PtLimbo? ==>
          && pt.state.round in {1, 2} && pt.ssem == Sema(pt.maxcnt, [])
          && (if pt.state.round == 1 then forall t :: t in pt.rsem.waiting ==> t.port == p && t.epoch < pt.epoch else pt.rsem == Sema(0, [])))
    && (pt.state == PtFree ==> pt.ssem.waiting == [] && pt.rsem.waiting == [])
  }

  /** The messages queued on all ports. */
  function Queued(ports: seq<Port>): nat {
    if ports == [] then 0 else Queued(ports[..|ports| - 1]) + |ports[|ports| - 1].queue|
  }

  predicate InvBut(s: Sys, h: PortId, hs: nat, hr: nat) {
    && Shaped(s)
    && s.free >= 0 && s.free + Queued(s.ports) == MAXMSGS
    && (forall p: PortId :: p != h ==> PortInv(s.ports[p], p, s.released, 0, 0))
    && PortInv(s.ports[h], h, s.released, hs, hr)
    && forall t :: t in s.released ==> t.epoch <= s.ports[t.port].epoch
  }

  predicate Inv(s: Sys) { InvBut(s, 0, 0, 0) }

  lemma {:induction false} HoldingJoin(a: seq<Ticket>, b: seq<Ticket>, p: PortId, sending: bool, epoch: int)
    ensures Holding(a + b, p, sending, epoch) == Holding(a, p, sending, epoch) + Holding(b, p, sending, epoch)
  {
    if b == [] {
      assert a + b == a;
    } else {
      var n := |b| - 1;
      HoldingJoin(a, b[..n], p, sending, epoch);
      assert (a + b)[..|a + b| - 1] == a + b[..n];
    }
  }

  lemma {:induction false} HoldingWithout(a: seq<Ticket>, i: nat, p: PortId, sending: bool, epoch: int)
    requires i < |a|
    ensures var t := a[i];
            Holding(a, p, sending, epoch) ==
            Holding(RemoveAt(a, i), p, sending, epoch) + if t.port == p && t.sending == sending && t.epoch == epoch then 1 else 0
  {
    var n := |a| - 1;
    if i == n {
      assert RemoveAt(a, i) == a[..n];
    } else {
      HoldingWithout(a[..n], i, p, sending, epoch);
      var r := RemoveAt(a, i);
      assert r[..|r| - 1] == RemoveAt(a[..n], i);
    }
  }

  lemma {:induction false} HoldingNone(a: seq<Ticket>, p: PortId, sending: bool, epoch: int)
    requires forall t :: t in a && t.port == p && t.sending == sending ==> t.epoch != epoch
    ensures Holding(a, p, sending, epoch) == 0
  {
    if a != [] {
      HoldingNone(a[..|a| - 1], p, sending, epoch);
    }
  }

  lemma {:induction false} HoldingSome(a: seq<Ticket>, t: Ticket)
    requires t in a
    ensures Holding(a, t.port, t.sending, t.epoch) >= 1
  {
    var n := |a| - 1;
    if a[n] != t {
      assert t in a[..n];
      HoldingSome(a[..n], t);
    }
  }

  lemma {:induction false} QueuedAfter(ports: seq<Port>, i: nat, pt: Port)
    requires i < |ports|
    ensures Queued(ports[i := pt]) == Queued(ports) - |ports[i].queue| + |pt.queue|
  {
    var n := |ports| - 1;
    if i == n {
      assert ports[i := pt][..n] == ports[..n];
    } else {
      QueuedAfter(ports[..n], i, pt);
      assert ports[i := pt][..n] == ports[..n][i := pt];
    }
  }

  /** Tickets for one port do not matter to another. */
  lemma OtherPort(pt: Port, q: PortId, released: seq<Ticket>, more: seq<Ticket>, p: PortId)
    requires PortInv(pt, q, released, 0, 0) && q != p && forall t :: t in more ==> t.port == p
    ensures PortInv(pt, q, released + more, 0, 0)
  {
    HoldingJoin(released, more, q, true, pt.epoch);
    HoldingJoin(released, more, q, false, pt.epoch);
    HoldingNone(more, q, true, pt.epoch);
    HoldingNone(more, q, false, pt.epoch);
  }

  /** A change to one port, which releases some of its processes, keeps the rest in order. */
  lemma ChangePort(s: Sys, p: PortId, pt: Port, more: seq<Ticket>, free: nat, hs: nat, hr: nat, hs': nat, hr': nat)
    requires InvBut(s, p, hs, hr) && PortInv(pt, p, s.released + more, hs', hr')
    requires forall t :: t in more ==> t.port == p && t.epoch <= pt.epoch
    requires s.ports[p].epoch <= pt.epoch && free + |pt.queue| == s.free + |s.ports[p].queue|
    ensures InvBut(SetPort(s, p, pt).(released := s.released + more, free := free), p, hs', hr')
  {
    hide PortInv;
    var s' := SetPort(s, p, pt).(released := s.released + more, free := free);
    QueuedAfter(s.ports, p, pt);
    forall q: PortId | q != p
      ensures PortInv(s'.ports[q], q, s'.released, 0, 0)
    {
      OtherPort(s.ports[q], q, s.released, more, p);
    }
  }

  lemma AnyPort(s: Sys, p: PortId)
    ensures Inv(s) <==> InvBut(s, p, 0, 0)
  {
    hide PortInv;
  }

  /** Raising the count of a semaphore by signal, in terms of what released processes hold. */
  lemma SignalledOk(m: Sema, p: PortId, sending: bool, epoch: int)
    requires SemaOk(m) && WaitingOk(m, p, sending, epoch)
    ensures var (m', out) := Signalled(m);
            && SemaOk(m') && WaitingOk(m', p, sending, epoch)
            && (forall t :: t in out ==> t.port == p && t.sending == sending && t.epoch == epoch)
            && Left(m') + Holding(out, p, sending, epoch) == Left(m) + 1
            && Holding(out, p, !sending, epoch) == 0
  {
    var (m', out) := Signalled(m);
    if out != [] {
      assert out[0] in m.waiting;
      assert out[..0] == [];
    }
    HoldingNone(out, p, !sending, epoch);
  }

  lemma LinkedPort(pt: Port, p: PortId, released: seq<Ticket>, msg: int)
    requires PortInv(pt, p, released, 1, 0)
    ensures var (m, out) := Signalled(pt.rsem);
            && (forall t :: t in out ==> t.port == p && t.epoch == pt.epoch)
            && PortInv(pt.(queue := pt.queue + [msg], sent := pt.sent + [msg], rsem := m), p, released + out, 0, 0)
  {
    hide Signalled;
    SignalledOk(pt.rsem, p, false, pt.epoch);
    var (m, out) := Signalled(pt.rsem);
    HoldingJoin(released, out, p, true, pt.epoch);
    HoldingJoin(released, out, p, false, pt.epoch);
  }

  lemma UnlinkedPort(pt: Port, p: PortId, released: seq<Ticket>)
    requires PortInv(pt, p, released, 0, 1)
    ensures pt.queue != []
    ensures var (m, out) := Signalled(pt.ssem);
            && (forall t :: t in out ==> t.port == p && t.epoch == pt.epoch)
            && PortInv(pt.(queue := pt.queue[1..], got := pt.got + [pt.queue[0]], ssem := m), p, released + out, 0, 0)
  {
    hide Signalled;
    SignalledOk(pt.ssem, p, true, pt.epoch);
    var (m, out) := Signalled(pt.ssem);
    HoldingJoin(released, out, p, true, pt.epoch);
    HoldingJoin(released, out, p, false, pt.epoch);
    assert pt.queue == [pt.queue[0]] + pt.queue[1..];
  }

  /** A process that holds a place in the queue puts its message there. */
  lemma LinkInv(s: Sys, p: PortId, msg: int)
    requires InvBut(s, p, 1, 0) && s.free > 0
    ensures Inv(Link(s, p, msg))
  {
    hide PortInv;
    hide Signalled;
    var pt := s.ports[p];
    LinkedPort(pt, p, s.released, msg);
    var (m, out) := Signalled(pt.rsem);
    var pt' := pt.(queue := pt.queue + [msg], sent := pt.sent + [msg], rsem := m);
    ChangePort(s, p, pt', out, s.free - 1, 1, 0, 0, 0);
    AnyPort(Link(s, p, msg), p);
  }

  /** A process that holds a message finds the queue not empty and takes the first. */
  lemma UnlinkInv(s: Sys, p: PortId)
    requires InvBut(s, p, 0, 1)
    ensures s.ports[p].queue != [] && Inv(Unlink(s, p))
  {
    hide PortInv;
    hide Signalled;
    var pt := s.ports[p];
    UnlinkedPort(pt, p, s.released);
    var (m, out) := Signalled(pt.ssem);
    var pt' := pt.(queue := pt.queue[1..], got := pt.got + [pt.queue[0]], ssem := m);
    ChangePort(s, p, pt', out, s.free + 1, 0, 1, 0, 0);
    AnyPort(Unlink(s, p), p);
  }

  lemma OneReleasedLess(pt: Port, p: PortId, released: seq<Ticket>, i: nat, hs: nat, hr: nat)
    requires PortInv(pt, p, released, 0, 0) && i < |released|
    requires var t := released[i];
             var mine := t.port == p && t.epoch == pt.epoch && pt.state == PtAlloc;
             hs == (if mine && t.sending then 1 else 0) && hr == (if mine && !t.sending then 1 else 0)
    ensures PortInv(pt, p, RemoveAt(released, i), hs, hr)
  {
    HoldingWithout(released, i, p, true, pt.epoch);
    HoldingWithout(released, i, p, false, pt.epoch);
    HoldingSome(released, released[i]);
  }

  /** A released process that runs again brings what it holds; a stale one holds nothing. */
  lemma RunReleased(s: Sys, i: nat)
    requires Inv(s) && i < |s.released|
    ensures var t := s.released[i];
            var s1 := s.(released := RemoveAt(s.released, i));
            if Stale(s, t) then Inv(s1) else if t.sending then InvBut(s1, t.port, 1, 0) else InvBut(s1, t.port, 0, 1)
  {
    hide PortInv;
    hide RemoveAt;
    var t := s.released[i];
    var s1 := s.(released := RemoveAt(s.released, i));
    assert forall u :: u in s1.released ==> u in s.released by {
      RemovedIn(s.released, i);
    }
    var fresh0 := !Stale(s, t);
    var hs, hr := if fresh0 && t.sending then 1 else 0, if fresh0 && !t.sending then 1 else 0;
    forall q: PortId
      ensures PortInv(s.ports[q], q, s1.released, if q == t.port then hs else 0, if q == t.port then hr else 0)
    {
      AnyPort(s, q);
      OneReleasedLess(s.ports[q], q, s.released, i, if q == t.port then hs else 0, if q == t.port then hr else 0);
    }
    assert InvBut(s1, t.port, hs, hr);
    AnyPort(s1, t.port);
  }

  lemma RemovedIn<T>(a: seq<T>, i: nat)
    requires i < |a|
    ensures forall x :: x in RemoveAt(a, i) ==> x in a
  {
  }

  lemma ResumeInv(s: Sys, i: nat)
    requires Inv(s) && i < |s.released|
    ensures Resume(s, i).Ok? ==> Inv(Resume(s, i).s)
    ensures Resume(s, i).Panic? ==> s.free == 0 && s.released[i].sending && !Stale(s, s.released[i])
  {
    hide PortInv;
    hide Link;
    hide Unlink;
    var t := s.released[i];
    var s1 := s.(released := RemoveAt(s.released, i));
    RunReleased(s, i);
    if !Stale(s, t) {
      if !t.sending {
        UnlinkInv(s1, t.port);
      } else if s.free > 0 {
        LinkInv(s1, t.port, t.msg);
      }
    }
  }

  /** Taking the count of a semaphore down without blocking. */
  lemma TakenFrom(s: Sys, p: PortId, sending: bool)
    requires Inv(s) && s.ports[p].state == PtAlloc && (if sending then s.ports[p].ssem else s.ports[p].rsem).cnt > 0
    ensures var pt := s.ports[p];
            if sending then InvBut(SetPort(s, p, pt.(ssem := pt.ssem.(cnt := pt.ssem.cnt - 1))), p, 1, 0)
            else InvBut(SetPort(s, p, pt.(rsem := pt.rsem.(cnt := pt.rsem.cnt - 1))), p, 0, 1)
  {
    AnyPort(s, p);
    var pt := s.ports[p];
    var pt' := if sending then pt.(ssem := pt.ssem.(cnt := pt.ssem.cnt - 1)) else pt.(rsem := pt.rsem.(cnt := pt.rsem.cnt - 1));
    assert s.released + [] == s.released;
    assert PortInv(pt', p, s.released, if sending then 1 else 0, if sending then 0 else 1);
    hide PortInv;
    ChangePort(s, p, pt', [], s.free, 0, 0, if sending then 1 else 0, if sending then 0 else 1);
  }

  /** A change to one port alone. */
  lemma ChangeOnly(s: Sys, p: PortId, pt: Port)
    requires Inv(s) && PortInv(pt, p, s.released, 0, 0)
    requires s.ports[p].epoch <= pt.epoch && |pt.queue| == |s.ports[p].queue|
    ensures Inv(SetPort(s, p, pt))
  {
    hide PortInv;
    AnyPort(s, p);
    assert s.released + [] == s.released;
    ChangePort(s, p, pt, [], s.free, 0, 0, 0, 0);
    assert SetPort(s, p, pt).(released := s.released, free := s.free) == SetPort(s, p, pt);
    AnyPort(SetPort(s, p, pt), p);
  }

  /** Joining the end of a semaphore's list. */
  lemma BlockInv(s: Sys, p: PortId, t: Ticket)
    requires Inv(s) && s.ports[p].state == PtAlloc && t.port == p && t.epoch == s.ports[p].epoch
    requires (if t.sending then s.ports[p].ssem else s.ports[p].rsem).cnt <= 0
    ensures var pt := s.ports[p];
            Inv(SetPort(s, p, if t.sending then pt.(ssem := Blocked(pt.ssem, t)) else pt.(rsem := Blocked(pt.rsem, t))))
  {
    AnyPort(s, p);
    var pt := s.ports[p];
    var pt' := if t.sending then pt.(ssem := Blocked(pt.ssem, t)) else pt.(rsem := Blocked(pt.rsem, t));
    assert PortInv(pt', p, s.released, 0, 0);
    hide PortInv;
    ChangeOnly(s, p, pt');
  }

  lemma PSendInv(s: Sys, pid: nat, p: int, msg: int)
    requires Inv(s)
    ensures PSend(s, pid, p, msg).Ok? ==> Inv(PSend(s, pid, p, msg).s)
    ensures PSend(s, pid, p, msg).Panic? ==> s.free == 0 && 0 <= p < NPORTS && s.ports[p].state == PtAlloc && s.ports[p].ssem.cnt > 0
  {
    hide Link;
    hide PortInv;
    if 0 <= p < NPORTS && s.ports[p].state == PtAlloc {
      var pt := s.ports[p];
      if pt.ssem.cnt > 0 {
        TakenFrom(s, p, true);
        if s.free > 0 {
          LinkInv(SetPort(s, p, pt.(ssem := pt.ssem.(cnt := pt.ssem.cnt - 1))), p, msg);
        }
      } else {
        BlockInv(s, p, Ticket(pid, p, true, msg, pt.epoch));
      }
    }
  }

  lemma PReceiveInv(s: Sys, pid: nat, p: int)
    requires Inv(s)
    ensures PReceive(s, pid, p).Ok? && Inv(PReceive(s, pid, p).s)
  {
    hide Unlink;
    hide PortInv;
    if 0 <= p < NPORTS && s.ports[p].state == PtAlloc {
      var pt := s.ports[p];
      if pt.rsem.cnt > 0 {
        TakenFrom(s, p, false);
        UnlinkInv(SetPort(s, p, pt.(rsem := pt.rsem.(cnt := pt.rsem.cnt - 1))), p);
      } else {
        BlockInv(s, p, Ticket(pid, p, false, 0, pt.epoch));
      }
    }
  }

  lemma {:induction false} SearchFinds(ports: seq<Port>, next: PortId, n: nat)
    requires |ports| == NPORTS
    ensures var (p, next') := SearchPort(ports, next, n);
            p < 0 || (p < NPORTS && ports[p].state == PtFree)
    decreases n
  {
    if n > 0 && ports[next].state != PtFree {
      SearchFinds(ports, if next <= 0 then NPORTS - 1 else next - 1, n - 1);
    }
  }

  lemma NextpInv(s: Sys, next: PortId)
    requires Inv(s)
    ensures Inv(s.(nextp := next))
  {
    hide PortInv;
  }

  /** pcreate fails only when no port is free. */
  lemma SearchExact(ports: seq<Port>, next: PortId)
    requires |ports| == NPORTS
    ensures var (p, next') := SearchPort(ports, next, NPORTS);
            if p < 0 then forall q: PortId :: ports[q].state != PtFree else p < NPORTS && ports[p].state == PtFree
  {
    SearchFinds(ports, next, NPORTS);
    SearchMisses(ports, next, NPORTS);
  }

  /** The ports that the search has gone past are in use. */
  lemma {:induction false} SearchMisses(ports: seq<Port>, next: PortId, n: nat)
    requires |ports| == NPORTS
    ensures var (p, next') := SearchPort(ports, next, n);
            p < 0 ==> forall q: PortId :: (next - n < q <= next || q > next - n + NPORTS) ==> ports[q].state != PtFree
    decreases n
  {
    if n > 0 && ports[next].state != PtFree {
      SearchMisses(ports, if next <= 0 then NPORTS - 1 else next - 1, n - 1);
    }
  }

  lemma CreateAt(s: Sys, p: PortId, count: nat)
    requires Inv(s) && s.ports[p].state == PtFree
    ensures Inv(SetPort(s, p, Port(PtAlloc, Sema(count, []), Sema(0, []), count, s.ports[p].epoch + 1, [], [], [])))
  {
    AnyPort(s, p);
    NewEpoch(s, p);
    var pt := Port(PtAlloc, Sema(count, []), Sema(0, []), count, s.ports[p].epoch + 1, [], [], []);
    assert PortInv(pt, p, s.released, 0, 0);
    hide Inv;
    ChangeOnly(s, p, pt);
  }

  lemma PCreateInv(s: Sys, count: int)
    requires Inv(s)
    ensures Inv(PCreate(s, count))
  {
    hide SearchPort;
    hide PortInv;
    if count >= 0 {
      SearchFinds(s.ports, s.nextp, NPORTS);
      var (p, next) := SearchPort(s.ports, s.nextp, NPORTS);
      NextpInv(s, next);
      if 0 <= p < NPORTS {
        CreateAt(s.(nextp := next), p, count);
      }
    }
  }

  /** Nobody holds anything of an epoch that has not begun. */
  lemma NewEpoch(s: Sys, p: PortId)
    requires Inv(s)
    ensures Holding(s.released, p, true, s.ports[p].epoch + 1) == 0
    ensures Holding(s.released, p, false, s.ports[p].epoch + 1) == 0
  {
    HoldingNone(s.released, p, true, s.ports[p].epoch + 1);
    HoldingNone(s.released, p, false, s.ports[p].epoch + 1);
  }

  lemma ClearedPort(pt: Port, p: PortId, released: seq<Ticket>, keep: bool)
    requires PortInv(pt, p, released, 0, 0) && pt.state == PtAlloc
    requires Holding(released, p, true, pt.epoch + 1) == 0 && Holding(released, p, false, pt.epoch + 1) == 0
    ensures (forall t :: t in pt.ssem.waiting ==> t.port == p && t.epoch == pt.epoch)
    ensures var pt' := Port(PtLimbo(1, keep), Sema(pt.maxcnt, []), pt.rsem, pt.maxcnt, pt.epoch + 1, [], [], []);
            PortInv(pt', p, released + pt.ssem.waiting, 0, 0)
  {
    var e, w := pt.epoch + 1, pt.ssem.waiting;
    HoldingJoin(released, w, p, true, e);
    HoldingJoin(released, w, p, false, e);
    HoldingNone(w, p, true, e);
    HoldingNone(w, p, false, e);
  }

  lemma ClearStartInv(s: Sys, p: int, keep: bool)
    requires Inv(s)
    ensures Inv(ClearStart(s, p, keep))
  {
    hide PortInv;
    if 0 <= p < NPORTS && s.ports[p].state == PtAlloc {
      AnyPort(s, p);
      NewEpoch(s, p);
      var pt := s.ports[p];
      ClearedPort(pt, p, s.released, keep);
      var pt' := Port(PtLimbo(1, keep), Sema(pt.maxcnt, []), pt.rsem, pt.maxcnt, pt.epoch + 1, [], [], []);
      ChangePort(s, p, pt', pt.ssem.waiting, s.free + |pt.queue|, 0, 0, 0, 0);
      AnyPort(ClearStart(s, p, keep), p);
    }
  }

  lemma ClearOnInv(s: Sys, p: PortId)
    requires Inv(s) && s.ports[p].state.PtLimbo?
    ensures Inv(ClearOn(s, p))
  {
    AnyPort(s, p);
    var pt := s.ports[p];
    var e, w := pt.epoch, pt.rsem.waiting;
    if pt.state.round == 1 {
      var pt' := pt.(state := PtLimbo(2, pt.state.keep), rsem := Sema(0, []));
      HoldingJoin(s.released, w, p, true, e);
      HoldingJoin(s.released, w, p, false, e);
      HoldingNone(w, p, true, e);
      HoldingNone(w, p, false, e);
      assert PortInv(pt', p, s.released + w, 0, 0);
      assert forall t :: t in w ==> t.port == p && t.epoch <= e;
      hide PortInv;
      ChangePort(s, p, pt', w, s.free, 0, 0, 0, 0);
      AnyPort(ClearOn(s, p), p);
    } else {
      ChangeOnly(s, p, pt.(state := if pt.state.keep then PtAlloc else PtFree));
    }
  }

  lemma KillWaiterInv(s: Sys, p: PortId, sender: bool, i: nat)
    requires Inv(s) && i < |(if sender then s.ports[p].ssem else s.ports[p].rsem).waiting|
    ensures Inv(KillWaiter(s, p, sender, i))
  {
    AnyPort(s, p);
    var pt := s.ports[p];
    var m := if sender then pt.ssem else pt.rsem;
    RemovedIn(m.waiting, i);
    var m' := Sema(m.cnt + 1, RemoveAt(m.waiting, i));
    ChangeOnly(s, p, if sender then pt.(ssem := m') else pt.(rsem := m'));
  }

  /** What every step of every process keeps, on all ports at once. */
  lemma StepKeepsInv(s: Sys, e: Step)
    requires Inv(s) && Enabled(s, e)
    ensures Next(s, e).Ok? ==> Inv(Next(s, e).s)
  {
    hide Inv;
    hide PSend;
    hide PReceive;
    hide Resume;
    hide PCreate;
    hide ClearStart;
    hide ClearOn;
    hide KillWaiter;
    match e
    case DoSend(pid, p, msg) => PSendInv(s, pid, p, msg);
    case DoReceive(pid, p) => PReceiveInv(s, pid, p);
    case DoResume(i) => ResumeInv(s, i);
    case DoCreate(count) => PCreateInv(s, count);
    case DoClear(p, keep) => ClearStartInv(s, p, keep);
    case DoClearOn(p) => ClearOnInv(s, p);
    case DoKill(p, sender, i) => KillWaiterInv(s, p, sender, i);
  }

  // ----- what follows -----

  /** A port never holds more than it was created for; messages come out once each, in the order in which
      they went in; and no node is lost. */
  lemma PortPromises(s: Sys, p: PortId)
    requires Inv(s)
    ensures s.ports[p].state == PtAlloc ==> |s.ports[p].queue| <= s.ports[p].maxcnt
    ensures s.ports[p].got <= s.ports[p].sent && s.ports[p].sent == s.ports[p].got + s.ports[p].queue
    ensures s.free + Queued(s.ports) == MAXMSGS
  {
    AnyPort(s, p);
  }

  /** A receiver that has been released since the last reset finds a message: pthead is not NULL. */
  lemma ReceiverFindsMessage(s: Sys, t: Ticket)
    requires Inv(s) && t in s.released && !t.sending && !Stale(s, t)
    ensures s.ports[t.port].queue != []
  {
    AnyPort(s, t.port);
    HoldingSome(s.released, t);
  }

  /** Senders wait only while every place is taken or held, and receivers only while every message is held. */
  lemma WaitOnlyWhenDue(s: Sys, p: PortId)
    requires Inv(s) && s.ports[p].state == PtAlloc
    ensures s.ports[p].ssem.waiting != [] ==> |s.ports[p].queue| + Holding(s.released, p, true, s.ports[p].epoch) == s.ports[p].maxcnt
    ensures s.ports[p].rsem.waiting != [] ==> |s.ports[p].queue| == Holding(s.released, p, false, s.ports[p].epoch)
  {
    AnyPort(s, p);
  }

  function Capacity(pt: Port): int { if pt.state == PtFree || pt.maxcnt < 0 then 0 else pt.maxcnt }

  function Capacities(ports: seq<Port>): int {
    if ports == [] then 0 else Capacities(ports[..|ports| - 1]) + Capacity(ports[|ports| - 1])
  }

  lemma {:induction false} QueuedBelow(ports: seq<Port>, p: int)
    requires forall i :: 0 <= i < |ports| ==> |ports[i].queue| <= Capacity(ports[i])
    requires 0 <= p < |ports| ==> |ports[p].queue| < Capacity(ports[p])
    ensures Queued(ports) + (if 0 <= p < |ports| then 1 else 0) <= Capacities(ports)
  {
    if ports != [] {
      QueuedBelow(ports[..|ports| - 1], p);
    }
  }

  lemma PlaceLeft(s: Sys, p: PortId)
    requires Inv(s) && s.ports[p].state == PtAlloc && Capacities(s.ports) <= MAXMSGS
    requires s.ports[p].ssem.cnt > 0 || Holding(s.released, p, true, s.ports[p].epoch) > 0
    ensures s.free > 0
  {
    forall i | 0 <= i < NPORTS
      ensures |s.ports[i].queue| <= Capacity(s.ports[i])
    {
      AnyPort(s, i);
    }
    AnyPort(s, p);
    QueuedBelow(s.ports, p);
  }

  lemma InvShaped(s: Sys)
    requires Inv(s)
    ensures Shaped(s)
  {
  }

  /** The pool of nodes cannot run out while the ports together were not created for more messages than
      there are nodes. */
  lemma NeverOutOfNodes(s: Sys, e: Step)
    requires Inv(s) && Enabled(s, e) && Capacities(s.ports) <= MAXMSGS
    ensures Next(s, e).Ok?
  {
    hide Inv;
    hide PReceive;
    hide Link;
    hide Unlink;
    InvShaped(s);
    match e
    case DoSend(pid, p, msg) =>
      PSendInv(s, pid, p, msg);
      if 0 <= p < NPORTS && s.ports[p].state == PtAlloc && s.ports[p].ssem.cnt > 0 {
        PlaceLeft(s, p);
      }
    case DoReceive(pid, p) => PReceiveInv(s, pid, p);
    case DoResume(i) =>
      ResumeInv(s, i);
      var t := s.released[i];
      if !Stale(s, t) && t.sending {
        HoldingSome(s.released, t);
        PlaceLeft(s, t.port);
      }
    case _ =>
  }

  // ----- runs -----

  predicate Init(s: Sys) {
    && Shaped(s) && s.free == MAXMSGS && s.released == []
    && forall p: PortId :: s.ports[p] == Port(PtFree, Sema(0, []), Sema(0, []), 0, 0, [], [], [])
  }

  ghost predicate Run(ss: seq<Sys>, es: seq<Step>) {
    && |ss| == |es| + 1 && Init(ss[0])
    && forall i :: 0 <= i < |es| ==> Shaped(ss[i]) && Enabled(ss[i], es[i]) && Next(ss[i], es[i]) == Ok(ss[i + 1])
  }

  lemma {:induction false} NothingQueued(ports: seq<Port>)
    requires forall i :: 0 <= i < |ports| ==> ports[i].queue == []
    ensures Queued(ports) == 0
  {
    if ports != [] {
      NothingQueued(ports[..|ports| - 1]);
    }
  }

  lemma InitInv(s: Sys)
    requires Init(s)
    ensures Inv(s)
  {
    NothingQueued(s.ports);
  }

  lemma {:induction false} RunKeepsInv(ss: seq<Sys>, es: seq<Step>, n: nat)
    requires Run(ss, es) && n < |ss|
    ensures Inv(ss[n])
  {
    hide Inv;
    hide Next;
    if n == 0 {
      InitInv(ss[0]);
    } else {
      RunKeepsInv(ss, es, n - 1);
      StepKeepsInv(ss[n - 1], es[n - 1]);
      assert Next(ss[n - 1], es[n - 1]) == Ok(ss[n - 1 + 1]);
    }
  }

  /** A step leaves a port's sequence number alone or raises it; and while it stays, messages are only
      added behind those that were sent and received before. */
  predicate PortGrows(a: Port, b: Port) {
    && a.epoch <= b.epoch
    && (a.epoch == b.epoch ==> a.sent <= b.sent && a.got <= b.got)
  }

  lemma StepGrows(s: Sys, e: Step, p: PortId)
    requires Inv(s) && Enabled(s, e) && Next(s, e).Ok?
    ensures Shaped(Next(s, e).s) && PortGrows(s.ports[p], Next(s, e).s.ports[p])
  {
    hide Inv;
    InvShaped(s);
    if e.DoReceive? {
      PReceiveInv(s, e.pid, e.p);
    }
  }

  lemma {:induction false} RunGrows(ss: seq<Sys>, es: seq<Step>, i: nat, j: nat, p: PortId)
    requires Run(ss, es) && i <= j < |ss|
    ensures Shaped(ss[i]) && Shaped(ss[j]) && PortGrows(ss[i].ports[p], ss[j].ports[p])
    decreases j
  {
    hide Inv;
    hide Next;
    if i < j {
      RunGrows(ss, es, i, j - 1, p);
      RunKeepsInv(ss, es, j - 1);
      assert Next(ss[j - 1], es[j - 1]) == Ok(ss[j - 1 + 1]);
      StepGrows(ss[j - 1], es[j - 1], p);
    } else {
      RunKeepsInv(ss, es, i);
      InvShaped(ss[i]);
    }
  }

  /** The process of t is blocked on one of its port's semaphores, or has been released and not run yet. */
  predicate Inside(s: Sys, t: Ticket)
    requires Shaped(s)
  {
    t in s.ports[t.port].ssem.waiting || t in s.ports[t.port].rsem.waiting || t in s.released
  }

  lemma InsideEpoch(s: Sys, t: Ticket)
    requires Inv(s) && Inside(s, t)
    ensures t.epoch <= s.ports[t.port].epoch
  {
    AnyPort(s, t.port);
  }

  /** A process that was inside psend or preceive when its port was reset or deleted never touches a queue
      afterwards, whatever became of the port: when it runs again, it only learns of its failure. */
  lemma OldWaitersTouchNothing(ss: seq<Sys>, es: seq<Step>, i: nat, m: nat, j: nat, t: Ticket)
    requires Run(ss, es) && i <= m < j < |es| && Shaped(ss[i]) && Shaped(ss[m]) && Shaped(ss[j])
    requires Inside(ss[i], t)
    requires es[m].DoClear? && es[m].p == t.port && ss[m].ports[t.port].state == PtAlloc
    requires es[j].DoResume? && es[j].i < |ss[j].released| && ss[j].released[es[j].i] == t
    ensures ss[j + 1] == ss[j].(released := RemoveAt(ss[j].released, es[j].i))
  {
    hide Inv;
    RunKeepsInv(ss, es, i);
    InsideEpoch(ss[i], t);
    RunGrows(ss, es, i, m, t.port);
    assert Next(ss[m], es[m]) == Ok(ss[m + 1]);
    RunGrows(ss, es, m + 1, j, t.port);
    assert Stale(ss[j], t);
    assert Next(ss[j], es[j]) == Ok(ss[j + 1]);
  }
}
