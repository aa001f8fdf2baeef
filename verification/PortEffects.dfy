/** What each call does to the port it is for, and whose messages the ports carry. */
module PortEffects {
  import opened Ports

  predicate Good(s: Sys, p: int)
    requires Shaped(s)
  {
    0 <= p < NPORTS && s.ports[p].state == PtAlloc
  }

  /** The calls of one process leave every other port alone. */
  predicate Elsewhere(s: Sys, s': Sys, p: int)
    requires Shaped(s) && Shaped(s')
  {
    forall q: PortId :: q != p ==> s'.ports[q] == s.ports[q]
  }

  // ----- single calls -----

  /** With a place left psend puts its own message behind all others; with none left the process joins the
      waiting senders, with its message; for anything else than an allocated port nothing happens. */
  lemma SendExact(s: Sys, pid: nat, p: int, msg: int)
    requires Inv(s) && Next(s, DoSend(pid, p, msg)).Ok?
    ensures var s' := Next(s, DoSend(pid, p, msg)).s;
            && Shaped(s') && Elsewhere(s, s', p)
            && (!Good(s, p) ==> s' == s)
            && (Good(s, p) ==>
                  var pt, pt' := s.ports[p], s'.ports[p];
                  && pt'.state == PtAlloc && pt'.maxcnt == pt.maxcnt && pt'.epoch == pt.epoch && pt'.got == pt.got
                  && (pt.ssem.cnt > 0 ==>
                        && pt'.queue == pt.queue + [msg] && pt'.sent == pt.sent + [msg]
                        && pt'.ssem.waiting == pt.ssem.waiting && s'.free == s.free - 1
                        && s'.released + pt'.rsem.waiting == s.released + pt.rsem.waiting
                        && |s'.released| == |s.released| + if pt.rsem.waiting == [] then 0 else 1)
                  && (pt.ssem.cnt <= 0 ==>
                        && pt'.queue == pt.queue && pt'.sent == pt.sent && pt'.rsem == pt.rsem
                        && pt'.ssem.waiting == pt.ssem.waiting + [Ticket(pid, p, true, msg, pt.epoch)]
                        && s'.released == s.released && s'.free == s.free))
  {
    MessageThere(s, p);
    hide Inv;
  }

  /** The same for preceive: the oldest message, or a place at the end of the waiting receivers. */
  lemma ReceiveExact(s: Sys, pid: nat, p: int)
    requires Inv(s)
    ensures Next(s, DoReceive(pid, p)).Ok?
    ensures var s' := Next(s, DoReceive(pid, p)).s;
            && Shaped(s') && Elsewhere(s, s', p)
            && (!Good(s, p) ==> s' == s)
            && (Good(s, p) ==>
                  var pt, pt' := s.ports[p], s'.ports[p];
                  && pt'.state == PtAlloc && pt'.maxcnt == pt.maxcnt && pt'.epoch == pt.epoch && pt'.sent == pt.sent
                  && (pt.rsem.cnt > 0 ==>
                        && pt.queue != [] && pt'.queue == pt.queue[1..] && pt'.got == pt.got + [pt.queue[0]]
                        && pt'.rsem.waiting == pt.rsem.waiting && s'.free == s.free + 1
                        && s'.released + pt'.ssem.waiting == s.released + pt.ssem.waiting
                        && |s'.released| == |s.released| + if pt.ssem.waiting == [] then 0 else 1)
                  && (pt.rsem.cnt <= 0 ==>
                        && pt'.queue == pt.queue && pt'.got == pt.got && pt'.ssem == pt.ssem
                        && pt'.rsem.waiting == pt.rsem.waiting + [Ticket(pid, p, false, 0, pt.epoch)]
                        && s'.released == s.released && s'.free == s.free))
  {
    PReceiveInv(s, pid, p);
    MessageThere(s, p);
    hide Inv;
    var r := PReceive(s, pid, p);
    if Good(s, p) && s.ports[p].rsem.cnt > 0 {
      Unlinked(s, p);
      hide Unlink;
      hide SetPort;
    }
  }

  lemma Unlinked(s: Sys, p: PortId)
    requires Shaped(s) && s.ports[p].queue != [] && s.ports[p].rsem.cnt > 0
    ensures var pt := s.ports[p];
            var s' := Unlink(SetPort(s, p, pt.(rsem := pt.rsem.(cnt := pt.rsem.cnt - 1))), p);
            var pt' := s'.ports[p];
            && Elsewhere(s, s', p) && s'.free == s.free + 1
            && pt' == pt.(queue := pt.queue[1..], got := pt.got + [pt.queue[0]], ssem := pt'.ssem, rsem := pt.rsem.(cnt := pt.rsem.cnt - 1))
            && s'.released + pt'.ssem.waiting == s.released + pt.ssem.waiting
            && |s'.released| == |s.released| + if pt.ssem.cnt >= 0 || pt.ssem.waiting == [] then 0 else 1
  {
  }

  lemma MessageThere(s: Sys, p: int)
    requires Inv(s)
    ensures Good(s, p) && s.ports[p].rsem.cnt > 0 ==> s.ports[p].queue != []
    ensures Good(s, p) && s.ports[p].rsem.cnt >= 0 ==> s.ports[p].rsem.waiting == []
    ensures Good(s, p) && s.ports[p].ssem.cnt >= 0 ==> s.ports[p].ssem.waiting == []
    ensures Good(s, p) && s.ports[p].ssem.cnt < 0 ==> s.ports[p].ssem.waiting != []
    ensures Good(s, p) && s.ports[p].rsem.cnt < 0 ==> s.ports[p].rsem.waiting != []
  {
    if Good(s, p) {
      AnyPort(s, p);
    }
  }

  /** A released process that runs again: unless the port has changed since it came, a sender puts its own
      message behind all others and a receiver takes the oldest. */
  lemma ResumeExact(s: Sys, i: nat)
    requires Inv(s) && i < |s.released| && Next(s, DoResume(i)).Ok?
    ensures var t, s' := s.released[i], Next(s, DoResume(i)).s;
            && Shaped(s') && Elsewhere(s, s', t.port)
            && (Stale(s, t) ==> s' == s.(released := RemoveAt(s.released, i)))
            && (!Stale(s, t) ==>
                  var pt, pt' := s.ports[t.port], s'.ports[t.port];
                  && pt'.state == PtAlloc && pt'.maxcnt == pt.maxcnt && pt'.epoch == pt.epoch
                  && (t.sending ==>
                        && pt'.queue == pt.queue + [t.msg] && pt'.sent == pt.sent + [t.msg] && pt'.got == pt.got
                        && s'.released + pt'.rsem.waiting == RemoveAt(s.released, i) + pt.rsem.waiting && pt'.ssem == pt.ssem)
                  && (!t.sending ==>
                        && pt.queue != [] && pt'.queue == pt.queue[1..] && pt'.got == pt.got + [pt.queue[0]]
                        && pt'.sent == pt.sent
                        && s'.released + pt'.ssem.waiting == RemoveAt(s.released, i) + pt.ssem.waiting && pt'.rsem == pt.rsem))
  {
    MessageThere(s, s.released[i].port);
    hide Inv;
  }

  /** pcreate makes one formerly free port an empty one for count messages, with nobody waiting and a sequence
      number that it never had; or it changes nothing but the place of the next search. */
  lemma CreateExact(s: Sys, count: int) returns (p: int)
    requires Inv(s)
    ensures var s' := Next(s, DoCreate(count)).s;
            && Next(s, DoCreate(count)).Ok? && Shaped(s') && s'.free == s.free && s'.released == s.released && Elsewhere(s, s', p)
            && (p == -1 <==> count < 0 || forall q: PortId :: s.ports[q].state != PtFree)
            && (p == -1 ==> s'.ports == s.ports)
            && (p != -1 ==>
                  && 0 <= p < NPORTS && s.ports[p].state == PtFree
                  && s'.ports[p] == Port(PtAlloc, Sema(count, []), Sema(0, []), count, s'.ports[p].epoch, [], [], [])
                  && s'.ports[p].epoch > s.ports[p].epoch)
  {
    hide SearchPort;
    p := -1;
    if count >= 0 {
      SearchExact(s.ports, s.nextp);
      var (q, next) := SearchPort(s.ports, s.nextp, NPORTS);
      p := if q < 0 then -1 else q;
    }
  }

  /** The three parts of pdelete and preset: the port is emptied under a new sequence number and its senders are
      let go, then its receivers; at the end it is free, or allocated as pcreate left it. */
  lemma ClearExact(s: Sys, p: int, keep: bool)
    requires Inv(s)
    ensures var s' := ClearStart(s, p, keep);
            && Shaped(s') && Elsewhere(s, s', p) && (!Good(s, p) ==> s' == s)
            && (Good(s, p) ==>
                  && s'.released == s.released + s.ports[p].ssem.waiting
                  && s'.free == s.free + |s.ports[p].queue| && s'.ports[p].queue == []
                  && s'.ports[p].epoch > s.ports[p].epoch
                  && s'.ports[p].state.PtLimbo? && s'.ports[p].rsem.waiting == s.ports[p].rsem.waiting
                  && var s2 := ClearOn(s', p);
                  && s2.ports[p].state.PtLimbo? && s2.released == s'.released + s.ports[p].rsem.waiting && s2.free == s'.free
                  && var s3 := ClearOn(s2, p);
                  && Elsewhere(s, s3, p) && s3.released == s2.released && s3.free == s'.free
                  && s3.ports[p] == Port(if keep then PtAlloc else PtFree, Sema(s.ports[p].maxcnt, []), Sema(0, []), s.ports[p].maxcnt,
                                         s'.ports[p].epoch, [], [], []))
  {
  }

  // ----- who is inside, and with what message -----

  /** How often t waits on port p or has been released. */
  function At(s: Sys, p: PortId, t: Ticket): nat
    requires Shaped(s)
  {
    multiset(s.ports[p].ssem.waiting)[t] + multiset(s.ports[p].rsem.waiting)[t] + multiset(s.released)[t]
  }

  /** How often a process with ticket t waits or has been released. */
  function Times(s: Sys, t: Ticket): nat
    requires Shaped(s)
  {
    At(s, t.port, t)
  }

  /** The ticket with which a call blocks. */
  function Comes(s: Sys, e: Step): seq<Ticket>
    requires Shaped(s)
  {
    match e
    case DoSend(pid, p, msg) => if Good(s, p) && s.ports[p].ssem.cnt <= 0 then [Ticket(pid, p, true, msg, s.ports[p].epoch)] else []
    case DoReceive(pid, p) => if Good(s, p) && s.ports[p].rsem.cnt <= 0 then [Ticket(pid, p, false, 0, s.ports[p].epoch)] else []
    case _ => []
  }

  /** The ticket of a process that runs on, or is killed. */
  function Goes(s: Sys, e: Step): seq<Ticket>
    requires Shaped(s) && Enabled(s, e)
  {
    match e
    case DoResume(i) => [s.released[i]]
    case DoKill(p, sender, i) => [(if sender then s.ports[p].ssem else s.ports[p].rsem).waiting[i]]
    case _ => []
  }

  lemma RemovedTimes(a: seq<Ticket>, i: nat, t: Ticket)
    requires i < |a|
    ensures multiset(RemoveAt(a, i))[t] + multiset([a[i]])[t] == multiset(a)[t]
  {
    assert a == a[..i] + [a[i]] + a[i + 1..];
  }

  /** Those who wait on a port came for it. */
  lemma WaitersOwn(s: Sys, p: PortId)
    requires Inv(s)
    ensures Shaped(s) && Own(s.ports[p].ssem.waiting, p) && Own(s.ports[p].rsem.waiting, p)
  {
    AnyPort(s, p);
  }

  predicate Own(w: seq<Ticket>, p: PortId) { forall t :: t in w ==> t.port == p }

  lemma Foreign(w: seq<Ticket>, p: PortId, t: Ticket)
    requires Own(w, p) && t.port != p
    ensures multiset(w)[t] == 0
  {
    assert t !in w;
  }

  lemma Balance(s: Sys, s': Sys, p: PortId, t: Ticket, comes: seq<Ticket>, goes: seq<Ticket>)
    requires Inv(s) && Inv(s') && Shaped(s) && Shaped(s') && Elsewhere(s, s', p) && Own(comes, p)
    requires At(s', p, t) + multiset(goes)[t] == At(s, p, t) + multiset(comes)[t]
    ensures Times(s', t) + multiset(goes)[t] == Times(s, t) + multiset(comes)[t]
  {
    WaitersOwn(s, p);
    WaitersOwn(s', p);
    hide Inv;
    if t.port != p {
      Foreign(s.ports[p].ssem.waiting, p, t);
      Foreign(s.ports[p].rsem.waiting, p, t);
      Foreign(s'.ports[p].ssem.waiting, p, t);
      Foreign(s'.ports[p].rsem.waiting, p, t);
      Foreign(comes, p, t);
    }
  }

  /** Nobody gets lost or is let in twice: over every step a ticket is inside as often as before, but for the one
      that comes and the one that goes. */
  lemma TicketsKept(s: Sys, e: Step, t: Ticket)
    requires Inv(s) && Shaped(s) && Enabled(s, e) && Next(s, e).Ok?
    ensures Shaped(Next(s, e).s)
    ensures Times(Next(s, e).s, t) + multiset(Goes(s, e))[t] == Times(s, t) + multiset(Comes(s, e))[t]
  {
    StepKeepsInv(s, e);
    InvShaped(Next(s, e).s);
    hide Inv;
    hide Next;
    match e
    case DoSend(pid, p, msg) => SendTickets(s, pid, p, msg, t);
    case DoReceive(pid, p) => ReceiveTickets(s, pid, p, t);
    case DoResume(i) => ResumeTickets(s, i, t);
    case DoCreate(count) => CreateTickets(s, count, t);
    case DoClear(p, keep) => ClearTickets(s, p, keep, t);
    case DoClearOn(p) => ClearOnTickets(s, p, t);
    case DoKill(p, sender, i) => KillTickets(s, p, sender, i, t);
  }

  lemma SendTickets(s: Sys, pid: nat, p: int, msg: int, t: Ticket)
    requires Inv(s) && Shaped(s) && Next(s, DoSend(pid, p, msg)).Ok?
    requires Inv(Next(s, DoSend(pid, p, msg)).s) && Shaped(Next(s, DoSend(pid, p, msg)).s)
    ensures var e, s' := DoSend(pid, p, msg), Next(s, DoSend(pid, p, msg)).s;
            Times(s', t) + multiset(Goes(s, e))[t] == Times(s, t) + multiset(Comes(s, e))[t]
  {
    SendExact(s, pid, p, msg);
    hide Inv;
    hide Times;
    var s' := Next(s, DoSend(pid, p, msg)).s;
    hide Next;
    if Good(s, p) {
      var pt, pt' := s.ports[p], s'.ports[p];
      if pt.ssem.cnt > 0 {
        SameBag(s'.released, pt'.rsem.waiting, s.released, pt.rsem.waiting, t);
      } else {
        Joined(pt.ssem.waiting, [Ticket(pid, p, true, msg, pt.epoch)], t);
      }
      Balance(s, s', p, t, Comes(s, DoSend(pid, p, msg)), []);
    }
  }

  lemma SameBag(a: seq<Ticket>, b: seq<Ticket>, a': seq<Ticket>, b': seq<Ticket>, t: Ticket)
    requires a + b == a' + b'
    ensures multiset(a)[t] + multiset(b)[t] == multiset(a')[t] + multiset(b')[t]
  {
    assert multiset(a + b)[t] == multiset(a' + b')[t];
  }

  lemma Joined(a: seq<Ticket>, b: seq<Ticket>, t: Ticket)
    ensures multiset(a + b)[t] == multiset(a)[t] + multiset(b)[t]
  {
  }

  lemma ReceiveTickets(s: Sys, pid: nat, p: int, t: Ticket)
    requires Inv(s) && Shaped(s) && Next(s, DoReceive(pid, p)).Ok?
    requires Inv(Next(s, DoReceive(pid, p)).s) && Shaped(Next(s, DoReceive(pid, p)).s)
    ensures var e, s' := DoReceive(pid, p), Next(s, DoReceive(pid, p)).s;
            Times(s', t) + multiset(Goes(s, e))[t] == Times(s, t) + multiset(Comes(s, e))[t]
  {
    ReceiveExact(s, pid, p);
    hide Inv;
    hide Times;
    var s' := Next(s, DoReceive(pid, p)).s;
    hide Next;
    if Good(s, p) {
      var pt, pt' := s.ports[p], s'.ports[p];
      if pt.rsem.cnt > 0 {
        SameBag(s'.released, pt'.ssem.waiting, s.released, pt.ssem.waiting, t);
      } else {
        Joined(pt.rsem.waiting, [Ticket(pid, p, false, 0, pt.epoch)], t);
      }
      Balance(s, s', p, t, Comes(s, DoReceive(pid, p)), []);
    }
  }

  lemma ResumeTickets(s: Sys, i: nat, t: Ticket)
    requires Inv(s) && Shaped(s) && i < |s.released| && Next(s, DoResume(i)).Ok?
    requires Inv(Next(s, DoResume(i)).s) && Shaped(Next(s, DoResume(i)).s)
    ensures var s' := Next(s, DoResume(i)).s;
            Times(s', t) + multiset(Goes(s, DoResume(i)))[t] == Times(s, t) + multiset(Comes(s, DoResume(i)))[t]
  {
    ResumeExact(s, i);
    hide Inv;
    hide Times;
    var s' := Next(s, DoResume(i)).s;
    hide Next;
    var u := s.released[i];
    var pt, pt' := s.ports[u.port], s'.ports[u.port];
    RemovedTimes(s.released, i, t);
    if !Stale(s, u) {
      if u.sending {
        SameBag(s'.released, pt'.rsem.waiting, RemoveAt(s.released, i), pt.rsem.waiting, t);
      } else {
        SameBag(s'.released, pt'.ssem.waiting, RemoveAt(s.released, i), pt.ssem.waiting, t);
      }
    }
    Balance(s, s', u.port, t, [], [u]);
  }

  lemma CreateTickets(s: Sys, count: int, t: Ticket)
    requires Inv(s) && Shaped(s) && Next(s, DoCreate(count)).Ok?
    requires Inv(Next(s, DoCreate(count)).s) && Shaped(Next(s, DoCreate(count)).s)
    ensures Times(Next(s, DoCreate(count)).s, t) == Times(s, t)
  {
    var p := CreateExact(s, count);
    if p != -1 {
      NobodyWaits(s, p);
      Balance(s, Next(s, DoCreate(count)).s, p, t, [], []);
    }
  }

  lemma NobodyWaits(s: Sys, p: PortId)
    requires Inv(s) && s.ports[p].state == PtFree
    ensures s.ports[p].ssem.waiting == [] && s.ports[p].rsem.waiting == []
  {
    AnyPort(s, p);
  }

  lemma ClearTickets(s: Sys, p: int, keep: bool, t: Ticket)
    requires Inv(s) && Shaped(s) && Inv(ClearStart(s, p, keep))
    ensures Times(ClearStart(s, p, keep), t) == Times(s, t)
  {
    if Good(s, p) {
      var s' := ClearStart(s, p, keep);
      Joined(s.released, s.ports[p].ssem.waiting, t);
      hide Inv;
      Balance(s, s', p, t, [], []);
    }
  }

  lemma ClearOnTickets(s: Sys, p: PortId, t: Ticket)
    requires Inv(s) && Shaped(s) && s.ports[p].state.PtLimbo? && Inv(ClearOn(s, p))
    ensures Times(ClearOn(s, p), t) == Times(s, t)
  {
    var s' := ClearOn(s, p);
    Joined(s.released, s.ports[p].rsem.waiting, t);
    hide Inv;
    Balance(s, s', p, t, [], []);
  }

  lemma Killed(s: Sys, p: PortId, sender: bool, i: nat)
    requires Shaped(s) && i < |(if sender then s.ports[p].ssem else s.ports[p].rsem).waiting|
    ensures var s', pt := KillWaiter(s, p, sender, i), s.ports[p];
            var pt' := s'.ports[p];
            && Elsewhere(s, s', p) && s'.released == s.released
            && (sender ==> pt'.ssem.waiting == RemoveAt(pt.ssem.waiting, i) && pt'.rsem == pt.rsem)
            && (!sender ==> pt'.rsem.waiting == RemoveAt(pt.rsem.waiting, i) && pt'.ssem == pt.ssem)
  {
  }

  lemma KillTickets(s: Sys, p: PortId, sender: bool, i: nat, t: Ticket)
    requires Inv(s) && Shaped(s) && i < |(if sender then s.ports[p].ssem else s.ports[p].rsem).waiting| && Inv(KillWaiter(s, p, sender, i))
    ensures var e := DoKill(p, sender, i);
            Times(KillWaiter(s, p, sender, i), t) + multiset(Goes(s, e))[t] == Times(s, t)
  {
    hide Inv;
    Killed(s, p, sender, i);
    hide KillWaiter;
    var w := if sender then s.ports[p].ssem.waiting else s.ports[p].rsem.waiting;
    RemovedTimes(w, i, t);
    hide RemoveAt;
    hide Times;
    Balance(s, KillWaiter(s, p, sender, i), p, t, [], [w[i]]);
  }

  // ----- whose messages a port carries -----

  /** The message that a step puts into port p: that of the caller, or of a sender that had to wait. */
  function Puts(s: Sys, e: Step, p: PortId): seq<int>
    requires Shaped(s) && Enabled(s, e)
  {
    match e
    case DoSend(pid, q, msg) => if q == p && Good(s, p) && s.ports[p].ssem.cnt > 0 then [msg] else []
    case DoResume(i) =>
      var t := s.released[i];
      if t.port == p && t.sending && !Stale(s, t) then [t.msg] else []
    case _ => []
  }

  lemma StepPuts(s: Sys, e: Step, p: PortId)
    requires Inv(s) && Shaped(s) && Enabled(s, e) && Next(s, e).Ok?
    ensures Shaped(Next(s, e).s)
    ensures var pt, pt' := s.ports[p], Next(s, e).s.ports[p];
            if pt'.epoch == pt.epoch then pt'.sent == pt.sent + Puts(s, e, p) else pt'.sent == [] && Puts(s, e, p) == []
  {
    hide Inv;
    hide Next;
    match e
    case DoSend(pid, q, msg) => SendExact(s, pid, q, msg);
    case DoReceive(pid, q) => ReceiveExact(s, pid, q);
    case DoResume(i) => ResumeExact(s, i);
    case DoCreate(count) => var q := CreateExact(s, count);
    case _ => OthersPut(s, e, p);
  }

  lemma OthersPut(s: Sys, e: Step, p: PortId)
    requires Shaped(s) && Enabled(s, e) && (e.DoClear? || e.DoClearOn? || e.DoKill?)
    ensures Next(s, e).Ok? && Shaped(Next(s, e).s)
    ensures var pt, pt' := s.ports[p], Next(s, e).s.ports[p];
            if pt'.epoch == pt.epoch then pt'.sent == pt.sent else pt'.sent == []
  {
  }

  ghost predicate Steps(ss: seq<Sys>, es: seq<Step>) {
    && |ss| == |es| + 1 && (forall i :: 0 <= i < |ss| ==> Shaped(ss[i]))
    && forall i :: 0 <= i < |es| ==> Enabled(ss[i], es[i])
  }

  /** The messages of the sends that were completed on p since its sequence number last changed. */
  ghost function Completed(ss: seq<Sys>, es: seq<Step>, n: nat, p: PortId): seq<int>
    requires n < |ss| && Steps(ss, es)
  {
    assert Shaped(ss[n]) && (n > 0 ==> Shaped(ss[n - 1]));
    if n == 0 then []
    else if ss[n].ports[p].epoch != ss[n - 1].ports[p].epoch then []
    else Completed(ss, es, n - 1, p) + Puts(ss[n - 1], es[n - 1], p)
  }

  lemma RunShaped(ss: seq<Sys>, es: seq<Step>)
    requires Run(ss, es)
    ensures Steps(ss, es)
  {
    hide Inv;
    forall i | 0 <= i < |ss|
      ensures Shaped(ss[i])
    {
      RunKeepsInv(ss, es, i);
      InvShaped(ss[i]);
    }
  }

  /** In every state of every run a port has carried, in order, exactly the messages of the sends completed on
      it, and what was received is the beginning of them. */
  lemma {:induction false} CarriesWhatWasSent(ss: seq<Sys>, es: seq<Step>, n: nat, p: PortId)
    requires Run(ss, es) && n < |ss|
    ensures Steps(ss, es) && Shaped(ss[n])
    ensures var pt := ss[n].ports[p]; pt.sent == Completed(ss, es, n, p) && pt.got + pt.queue == Completed(ss, es, n, p)
  {
    hide Inv;
    hide Next;
    RunShaped(ss, es);
    RunKeepsInv(ss, es, n);
    PortPromises(ss[n], p);
    if n > 0 {
      CarriesWhatWasSent(ss, es, n - 1, p);
      RunKeepsInv(ss, es, n - 1);
      assert Next(ss[n - 1], es[n - 1]) == Ok(ss[n - 1 + 1]);
      StepPuts(ss[n - 1], es[n - 1], p);
    }
  }

  /** And whoever waits or has been released came with a call of his own: nobody else's message is sent. */
  lemma {:induction false} TicketHasCall(ss: seq<Sys>, es: seq<Step>, n: nat, t: Ticket) returns (k: nat)
    requires Run(ss, es) && n < |ss| && Shaped(ss[n]) && Times(ss[n], t) > 0
    ensures k < n && es[k] == if t.sending then DoSend(t.pid, t.port, t.msg) else DoReceive(t.pid, t.port)
  {
    hide Inv;
    hide Next;
    RunShaped(ss, es);
    if n > 0 {
      RunKeepsInv(ss, es, n - 1);
      assert Next(ss[n - 1], es[n - 1]) == Ok(ss[n - 1 + 1]);
      TicketsKept(ss[n - 1], es[n - 1], t);
      if Times(ss[n - 1], t) > 0 {
        k := TicketHasCall(ss, es, n - 1, t);
      } else {
        k := n - 1;
      }
    }
  }
}
