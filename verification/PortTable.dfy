/** The port table in place: queues of linked nodes from one pool (psend, preceive, _ptclear, pcreate, pinit). */
module PortTable {
  import opened Ports

  const NIL := -1
  const FREE := NPORTS     // the free list comes after the ports' own

  datatype PtNode = PtNode(msg: int, next: int)

  datatype Pt = Pt(state: PtState, ssem: Sema, rsem: Sema, maxcnt: int, epoch: int, head: int, tail: int)

  // ----- chains of nodes -----

  /** The node behind place i of a chain. */
  function After(c: seq<int>, i: nat): int { if i + 1 < |c| then c[i + 1] else NIL }

  ghost predicate Linked(nodes: seq<PtNode>, c: seq<int>) {
    forall i :: 0 <= i < |c| ==> 0 <= c[i] < |nodes| && nodes[c[i]].next == After(c, i)
  }

  /** No node is on two chains, or twice on one. */
  ghost predicate Apart(chains: seq<seq<int>>) {
    forall k, l, i, j ::
      0 <= k < |chains| && 0 <= l < |chains| && 0 <= i < |chains[k]| && 0 <= j < |chains[l]| ==>
        (chains[k][i] == chains[l][j] ==> k == l && i == j)
  }

  ghost predicate Chained(nodes: seq<PtNode>, chains: seq<seq<int>>) {
    |chains| == NPORTS + 1 && Apart(chains) && forall k :: 0 <= k < |chains| ==> Linked(nodes, chains[k])
  }

  function First(c: seq<int>): int { if c == [] then NIL else c[0] }
  function Last(c: seq<int>): int { if c == [] then NIL else c[|c| - 1] }

  function Msgs(nodes: seq<PtNode>, c: seq<int>): (m: seq<int>)
    requires forall i :: 0 <= i < |c| ==> 0 <= c[i] < |nodes|
    ensures |m| == |c|
  {
    seq(|c|, i requires 0 <= i < |c| => nodes[c[i]].msg)
  }

  /** The nodes after one from the free list has been linked at the tail of chain p. */
  function LinkNodes(nodes: seq<PtNode>, n: int, tail: int, msg: int): (r: seq<PtNode>)
    requires 0 <= n < |nodes| && tail < |nodes|
    ensures |r| == |nodes|
  {
    var r := nodes[n := PtNode(msg, NIL)];
    if tail < 0 then r else r[tail := r[tail].(next := n)]
  }

  /** Nodes that a chain does not visit may change. */
  lemma SameChain(nodes: seq<PtNode>, nodes': seq<PtNode>, c: seq<int>)
    requires Linked(nodes, c) && |nodes'| == |nodes|
    requires forall i :: 0 <= i < |c| ==> nodes'[c[i]] == nodes[c[i]]
    ensures Linked(nodes', c) && Msgs(nodes', c) == Msgs(nodes, c)
  {
  }

  lemma LinkTail(nodes: seq<PtNode>, c: seq<int>, n: int, msg: int)
    requires Linked(nodes, c) && 0 <= n < |nodes| && n !in c
    requires forall i, j :: 0 <= i < j < |c| ==> c[i] != c[j]
    ensures Last(c) < |nodes|
    ensures var nodes' := LinkNodes(nodes, n, Last(c), msg);
            Linked(nodes', c + [n]) && Msgs(nodes', c + [n]) == Msgs(nodes, c) + [msg]
  {
    var nodes' := LinkNodes(nodes, n, Last(c), msg);
    forall i | 0 <= i < |c| - 1
      ensures nodes'[c[i]] == nodes[c[i]]
    {
      assert c[i] != c[|c| - 1];
    }
  }

  lemma LinkChains(nodes: seq<PtNode>, chains: seq<seq<int>>, p: PortId, msg: int)
    requires Chained(nodes, chains) && chains[FREE] != []
    ensures Last(chains[p]) < |nodes|
    ensures var n := chains[FREE][0];
            var nodes' := LinkNodes(nodes, n, Last(chains[p]), msg);
            var chains' := chains[p := chains[p] + [n]][FREE := chains[FREE][1..]];
            && Chained(nodes', chains')
            && Msgs(nodes', chains'[p]) == Msgs(nodes, chains[p]) + [msg]
            && forall k :: 0 <= k < NPORTS && k != p ==> Msgs(nodes', chains[k]) == Msgs(nodes, chains[k])
  {
    var n, c, f := chains[FREE][0], chains[p], chains[FREE];
    var nodes' := LinkNodes(nodes, n, Last(c), msg);
    var chains' := chains[p := c + [n]][FREE := f[1..]];
    LinkTail(nodes, c, n, msg);
    forall k | 0 <= k <= NPORTS && k != p && k != FREE
      ensures Linked(nodes', chains[k]) && Msgs(nodes', chains[k]) == Msgs(nodes, chains[k])
    {
      SameChain(nodes, nodes', chains[k]);
    }
    LinkedRest(nodes, f);
    SameChain(nodes, nodes', f[1..]);
    LinkedApart(chains, p);
  }

  lemma LinkedRest(nodes: seq<PtNode>, c: seq<int>)
    requires Linked(nodes, c) && c != []
    ensures Linked(nodes, c[1..])
  {
    var r := c[1..];
    forall i | 0 <= i < |r|
      ensures 0 <= r[i] < |nodes| && nodes[r[i]].next == After(r, i)
    {
      assert r[i] == c[i + 1] && After(r, i) == After(c, i + 1);
    }
  }

  lemma LinkedApart(chains: seq<seq<int>>, p: PortId)
    requires |chains| == NPORTS + 1 && Apart(chains) && chains[FREE] != []
    ensures Apart(chains[p := chains[p] + [chains[FREE][0]]][FREE := chains[FREE][1..]])
  {
    var chains' := chains[p := chains[p] + [chains[FREE][0]]][FREE := chains[FREE][1..]];
    forall k, l, i, j | 0 <= k <= NPORTS && 0 <= l <= NPORTS && 0 <= i < |chains'[k]| && 0 <= j < |chains'[l]|
      ensures chains'[k][i] == chains'[l][j] ==> k == l && i == j
    {
      WhereFrom(chains, p, k, i);
      WhereFrom(chains, p, l, j);
    }
  }

  /** Where a node of the new chains was in the old ones. */
  lemma WhereFrom(chains: seq<seq<int>>, p: PortId, k: int, i: int)
    requires |chains| == NPORTS + 1 && chains[FREE] != []
    requires var chains' := chains[p := chains[p] + [chains[FREE][0]]][FREE := chains[FREE][1..]];
             0 <= k <= NPORTS && 0 <= i < |chains'[k]|
    ensures var chains' := chains[p := chains[p] + [chains[FREE][0]]][FREE := chains[FREE][1..]];
            chains'[k][i] == if k == FREE then chains[FREE][i + 1]
                             else if k == p && i == |chains[p]| then chains[FREE][0]
                             else chains[k][i]
  {
  }

  /** The nodes after the head of a chain has gone to the front of the free list. */
  function UnlinkNodes(nodes: seq<PtNode>, n: int, free: int): (r: seq<PtNode>)
    requires 0 <= n < |nodes|
    ensures |r| == |nodes|
  {
    nodes[n := nodes[n].(next := free)]
  }

  lemma UnlinkChains(nodes: seq<PtNode>, chains: seq<seq<int>>, p: PortId)
    requires Chained(nodes, chains) && chains[p] != []
    ensures 0 <= chains[p][0] < |nodes|
    ensures var c := chains[p];
            var nodes' := UnlinkNodes(nodes, c[0], First(chains[FREE]));
            var chains' := chains[p := c[1..]][FREE := [c[0]] + chains[FREE]];
            && nodes[c[0]].next == First(c[1..])
            && Chained(nodes', chains')
            && Msgs(nodes, c) == [nodes[c[0]].msg] + Msgs(nodes', c[1..])
            && forall k :: 0 <= k < NPORTS && k != p ==> Msgs(nodes', chains[k]) == Msgs(nodes, chains[k])
  {
    var c, f := chains[p], chains[FREE];
    var n := c[0];
    var nodes' := UnlinkNodes(nodes, n, First(f));
    var chains' := chains[p := c[1..]][FREE := [n] + f];
    forall k | 0 <= k <= NPORTS && k != p
      ensures Linked(nodes', chains[k]) && Msgs(nodes', chains[k]) == Msgs(nodes, chains[k])
    {
      SameChain(nodes, nodes', chains[k]);
    }
    LinkedRest(nodes, c);
    MsgsRest(nodes, c);
    SameChain(nodes, nodes', c[1..]);
    FreeFront(nodes', f, n);
    UnlinkedApart(chains, p);
  }

  lemma MsgsRest(nodes: seq<PtNode>, c: seq<int>)
    requires Linked(nodes, c) && c != []
    ensures Linked(nodes, c[1..]) && Msgs(nodes, c) == [nodes[c[0]].msg] + Msgs(nodes, c[1..])
  {
    LinkedRest(nodes, c);
    var m := [nodes[c[0]].msg] + Msgs(nodes, c[1..]);
    forall i | 0 <= i < |c|
      ensures Msgs(nodes, c)[i] == m[i]
    {
      if i > 0 {
        assert c[1..][i - 1] == c[i];
      }
    }
  }

  lemma FreeFront(nodes: seq<PtNode>, f: seq<int>, n: int)
    requires Linked(nodes, f) && 0 <= n < |nodes| && nodes[n].next == First(f)
    ensures Linked(nodes, [n] + f)
  {
    var r := [n] + f;
    forall i | 0 <= i < |r|
      ensures 0 <= r[i] < |nodes| && nodes[r[i]].next == After(r, i)
    {
      assert After(r, i) == if i == 0 then First(f) else After(f, i - 1);
      if i > 0 {
        assert r[i] == f[i - 1];
      }
    }
  }

  lemma UnlinkedApart(chains: seq<seq<int>>, p: PortId)
    requires |chains| == NPORTS + 1 && Apart(chains) && chains[p] != []
    ensures Apart(chains[p := chains[p][1..]][FREE := [chains[p][0]] + chains[FREE]])
  {
    var chains' := chains[p := chains[p][1..]][FREE := [chains[p][0]] + chains[FREE]];
    forall k, i | 0 <= k <= NPORTS && 0 <= i < |chains'[k]|
      ensures chains'[k][i] == if k == p then chains[p][i + 1]
                               else if k == FREE then if i == 0 then chains[p][0] else chains[FREE][i - 1]
                               else chains[k][i]
    {
    }
    forall k, l, i, j | 0 <= k <= NPORTS && 0 <= l <= NPORTS && 0 <= i < |chains'[k]| && 0 <= j < |chains'[l]|
      ensures chains'[k][i] == chains'[l][j] ==> k == l && i == j
    {
    }
  }

  /** The nodes after a whole chain has gone to the front of the free list. */
  function SpliceNodes(nodes: seq<PtNode>, tail: int, free: int): (r: seq<PtNode>)
    requires tail < |nodes|
    ensures |r| == |nodes|
  {
    if tail < 0 then nodes else nodes[tail := nodes[tail].(next := free)]
  }

  lemma SpliceChains(nodes: seq<PtNode>, chains: seq<seq<int>>, p: PortId)
    requires Chained(nodes, chains)
    ensures Last(chains[p]) < |nodes|
    ensures var nodes' := SpliceNodes(nodes, Last(chains[p]), First(chains[FREE]));
            var chains' := chains[p := []][FREE := chains[p] + chains[FREE]];
            && Chained(nodes', chains')
            && forall k :: 0 <= k < NPORTS && k != p ==> Msgs(nodes', chains[k]) == Msgs(nodes, chains[k])
  {
    var c, f := chains[p], chains[FREE];
    assert Last(c) < |nodes|;
    var nodes' := SpliceNodes(nodes, Last(c), First(f));
    var chains' := chains[p := []][FREE := c + f];
    forall k | 0 <= k <= NPORTS && k != p
      ensures Linked(nodes', chains[k]) && Msgs(nodes', chains[k]) == Msgs(nodes, chains[k])
    {
      SameChain(nodes, nodes', chains[k]);
    }
    SplicedLinks(nodes, c, f);
    SplicedApart(chains, p);
  }

  lemma SplicedLinks(nodes: seq<PtNode>, c: seq<int>, f: seq<int>)
    requires Linked(nodes, c) && Linked(nodes, f)
    requires forall i, j :: 0 <= i < j < |c| ==> c[i] != c[j]
    requires forall i :: 0 <= i < |c| ==> c[i] !in f
    ensures Last(c) < |nodes| && Linked(SpliceNodes(nodes, Last(c), First(f)), c + f)
  {
    var nodes' := SpliceNodes(nodes, Last(c), First(f));
    var r := c + f;
    forall i | 0 <= i < |r|
      ensures 0 <= r[i] < |nodes'| && nodes'[r[i]].next == After(r, i)
    {
      if i < |c| {
        assert r[i] == c[i] && After(r, i) == if i + 1 < |c| then After(c, i) else First(f);
      } else {
        assert r[i] == f[i - |c|] && After(r, i) == After(f, i - |c|);
      }
    }
  }

  lemma SplicedApart(chains: seq<seq<int>>, p: PortId)
    requires |chains| == NPORTS + 1 && Apart(chains)
    ensures Apart(chains[p := []][FREE := chains[p] + chains[FREE]])
  {
    var chains' := chains[p := []][FREE := chains[p] + chains[FREE]];
    forall k, i | 0 <= k <= NPORTS && 0 <= i < |chains'[k]|
      ensures chains'[k][i] == if k != FREE then chains[k][i]
                                         else if i < |chains[p]| then chains[p][i] else chains[FREE][i - |chains[p]|]
    {
    }
    forall k, l, i, j | 0 <= k <= NPORTS && 0 <= l <= NPORTS && 0 <= i < |chains'[k]| && 0 <= j < |chains'[l]|
      ensures chains'[k][i] == chains'[l][j] ==> k == l && i == j
    {
    }
  }

  // ----- the table -----

  class PortTab {
    const nodes: array<PtNode>
    const ports: array<Pt>
    var ptfree: int
    var ptnextp: PortId
    ghost var sys: Sys
    ghost var chains: seq<seq<int>>

    /** The table entry of a port and its chain of nodes say what the abstract port says. */
    ghost predicate PortOk(p: PortId)
      reads this, nodes, ports
      requires ports.Length == NPORTS && Shaped(sys) && Chained(nodes[..], chains)
    {
      var pt, a := ports[p], sys.ports[p];
      && pt.state == a.state && pt.ssem == a.ssem && pt.rsem == a.rsem && pt.maxcnt == a.maxcnt && pt.epoch == a.epoch
      && a.queue == Msgs(nodes[..], chains[p])
      && (pt.state == PtAlloc || (pt.state.PtLimbo? && pt.state.keep) ==>
            pt.head == First(chains[p]) && pt.tail == Last(chains[p]))
    }

    ghost predicate Valid()
      reads this, nodes, ports
    {
      && nodes.Length == MAXMSGS && ports.Length == NPORTS && Shaped(sys) && Chained(nodes[..], chains)
      && ptfree == First(chains[FREE]) && sys.free == |chains[FREE]| && ptnextp == sys.nextp
      && forall p: PortId :: PortOk(p)
    }

    /** pinit */
    constructor ()
      ensures Valid() && Init(sys) && fresh(nodes) && fresh(ports)
    {
      var ns := new PtNode[MAXMSGS](_ => PtNode(0, 0));
      nodes := ns;
      ports := new Pt[NPORTS](_ => Pt(PtFree, Sema(0, []), Sema(0, []), 0, 0, NIL, NIL));
      ptfree, ptnextp := 0, NPORTS - 1;
      sys := Sys(seq(NPORTS, _ => Port(PtFree, Sema(0, []), Sema(0, []), 0, 0, [], [], [])), MAXMSGS, NPORTS - 1, []);
      chains := seq(NPORTS, _ => []) + [seq(MAXMSGS, i => i)];
      new;
      hide Linked;
      hide Apart;
      LinkFree(nodes);
      AllFree(nodes[..], chains);
      assert Chained(nodes[..], chains);
      hide Chained;
      ChainCount(nodes[..], chains);
      forall p: PortId
        ensures PortOk(p)
      {
        assert chains[p] == [] && sys.ports[p].queue == [];
      }
    }

    /** The middle of psend: a free node takes the message and goes to the tail of the port's queue, and a
        receiver is told. */
    method LinkNode(p: PortId, msg: int)
      requires Valid() && sys.ports[p].state == PtAlloc && sys.free > 0
      modifies this`ptfree, this`sys, this`chains, nodes, ports
      ensures Valid() && sys == Link(old(sys), p, msg)
    {
      hide Linked;
      hide Apart;
      ghost var ns, f, c := nodes[..], chains[FREE], chains[p];
      LinkChains(ns, chains, p, msg);
      HeadLinks(ns, f);
      LastLinks(ns, c);
      assert PortOk(p);
      var freenode, pt := ptfree, ports[p];
      ptfree := nodes[freenode].next;
      nodes[freenode] := PtNode(msg, NIL);
      if pt.tail == NIL {
        pt := pt.(head := freenode, tail := freenode);
      } else {
        nodes[pt.tail] := nodes[pt.tail].(next := freenode);
        pt := pt.(tail := freenode);
      }
      ports[p] := pt.(rsem := Signalled(pt.rsem).0);
      assert nodes[..] == LinkNodes(ns, freenode, Last(c), msg);
      sys := Link(sys, p, msg);
      chains := chains[p := c + [freenode]][FREE := f[1..]];
      assert Chained(nodes[..], chains);
      OthersOk(p);
    }

    /** The middle of preceive: the head of the queue goes back to the pool, and a sender is told. */
    method UnlinkNode(p: PortId) returns (msg: int)
      requires Valid() && sys.ports[p].state == PtAlloc && sys.ports[p].queue != []
      modifies this`ptfree, this`sys, this`chains, nodes, ports
      ensures Valid() && sys == Unlink(old(sys), p) && msg == old(sys).ports[p].queue[0]
    {
      hide Linked;
      hide Apart;
      ghost var ns, f, c := nodes[..], chains[FREE], chains[p];
      assert PortOk(p) && c != [];
      UnlinkChains(ns, chains, p);
      OnlyOne(chains, p);
      var pt := ports[p];
      var nxtnode := pt.head;
      msg := nodes[nxtnode].msg;
      if pt.head == pt.tail {
        pt := pt.(head := NIL, tail := NIL);
      } else {
        pt := pt.(head := nodes[nxtnode].next);
      }
      nodes[nxtnode] := nodes[nxtnode].(next := ptfree);
      ptfree := nxtnode;
      ports[p] := pt.(ssem := Signalled(pt.ssem).0);
      assert nodes[..] == UnlinkNodes(ns, nxtnode, First(f));
      sys := Unlink(sys, p);
      chains := chains[p := c[1..]][FREE := [nxtnode] + f];
      assert Chained(nodes[..], chains);
      OthersOk(p);
    }

    /** psend up to its end, or to where it blocks; out of nodes is a panic. */
    method Send(pid: nat, portid: int, msg: int) returns (ok: bool, panic: bool)
      requires Valid() && Inv(sys)
      modifies this`ptfree, this`sys, this`chains, nodes, ports
      ensures PSend(old(sys), pid, portid, msg) == if panic then Panic else Ok(sys)
      ensures !panic ==> Valid() && Inv(sys)
      ensures ok == (0 <= portid < NPORTS && old(sys).ports[portid].state == PtAlloc)
    {
      hide Chained;
      hide Ports.Inv;
      PSendInv(sys, pid, portid, msg);
      ok, panic := false, false;
      if portid < 0 || portid >= NPORTS {
        return;
      }
      assert PortOk(portid);
      var pt := ports[portid];
      if pt.state != PtAlloc {
        return;
      }
      ok := true;
      if pt.ssem.cnt - 1 < 0 {
        SetSema(portid, true, Blocked(pt.ssem, Ticket(pid, portid, true, msg, pt.epoch)));
        return;
      }
      SetSema(portid, true, pt.ssem.(cnt := pt.ssem.cnt - 1));
      if ptfree == NIL {
        NoneFree();
        panic := true;
        return;
      }
      SomeFree();
      LinkNode(portid, msg);
    }

    lemma NoneFree()
      requires Valid() && ptfree == NIL
      ensures sys.free == 0
    {
      if chains[FREE] != [] {
        HeadLinks(nodes[..], chains[FREE]);
      }
    }

    lemma SomeFree()
      requires Valid() && ptfree != NIL
      ensures sys.free > 0
    {
    }

    /** The port's semaphore changes, and nothing else. */
    method SetSema(p: PortId, sender: bool, m: Sema)
      requires Valid()
      modifies this`sys, ports
      ensures Valid()
      ensures var pt := old(sys).ports[p];
              sys == SetPort(old(sys), p, if sender then pt.(ssem := m) else pt.(rsem := m))
    {
      hide Chained;
      assert PortOk(p);
      ports[p] := if sender then ports[p].(ssem := m) else ports[p].(rsem := m);
      var pt := sys.ports[p];
      sys := SetPort(sys, p, if sender then pt.(ssem := m) else pt.(rsem := m));
      OthersOk(p);
    }

    method Receive(pid: nat, portid: int) returns (ok: bool, blocked: bool, msg: int)
      requires Valid() && Inv(sys)
      modifies this`ptfree, this`sys, this`chains, nodes, ports
      ensures Valid() && Inv(sys) && PReceive(old(sys), pid, portid) == Ok(sys)
      ensures ok == (0 <= portid < NPORTS && old(sys).ports[portid].state == PtAlloc)
      ensures ok ==> blocked == (old(sys).ports[portid].rsem.cnt <= 0)
      ensures ok && !blocked ==> old(sys).ports[portid].queue != [] && msg == old(sys).ports[portid].queue[0]
    {
      hide Chained;
      hide Ports.Inv;
      PReceiveInv(sys, pid, portid);
      ok, blocked, msg := false, false, 0;
      if portid < 0 || portid >= NPORTS {
        return;
      }
      assert PortOk(portid);
      var pt := ports[portid];
      if pt.state != PtAlloc {
        return;
      }
      ok := true;
      if pt.rsem.cnt - 1 < 0 {
        SetSema(portid, false, Blocked(pt.rsem, Ticket(pid, portid, false, 0, pt.epoch)));
        blocked := true;
        return;
      }
      SetSema(portid, false, pt.rsem.(cnt := pt.rsem.cnt - 1));
      msg := UnlinkNode(portid);
    }

    /** The rest of psend, when the process that is i-th among the released runs. */
    method SendRest(portid: PortId, msg: int, seqno: int, ghost i: nat) returns (ok: bool, panic: bool)
      requires Valid() && Inv(sys) && i < |sys.released|
      requires sys.released[i] == Ticket(sys.released[i].pid, portid, true, msg, seqno)
      modifies this`ptfree, this`sys, this`chains, nodes, ports
      ensures Resume(old(sys), i) == if panic then Panic else Ok(sys)
      ensures !panic ==> Valid() && Inv(sys)
      ensures ok == !Stale(old(sys), old(sys).released[i])
    {
      hide Chained;
      hide Ports.Inv;
      hide RemoveAt;
      ResumeInv(sys, i);
      assert PortOk(portid);
      panic := false;
      ok := ports[portid].state == PtAlloc && ports[portid].epoch == seqno;
      TakeTicket(i);
      if !ok {
        return;
      }
      if ptfree == NIL {
        NoneFree();
        panic := true;
        return;
      }
      SomeFree();
      LinkNode(portid, msg);
    }

    method ReceiveRest(portid: PortId, seqno: int, ghost i: nat) returns (ok: bool, msg: int)
      requires Valid() && Inv(sys) && i < |sys.released|
      requires sys.released[i] == Ticket(sys.released[i].pid, portid, false, sys.released[i].msg, seqno)
      modifies this`ptfree, this`sys, this`chains, nodes, ports
      ensures Valid() && Inv(sys) && Resume(old(sys), i) == Ok(sys)
      ensures ok == !Stale(old(sys), old(sys).released[i])
      ensures ok ==> old(sys).ports[portid].queue != [] && msg == old(sys).ports[portid].queue[0]
    {
      hide Chained;
      hide Ports.Inv;
      hide RemoveAt;
      ResumeInv(sys, i);
      assert PortOk(portid);
      ok := ports[portid].state == PtAlloc && ports[portid].epoch == seqno;
      msg := 0;
      TakeTicket(i);
      if ok {
        msg := UnlinkNode(portid);
      }
    }

    method Create(count: int) returns (portid: int)
      requires Valid() && Inv(sys)
      modifies this`ptnextp, this`sys, this`chains, ports
      ensures Valid() && sys == PCreate(old(sys), count) && Inv(sys)
      ensures portid < 0 <==> count < 0 || forall p: PortId :: old(sys).ports[p].state != PtFree
    {
      hide Chained;
      hide Ports.Inv;
      PCreateInv(sys, count);
      if count < 0 {
        return -1;
      }
      SearchExact(sys.ports, sys.nextp);
      ghost var s0 := sys;
      portid := NextPort();
      NextpInv(s0, ptnextp);
      if portid >= 0 {
        Allocate(portid, count);
      }
    }

    /** The search of pcreate; it leaves the search point behind the port it stops at. */
    method NextPort() returns (p: int)
      requires Valid()
      modifies this`ptnextp, this`sys
      ensures Valid() && (p, ptnextp) == SearchPort(old(sys).ports, old(ptnextp), NPORTS)
      ensures sys == old(sys).(nextp := ptnextp)
    {
      hide Chained;
      ghost var start := ptnextp;
      var next: PortId := ptnextp;
      var i := 0;
      p := -1;
      while i < NPORTS
        invariant 0 <= i <= NPORTS && p == -1
        invariant SearchPort(sys.ports, start, NPORTS) == SearchPort(sys.ports, next, NPORTS - i)
      {
        var here: PortId := next;
        next := if next <= 0 then NPORTS - 1 else next - 1;
        assert PortOk(here);
        if ports[here].state == PtFree {
          p := here;
          break;
        }
        i := i + 1;
      }
      SetNext(next);
    }

    method SetNext(next: PortId)
      requires Valid()
      modifies this`ptnextp, this`sys
      ensures Valid() && ptnextp == next && sys == old(sys).(nextp := next)
    {
      hide Chained;
      ptnextp := next;
      sys := sys.(nextp := next);
      forall q: PortId
        ensures PortOk(q)
      {
        assert old(PortOk(q));
      }
    }

    method Allocate(p: PortId, count: nat)
      requires Valid() && Inv(sys) && sys.ports[p].state == PtFree
      modifies this`sys, this`chains, ports
      ensures Valid()
      ensures sys == SetPort(old(sys), p, Port(PtAlloc, Sema(count, []), Sema(0, []), count, old(sys).ports[p].epoch + 1, [], [], []))
    {
      hide Chained;
      assert PortOk(p);
      AnyPort(sys, p);
      ChainCount(nodes[..], chains);
      assert sys.ports[p].queue == [] && chains[p] == [];
      ports[p] := Pt(PtAlloc, Sema(count, []), Sema(0, []), count, ports[p].epoch + 1, NIL, NIL);
      sys := SetPort(sys, p, Port(PtAlloc, Sema(count, []), Sema(0, []), count, sys.ports[p].epoch + 1, [], [], []));
      OthersOk(p);
    }

    /** pdelete or preset, and in it _ptclear, up to and with the release of the senders; disposed are the
        messages handed to the disposal function, in order. */
    method Clear(portid: int, keep: bool) returns (ok: bool, disposed: seq<int>)
      requires Valid() && Inv(sys)
      modifies this`ptfree, this`sys, this`chains, nodes, ports
      ensures Valid() && sys == ClearStart(old(sys), portid, keep) && Inv(sys)
      ensures ok == (0 <= portid < NPORTS && old(sys).ports[portid].state == PtAlloc)
      ensures ok ==> disposed == old(sys).ports[portid].queue
    {
      hide Linked;
      hide Apart;
      hide Ports.Inv;
      ClearStartInv(sys, portid, keep);
      ok, disposed := false, [];
      if portid < 0 || portid >= NPORTS {
        return;
      }
      assert PortOk(portid);
      var pt := ports[portid];
      if pt.state != PtAlloc {
        return;
      }
      ok := true;
      ghost var ns, f, c := nodes[..], chains[FREE], chains[portid];
      SpliceChains(ns, chains, portid);
      LastLinks(ns, c);
      FirstSpliced(c, f);
      if pt.head != NIL {
        disposed := Messages(portid);
        nodes[pt.tail] := nodes[pt.tail].(next := ptfree);
        ptfree := pt.head;
      }
      assert nodes[..] == SpliceNodes(ns, Last(c), First(f));
      if keep {
        pt := pt.(head := NIL, tail := NIL);
      }
      ports[portid] := pt.(state := PtLimbo(1, keep), epoch := pt.epoch + 1, ssem := Sema(pt.maxcnt, []));
      sys := ClearStart(sys, portid, keep);
      chains := chains[portid := []][FREE := c + f];
      assert Chained(nodes[..], chains);
      OthersOk(portid);
    }

    /** The disposal loop of _ptclear. */
    method Messages(p: PortId) returns (m: seq<int>)
      requires Valid() && sys.ports[p].state == PtAlloc
      ensures m == sys.ports[p].queue
    {
      ghost var c, i := chains[p], 0;
      assert PortOk(p);
      m := [];
      var at := ports[p].head;
      LastLinks(nodes[..], c);
      while at != NIL
        invariant 0 <= i <= |c| && at == (if i < |c| then c[i] else NIL)
        invariant m == Msgs(nodes[..], c)[..i]
        decreases |c| - i
      {
        InChain(nodes[..], c, i);
        m := m + [nodes[at].msg];
        at := nodes[at].next;
        i := i + 1;
      }
    }

    /** The rest of _ptclear, in its two rounds. */
    method ClearRest(p: PortId)
      requires Valid() && Inv(sys) && sys.ports[p].state.PtLimbo?
      modifies this`sys, ports
      ensures Valid() && sys == ClearOn(old(sys), p) && Inv(sys)
    {
      hide Chained;
      hide Ports.Inv;
      ClearOnInv(sys, p);
      assert PortOk(p) && ports[p].state == sys.ports[p].state;
      var st := ports[p].state;
      if st.round == 1 {
        ports[p] := ports[p].(state := PtLimbo(2, st.keep), rsem := Sema(0, []));
      } else {
        ports[p] := ports[p].(state := if st.keep then PtAlloc else PtFree);
      }
      sys := ClearOn(sys, p);
      OthersOk(p);
    }

    /** The i-th released process runs. */
    ghost method TakeTicket(i: nat)
      requires Valid() && i < |sys.released|
      modifies this`sys
      ensures Valid() && sys == old(sys).(released := RemoveAt(old(sys).released, i))
    {
      hide Chained;
      sys := sys.(released := RemoveAt(sys.released, i));
      forall q: PortId
        ensures PortOk(q)
      {
        assert old(PortOk(q));
      }
    }

    /** An entry that was right stays so while neither it nor its port nor the messages on its chain change. */
    twostate lemma OthersOk(p: PortId)
      requires old(Valid()) && nodes.Length == MAXMSGS && ports.Length == NPORTS && Shaped(sys) && Chained(nodes[..], chains)
      requires forall q: PortId :: q != p ==>
                 ports[q] == old(ports[q]) && sys.ports[q] == old(sys.ports[q]) && chains[q] == old(chains[q])
      requires forall k :: 0 <= k < NPORTS && k != p ==> Msgs(nodes[..], chains[k]) == old(Msgs(nodes[..], chains[k]))
      ensures forall q: PortId :: q != p ==> PortOk(q)
    {
      forall q: PortId | q != p
        ensures PortOk(q)
      {
        assert old(PortOk(q));
      }
    }
  }

  /** The loop of pinit over the pool. */
  method LinkFree(nodes: array<PtNode>)
    requires nodes.Length == MAXMSGS
    modifies nodes
    ensures forall j :: 0 <= j < MAXMSGS ==> nodes[j].next == if j < MAXMSGS - 1 then j + 1 else NIL
  {
    var i := 0;
    while i < MAXMSGS - 1
      invariant 0 <= i < MAXMSGS
      invariant forall j :: 0 <= j < i ==> nodes[j].next == j + 1
    {
      nodes[i] := nodes[i].(next := i + 1);
      i := i + 1;
    }
    nodes[i] := nodes[i].(next := NIL);
  }

  lemma HeadLinks(nodes: seq<PtNode>, f: seq<int>)
    requires Linked(nodes, f) && f != []
    ensures 0 <= f[0] < |nodes| && nodes[f[0]].next == First(f[1..])
  {
    assert nodes[f[0]].next == After(f, 0);
  }

  lemma LastLinks(nodes: seq<PtNode>, c: seq<int>)
    requires Linked(nodes, c)
    ensures if c == [] then First(c) == Last(c) == NIL else 0 <= First(c) < |nodes| && 0 <= Last(c) < |nodes|
  {
  }

  lemma ChainCount(nodes: seq<PtNode>, chains: seq<seq<int>>)
    requires Chained(nodes, chains)
    ensures |chains| == NPORTS + 1
  {
  }

  lemma OnlyOne(chains: seq<seq<int>>, p: PortId)
    requires |chains| == NPORTS + 1 && Apart(chains) && chains[p] != []
    ensures First(chains[p]) == Last(chains[p]) <==> chains[p][1..] == []
    ensures Last(chains[p]) == if chains[p][1..] == [] then First(chains[p]) else Last(chains[p][1..])
  {
  }

  lemma FirstSpliced(c: seq<int>, f: seq<int>)
    ensures First(c + f) == if c == [] then First(f) else First(c)
  {
  }

  lemma InChain(nodes: seq<PtNode>, c: seq<int>, i: nat)
    requires Linked(nodes, c) && i < |c|
    ensures 0 <= c[i] < |nodes| && c[i] != NIL && nodes[c[i]].next == After(c, i)
    ensures Msgs(nodes, c)[..i] + [nodes[c[i]].msg] == Msgs(nodes, c)[..i + 1]
  {
  }

  lemma AllFree(nodes: seq<PtNode>, chains: seq<seq<int>>)
    requires |nodes| == MAXMSGS && chains == seq(NPORTS, _ => []) + [seq(MAXMSGS, i => i)]
    requires forall j :: 0 <= j < MAXMSGS ==> nodes[j].next == if j < MAXMSGS - 1 then j + 1 else NIL
    ensures Chained(nodes, chains) && First(chains[FREE]) == 0 && |chains[FREE]| == MAXMSGS
    ensures forall k :: 0 <= k < NPORTS ==> chains[k] == []
  {
  }
}
