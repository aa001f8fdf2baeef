/** The print spooler's memory (spool_connect, spool_write, spool_disconnect, the despooler's loop): jobs as
    chains of data nodes from one pool. */
module Spool {
  import opened Ring

  const SZDATA := 1024
  const NUMDNODES := 1024

  type Nid = n: int | 0 <= n < NUMDNODES

  /** in_jobid is 0 on the free list; in_len is the length of buf. */
  datatype DNode = DNode(jobid: int, full: bool, end: bool, buf: seq<Byte>)

  const Cleared := DNode(0, false, false, [])

  /** The chain goes from qj_iptr to qj_fillp; qj_len counts what was written, printed or not. */
  datatype Job = Job(len: int, chain: seq<Nid>)

  datatype Spool = Spool(nodes: seq<DNode>, free: seq<Nid>, jobs: map<int, Job>, used: int)

  predicate Shaped(s: Spool) { |s.nodes| == NUMDNODES }

  /** A job that can be written to: it has not been disconnected. */
  predicate Open(s: Spool, key: int)
    requires Shaped(s)
  {
    key != 0 && key in s.jobs && (s.jobs[key].chain == [] || !s.nodes[Last(s.jobs[key].chain)].end)
  }

  /** A job whose last node is marked as its end. */
  predicate Ended(s: Spool, key: int)
    requires Shaped(s)
  {
    key in s.jobs && s.jobs[key].chain != [] && s.nodes[Last(s.jobs[key].chain)].end
  }

  function Last(c: seq<Nid>): Nid
    requires c != []
  {
    c[|c| - 1]
  }

  // ----- operations -----

  /** spool_getdnode, and linking the node at the end of the job. */
  function GetNode(s: Spool, key: int): (r: Spool)
    requires Shaped(s) && Open(s, key) && s.free != []
    ensures Shaped(r) && Open(r, key)
  {
    var n, job := s.free[0], s.jobs[key];
    s.(nodes := s.nodes[n := DNode(key, false, false, [])], free := s.free[1..],
       jobs := s.jobs[key := job.(chain := job.chain + [n])], used := s.used + SZDATA)
  }

  /** One turn of the copy loop, into the node being filled. */
  function Fill(s: Spool, key: int, data: seq<Byte>): (r: Spool)
    requires Shaped(s) && Open(s, key) && s.jobs[key].chain != []
    ensures Shaped(r) && Open(r, key)
  {
    var job := s.jobs[key];
    var n := Last(job.chain);
    var buf := s.nodes[n].buf + data;
    s.(nodes := s.nodes[n := s.nodes[n].(buf := buf, full := s.nodes[n].full || |buf| == SZDATA)],
       jobs := s.jobs[key := job.(len := job.len + |data|)])
  }

  function Room(s: Spool, key: int): int
    requires Shaped(s) && key in s.jobs && s.jobs[key].chain != []
  {
    SZDATA - |s.nodes[Last(s.jobs[key].chain)].buf|
  }

  datatype Outcome = Done(s: Spool) | Waits(s: Spool, rest: seq<Byte>)

  function Rest(r: Outcome): seq<Byte> { if r.Done? then [] else r.rest }

  /** The loop of spool_write; Waits is where it sleeps until a node is free, with the rest still to write. */
  function FillAll(s: Spool, key: int, data: seq<Byte>): (r: Outcome)
    requires Shaped(s) && Open(s, key) && s.jobs[key].chain != []
    requires Room(s, key) >= 0 && (data == [] || Room(s, key) > 0)
    ensures Shaped(r.s) && Open(r.s, key)
    decreases |data|
  {
    if |data| <= Room(s, key) then Done(Fill(s, key, data))
    else
      var s1, rest := Fill(s, key, data[..Room(s, key)]), data[Room(s, key)..];
      if s.free == [] then Waits(s1, rest) else FillAll(GetNode(s1, key), key, rest)
  }

  predicate NeedsNode(s: Spool, key: int)
    requires Shaped(s) && key in s.jobs
  {
    s.jobs[key].chain == [] || s.nodes[Last(s.jobs[key].chain)].full
  }

  /** Every node is on the free list, and then cleared, or in a job; and the bytes in use are those of the nodes
      not free. */
  ghost predicate PoolOk(s: Spool) {
    && Shaped(s)
    && s.used == SZDATA * (NUMDNODES - |s.free|) && 0 !in s.jobs
    && (forall i, j :: 0 <= i < j < |s.free| ==> s.free[i] != s.free[j])
    && (forall n: Nid :: s.nodes[n].jobid == 0 <==> n in s.free)
    && (forall n: Nid :: s.nodes[n].jobid == 0 ==> s.nodes[n] == Cleared)
    && (forall n: Nid :: s.nodes[n].jobid != 0 ==> s.nodes[n].jobid in s.jobs)
  }

  ghost predicate Valid(s: Spool) {
    PoolOk(s) && forall k :: k in s.jobs ==> JobOk(s, k)
  }

  ghost predicate Owned(nodes: seq<DNode>, c: seq<Nid>, k: int)
    requires |nodes| == NUMDNODES
  {
    && (forall i, j :: 0 <= i < j < |c| ==> c[i] != c[j])
    && forall n: Nid :: n in c <==> nodes[n].jobid == k
  }

  predicate NodeOk(n: DNode) { |n.buf| <= SZDATA && (n.full <==> |n.buf| == SZDATA) }

  ghost predicate Packed(nodes: seq<DNode>, c: seq<Nid>)
    requires |nodes| == NUMDNODES
  {
    && (forall i :: 0 <= i < |c| ==> NodeOk(nodes[c[i]]))
    && forall i :: 0 <= i < |c| - 1 ==> nodes[c[i]].full && !nodes[c[i]].end
  }

  /** The job's nodes are exactly those that bear its number, each once; all but the last are full and not
      marked as the end. */
  ghost predicate JobOk(s: Spool, k: int)
    requires Shaped(s) && k in s.jobs
  {
    var c := s.jobs[k].chain;
    Owned(s.nodes, c, k) && Packed(s.nodes, c)
  }

  function Bytes(nodes: seq<DNode>, c: seq<Nid>): seq<Byte>
    requires |nodes| == NUMDNODES
  {
    if c == [] then [] else Bytes(nodes, c[..|c| - 1]) + nodes[Last(c)].buf
  }

  /** What has been written to the job and not yet been printed. */
  function Contents(s: Spool, k: int): seq<Byte>
    requires Shaped(s) && k in s.jobs
  {
    Bytes(s.nodes, s.jobs[k].chain)
  }

  function Write(s: Spool, key: int, data: seq<Byte>): (r: Outcome)
    requires Valid(s) && Shaped(s) && Open(s, key)
    ensures Shaped(r.s) && Open(r.s, key)
  {
    if !NeedsNode(s, key) then LastHasRoom(s, key); FillAll(s, key, data)
    else if s.free == [] then Waits(s, data)
    else FillAll(GetNode(s, key), key, data)
  }

  lemma ValidShaped(s: Spool)
    requires Valid(s)
    ensures Shaped(s)
  {
  }

  lemma LastHasRoom(s: Spool, key: int)
    requires Valid(s) && key in s.jobs && s.jobs[key].chain != []
    ensures 0 <= Room(s, key) && (Room(s, key) == 0 <==> s.nodes[Last(s.jobs[key].chain)].full)
  {
    var c := s.jobs[key].chain;
    assert JobOk(s, key) && c[|c| - 1] == Last(c);
  }

  // ----- what every operation keeps -----

  lemma {:induction false} BytesSame(nodes: seq<DNode>, nodes': seq<DNode>, c: seq<Nid>)
    requires |nodes| == |nodes'| == NUMDNODES && forall n :: n in c ==> nodes'[n].buf == nodes[n].buf
    ensures Bytes(nodes', c) == Bytes(nodes, c)
  {
    if c != [] {
      BytesSame(nodes, nodes', c[..|c| - 1]);
    }
  }

  /** A job that is left alone. */
  ghost predicate JobSame(s: Spool, s': Spool, k: int) {
    && Shaped(s) && Shaped(s') && k in s.jobs && k in s'.jobs && s'.jobs[k] == s.jobs[k]
    && forall n :: n in s.jobs[k].chain ==> s'.nodes[n] == s.nodes[n]
  }

  lemma SameJob(s: Spool, s': Spool, k: int)
    requires JobSame(s, s', k)
    ensures Contents(s', k) == Contents(s, k) && (Ended(s', k) <==> Ended(s, k)) && (Open(s', k) <==> Open(s, k))
    ensures NeedsNode(s', k) <==> NeedsNode(s, k)
  {
    BytesSame(s.nodes, s'.nodes, s.jobs[k].chain);
    if s.jobs[k].chain != [] {
      assert Last(s.jobs[k].chain) in s.jobs[k].chain;
    }
  }

  /** A job that neither gains nor loses nodes nor has one changed stays as it is. */
  lemma OtherJob(s: Spool, s': Spool, k: int)
    requires Shaped(s) && Shaped(s') && k in s.jobs && k in s'.jobs && JobOk(s, k) && s'.jobs[k] == s.jobs[k]
    requires forall n: Nid :: s.nodes[n].jobid == k || s'.nodes[n].jobid == k ==> s'.nodes[n] == s.nodes[n]
    ensures JobOk(s', k) && JobSame(s, s', k)
  {
    BytesSame(s.nodes, s'.nodes, s.jobs[k].chain);
  }

  lemma GetNodeValid(s: Spool, key: int)
    requires Valid(s) && Shaped(s) && Open(s, key) && s.free != [] && NeedsNode(s, key)
    ensures Wrote(s, key, [], Done(GetNode(s, key))) && Room(GetNode(s, key), key) == SZDATA
  {
    var r, n := GetNode(s, key), s.free[0];
    assert JobOk(s, key) && n in s.free;
    GetNodePool(s, key);
    assert 0 !in s.jobs && forall m: Nid :: r.nodes[m] == if m == n then DNode(key, false, false, []) else s.nodes[m];
    hide PoolOk;
    hide Owned;
    hide Packed;
    hide Bytes;
    GotJob(s, key);
    forall k | k in s.jobs && k != key
      ensures JobOk(r, k) && JobSame(s, r, k)
    {
      OtherJob(s, r, k);
    }
    hide JobOk;
    LastOfJob(s.jobs[key].chain, n);
    NothingMore(Contents(s, key));
  }

  lemma NothingMore(a: seq<Byte>)
    ensures a + [] == a
  {
  }

  lemma GetNodePool(s: Spool, key: int)
    requires PoolOk(s) && Shaped(s) && Open(s, key) && s.free != []
    ensures PoolOk(GetNode(s, key)) && s.nodes[s.free[0]].jobid == 0
  {
    FreeTail(s.free);
    var n := s.free[0];
    assert n in s.free;
    assert forall m: Nid :: GetNode(s, key).nodes[m].jobid == if m == n then key else s.nodes[m].jobid;
  }

  lemma LastOfJob(c: seq<Nid>, n: Nid)
    ensures Last(c + [n]) == n
  {
  }

  lemma FreeTail(f: seq<Nid>)
    requires f != [] && forall i, j :: 0 <= i < j < |f| ==> f[i] != f[j]
    ensures forall m :: m in f[1..] <==> m in f && m != f[0]
    ensures forall i, j :: 0 <= i < j < |f[1..]| ==> f[1..][i] != f[1..][j]
  {
    assert f == [f[0]] + f[1..];
  }

  lemma GotJob(s: Spool, key: int)
    requires Shaped(s) && Open(s, key) && s.free != [] && JobOk(s, key) && NeedsNode(s, key) && s.nodes[s.free[0]].jobid == 0
    ensures JobOk(GetNode(s, key), key) && Contents(GetNode(s, key), key) == Contents(s, key)
  {
    var r, n := GetNode(s, key), s.free[0];
    var c := s.jobs[key].chain;
    assert n !in c;
    OwnedMore(s.nodes, c, key, n);
    PackedMore(s.nodes, c, n, DNode(key, false, false, []));
    hide Owned;
    hide Packed;
    BytesSame(s.nodes, r.nodes, c);
    assert (c + [n])[..|c|] == c && Bytes(s.nodes, c) + [] == Bytes(s.nodes, c);
  }

  lemma OwnedMore(nodes: seq<DNode>, c: seq<Nid>, k: int, n: Nid)
    requires |nodes| == NUMDNODES && Owned(nodes, c, k) && n !in c
    ensures Owned(nodes[n := DNode(k, false, false, [])], c + [n], k)
  {
  }

  lemma PackedMore(nodes: seq<DNode>, c: seq<Nid>, n: Nid, x: DNode)
    requires |nodes| == NUMDNODES && Packed(nodes, c) && n !in c && NodeOk(x)
    requires c == [] || (nodes[Last(c)].full && !nodes[Last(c)].end)
    ensures Packed(nodes[n := x], c + [n])
  {
    var nodes', c' := nodes[n := x], c + [n];
    forall i | 0 <= i < |c|
      ensures nodes'[c'[i]] == nodes[c[i]] && nodes[c[i]].full && !nodes[c[i]].end
    {
      assert i < |c| - 1 ==> nodes[c[i]].full && !nodes[c[i]].end;
    }
  }

  /** What a write amounts to when it has got to r: so much of the data is in the job, the rest is still to
      be written and waits for a node, and the other jobs are left alone. */
  ghost predicate Wrote(s: Spool, key: int, data: seq<Byte>, r: Outcome)
    requires Shaped(s) && key in s.jobs
  {
    && Valid(r.s) && Shaped(r.s) && Open(r.s, key) && r.s.jobs.Keys == s.jobs.Keys
    && Contents(r.s, key) + Rest(r) == Contents(s, key) + data
    && r.s.jobs[key].len + |Rest(r)| == s.jobs[key].len + |data|
    && (forall k :: k in s.jobs && k != key ==> JobSame(s, r.s, k))
    && (r.Done? ==> r.s.jobs[key].chain != [])
    && (r.Waits? ==> r.s.free == [] && NeedsNode(r.s, key))
  }

  lemma WroteOn(s: Spool, key: int, a: seq<Byte>, s1: Spool, b: seq<Byte>, r: Outcome)
    requires Shaped(s) && key in s.jobs && Wrote(s, key, a, Done(s1)) && Wrote(s1, key, b, r)
    ensures Wrote(s, key, a + b, r)
  {
    hide Valid;
    hide Contents;
    NothingMore(Contents(s1, key));
    assert Contents(s, key) + (a + b) == Contents(s, key) + a + b;
    forall k | k in s.jobs && k != key
      ensures JobSame(s, r.s, k)
    {
      assert JobSame(s, s1, k) && JobSame(s1, r.s, k);
    }
  }

  lemma FillValid(s: Spool, key: int, data: seq<Byte>)
    requires Valid(s) && Shaped(s) && Open(s, key) && s.jobs[key].chain != [] && |data| <= Room(s, key)
    ensures Wrote(s, key, data, Done(Fill(s, key, data))) && Room(Fill(s, key, data), key) == Room(s, key) - |data|
  {
    var r := Fill(s, key, data);
    assert JobOk(s, key);
    FilledJob(s, key, data);
    forall k | k in s.jobs && k != key
      ensures JobOk(r, k) && JobSame(s, r, k)
    {
      OtherJob(s, r, k);
    }
    hide JobOk;
    NothingMore(Contents(r, key));
  }

  /** A write that finds the node full and none free stops there. */
  lemma StopsAtFull(s: Spool, key: int, data: seq<Byte>, m: nat)
    requires Valid(s) && Shaped(s) && Open(s, key) && s.jobs[key].chain != [] && m == Room(s, key) < |data| && s.free == []
    ensures Wrote(s, key, data, Waits(Fill(s, key, data[..m]), data[m..]))
  {
    hide Valid;
    hide Contents;
    var s1 := Fill(s, key, data[..m]);
    FillValid(s, key, data[..m]);
    LastHasRoom(s1, key);
    NothingMore(Contents(s1, key));
    assert Contents(s, key) + data[..m] + data[m..] == Contents(s, key) + data;
  }

  lemma FilledJob(s: Spool, key: int, data: seq<Byte>)
    requires Shaped(s) && Open(s, key) && s.jobs[key].chain != [] && |data| <= Room(s, key) && JobOk(s, key)
    ensures JobOk(Fill(s, key, data), key) && Contents(Fill(s, key, data), key) == Contents(s, key) + data
    ensures s.nodes[Last(s.jobs[key].chain)].jobid == key
  {
    var r, c := Fill(s, key, data), s.jobs[key].chain;
    var n := Last(c);
    assert c[|c| - 1] == n && n in c;
    forall i | 0 <= i < |c| - 1
      ensures c[i] != n
    {
    }
    assert n !in c[..|c| - 1];
    BytesSame(s.nodes, r.nodes, c[..|c| - 1]);
    assert Bytes(s.nodes, c[..|c| - 1]) + (s.nodes[n].buf + data) == Bytes(s.nodes, c[..|c| - 1]) + s.nodes[n].buf + data;
  }

  /** From the full node on, in a new one. */
  lemma GoesOn(s: Spool, key: int, data: seq<Byte>, m: nat)
    requires Valid(s) && Shaped(s) && Open(s, key) && s.jobs[key].chain != [] && m == Room(s, key) < |data| && s.free != []
    ensures var s1 := Fill(s, key, data[..m]); s1.free != [] && Wrote(s, key, data[..m], Done(GetNode(s1, key))) && Room(GetNode(s1, key), key) == SZDATA
  {
    hide Valid;
    hide Contents;
    hide Wrote;
    var s1 := Fill(s, key, data[..m]);
    FillValid(s, key, data[..m]);
    WroteFacts(s, key, data[..m], s1);
    LastHasRoom(s1, key);
    GetNodeValid(s1, key);
    WroteOn(s, key, data[..m], s1, [], Done(GetNode(s1, key)));
    NothingMore(data[..m]);
  }

  lemma WroteFacts(s: Spool, key: int, data: seq<Byte>, s1: Spool)
    requires Shaped(s) && key in s.jobs && Wrote(s, key, data, Done(s1))
    ensures Valid(s1) && Shaped(s1) && Open(s1, key) && s1.jobs[key].chain != []
  {
  }

  lemma {:induction false} FillAllExact(s: Spool, key: int, data: seq<Byte>)
    requires Valid(s) && Shaped(s) && Open(s, key) && s.jobs[key].chain != []
    requires Room(s, key) >= 0 && (data == [] || Room(s, key) > 0)
    ensures Wrote(s, key, data, FillAll(s, key, data))
    decreases |data|
  {
    hide Valid;
    hide Contents;
    hide Wrote;
    hide GetNode;
    hide Fill;
    var m := Room(s, key);
    if |data| <= m {
      FillValid(s, key, data);
    } else if s.free == [] {
      StopsAtFull(s, key, data, m);
    } else {
      GoesOn(s, key, data, m);
      var s2 := GetNode(Fill(s, key, data[..m]), key);
      WroteFacts(s, key, data[..m], s2);
      FillAllExact(s2, key, data[m..]);
      WroteOn(s, key, data[..m], s2, data[m..], FillAll(s2, key, data[m..]));
      assert data[..m] + data[m..] == data;
    }
  }

  /** However data is split over calls of spool_write, the job's nodes hold exactly what was written, all
      but the last full; nothing else changes. A call that has to wait for a node has the rest of its data
      still to write, and goes on as a write of that rest would. */
  lemma WriteExact(s: Spool, key: int, data: seq<Byte>)
    requires Valid(s) && Shaped(s) && Open(s, key)
    ensures Wrote(s, key, data, Write(s, key, data))
  {
    hide Valid;
    hide FillAll;
    hide Wrote;
    if !NeedsNode(s, key) {
      LastHasRoom(s, key);
      FillAllExact(s, key, data);
    } else if s.free == [] {
      NothingWritten(s, key, data);
    } else {
      GetNodeValid(s, key);
      var s1 := GetNode(s, key);
      WroteFacts(s, key, [], s1);
      FillAllExact(s1, key, data);
      WroteOn(s, key, [], s1, data, FillAll(s1, key, data));
      assert [] + data == data;
    }
  }

  lemma FirstBlock(s: Spool, key: int, data: seq<Byte>)
    requires Valid(s) && Shaped(s) && Open(s, key) && s.jobs[key].chain == [] && s.free != [] && |data| == SZDATA
    ensures var r := Write(s, key, data);
            r.Done? && r.s.jobs[key].chain == [s.free[0]] && r.s.nodes[s.free[0]].full && !r.s.nodes[s.free[0]].end
  {
    var s1 := GetNode(s, key);
    assert Last(s1.jobs[key].chain) == s.free[0];
    assert FillAll(s1, key, data) == Done(Fill(s1, key, data));
  }

  lemma NothingWritten(s: Spool, key: int, data: seq<Byte>)
    requires Valid(s) && Shaped(s) && Open(s, key) && NeedsNode(s, key) && s.free == []
    ensures Wrote(s, key, data, Waits(s, data))
  {
  }

  // ----- the beginning and the end of a job -----

  function Connect(s: Spool, key: int): Spool { s.(jobs := s.jobs[key := Job(0, [])]) }

  lemma ConnectValid(s: Spool, key: int)
    requires Valid(s) && key != 0 && key !in s.jobs
    ensures Valid(Connect(s, key)) && Contents(Connect(s, key), key) == [] && Open(Connect(s, key), key)
    ensures forall k :: k in s.jobs ==> JobSame(s, Connect(s, key), k)
  {
    var r := Connect(s, key);
    forall k | k in s.jobs
      ensures JobOk(r, k) && JobSame(s, r, k)
    {
      OtherJob(s, r, k);
    }
    assert JobOk(r, key);
    hide JobOk;
  }

  datatype Marked = Marked(s: Spool) | NullNode

  /** spool_disconnect marks the node being filled. */
  function Disconnect(s: Spool, key: int): (r: Marked)
    requires Shaped(s)
    ensures r.Marked? ==> Shaped(r.s)
  {
    if key !in s.jobs then Marked(s)
    else if s.jobs[key].chain == [] then NullNode
    else
      var n := Last(s.jobs[key].chain);
      Marked(s.(nodes := s.nodes[n := s.nodes[n].(end := true)]))
  }

  lemma DisconnectValid(s: Spool, key: int)
    requires Valid(s) && key in s.jobs && s.jobs[key].chain != []
    ensures Disconnect(s, key).Marked?
    ensures var r := Disconnect(s, key).s;
            Valid(r) && Ended(r, key) && r.jobs == s.jobs && r.free == s.free && Contents(r, key) == Contents(s, key)
    ensures forall k :: k in s.jobs && k != key ==> JobSame(s, Disconnect(s, key).s, k)
  {
    var c := s.jobs[key].chain;
    var r, n := Disconnect(s, key).s, Last(c);
    assert JobOk(s, key) && c[|c| - 1] == n && n in c;
    BytesSame(s.nodes, r.nodes, c);
    assert Packed(r.nodes, c);
    assert JobOk(r, key);
    hide Packed;
    hide Owned;
    forall k | k in s.jobs && k != key
      ensures JobOk(r, k) && JobSame(s, r, k)
    {
      OtherJob(s, r, k);
    }
  }

  /** spool_retdnode, and the job without it. */
  function Return(s: Spool, key: int): (r: Spool)
    requires Shaped(s) && key in s.jobs && s.jobs[key].chain != []
    ensures Shaped(r)
  {
    var job := s.jobs[key];
    var n := job.chain[0];
    s.(nodes := s.nodes[n := Cleared], free := s.free + [n], jobs := s.jobs[key := job.(chain := job.chain[1..])],
       used := s.used - SZDATA)
  }

  /** spool_retqjob */
  function Remove(s: Spool, key: int): Spool { s.(jobs := s.jobs - {key}) }

  datatype Taken = Took(s: Spool, out: seq<Byte>) | Filling | NoNext

  /** One turn of the despooler's loop over the nodes of a job; it waits while the first node is filling. */
  function Take(s: Spool, key: int): (r: Taken)
    requires Shaped(s) && key in s.jobs && s.jobs[key].chain != []
    ensures r.Took? ==> Shaped(r.s)
  {
    var c := s.jobs[key].chain;
    var x := s.nodes[c[0]];
    if x.end then Took(Remove(Return(s, key), key), x.buf)
    else if !x.full then Filling
    else if |c| == 1 then NoNext
    else Took(Return(s, key), x.buf)
  }

  lemma ReturnValid(s: Spool, key: int)
    requires Valid(s) && key in s.jobs && s.jobs[key].chain != []
    ensures var r, c := Return(s, key), s.jobs[key].chain;
            Valid(r) && Contents(s, key) == s.nodes[c[0]].buf + Contents(r, key) && LostFirst(s, r, key)
    ensures forall k :: k in s.jobs && k != key ==> JobSame(s, Return(s, key), k)
  {
    var r, c := Return(s, key), s.jobs[key].chain;
    assert JobOk(s, key) && c[0] in c;
    ReturnPool(s, key);
    ReturnJob(s, key);
    hide PoolOk;
    hide Packed;
    hide Owned;
    forall k | k in s.jobs && k != key
      ensures JobOk(r, k) && JobSame(s, r, k)
    {
      OtherJob(s, r, k);
    }
    hide JobOk;
  }

  /** The job loses its first node; the others are as they were. */
  ghost predicate LostFirst(s: Spool, r: Spool, key: int) {
    && Shaped(s) && Shaped(r) && key in s.jobs && key in r.jobs && s.jobs[key].chain != []
    && r.jobs[key].chain == s.jobs[key].chain[1..] && r.jobs[key].len == s.jobs[key].len
    && forall n :: n in r.jobs[key].chain ==> r.nodes[n] == s.nodes[n]
  }

  lemma ReturnPool(s: Spool, key: int)
    requires PoolOk(s) && key in s.jobs && s.jobs[key].chain != [] && s.nodes[s.jobs[key].chain[0]].jobid == key
    ensures PoolOk(Return(s, key))
  {
    var n := s.jobs[key].chain[0];
    var r := Return(s, key);
    assert n !in s.free;
    forall i, j | 0 <= i < j < |r.free|
      ensures r.free[i] != r.free[j]
    {
      assert i < |s.free| && s.free[i] in s.free;
    }
    forall m: Nid
      ensures m in r.free <==> m in s.free || m == n
      ensures r.nodes[m].jobid == if m == n then 0 else s.nodes[m].jobid
    {
    }
  }

  lemma ReturnJob(s: Spool, key: int)
    requires Shaped(s) && key in s.jobs && s.jobs[key].chain != [] && JobOk(s, key) && key != 0
    ensures var r, c := Return(s, key), s.jobs[key].chain;
            JobOk(r, key) && Contents(s, key) == s.nodes[c[0]].buf + Contents(r, key) && LostFirst(s, r, key)
  {
    var r, c := Return(s, key), s.jobs[key].chain;
    var d := c[1..];
    OwnedLess(s.nodes, c, key);
    PackedLess(s.nodes, c);
    hide Packed;
    BytesFront(s.nodes, c);
    hide Bytes;
    assert c[0] !in d;
    hide Owned;
    BytesSame(s.nodes, r.nodes, d);
  }

  lemma OwnedLess(nodes: seq<DNode>, c: seq<Nid>, k: int)
    requires |nodes| == NUMDNODES && Owned(nodes, c, k) && c != [] && k != 0
    ensures Owned(nodes[c[0] := Cleared], c[1..], k) && c[0] !in c[1..]
  {
    var d := c[1..];
    assert c == [c[0]] + d;
    assert forall i :: 0 <= i < |d| ==> d[i] == c[i + 1];
  }

  lemma PackedLess(nodes: seq<DNode>, c: seq<Nid>)
    requires |nodes| == NUMDNODES && Packed(nodes, c) && c != [] && c[0] !in c[1..]
    ensures Packed(nodes[c[0] := Cleared], c[1..])
  {
    var nodes', d := nodes[c[0] := Cleared], c[1..];
    forall i | 0 <= i < |d|
      ensures d[i] == c[i + 1] && nodes'[d[i]] == nodes[c[i + 1]]
    {
      assert d[i] in d;
    }
  }

  lemma {:induction false} BytesFront(nodes: seq<DNode>, c: seq<Nid>)
    requires |nodes| == NUMDNODES && c != []
    ensures Bytes(nodes, c) == nodes[c[0]].buf + Bytes(nodes, c[1..])
  {
    var d, e := c[..|c| - 1], c[1..];
    if d == [] {
      assert e == [] && Bytes(nodes, d) == [] == Bytes(nodes, e);
      NothingMore(nodes[c[0]].buf);
    } else {
      BytesFront(nodes, d);
      BytesEnd(nodes, c);
      BytesEnd(nodes, e);
      hide Bytes;
      assert d[1..] == e[..|e| - 1] && Last(e) == Last(c) && d[0] == c[0];
      Assoc(nodes[c[0]].buf, Bytes(nodes, d[1..]), nodes[Last(c)].buf);
    }
  }

  lemma BytesEnd(nodes: seq<DNode>, c: seq<Nid>)
    requires |nodes| == NUMDNODES && c != []
    ensures Bytes(nodes, c) == Bytes(nodes, c[..|c| - 1]) + nodes[Last(c)].buf
  {
  }

  lemma Assoc(a: seq<Byte>, b: seq<Byte>, c: seq<Byte>)
    ensures (a + b) + c == a + (b + c)
  {
  }

  /** A node marked as the end has no successor. */
  lemma EndIsLast(s: Spool, key: int)
    requires Valid(s) && key in s.jobs && s.jobs[key].chain != [] && s.nodes[s.jobs[key].chain[0]].end
    ensures |s.jobs[key].chain| == 1
  {
    assert JobOk(s, key);
  }

  lemma RemoveValid(s: Spool, key: int)
    requires Valid(s) && key in s.jobs && s.jobs[key].chain == []
    ensures Valid(Remove(s, key)) && forall k :: k in s.jobs && k != key ==> JobSame(s, Remove(s, key), k)
  {
    var r := Remove(s, key);
    assert JobOk(s, key);
    assert PoolOk(r) by {
      assert forall n: Nid :: s.nodes[n].jobid == key <==> n in s.jobs[key].chain;
    }
    hide PoolOk;
    hide Packed;
    forall k | k in s.jobs && k != key
      ensures JobOk(r, k) && JobSame(s, r, k)
    {
      OtherJob(s, r, k);
    }
    hide JobOk;
  }

  /** What the despooler takes from a job is the next of its bytes. */
  ghost predicate TookFront(s: Spool, key: int, s': Spool, out: seq<Byte>)
    requires Shaped(s) && key in s.jobs && s.jobs[key].chain != []
  {
    && Valid(s') && Shaped(s') && s'.jobs.Keys == (if key in s'.jobs then s.jobs.Keys else s.jobs.Keys - {key})
    && (forall k :: k in s.jobs && k != key ==> JobSame(s, s', k))
    && Contents(s, key) == out + (if key in s'.jobs then Contents(s', key) else [])
    && (key in s'.jobs ==> s'.jobs[key].chain != [] && LostFirst(s, s', key))
    && (key !in s'.jobs ==> Ended(s, key))
  }

  /** The loop follows a null link exactly when the only node is full and not the end: then the 1024 bytes
      in it are all there is. */
  lemma TakeExact(s: Spool, key: int)
    requires Valid(s) && key in s.jobs && s.jobs[key].chain != []
    ensures Take(s, key).Took? ==> TookFront(s, key, Take(s, key).s, Take(s, key).out)
    ensures Take(s, key).NoNext? <==> |s.jobs[key].chain| == 1 && !Ended(s, key) && |Contents(s, key)| == SZDATA
    ensures Ended(s, key) ==> Take(s, key).Took?
  {
    var c := s.jobs[key].chain;
    var x := s.nodes[c[0]];
    ReturnValid(s, key);
    assert JobOk(s, key) && NodeOk(x) && (|c| > 1 ==> x.full && !x.end);
    if |c| == 1 {
      assert Contents(Return(s, key), key) == [] && Last(c) == c[0];
      RemoveValid(Return(s, key), key);
    }
    hide Valid;
    hide JobOk;
    hide Contents;
    NothingMore(x.buf);
  }

  /** The node being filled is the same until it is taken itself. */
  lemma StillLast(s: Spool, r: Spool, key: int)
    requires LostFirst(s, r, key) && r.jobs[key].chain != []
    ensures (Ended(r, key) <==> Ended(s, key)) && (Open(r, key) <==> Open(s, key)) && (NeedsNode(r, key) <==> NeedsNode(s, key))
  {
    var c := s.jobs[key].chain;
    assert Last(c[1..]) == Last(c) && Last(c[1..]) in c[1..];
  }

  lemma FillingIsLast(s: Spool, key: int)
    requires Valid(s) && Shaped(s) && key in s.jobs && s.jobs[key].chain != [] && Take(s, key).Filling?
    ensures |s.jobs[key].chain| == 1
  {
    assert JobOk(s, key);
  }

  /** A job is given up when it has no node or only one that is filling: nothing of it stays behind. */
  lemma GaveUp(s: Spool, key: int)
    requires Valid(s) && Shaped(s) && key in s.jobs && (s.jobs[key].chain == [] || Take(s, key).Filling?)
    ensures var r := Remove(if s.jobs[key].chain == [] then s else Return(s, key), key);
            Valid(r) && r.jobs.Keys == s.jobs.Keys - {key} && forall k :: k in s.jobs && k != key ==> JobSame(s, r, k)
  {
    var c := s.jobs[key].chain;
    if c == [] {
      RemoveValid(s, key);
    } else {
      ReturnValid(s, key);
      FillingIsLast(s, key);
      RemoveValid(Return(s, key), key);
    }
  }

  // ----- how many nodes a job takes -----

  /** As many nodes as the bytes need, and one more when the last one is empty. */
  lemma {:induction false} PackedSize(nodes: seq<DNode>, c: seq<Nid>)
    requires |nodes| == NUMDNODES && c != [] && Packed(nodes, c)
    ensures |Bytes(nodes, c)| == SZDATA * (|c| - 1) + |nodes[Last(c)].buf|
    ensures |c| == (|Bytes(nodes, c)| + SZDATA - 1) / SZDATA <==> nodes[Last(c)].buf != []
    ensures |c| == |Bytes(nodes, c)| / SZDATA + 1 <==> !nodes[Last(c)].full
  {
    var d := c[..|c| - 1];
    assert NodeOk(nodes[c[|c| - 1]]);
    if d != [] {
      assert nodes[c[|c| - 2]].full && NodeOk(nodes[c[|c| - 2]]);
      assert Packed(nodes, d) by {
        forall i | 0 <= i < |d|
          ensures NodeOk(nodes[d[i]]) && (i < |d| - 1 ==> nodes[d[i]].full && !nodes[d[i]].end)
        {
          assert d[i] == c[i];
        }
      }
      PackedSize(nodes, d);
    }
  }

  // ----- printing a finished job -----

  /** The despooler's loop as long as it neither waits nor ends: what is left and what was printed. */
  function Drain(s: Spool, key: int): (r: (Spool, seq<Byte>))
    requires Shaped(s) && key in s.jobs && s.jobs[key].chain != []
    ensures Shaped(r.0)
    decreases |s.jobs[key].chain|
  {
    match Take(s, key)
    case Took(s1, out) =>
      if key !in s1.jobs then (s1, out)
      else
        var rest := Drain(s1, key);
        (rest.0, out + rest.1)
    case _ => (s, [])
  }

  lemma {:induction false} DrainExact(s: Spool, key: int)
    requires Valid(s) && Shaped(s) && Ended(s, key)
    ensures var r := Drain(s, key).0;
            Valid(r) && r.jobs.Keys == s.jobs.Keys - {key} && r.free == s.free + s.jobs[key].chain
    ensures Drain(s, key).1 == Contents(s, key)
    ensures forall k :: k in s.jobs && k != key ==> JobSame(s, Drain(s, key).0, k)
    decreases |s.jobs[key].chain|
  {
    hide Valid;
    hide Contents;
    TakeExact(s, key);
    var s1, out := Take(s, key).s, Take(s, key).out;
    var c := s.jobs[key].chain;
    TakeFree(s, key);
    if key in s1.jobs {
      assert Ended(s1, key) by {
        assert Last(c[1..]) == Last(c);
      }
      DrainExact(s1, key);
      var r := Drain(s1, key).0;
      forall k | k in s.jobs && k != key
        ensures JobSame(s, r, k)
      {
        assert JobSame(s, s1, k) && JobSame(s1, r, k);
      }
      assert s.free + [c[0]] + c[1..] == s.free + c;
    } else {
      NothingMore(out);
    }
  }

  lemma TakeFree(s: Spool, key: int)
    requires Valid(s) && Shaped(s) && key in s.jobs && s.jobs[key].chain != [] && Take(s, key).Took?
    ensures Take(s, key).s.free == s.free + [s.jobs[key].chain[0]]
    ensures key !in Take(s, key).s.jobs ==> s.jobs[key].chain == [s.jobs[key].chain[0]]
  {
    if s.nodes[s.jobs[key].chain[0]].end {
      EndIsLast(s, key);
    }
  }

  ghost function DrainFrom(s: Spool, key: int, out: seq<Byte>): (Spool, seq<Byte>)
    requires Shaped(s) && key in s.jobs && s.jobs[key].chain != []
  {
    (Drain(s, key).0, out + Drain(s, key).1)
  }

  lemma DrainStart(s: Spool, key: int)
    requires Shaped(s) && key in s.jobs && s.jobs[key].chain != []
    ensures DrainFrom(s, key, []) == Drain(s, key)
  {
    assert [] + Drain(s, key).1 == Drain(s, key).1;
  }

  lemma TakeEnded(s: Spool, key: int)
    requires Valid(s) && Shaped(s) && Ended(s, key) && Take(s, key).Took?
    ensures var s1 := Take(s, key).s; key in s1.jobs ==> Ended(s1, key) && |s1.jobs[key].chain| < |s.jobs[key].chain|
  {
    var c := s.jobs[key].chain;
    hide Valid;
    TakeExact(s, key);
    if key in Take(s, key).s.jobs {
      assert Last(c[1..]) == Last(c);
    }
  }

  lemma DrainStep(s: Spool, key: int, out: seq<Byte>)
    requires Shaped(s) && Ended(s, key) && Take(s, key).Took?
    requires var s1 := Take(s, key).s; key in s1.jobs ==> s1.jobs[key].chain != []
    ensures var t := Take(s, key);
            DrainFrom(s, key, out) == if key in t.s.jobs then DrainFrom(t.s, key, out + t.out) else (t.s, out + t.out)
  {
    var t := Take(s, key);
    hide Take;
    if key in t.s.jobs {
      Assoc(out, t.out, Drain(t.s, key).1);
    }
  }

  // ----- in place -----

  class Spooler {
    const nodes: array<DNode>
    var free: seq<Nid>            // the list from spl_dnode_start to spl_dnode_end
    var jobs: map<int, Job>
    var bytesusd: int

    ghost function Abs(): Spool
      reads this, nodes
    {
      Spool(nodes[..], free, jobs, bytesusd)
    }

    constructor ()
      ensures fresh(nodes) && Valid(Abs()) && jobs == map[] && bytesusd == 0
    {
      nodes := new DNode[NUMDNODES](_ => Cleared);
      free := seq(NUMDNODES, i requires 0 <= i < NUMDNODES => i);
      jobs := map[];
      bytesusd := 0;
      new;
      forall n: Nid
        ensures n in free
      {
        assert free[n] == n;
      }
    }

    /** spool_getdnode when a node is free, and linking it to the job. */
    method GetDNode(key: int) returns (n: Nid)
      requires nodes.Length == NUMDNODES && Open(Abs(), key) && free != []
      modifies this, nodes
      ensures nodes.Length == NUMDNODES && Abs() == GetNode(old(Abs()), key) && n == Last(jobs[key].chain)
    {
      n := free[0];
      free := free[1..];
      nodes[n] := DNode(key, false, false, []);
      bytesusd := bytesusd + SZDATA;
      jobs := jobs[key := jobs[key].(chain := jobs[key].chain + [n])];
    }

    /** Returns false, and what is still to be written, where the original sleeps for want of a free node. */
    method SpoolWrite(key: int, data: seq<Byte>) returns (ok: bool, rest: seq<Byte>)
      requires nodes.Length == NUMDNODES && Valid(Abs()) && Open(Abs(), key)
      modifies this, nodes
      ensures Write(old(Abs()), key, data) == if ok then Done(Abs()) else Waits(Abs(), rest)
      ensures Wrote(old(Abs()), key, data, if ok then Done(Abs()) else Waits(Abs(), rest))
    {
      ghost var s := Abs();
      WriteExact(s, key, data);
      if jobs[key].chain != [] {
        LastHasRoom(s, key);
      }
      hide Valid;
      hide Wrote;
      var n: Nid;
      if jobs[key].chain == [] || nodes[Last(jobs[key].chain)].full {
        if free == [] {
          return false, data;
        }
        n := GetDNode(key);
      } else {
        n := Last(jobs[key].chain);
      }
      ok, rest := CopyLoop(key, n, data);
    }

    method CopyLoop(key: int, first: Nid, data: seq<Byte>) returns (ok: bool, rest: seq<Byte>)
      requires nodes.Length == NUMDNODES && Open(Abs(), key) && jobs[key].chain != [] && first == Last(jobs[key].chain)
      requires Room(Abs(), key) >= 0 && (data == [] || Room(Abs(), key) > 0)
      modifies this, nodes
      ensures FillAll(old(Abs()), key, data) == if ok then Done(Abs()) else Waits(Abs(), rest)
    {
      hide FillAll;
      var n := first;
      rest := data;
      while true
        invariant Open(Abs(), key) && jobs[key].chain != [] && n == Last(jobs[key].chain)
        invariant Room(Abs(), key) >= 0 && (rest == [] || Room(Abs(), key) > 0)
        invariant FillAll(Abs(), key, rest) == FillAll(old(Abs()), key, data)
        decreases |rest|
      {
        FillAllStep(Abs(), key, rest);
        var remain := SZDATA - |nodes[n].buf|;
        var tocopy := if |rest| > remain then remain else |rest|;
        var buf := nodes[n].buf + rest[..tocopy];
        nodes[n] := nodes[n].(buf := buf, full := nodes[n].full || |buf| == SZDATA);
        jobs := jobs[key := jobs[key].(len := jobs[key].len + tocopy)];
        assert tocopy == |rest| ==> rest[..tocopy] == rest;
        if tocopy == |rest| {
          return true, [];
        }
        rest := rest[tocopy..];
        if free == [] {
          return false, rest;
        }
        n := GetDNode(key);
      }
    }

    lemma FillAllStep(s: Spool, key: int, data: seq<Byte>)
      requires Shaped(s) && Open(s, key) && s.jobs[key].chain != []
      requires Room(s, key) >= 0 && (data == [] || Room(s, key) > 0)
      ensures FillAll(s, key, data) ==
              if |data| <= Room(s, key) then Done(Fill(s, key, data))
              else
                var s1, rest := Fill(s, key, data[..Room(s, key)]), data[Room(s, key)..];
                if s.free == [] then Waits(s1, rest) else FillAll(GetNode(s1, key), key, rest)
    {
    }

    /** Returns false where the original follows the null pointer of a job without nodes. */
    method SpoolDisconnect(key: int) returns (ok: bool)
      requires nodes.Length == NUMDNODES
      modifies nodes
      ensures Disconnect(old(Abs()), key) == if ok then Marked(Abs()) else NullNode
    {
      if key !in jobs {
        return true;
      }
      ok := jobs[key].chain != [];
      if ok {
        var n := Last(jobs[key].chain);
        nodes[n] := nodes[n].(end := true);
      }
    }

    /** spool_retdnode */
    method RetDNode(n: Nid)
      requires nodes.Length == NUMDNODES
      modifies this`free, this`bytesusd, nodes
      ensures Abs() == old(Abs()).(nodes := old(nodes[..])[n := Cleared], free := old(free) + [n], used := old(bytesusd) - SZDATA)
    {
      nodes[n] := Cleared;
      free := free + [n];
      bytesusd := bytesusd - SZDATA;
    }

    /** One turn of the despooler's loop, on a node that is full or the end. */
    method TakeNode(key: int) returns (out: seq<Byte>, eof: bool)
      requires nodes.Length == NUMDNODES && key in jobs && jobs[key].chain != [] && Take(Abs(), key).Took?
      modifies this, nodes
      ensures Take(old(Abs()), key) == Took(Abs(), out) && (eof <==> key !in jobs)
    {
      var n := jobs[key].chain[0];
      eof := nodes[n].end;
      out := nodes[n].buf;
      RetDNode(n);
      jobs := jobs[key := jobs[key].(chain := jobs[key].chain[1..])];
      if eof {
        jobs := jobs - {key};
      }
    }

    /** The whole loop over a finished job: what it writes to the device, up to the node with the mark. */
    method Despool(key: int) returns (out: seq<Byte>)
      requires nodes.Length == NUMDNODES && Valid(Abs()) && Ended(Abs(), key)
      modifies this, nodes
      ensures (Abs(), out) == Drain(old(Abs()), key)
      ensures Valid(Abs()) && key !in jobs && free == old(free + jobs[key].chain) && out == old(Contents(Abs(), key))
    {
      hide Valid;
      hide Take;
      hide Drain;
      DrainExact(Abs(), key);
      ghost var d := Drain(Abs(), key);
      DrainStart(Abs(), key);
      ghost var s := Abs();
      out := [];
      var eof := false;
      while !eof
        invariant eof ==> d == (Abs(), out) && key !in jobs
        invariant !eof ==> Valid(Abs()) && Ended(Abs(), key) && d == DrainFrom(Abs(), key, out)
        decreases !eof, if eof then 0 else |jobs[key].chain|
      {
        s := Abs();
        TakeExact(s, key);
        TakeEnded(s, key);
        DrainStep(s, key, out);
        var piece;
        piece, eof := TakeNode(key);
        out := out + piece;
      }
    }
  }
}
