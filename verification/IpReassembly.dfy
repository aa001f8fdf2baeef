/** Reassembly of IP datagrams (ipreass, ipfadd, ipfjoin, ipfcons): what comes out is what was sent. */
module IpReassembly {
  import opened Gpq
  import opened Ring
  import opened IpFragment

  const IP_FQSIZE := 10
  const EP_HLEN := 20
  const MAXLRGBUF := 4096      // the size of a large buffer, with both headers
  const LRGDATA := MAXLRGBUF - EP_HLEN - IPMHLEN

  /** What comes of a fragment: nothing yet, a datagram, or a copy that runs past the end of its buffer. */
  datatype Outcome = Nothing | Out(value: Packet) | Overrun

  datatype FState = Valid | Bogus | Free

  /** One entry of ipfqt, with its queue of fragments in order of falling key. */
  datatype FQ = FQ(state: FState, src: int, id: int, q: seq<Entry<Packet>>)

  // ----- one queue of fragments -----

  function FragEntry(f: Packet): Entry<Packet> { Entry(-(f.fragoff as int), f) }

  /** ipfadd: the queue afterwards, and whether the fragment was taken. */
  function Add(fq: FQ, f: Packet): (FQ, bool) {
    if fq.state != Valid then (fq, false)
    else if |fq.q| >= IP_FQSIZE then (fq.(state := Bogus, q := []), false)
    else (fq.(q := Enq(fq.q, FragEntry(f))), true)
  }

  /** The completeness walk of ipfjoin: no gap, and the end of the last fragment in the queue. */
  function Walk(q: seq<Entry<Packet>>, off: nat): (bool, nat) {
    if q == [] then (true, off)
    else if off < q[0].elt.Start() then (false, off)
    else Walk(q[1..], q[0].elt.End())
  }

  /** The large buffer after one turn of the copy loop of ipfcons; buf is what it holds so far. A fragment
      that ends before buf does takes the end of the datagram back to its own end. */
  function Copied(f: Packet, buf: seq<Byte>): (r: seq<Byte>)
    requires f.Start() <= |buf|
    ensures |r| == f.End()
  {
    if f.End() >= |buf| then buf + f.data[|buf| - f.Start()..] else buf[..f.End()]
  }

  function Assemble(q: seq<Entry<Packet>>, buf: seq<Byte>): seq<Byte>
    requires Walk(q, |buf|).0
  {
    if q == [] then buf
    else
      Assemble(q[1..], Copied(q[0].elt, buf))
  }

  /** Whether the copy loop, which has got to byte at, ever writes past the room for data. */
  predicate Overruns(q: seq<Entry<Packet>>, at: nat) {
    q != [] && ((q[0].elt.End() > at && q[0].elt.End() > LRGDATA) || Overruns(q[1..], q[0].elt.End()))
  }

  /** ipfcons; lrg says whether a large buffer can be had. */
  function Cons(fq: FQ, lrg: bool): (FQ, Outcome)
    requires fq.q != [] && Walk(fq.q, 0).0
  {
    (fq.(state := Free, q := []),
     if !lrg then Nothing
     else if Overruns(fq.q, 0) then Overrun
     else Out(Packet(fq.q[0].elt.hdr, false, false, 0, Assemble(fq.q, []))))
  }

  /** ipfjoin, after a fragment has been added. */
  function Join(fq: FQ, lrg: bool): (FQ, Outcome)
    requires fq.q != []
  {
    if fq.state == Bogus then (fq, Nothing)
    else
      var (whole, off) := Walk(fq.q, 0);
      if !whole then (fq, Nothing)
      else if off > MAXLRGBUF then (fq.(state := Free, q := []), Nothing)
      else if fq.q[|fq.q| - 1].elt.mf then (fq, Nothing)
      else Cons(fq, lrg)
  }

  /** What ipfjoin leaves: the entry is free again, with all buffers given back, when the walk finds no gap and
      either the last fragment is the end of the datagram or there is too much data; otherwise nothing changes. */
  lemma JoinFrees(fq: FQ, lrg: bool)
    requires fq.q != []
    ensures var (fq', r) := Join(fq, lrg);
            var (whole, end) := Walk(fq.q, 0);
            if fq.state != Bogus && whole && (end > MAXLRGBUF || !fq.q[|fq.q| - 1].elt.mf)
            then fq' == FQ(Free, fq.src, fq.id, []) && (end > MAXLRGBUF || !lrg ==> r == Nothing)
            else fq' == fq && r == Nothing
  {
  }

  /** The fragment that finds its queue full loses all of them, and the entry takes no more: nothing comes out
      of it again. */
  lemma {:induction false} TooManyFragments(a: seq<Packet>, src: int, id: int)
    requires |a| > IP_FQSIZE && Takes(a[..IP_FQSIZE], src, id).1 == []
    requires var fq := Takes(a[..IP_FQSIZE], src, id).0; fq.state == Valid && |fq.q| == IP_FQSIZE
    ensures Takes(a, src, id).1 == [] && Takes(a, src, id).0.state == Bogus && Takes(a, src, id).0.q == []
    decreases |a|
  {
    var n := |a| - 1;
    hide Join;
    hide Enq;
    if n > IP_FQSIZE {
      assert a[..n][..IP_FQSIZE] == a[..IP_FQSIZE];
      TooManyFragments(a[..n], src, id);
    }
    OneTooMany(Takes(a[..n], src, id).0, a[n]);
    assert Takes(a, src, id).0 == Take(Takes(a[..n], src, id).0, a[n], true).0;
    hide Take;
  }

  lemma OneTooMany(fq: FQ, f: Packet)
    requires (fq.state == Valid && |fq.q| == IP_FQSIZE) || (fq.state == Bogus && fq.q == [])
    ensures Take(fq, f, true) == (fq.(state := Bogus, q := []), Nothing)
  {
    hide Join;
  }

  // ----- nothing wrong comes out -----

  /** f agrees with datagram d; unlike a piece that ipputp cuts, it may be empty or have MF set too often. */
  predicate Consistent(f: Packet, d: Packet) {
    && Kin(f.hdr, d.hdr) && f.End() <= |d.data| && f.data == d.data[f.Start()..f.End()]
    && (!f.mf ==> f.End() == |d.data|)
  }

  /** p is d, but for the time to live. */
  predicate Like(p: Packet, d: Packet) { Kin(p.hdr, d.hdr) && p == d.(hdr := p.hdr) }

  predicate AllConsistent(q: seq<Entry<Packet>>, d: Packet) {
    forall e :: e in q ==> Consistent(e.elt, d)
  }

  lemma CopyOne(f: Packet, buf: seq<Byte>, d: Packet)
    requires Consistent(f, d) && |buf| <= |d.data| && buf == d.data[..|buf|] && f.Start() <= |buf|
    ensures Copied(f, buf) == d.data[..f.End()]
  {
    var n := |buf|;
    if f.End() >= n {
      SliceOfSlice(d.data, f.Start(), f.End(), n - f.Start(), |f.data|);
      assert f.data[n - f.Start()..] == f.data[n - f.Start()..|f.data|];
      assert d.data[..n] + d.data[n..f.End()] == d.data[..f.End()];
    } else {
      assert d.data[..n][..f.End()] == d.data[..f.End()];
    }
  }

  /** Whatever the fragments, overlapping or contained in each other, the buffer holds the datagram's
      bytes up to the end of the last one. */
  lemma {:induction false} AssembleIsPrefix(q: seq<Entry<Packet>>, buf: seq<Byte>, d: Packet)
    requires Walk(q, |buf|).0 && AllConsistent(q, d) && |buf| <= |d.data| && buf == d.data[..|buf|]
    ensures Walk(q, |buf|).1 <= |d.data| && Assemble(q, buf) == d.data[..Walk(q, |buf|).1]
    ensures q != [] ==> Walk(q, |buf|).1 == q[|q| - 1].elt.End()
  {
    if q != [] {
      var f := q[0].elt;
      assert q[0] in q;
      CopyOne(f, buf, d);
      AssembleIsPrefix(q[1..], d.data[..f.End()], d);
    }
  }

  lemma OneConsistent(q: seq<Entry<Packet>>, i: nat, d: Packet)
    requires AllConsistent(q, d) && i < |q|
    ensures Kin(q[i].elt.hdr, d.hdr) && (!q[i].elt.mf ==> q[i].elt.End() == |d.data|)
  {
    assert q[i] in q;
  }

  lemma WholePrefix(s: seq<Byte>)
    ensures s[..|s|] == s && [] == s[..0]
  {
  }

  /** A datagram that leaves ipfjoin is the one that was sent. */
  lemma JoinSound(fq: FQ, lrg: bool, d: Packet)
    requires fq.q != [] && AllConsistent(fq.q, d) && Datagram(d)
    ensures Join(fq, lrg).1.Out? ==> Like(Join(fq, lrg).1.value, d) && Join(fq, lrg).1.value.hdr == fq.q[0].elt.hdr
    ensures AllConsistent(Join(fq, lrg).0.q, d)
  {
    hide Assemble;
    hide Walk;
    hide Overruns;
    hide AllConsistent;
    OneConsistent(fq.q, 0, d);
    OneConsistent(fq.q, |fq.q| - 1, d);
    NoneYet(d);
    WholePrefix(d.data);
    if Walk(fq.q, 0).0 {
      AssembleIsPrefix(fq.q, [], d);
    }
  }

  // ----- the room in the large buffer -----

  /** A queue that ipfcons copies stays within its buffer if and only if every fragment ends within the room
      for data; the test of ipfjoin only looks at the last one, and leaves no room for the headers. */
  lemma {:induction false} OverrunsIff(q: seq<Entry<Packet>>, at: nat)
    requires at <= LRGDATA
    ensures Overruns(q, at) <==> exists e :: e in q && e.elt.End() > LRGDATA
  {
    if q != [] {
      assert q[0] in q && q == [q[0]] + q[1..];
      if q[0].elt.End() <= LRGDATA {
        OverrunsIff(q[1..], q[0].elt.End());
      }
    }
  }

  /** So it is for the whole of ipfjoin: a queue that it accepts is copied past the end of the buffer if and
      only if it has a fragment that ends beyond the room. */
  lemma JoinOverrunsIff(fq: FQ)
    requires fq.q != []
    ensures Join(fq, true).1 == Overrun <==>
            && fq.state != Bogus && Walk(fq.q, 0).0 && Walk(fq.q, 0).1 <= MAXLRGBUF && !fq.q[|fq.q| - 1].elt.mf
            && exists e :: e in fq.q && e.elt.End() > LRGDATA
  {
    OverrunsIff(fq.q, 0);
  }

  /** Three fragments, as an Ethernet makes them of 4064 bytes, that ipfjoin accepts. */
  lemma EthernetOverrun() returns (fq: FQ, d: Packet)
    ensures Datagram(d) && |d.data| == 4064 && AllConsistent(fq.q, d) && Sorted(fq.q)
    ensures forall e :: e in fq.q ==> e.elt.Len() <= 1500
    ensures fq.q != [] && Join(fq, true).1 == Overrun
  {
    d := Packet(Header(0, 0, 0, 0, 0, 0), false, false, 0, seq(4064, _ => 0));
    var a := d.(mf := true, data := d.data[0..1480]);
    var b := d.(mf := true, fragoff := 185, data := d.data[1480..2960]);
    var c := d.(fragoff := 370, data := d.data[2960..4064]);
    fq := FQ(Valid, 0, 0, [FragEntry(a), FragEntry(b), FragEntry(c)]);
    WalkIff(fq.q, 0);
    assert fq.q[2].elt == c && fq.q[1].elt == b && fq.q[0].elt == a;
    WalkEnd(fq.q, 0);
    assert FragEntry(c) in fq.q && c.End() == 4064;
    JoinOverrunsIff(fq);
  }

  lemma {:induction false} WalkEnd(q: seq<Entry<Packet>>, off: nat)
    requires Walk(q, off).0
    ensures Walk(q, off).1 == if q == [] then off else q[|q| - 1].elt.End()
  {
    if q != [] {
      WalkEnd(q[1..], q[0].elt.End());
    }
  }

  lemma AddKeeps(fq: FQ, f: Packet, d: Packet)
    requires AllConsistent(fq.q, d) && Consistent(f, d)
    ensures AllConsistent(Add(fq, f).0.q, d) && (Add(fq, f).1 ==> Add(fq, f).0.q != [] && Add(fq, f).0.state == Valid)
    ensures Add(fq, f).0.src == fq.src && Add(fq, f).0.id == fq.id
    ensures fq.state != Free ==> Add(fq, f).0.state != Free
  {
    EnqKeepsEntries(fq.q, FragEntry(f));
  }

  // ----- what was cut comes back together -----

  predicate AllOf(q: seq<Entry<Packet>>, fs: seq<Packet>) {
    forall f :: f in fs ==> FragEntry(f) in q
  }

  predicate OnlyOf(q: seq<Entry<Packet>>, fs: seq<Packet>) {
    forall e :: e in q ==> e.elt in fs && e == FragEntry(e.elt)
  }

  lemma {:induction false} ChainStarts(fs: seq<Packet>, d: Packet, a: nat, b: nat)
    requires Chain(fs, d, a, b)
    ensures a <= b && (fs != [] ==> a < b)
    ensures forall f :: f in fs ==> PieceOf(f, d) && a <= f.Start() && f.End() <= b
  {
    if fs != [] {
      ChainStarts(fs[1..], d, fs[0].End(), b);
    }
  }

  /** The walk has just passed piece x, which ends where the chain fs begins; the rest of the queue holds
      only copies of x and pieces of fs. It ends at the end of the datagram if and only if they are all there. */
  lemma {:induction false} WalkEnds(q: seq<Entry<Packet>>, x: Packet, fs: seq<Packet>, d: Packet)
    requires PieceOf(x, d) && Chain(fs, d, x.End(), |d.data|) && Sorted(q) && OnlyOf(q, [x] + fs)
    ensures AllOf(q, fs) ==> Walk(q, x.End()) == (true, |d.data|)
    ensures var last := if q == [] then x else q[|q| - 1].elt;
            AllOf(q, fs) <==> Walk(q, x.End()).0 && !last.mf
  {
    hide AllOf;
    hide PieceOf;
    if q == [] {
      NothingLeft(x, fs, d);
    } else {
      hide Chain;
      SortedTail(q);
      hide Sorted;
      var y := q[0].elt;
      assert q[0] in q && y in [x] + fs;
      if y == x {
        SameAgain(q, x, fs, d);
        WalkEnds(q[1..], x, fs, d);
      } else if y == fs[0] {
        FirstOfChain(fs, d, x.End());
        NextOne(q, [x], x.End(), fs, d);
        WalkEnds(q[1..], y, fs[1..], d);
      } else {
        GapFound(q, [x], x.End(), fs, d);
      }
    }
  }

  lemma FirstOfChain(fs: seq<Packet>, d: Packet, a: nat)
    requires Chain(fs, d, a, |d.data|) && fs != []
    ensures PieceOf(fs[0], d) && Chain(fs[1..], d, fs[0].End(), |d.data|)
  {
  }

  lemma NothingLeft(x: Packet, fs: seq<Packet>, d: Packet)
    requires PieceOf(x, d) && Chain(fs, d, x.End(), |d.data|)
    ensures AllOf([], fs) <==> !x.mf
    ensures AllOf([], fs) ==> x.End() == |d.data|
  {
    ChainStarts(fs, d, x.End(), |d.data|);
    if fs != [] {
      assert fs[0] in fs;
    }
  }

  lemma SameAgain(q: seq<Entry<Packet>>, x: Packet, fs: seq<Packet>, d: Packet)
    requires PieceOf(x, d) && Chain(fs, d, x.End(), |d.data|) && OnlyOf(q, [x] + fs)
    requires q != [] && q[0].elt == x
    ensures OnlyOf(q[1..], [x] + fs) && (AllOf(q, fs) <==> AllOf(q[1..], fs))
    ensures Walk(q, x.End()) == Walk(q[1..], x.End())
  {
    ChainStarts(fs, d, x.End(), |d.data|);
    assert q[0] in q;
    forall f | f in fs
      ensures FragEntry(f) in q <==> FragEntry(f) in q[1..]
    {
      assert f.Start() != x.Start();
      assert FragEntry(f) != q[0];
    }
  }

  lemma NextOne(q: seq<Entry<Packet>>, xs: seq<Packet>, off: nat, fs: seq<Packet>, d: Packet)
    requires Chain(fs, d, off, |d.data|) && OnlyOf(q, xs + fs) && Sorted(q)
    requires forall x :: x in xs ==> PieceOf(x, d) && x.End() <= off
    requires q != [] && fs != [] && q[0].elt == fs[0]
    ensures OnlyOf(q[1..], [fs[0]] + fs[1..]) && (AllOf(q, fs) <==> AllOf(q[1..], fs[1..]))
    ensures Walk(q, off) == Walk(q[1..], fs[0].End())
  {
    ChainStarts(fs[1..], d, fs[0].End(), |d.data|);
    assert q[0] in q && [fs[0]] + fs[1..] == fs;
    forall e | e in q[1..]
      ensures e.elt in fs
    {
      assert e in q;
      assert e.key <= q[0].key;
      assert e.elt.Start() >= fs[0].Start();
    }
    forall f | f in fs[1..]
      ensures FragEntry(f) in q <==> FragEntry(f) in q[1..]
    {
      assert FragEntry(f) != q[0];
    }
    assert q[0] == FragEntry(fs[0]);
  }

  lemma GapFound(q: seq<Entry<Packet>>, xs: seq<Packet>, off: nat, fs: seq<Packet>, d: Packet)
    requires Chain(fs, d, off, |d.data|) && OnlyOf(q, xs + fs) && Sorted(q)
    requires q != [] && fs != [] && q[0].elt in fs && q[0].elt != fs[0]
    ensures !AllOf(q, fs) && !Walk(q, off).0
  {
    ChainStarts(fs[1..], d, fs[0].End(), |d.data|);
    assert q[0].elt in fs[1..];
    assert q[0] in q && fs[0] in fs;
    forall i | 0 <= i < |q|
      ensures q[i] != FragEntry(fs[0])
    {
      assert i == 0 || q[0].key >= q[i].key;
    }
  }

  /** The test of ipfjoin: on fragments of one datagram it succeeds exactly when no piece is missing. */
  lemma WholeIff(q: seq<Entry<Packet>>, fs: seq<Packet>, d: Packet)
    requires Chain(fs, d, 0, |d.data|) && Sorted(q) && OnlyOf(q, fs) && q != []
    ensures AllOf(q, fs) ==> Walk(q, 0) == (true, |d.data|)
    ensures AllOf(q, fs) <==> Walk(q, 0).0 && !q[|q| - 1].elt.mf
  {
    hide AllOf;
    hide PieceOf;
    hide Walk;
    assert q[0] in q && q[0].elt in fs && [] + fs == fs;
    SortedTail(q);
    hide Sorted;
    hide OnlyOf;
    hide Chain;
    if q[0].elt == fs[0] {
      FirstOfChain(fs, d, 0);
      NextOne(q, [], 0, fs, d);
      WalkEnds(q[1..], fs[0], fs[1..], d);
    } else {
      GapFound(q, [], 0, fs, d);
    }
  }

  /** A fragment arriving at the queue of its datagram, or starting one. */
  function Take(fq: FQ, f: Packet, lrg: bool): (FQ, Outcome) {
    if fq.state == Free then (Add(FQ(Valid, f.hdr.src, f.hdr.id, []), f).0, Nothing)
    else
      var (fq1, ok) := Add(fq, f);
      if !ok || fq1.q == [] then (fq1, Nothing) else Join(fq1, lrg)
  }

  function NoQueue(src: int, id: int): FQ { FQ(Free, src, id, []) }

  /** Fragments arriving in turn for one datagram: the queue in the end, and what came out. */
  function Takes(a: seq<Packet>, src: int, id: int): (FQ, seq<Outcome>) {
    if a == [] then (NoQueue(src, id), [])
    else
      var (fq, out) := Takes(a[..|a| - 1], src, id);
      var (fq', r) := Take(fq, a[|a| - 1], true);
      (fq', if r != Nothing then out + [r] else out)
  }

  function Entries(a: seq<Packet>): (q: seq<Entry<Packet>>)
    ensures |q| == |a| && forall i :: 0 <= i < |q| ==> q[i] == FragEntry(a[i])
  {
    seq(|a|, i requires 0 <= i < |a| => FragEntry(a[i]))
  }

  predicate Covers(a: seq<Packet>, fs: seq<Packet>) {
    forall f :: f in fs ==> f in a
  }

  lemma ArrivedOf(a: seq<Packet>, fs: seq<Packet>)
    requires forall f :: f in a ==> f in fs
    ensures var q := Arrived(Entries(a));
            Sorted(q) && |q| == |a| && OnlyOf(q, fs) && (AllOf(q, fs) <==> Covers(a, fs))
  {
    var q := Arrived(Entries(a));
    ArrivedSorted(Entries(a));
    ArrivedKeepsEntries(Entries(a));
    forall e
      ensures e in q <==> e in Entries(a)
    {
      assert e in multiset(q) <==> e in multiset(Entries(a));
    }
    forall f | f in fs
      ensures FragEntry(f) in Entries(a) <==> f in a
    {
      if f in a {
        var i :| 0 <= i < |a| && a[i] == f;
        assert Entries(a)[i] == FragEntry(f);
      }
    }
  }

  lemma EntriesGrow(a: seq<Packet>)
    requires a != []
    ensures Entries(a) == Entries(a[..|a| - 1]) + [FragEntry(a[|a| - 1])]
    ensures Arrived(Entries(a)) == Enq(Arrived(Entries(a[..|a| - 1])), FragEntry(a[|a| - 1]))
  {
    assert Entries(a)[..|a| - 1] == Entries(a[..|a| - 1]);
  }

  /** What becomes of a datagram whose pieces have all arrived, the first with header h. */
  function Verdict(d: Packet, h: Header): Outcome {
    if |d.data| <= LRGDATA then Out(d.(hdr := h)) else Overrun
  }

  /** While a piece is missing the queue holds what has arrived and nothing comes out. With the last
      missing piece the queue is gone, and the whole datagram comes out if and only if its data fits the
      room in the large buffer; up to as much more as the headers take, the copy overruns the buffer. */
  lemma {:induction false} PiecesReassemble(a: seq<Packet>, fs: seq<Packet>, d: Packet)
    requires Datagram(d) && |d.data| <= MAXLRGBUF && Chain(fs, d, 0, |d.data|) && |fs| >= 2
    requires 0 < |a| <= IP_FQSIZE && (forall f :: f in a ==> f in fs) && !Covers(a[..|a| - 1], fs)
    ensures Takes(a, d.hdr.src, d.hdr.id) ==
            if Covers(a, fs) then (NoQueue(d.hdr.src, d.hdr.id), [Verdict(d, fs[0].hdr)])
            else (FQ(Valid, d.hdr.src, d.hdr.id, Arrived(Entries(a))), [])
  {
    hide Join;
    hide Chain;
    hide Arrived;
    hide OnlyOf;
    hide AllOf;
    hide PieceOf;
    hide Enq;
    hide Sorted;
    hide Take;
    var n := |a| - 1;
    var src, id := d.hdr.src, d.hdr.id;
    SameHeader(a[n], fs, d) by {
      assert a[n] in a;
    }
    EntriesGrow(a);
    ArrivedOf(a, fs);
    if n == 0 {
      OnePieceIsNotAll(a, fs, d);
      assert a[..0] == [] && Entries([]) == [];
      FirstTake(a[0]);
    } else {
      assert a[..n][..n - 1] == a[..n - 1];
      assert !Covers(a[..n - 1], fs);
      PiecesReassemble(a[..n], fs, d);
      var q := Arrived(Entries(a[..n]));
      ArrivedOf(a[..n], fs);
      var fq := FQ(Valid, src, id, q);
      var fq1 := FQ(Valid, src, id, Arrived(Entries(a)));
      assert Takes(a[..n], src, id) == (fq, []);
      NextTake(fq, a[n]);
      assert Take(fq, a[n], true) == Join(fq1, true);
      JoinDecides(fq1, fs, d);
      OneOutcome(Join(fq1, true).1);
    }
  }

  /** Of a datagram with more data than the size of a large buffer nothing ever comes out. */
  lemma {:induction false} TooBigForAll(a: seq<Packet>, d: Packet, src: int, id: int)
    requires Datagram(d) && |d.data| > MAXLRGBUF && forall f :: f in a ==> Consistent(f, d)
    ensures Takes(a, src, id).1 == [] && AllConsistent(Takes(a, src, id).0.q, d)
  {
    hide Take;
    if a == [] {
      NoneYet(d);
    } else {
      var n := |a| - 1;
      assert a[n] in a;
      assert forall f :: f in a[..n] ==> f in a;
      TooBigForAll(a[..n], d, src, id);
      TooBig(Takes(a[..n], src, id).0, a[n], d);
    }
  }

  lemma TooBig(fq: FQ, f: Packet, d: Packet)
    requires Datagram(d) && |d.data| > MAXLRGBUF && AllConsistent(fq.q, d) && Consistent(f, d)
    ensures Take(fq, f, true).1 == Nothing && AllConsistent(Take(fq, f, true).0.q, d)
  {
    hide Consistent;
    NoneYet(d);
    if fq.state == Free {
      AddKeeps(FQ(Valid, f.hdr.src, f.hdr.id, []), f, d);
    } else {
      AddKeeps(fq, f, d);
      var (fq1, ok) := Add(fq, f);
      if ok {
        TooBigToJoin(fq1, d);
      }
    }
  }

  lemma TooBigToJoin(fq: FQ, d: Packet)
    requires Datagram(d) && |d.data| > MAXLRGBUF && fq.q != [] && AllConsistent(fq.q, d)
    ensures Join(fq, true).1 == Nothing && AllConsistent(Join(fq, true).0.q, d)
  {
    var last := fq.q[|fq.q| - 1];
    assert last in fq.q;
    if Walk(fq.q, 0).0 {
      WalkEnd(fq.q, 0);
    }
  }

  lemma SameHeader(f: Packet, fs: seq<Packet>, d: Packet)
    requires Chain(fs, d, 0, |d.data|) && f in fs
    ensures f.hdr.src == d.hdr.src && f.hdr.id == d.hdr.id
  {
    ChainStarts(fs, d, 0, |d.data|);
  }

  lemma OneOutcome(r: Outcome)
    ensures [] + [r] == [r]
  {
  }

  lemma FirstTake(f: Packet)
    ensures Take(NoQueue(f.hdr.src, f.hdr.id), f, true) ==
            (FQ(Valid, f.hdr.src, f.hdr.id, Enq(Arrived([]), FragEntry(f))), Nothing)
  {
    assert Arrived<Packet>([]) == [];
  }

  lemma NextTake(fq: FQ, f: Packet)
    requires fq.state == Valid && |fq.q| < IP_FQSIZE
    ensures Take(fq, f, true) == Join(fq.(q := Enq(fq.q, FragEntry(f))), true)
  {
    hide Join;
  }

  lemma OnePieceIsNotAll(a: seq<Packet>, fs: seq<Packet>, d: Packet)
    requires Chain(fs, d, 0, |d.data|) && |fs| >= 2 && |a| == 1
    ensures !Covers(a, fs)
  {
    ChainStarts(fs[1..], d, fs[0].End(), |d.data|);
    assert fs[0] in fs && fs[1] in fs && fs[1] in fs[1..];
    assert PieceOf(fs[0], d) && fs[1].Start() > fs[0].Start();
    assert fs[0] != a[0] || fs[1] != a[0];
  }

  lemma {:induction false} JoinDecides(fq: FQ, fs: seq<Packet>, d: Packet)
    requires Datagram(d) && |d.data| <= MAXLRGBUF && Chain(fs, d, 0, |d.data|) && fs != []
    requires fq.state == Valid && fq.q != [] && Sorted(fq.q) && OnlyOf(fq.q, fs)
    ensures Join(fq, true) == if AllOf(fq.q, fs) then (fq.(state := Free, q := []), Verdict(d, fs[0].hdr)) else (fq, Nothing)
  {
    hide Overruns;
    hide Assemble;
    ChainStarts(fs, d, 0, |d.data|);
    WholeIff(fq.q, fs, d);
    forall e | e in fq.q
      ensures Consistent(e.elt, d)
    {
      assert e.elt in fs;
    }
    WalkInRange(fq.q, d);
    JoinSound(fq, true, d);
    if AllOf(fq.q, fs) {
      FirstIsFirst(fq.q, fs, d);
      FitsIff(fq.q, fs, d);
    }
  }

  lemma WalkInRange(q: seq<Entry<Packet>>, d: Packet)
    requires AllConsistent(q, d)
    ensures Walk(q, 0).0 ==> Walk(q, 0).1 <= |d.data|
  {
    if Walk(q, 0).0 {
      AssembleIsPrefix(q, [], d);
    }
  }

  lemma {:induction false} FirstIsFirst(q: seq<Entry<Packet>>, fs: seq<Packet>, d: Packet)
    requires Chain(fs, d, 0, |d.data|) && fs != [] && q != [] && OnlyOf(q, fs) && Walk(q, 0).0
    ensures q[0].elt == fs[0]
  {
    ChainStarts(fs[1..], d, fs[0].End(), |d.data|);
    assert q[0] in q && q[0].elt in fs;
    assert fs == [fs[0]] + fs[1..];
  }

  lemma {:induction false} FitsIff(q: seq<Entry<Packet>>, fs: seq<Packet>, d: Packet)
    requires Datagram(d) && Chain(fs, d, 0, |d.data|) && q != [] && OnlyOf(q, fs) && Walk(q, 0) == (true, |d.data|)
    ensures Overruns(q, 0) <==> |d.data| > LRGDATA
  {
    OverrunsIff(q, 0);
    WalkEnd(q, 0);
    ChainStarts(fs, d, 0, |d.data|);
    assert q[|q| - 1] in q;
    forall e | e in q
      ensures e.elt.End() <= |d.data|
    {
      assert e.elt in fs;
    }
  }

  /** When the walk succeeds, for any fragments: each starts no later than the one before it ends. */
  lemma {:induction false} WalkIff(q: seq<Entry<Packet>>, off: nat)
    ensures Walk(q, off).0 <==>
            && (q != [] ==> q[0].elt.Start() <= off)
            && forall i :: 0 < i < |q| ==> q[i].elt.Start() <= q[i - 1].elt.End()
  {
    if q != [] {
      WalkIff(q[1..], q[0].elt.End());
      assert forall i :: 0 < i < |q| ==> q[i] == q[1..][i - 1];
    }
  }

  predicate HasByte(q: seq<Entry<Packet>>, k: nat) {
    exists e :: e in q && e.elt.Start() <= k < e.elt.End()
  }

  /** So it is not enough that every byte has arrived: the end that the walk remembers is that of the last
      fragment, and a fragment contained in an earlier one takes it back. */
  lemma ContainedFragmentHidesTheRest() returns (q: seq<Entry<Packet>>, d: Packet)
    ensures Datagram(d) && Sorted(q) && AllConsistent(q, d)
    ensures forall k :: 0 <= k < |d.data| ==> HasByte(q, k)
    ensures !Walk(q, 0).0
  {
    d := Packet(Header(0, 0, 0, 0, 0, 0), false, false, 0, seq(32, _ => 0));
    var a := d.(mf := true, data := d.data[0..24]);
    var b := d.(mf := true, fragoff := 1, data := d.data[8..16]);
    var c := d.(fragoff := 3, data := d.data[24..32]);
    q := [FragEntry(a), FragEntry(b), FragEntry(c)];
    WalkIff(q, 0);
    assert q[2].elt == c && q[1].elt == b;
    assert FragEntry(a) in q && FragEntry(c) in q;
  }

  // ----- the table of queues -----

  predicate Matches(fq: FQ, src: int, id: int) { fq.state != Free && fq.src == src && fq.id == id }

  /** The first entry from i on that is in use for this datagram, or the table's size. */
  function Find(t: seq<FQ>, i: nat, src: int, id: int): (r: nat)
    requires i <= |t|
    ensures i <= r <= |t| && (r < |t| ==> Matches(t[r], src, id))
    ensures forall j :: i <= j < r ==> !Matches(t[j], src, id)
    decreases |t| - i
  {
    if i == |t| || Matches(t[i], src, id) then i else Find(t, i + 1, src, id)
  }

  function FirstFree(t: seq<FQ>, i: nat): (r: nat)
    requires i <= |t|
    ensures i <= r <= |t| && (r < |t| ==> t[r].state == Free)
    ensures forall j :: i <= j < r ==> t[j].state != Free
    decreases |t| - i
  {
    if i == |t| || t[i].state == Free then i else FirstFree(t, i + 1)
  }

  predicate Fragment(f: Packet) { f.mf || f.fragoff != 0 }

  /** ipreass; qok says whether newq can make a queue, lrg whether a large buffer can be had. */
  function Reass(t: seq<FQ>, f: Packet, qok: bool, lrg: bool): (seq<FQ>, Outcome) {
    if !Fragment(f) then (t, Out(f))
    else
      var i, free := Find(t, 0, f.hdr.src, f.hdr.id), FirstFree(t, 0);
      if i < |t| then
        var (fq, r) := Take(t[i], f, lrg);
        (t[i := fq], r)
      else if free == |t| || !qok then (t, Nothing)
      else (t[free := Take(t[free], f, lrg).0], Nothing)
  }

  predicate Known(t: seq<FQ>, f: Packet) { exists i :: 0 <= i < |t| && Matches(t[i], f.hdr.src, f.hdr.id) }

  /** A whole datagram passes as it is; and a fragment for which there is neither an entry nor a queue is lost. */
  lemma PassesOrLost(t: seq<FQ>, f: Packet, qok: bool, lrg: bool)
    ensures !Fragment(f) ==> Reass(t, f, qok, lrg) == (t, Out(f))
    ensures Fragment(f) && !Known(t, f) && (!qok || forall i :: 0 <= i < |t| ==> t[i].state != Free) ==>
              Reass(t, f, qok, lrg) == (t, Nothing)
  {
  }

  /** No datagram has two queues. */
  predicate Unique(t: seq<FQ>) {
    forall i, j :: 0 <= i < j < |t| && t[i].state != Free ==> !Matches(t[j], t[i].src, t[i].id)
  }

  /** The queue of one datagram, wherever in the table it is. */
  function QueueOf(t: seq<FQ>, src: int, id: int): FQ {
    var i := Find(t, 0, src, id);
    if i < |t| then t[i] else NoQueue(src, id)
  }

  lemma TakeKey(fq: FQ, f: Packet, lrg: bool)
    requires fq.state == Free || Matches(fq, f.hdr.src, f.hdr.id)
    ensures var r := Take(fq, f, lrg).0;
            r.src == f.hdr.src && r.id == f.hdr.id && (r.state == Free ==> r == NoQueue(r.src, r.id))
  {
  }

  lemma FoundAt(t: seq<FQ>, i: nat, src: int, id: int)
    requires Unique(t) && i < |t| && Matches(t[i], src, id)
    ensures Find(t, 0, src, id) == i && QueueOf(t, src, id) == t[i]
  {
    var r := Find(t, 0, src, id);
    forall j | 0 <= j < i
      ensures !Matches(t[j], src, id)
    {
      if t[j].state != Free {
        assert !Matches(t[i], t[j].src, t[j].id);
      }
    }
  }

  lemma NotFound(t: seq<FQ>, src: int, id: int)
    requires forall i :: 0 <= i < |t| ==> !Matches(t[i], src, id)
    ensures Find(t, 0, src, id) == |t| && QueueOf(t, src, id) == NoQueue(src, id)
  {
  }

  /** What replacing one entry does to every datagram's queue. */
  lemma QueueAfter(t: seq<FQ>, i: nat, fq: FQ, src: int, id: int)
    requires Unique(t) && i < |t| && fq.src == src && fq.id == id && (fq.state == Free ==> fq == NoQueue(src, id))
    requires Matches(t[i], src, id) || (t[i].state == Free && Find(t, 0, src, id) == |t|)
    ensures Unique(t[i := fq]) && QueueOf(t[i := fq], src, id) == fq
    ensures forall s, d :: (s, d) != (src, id) ==> QueueOf(t[i := fq], s, d) == QueueOf(t, s, d)
  {
    var t' := t[i := fq];
    forall j, k | 0 <= j < k < |t'| && t'[j].state != Free
      ensures !Matches(t'[k], t'[j].src, t'[j].id)
    {
      if j == i || k == i {
        OnlyMatch(t, i, src, id);
      }
    }
    if fq.state == Free {
      OnlyMatch(t, i, src, id);
      NotFound(t', src, id);
    } else {
      FoundAt(t', i, src, id);
    }
    forall s, d | (s, d) != (src, id)
      ensures QueueOf(t', s, d) == QueueOf(t, s, d)
    {
      var r := Find(t, 0, s, d);
      if r < |t| {
        FoundAt(t', r, s, d);
      } else {
        NotFound(t', s, d);
      }
    }
  }

  lemma OnlyMatch(t: seq<FQ>, i: nat, src: int, id: int)
    requires Unique(t) && i < |t|
    requires Matches(t[i], src, id) || Find(t, 0, src, id) == |t|
    ensures forall j :: 0 <= j < |t| && j != i ==> !Matches(t[j], src, id)
  {
    if Matches(t[i], src, id) {
      forall j | 0 <= j < |t| && j != i
        ensures !Matches(t[j], src, id)
      {
        if j < i && t[j].state != Free {
          assert !Matches(t[i], t[j].src, t[j].id);
        }
      }
    }
  }

  /** The table keeps one independent queue for every datagram that it has room for. */
  lemma ReassPerDatagram(t: seq<FQ>, f: Packet, qok: bool, lrg: bool)
    requires Unique(t)
    ensures var (t', r) := Reass(t, f, qok, lrg);
            var fq := QueueOf(t, f.hdr.src, f.hdr.id);
            var room := fq.state != Free || (qok && FirstFree(t, 0) < |t|);
            && Unique(t') && |t'| == |t|
            && (Fragment(f) && room ==> (QueueOf(t', f.hdr.src, f.hdr.id), r) == Take(fq, f, lrg))
            && (Fragment(f) && !room ==> t' == t && r == Nothing)
            && (forall s, d :: (s, d) != (f.hdr.src, f.hdr.id) ==> QueueOf(t', s, d) == QueueOf(t, s, d))
  {
    hide Take;
    hide Unique;
    var src, id := f.hdr.src, f.hdr.id;
    var i, free := Find(t, 0, src, id), FirstFree(t, 0);
    if Fragment(f) && i < |t| {
      TakeKey(t[i], f, lrg);
      QueueAfter(t, i, Take(t[i], f, lrg).0, src, id);
    } else if Fragment(f) && free < |t| && qok {
      TakeKey(t[free], f, lrg);
      QueueAfter(t, free, Take(t[free], f, lrg).0, src, id);
      TakeNew(t[free], f, lrg);
    }
  }

  lemma TakeNew(fq: FQ, f: Packet, lrg: bool)
    requires fq.state == Free
    ensures Take(fq, f, lrg) == Take(NoQueue(f.hdr.src, f.hdr.id), f, lrg) && Take(fq, f, lrg).1 == Nothing
  {
  }

  // ----- runs -----

  datatype Arrival = Arrival(f: Packet, qok: bool, lrg: bool)

  function Start(): seq<FQ> { seq(IP_FQSIZE, _ => NoQueue(0, 0)) }

  /** The table after a run of arrivals, for any mix of datagrams. */
  function Table(run: seq<Arrival>): seq<FQ> {
    if run == [] then Start()
    else
      var a := run[|run| - 1];
      Reass(Table(run[..|run| - 1]), a.f, a.qok, a.lrg).0
  }

  predicate Mine(f: Packet, src: int, id: int) { Fragment(f) && f.hdr.src == src && f.hdr.id == id }

  /** The fragments of one datagram in a run. */
  function Fragments(run: seq<Arrival>, src: int, id: int): seq<Packet> {
    if run == [] then []
    else
      var a := run[|run| - 1];
      Fragments(run[..|run| - 1], src, id) + if Mine(a.f, src, id) then [a.f] else []
  }

  /** What came out of the table for those fragments. */
  function Outs(run: seq<Arrival>, src: int, id: int): seq<Outcome> {
    if run == [] then []
    else
      var a := run[|run| - 1];
      var r := Reass(Table(run[..|run| - 1]), a.f, a.qok, a.lrg).1;
      Outs(run[..|run| - 1], src, id) + if Mine(a.f, src, id) && r != Nothing then [r] else []
  }

  lemma StartUnique()
    ensures Unique(Start()) && forall s, d :: QueueOf(Start(), s, d) == NoQueue(s, d)
  {
  }

  /** The datagram's fragments always find a queue, and a large buffer when they need one. */
  predicate Provided(run: seq<Arrival>, src: int, id: int) {
    run == [] ||
    var front, a := run[..|run| - 1], run[|run| - 1];
    && Provided(front, src, id)
    && (Mine(a.f, src, id) ==>
          a.lrg && (QueueOf(Table(front), src, id).state != Free || (a.qok && FirstFree(Table(front), 0) < |Table(front)|)))
  }

  lemma {:induction false} TableUnique(run: seq<Arrival>)
    ensures Unique(Table(run))
  {
    if run == [] {
      StartUnique();
    } else {
      hide Reass;
      var a := run[|run| - 1];
      TableUnique(run[..|run| - 1]);
      ReassPerDatagram(Table(run[..|run| - 1]), a.f, a.qok, a.lrg);
    }
  }

  lemma TakesOneMore(a: seq<Packet>, f: Packet, src: int, id: int)
    ensures var (fq, out) := Takes(a, src, id);
            var (fq', r) := Take(fq, f, true);
            Takes(a + [f], src, id) == (fq', if r != Nothing then out + [r] else out)
  {
    assert (a + [f])[..|a|] == a;
  }

  /** Other traffic does not matter. */
  lemma {:induction false} RunPerDatagram(run: seq<Arrival>, src: int, id: int)
    requires Provided(run, src, id)
    ensures (QueueOf(Table(run), src, id), Outs(run, src, id)) == Takes(Fragments(run, src, id), src, id)
  {
    if run == [] {
      StartUnique();
    } else {
      hide Reass;
      hide Take;
      hide QueueOf;
      hide Unique;
      hide Takes;
      var front, a := run[..|run| - 1], run[|run| - 1];
      RunPerDatagram(front, src, id);
      TableUnique(front);
      ReassPerDatagram(Table(front), a.f, a.qok, a.lrg);
      var mine := Fragments(front, src, id);
      assert mine + [] == mine && Outs(front, src, id) + [] == Outs(front, src, id);
      if Mine(a.f, src, id) {
        TakesOneMore(mine, a.f, src, id);
      }
    }
  }

  /** The round trip: a datagram is cut and its pieces are cut again by any links; the pieces then arrive
      in any order, some more than once, among any other traffic. When the last missing one has arrived,
      the datagram has come out exactly once, as it was but for the time to live, if and only if its data
      fits a large buffer behind both headers. */
  lemma RoundTrip(d: Packet, hops: seq<Hop>, run: seq<Arrival>)
    requires Datagram(d)
    requires (forall h :: h in hops ==> h.mtu >= IPMHLEN + 8) && |Travel([d], hops)| >= 2
    requires Provided(run, d.hdr.src, d.hdr.id)
    requires var a, fs := Fragments(run, d.hdr.src, d.hdr.id), Travel([d], hops);
             && 0 < |a| <= IP_FQSIZE && (forall f :: f in a ==> f in fs)
             && Covers(a, fs) && !Covers(a[..|a| - 1], fs)
    ensures var sent := d.(hdr := Travel([d], hops)[0].hdr);
            && Like(sent, d)
            && (|d.data| <= LRGDATA <==> Outs(run, d.hdr.src, d.hdr.id) == [Out(sent)])
            && (LRGDATA < |d.data| <= MAXLRGBUF <==> Outs(run, d.hdr.src, d.hdr.id) == [Overrun])
            && (|d.data| > MAXLRGBUF <==> Outs(run, d.hdr.src, d.hdr.id) == [])
    ensures |d.data| <= MAXLRGBUF ==> QueueOf(Table(run), d.hdr.src, d.hdr.id) == NoQueue(d.hdr.src, d.hdr.id)
  {
    hide QueueOf;
    hide Table;
    hide Travel;
    hide Takes;
    FragmentsTile(d, hops);
    ChainStarts(Travel([d], hops), d, 0, |d.data|);
    RunPerDatagram(run, d.hdr.src, d.hdr.id);
    assert PieceOf(Travel([d], hops)[0], d);
    if |d.data| <= MAXLRGBUF {
      PiecesReassemble(Fragments(run, d.hdr.src, d.hdr.id), Travel([d], hops), d);
    } else {
      TooBigForAll(Fragments(run, d.hdr.src, d.hdr.id), d, d.hdr.src, d.hdr.id);
    }
  }

  lemma TakeSound(fq: FQ, f: Packet, lrg: bool, d: Packet)
    requires AllConsistent(fq.q, d) && Consistent(f, d) && Datagram(d)
    ensures AllConsistent(Take(fq, f, lrg).0.q, d)
    ensures Take(fq, f, lrg).1.Out? ==> Like(Take(fq, f, lrg).1.value, d)
  {
    hide Join;
    hide AllConsistent;
    NoneYet(d);
    if fq.state == Free {
      AddKeeps(FQ(Valid, f.hdr.src, f.hdr.id, []), f, d);
    } else {
      AddKeeps(fq, f, d);
      var (fq1, ok) := Add(fq, f);
      if ok {
        JoinSound(fq1, lrg, d);
      }
    }
  }

  lemma NoneYet(d: Packet)
    ensures AllConsistent([], d)
  {
  }

  /** Safety, whatever is lost, repeated, reordered or overlapping, and whatever buffers run out: if every
      fragment that bears the datagram's source and identification agrees with it, then nothing but that
      datagram ever comes out for it. */
  lemma {:induction false} NothingWrongComesOut(run: seq<Arrival>, d: Packet)
    requires Datagram(d)
    requires forall a :: a in run && Mine(a.f, d.hdr.src, d.hdr.id) ==> Consistent(a.f, d)
    ensures forall r :: r in Outs(run, d.hdr.src, d.hdr.id) && r.Out? ==> Like(r.value, d)
    ensures AllConsistent(QueueOf(Table(run), d.hdr.src, d.hdr.id).q, d)
  {
    if run == [] {
      StartUnique();
    } else {
      hide Reass;
      hide Take;
      hide QueueOf;
      hide Unique;
      hide Consistent;
      hide AllConsistent;
      var front, a := run[..|run| - 1], run[|run| - 1];
      NothingWrongComesOut(front, d);
      TableUnique(front);
      ReassPerDatagram(Table(front), a.f, a.qok, a.lrg);
      if Mine(a.f, d.hdr.src, d.hdr.id) {
        assert a in run;
        TakeSound(QueueOf(Table(front), d.hdr.src, d.hdr.id), a.f, a.lrg, d);
      }
    }
  }

  /** Two datagrams of one sender, to one host but for different protocols, that share an identification:
      the first half of the one and the second half of the other are put together to what nobody sent. */
  lemma TwoDatagramsMix() returns (a: Packet, b: Packet, run: seq<Arrival>)
    ensures Datagram(a) && Datagram(b) && a.hdr == b.hdr.(proto := a.hdr.proto) && a.hdr.proto != b.hdr.proto
    ensures |run| == 2 && PieceOf(run[0].f, a) && PieceOf(run[1].f, b)
    ensures exists p :: Outs(run, a.hdr.src, a.hdr.id) == [Out(p)] && !Like(p, a) && !Like(p, b)
  {
    a := Packet(Header(0, 7, 64, 6, 1, 2), false, false, 0, seq(16, _ => 1));
    b := Packet(Header(0, 7, 64, 17, 1, 2), false, false, 0, seq(16, _ => 2));
    var f := a.(mf := true, data := a.data[0..8]);
    var g := b.(fragoff := 1, data := b.data[8..16]);
    run := [Arrival(f, true, true), Arrival(g, true, true)];
    FirstTake(f);
    HalvesJoin(f, g);
    PairOuts(f, g);
    var p := Packet(f.hdr, false, false, 0, f.data + g.data);
    assert p.data[0] == 1 && p.data[8] == 2;
  }

  /** What a run of two fragments of one source and identification yields. */
  lemma PairOuts(f: Packet, g: Packet)
    requires Fragment(f) && Fragment(g) && g.hdr.src == f.hdr.src && g.hdr.id == f.hdr.id
    requires Take(NoQueue(f.hdr.src, f.hdr.id), f, true) == (FQ(Valid, f.hdr.src, f.hdr.id, [FragEntry(f)]), Nothing)
    ensures var run := [Arrival(f, true, true), Arrival(g, true, true)];
            var r := Take(FQ(Valid, f.hdr.src, f.hdr.id, [FragEntry(f)]), g, true).1;
            Outs(run, f.hdr.src, f.hdr.id) == if r == Nothing then [] else [r]
  {
    hide Take;
    hide QueueOf;
    hide Unique;
    hide Reass;
    var one := [Arrival(f, true, true)];
    var t0, t1 := Start(), Table(one);
    RunMore([], Arrival(f, true, true), f.hdr.src, f.hdr.id);
    RunMore(one, Arrival(g, true, true), f.hdr.src, f.hdr.id);
    assert [] + one == one;
    StartUnique();
    assert FirstFree(t0, 0) == 0;
    ReassPerDatagram(t0, f, true, true);
    ReassPerDatagram(t1, g, true, true);
    assert [Arrival(f, true, true), Arrival(g, true, true)] == one + [Arrival(g, true, true)];
  }

  lemma RunMore(run: seq<Arrival>, a: Arrival, src: int, id: int)
    ensures Table(run + [a]) == Reass(Table(run), a.f, a.qok, a.lrg).0
    ensures var r := Reass(Table(run), a.f, a.qok, a.lrg).1;
            Outs(run + [a], src, id) == Outs(run, src, id) + if Mine(a.f, src, id) && r != Nothing then [r] else []
  {
    assert (run + [a])[..|run|] == run;
  }

  lemma HalvesJoin(f: Packet, g: Packet)
    requires f.Start() == 0 && f.End() == g.Start() && 0 < f.End() && f.mf && !g.mf && g.End() <= LRGDATA
    requires Kin(f.hdr, g.hdr.(proto := f.hdr.proto))
    ensures Enq([], FragEntry(f)) == [FragEntry(f)]
    ensures Take(FQ(Valid, f.hdr.src, f.hdr.id, [FragEntry(f)]), g, true).1 == Out(Packet(f.hdr, false, false, 0, f.data + g.data))
  {
    hide Overruns;
    hide Copied;
    hide Assemble;
    var q := [FragEntry(f)];
    var q2 := q + [FragEntry(g)];
    assert Enq(q, FragEntry(g)) == q2;
    assert q2[1..] == [FragEntry(g)] && q2[1..][1..] == [];
    assert Walk(q2[1..], f.End()) == Walk([], g.End()) == (true, g.End());
    assert Walk(q2, 0) == Walk(q2[1..], f.End());
    OverrunsIff(q2, 0);
    TwoCopied(f, g, q2);
  }

  lemma TwoCopied(f: Packet, g: Packet, q: seq<Entry<Packet>>)
    requires f.Start() == 0 && f.End() == g.Start()
    requires |q| == 2 && q[0].elt == f && q[1].elt == g && Walk(q, 0).0
    ensures Assemble(q, []) == f.data + g.data
  {
    hide Copied;
    FirstCopied(f);
    NextCopied(f, g);
    assert q[1..][0] == q[1] && q[1..][1..] == [];
    assert Assemble(q, []) == Assemble(q[1..], f.data);
    assert Assemble(q[1..], f.data) == Assemble(q[1..][1..], f.data + g.data);
  }

  lemma FirstCopied(f: Packet)
    requires f.Start() == 0
    ensures Copied(f, []) == f.data
  {
    assert [] + f.data[0..] == f.data;
  }

  lemma NextCopied(f: Packet, g: Packet)
    requires |f.data| == g.Start()
    ensures Copied(g, f.data) == f.data + g.data
  {
    assert g.data[0..] == g.data;
  }
}
