/** Reassembly in place: each entry of ipfqt with its own priority queue of fragments, and the large
    buffer that a datagram is put together in. */
module IpReassTable {
  import opened Gpq
  import opened Ring
  import opened IpFragment
  import opened IpReassembly

  const DATA := EP_HLEN + IPMHLEN   // where the data begins in a large buffer

  /** One struct ipfq. freeq gives back an empty queue and newq makes an empty one of the same size, so
      that the entry can be taken to keep one queue. */
  class FragQueue {
    var state: FState
    var src: int
    var id: int
    const q: Queue<Packet>

    ghost function Footprint(): set<object>
    {
      {this, q, q.keys, q.elts}
    }

    ghost predicate Valid()
      reads Footprint()
    {
      q.Valid() && q.max == IP_FQSIZE && q.seen == -1 && (state == Free ==> q.Contents() == [])
    }

    ghost function Abs(): FQ
      reads Footprint()
      requires Valid()
    {
      FQ(state, src, id, q.Contents())
    }

    constructor ()
      ensures Valid() && fresh(Footprint()) && Abs() == NoQueue(0, 0)
    {
      state, src, id := Free, 0, 0;
      q := new Queue(IP_FQSIZE);
    }

    /** Empties a queue; the buffers of its fragments go back to their pool. */
    method Drain()
      requires Valid()
      modifies q, q.keys, q.elts
      ensures Valid() && q.Contents() == []
    {
      var more, f := q.Dequeue();
      while more
        invariant Valid() && (!more ==> q.Contents() == [])
        decreases |q.Contents()| + if more then 1 else 0
      {
        more, f := q.Dequeue();
      }
    }

    method IpFAdd(f: Packet) returns (ok: bool)
      requires Valid()
      modifies Footprint()
      ensures Valid() && (Abs(), ok) == Add(old(Abs()), f)
    {
      if state != FState.Valid {
        return false;
      }
      var left := q.Enqueue(f, -(f.fragoff as int));
      if left < 0 {
        Drain();
        state := Bogus;
        return false;
      }
      return true;
    }

    /** The walk of ipfjoin with seeq: whether there is no gap, the end of the last fragment, and its MF. */
    method SeeAll() returns (whole: bool, off: nat, mf: bool)
      requires Valid() && q.Contents() != []
      modifies q`seen
      ensures Valid() && q.Contents() == old(q.Contents())
      ensures (whole, off) == Walk(q.Contents(), 0)
      ensures whole ==> mf == q.Contents()[|q.Contents()| - 1].elt.mf
    {
      ghost var s, i := q.Contents(), 0;
      whole, off, mf := true, 0, false;
      var more, f := q.SeeNext();
      assert s[0..] == s;
      while more && whole
        invariant q.Valid() && q.max == IP_FQSIZE && q.Contents() == s
        invariant 0 <= i <= |s| && more == (i < |s|) && q.seen == if more then i else -1
        invariant more ==> f == s[i].elt
        invariant whole ==> Walk(s[i..], off) == Walk(s, 0) && (i > 0 ==> mf == s[i - 1].elt.mf)
        invariant !whole ==> Walk(s, 0) == (false, off)
        decreases |s| - i
      {
        if off < f.Start() {
          whole := false;
        } else {
          off, mf := f.End(), f.mf;
        }
        assert s[i..][1..] == s[i + 1..];
        i := i + 1;
        more, f := q.SeeNext();
      }
      while more
        invariant q.Valid() && q.max == IP_FQSIZE && q.Contents() == s
        invariant 0 <= i <= |s| && more == (i < |s|) && q.seen == if more then i else -1
        decreases |s| - i
      {
        i := i + 1;
        more, f := q.SeeNext();
      }
    }

    /** The copy loop of ipfcons into the large buffer, behind both headers; n is the length of the data. */
    method CopyData(big: array<Byte>) returns (hdr: Header, n: nat)
      requires Valid() && big != q.keys as object && big != q.elts as object && big.Length == MAXLRGBUF
      requires q.Contents() != [] && Walk(q.Contents(), 0).0 && !Overruns(q.Contents(), 0)
      modifies q, q.keys, q.elts, big
      ensures Valid() && q.Contents() == [] && n <= LRGDATA
      ensures hdr == old(q.Contents())[0].elt.hdr
      ensures big[DATA..DATA + n] == Assemble(old(q.Contents()), [])
    {
      hide Assemble;
      hide Walk;
      hide Overruns;
      hide Copied;
      ghost var s, i := q.Contents(), 0;
      var more, f := q.Dequeue();
      hdr, n := f.hdr, 0;
      assert s[0..] == s && big[DATA..DATA + n] == [];
      while more
        invariant Valid() && 0 <= i <= |s| && n <= LRGDATA
        invariant if more then i < |s| && f == s[i].elt && q.Contents() == s[i + 1..] else i == |s| && q.Contents() == []
        invariant Walk(s[i..], n).0 && !Overruns(s[i..], n)
        invariant Assemble(s[i..], big[DATA..DATA + n]) == Assemble(s, [])
        decreases |s| - i
      {
        CopyStep(s, i, big[DATA..DATA + n]);
        n := CopyNext(big, n, f);
        i := i + 1;
        if i < |s| {
          assert q.Contents()[0] == s[i];
        }
        more, f := q.Dequeue();
      }
      CopyEnd(s, big[DATA..DATA + n]);
    }

    lemma CopyStep(s: seq<Entry<Packet>>, i: nat, buf: seq<Byte>)
      requires i < |s| && Walk(s[i..], |buf|).0 && !Overruns(s[i..], |buf|) && |buf| <= LRGDATA
      ensures var f := s[i].elt;
              && f.Start() <= |buf| && Walk(s[i + 1..], f.End()).0
              && f.End() <= LRGDATA && !Overruns(s[i + 1..], f.End())
              && Assemble(s[i..], buf) == Assemble(s[i + 1..], Copied(f, buf))
    {
      hide Copied;
      var q := s[i..];
      assert q[0] == s[i] && q[1..] == s[i + 1..];
      assert Assemble(q, buf) == Assemble(q[1..], Copied(q[0].elt, buf));
    }

    lemma CopyEnd(s: seq<Entry<Packet>>, buf: seq<Byte>)
      ensures Walk(s[|s|..], |buf|).0 && Assemble(s[|s|..], buf) == buf
    {
    }

    /** One turn of the loop: where the data in the large buffer now ends. */
    method CopyNext(big: array<Byte>, seqno: nat, f: Packet) returns (n: nat)
      requires f.Start() <= seqno && seqno <= LRGDATA && big.Length == MAXLRGBUF && f.End() <= LRGDATA
      modifies big
      ensures n == f.End()
      ensures var buf := old(big[DATA..DATA + seqno]);
              big[DATA..DATA + n] == Copied(f, buf)
    {
      ghost var buf := big[DATA..DATA + seqno];
      var doff := IPMHLEN + seqno - f.Start();
      var dlen := f.Len() - doff;
      BlkCopyIn(big, DATA + seqno, f, doff - IPMHLEN, dlen);
      n := seqno + dlen;
      CopiedOne(big[..], buf, f);
    }

    lemma CopiedOne(big: seq<Byte>, buf: seq<Byte>, f: Packet)
      requires f.Start() <= |buf| && DATA + |buf| <= |big| && DATA + f.End() <= |big|
      requires big[DATA..DATA + |buf|] == buf
      requires forall j :: DATA + |buf| <= j < DATA + f.End() ==> big[j] == f.data[j - DATA - f.Start()]
      ensures big[DATA..DATA + f.End()] == Copied(f, buf)
    {
      var r := Copied(f, buf);
      forall k | 0 <= k < f.End()
        ensures big[DATA + k] == r[k]
      {
        if k < |buf| {
          assert buf[k] == big[DATA..DATA + |buf|][k];
        }
      }
    }

    /** blkcopy of n bytes of the fragment's data from byte from on; a negative length copies nothing. */
    method BlkCopyIn(big: array<Byte>, to: nat, f: Packet, from: nat, n: int)
      requires from + n == |f.data| && to <= big.Length && to + n <= big.Length
      modifies big
      ensures big[..to] == old(big[..to])
      ensures forall j :: to <= j < to + n ==> big[j] == f.data[from + (j - to)]
    {
      var k := 0;
      while k < n
        invariant 0 <= k && (k == 0 || k <= n)
        invariant big[..to] == old(big[..to])
        invariant forall j :: to <= j < to + k ==> big[j] == f.data[from + (j - to)]
      {
        big[to + k] := f.data[from + k];
        k := k + 1;
      }
    }

    /** big is the large buffer that getbuf yields, if any. The caller keeps to datagrams that fit it:
        IpReassembly.JoinOverrunsIff says when the copy would run past its end. */
    method IpFJoin(big: array?<Byte>) returns (r: Outcome)
      requires Valid() && q.Contents() != [] && Join(Abs(), big != null).1 != Overrun
      requires big != null ==> big != q.keys as object && big != q.elts as object && big.Length == MAXLRGBUF
      modifies Footprint(), big
      ensures Valid() && (Abs(), r) == Join(old(Abs()), big != null)
    {
      if state == Bogus {
        return Nothing;
      }
      var whole, off, mf := SeeAll();
      if !whole {
        return Nothing;
      }
      if off > MAXLRGBUF {
        Drain();
        state := Free;
        return Nothing;
      }
      if mf {
        return Nothing;
      }
      r := IpFCons(big);
    }

    method IpFCons(big: array?<Byte>) returns (r: Outcome)
      requires Valid() && q.Contents() != [] && Walk(q.Contents(), 0).0 && Cons(Abs(), big != null).1 != Overrun
      requires big != null ==> big != q.keys as object && big != q.elts as object && big.Length == MAXLRGBUF
      modifies Footprint(), big
      ensures Valid() && (Abs(), r) == Cons(old(Abs()), big != null)
    {
      hide Walk;
      hide Overruns;
      hide Assemble;
      if big == null {
        Drain();
        state := Free;
        return Nothing;
      }
      ghost var c := q.Contents();
      assert !Overruns(c, 0);
      var hdr, n := CopyData(big);
      assert big[DATA..DATA + n] == Assemble(c, []);
      state := Free;
      return Out(Packet(hdr, false, false, 0, big[DATA..DATA + n]));
    }
  }

  /** ipfqt */
  class Reassembler {
    const ipfqt: seq<FragQueue>

    ghost function Repr(): set<object> {
      set i, o | 0 <= i < |ipfqt| && o in ipfqt[i].Footprint() :: o
    }

    ghost predicate Valid()
      reads Repr()
    {
      && |ipfqt| == IP_FQSIZE
      && (forall i :: 0 <= i < |ipfqt| ==> ipfqt[i].Valid())
      && forall i, j :: 0 <= i < j < |ipfqt| ==> ipfqt[i].Footprint() !! ipfqt[j].Footprint()
    }

    ghost function Abs(): (t: seq<FQ>)
      reads Repr()
      requires Valid()
      ensures |t| == |ipfqt| && forall i :: 0 <= i < |t| ==> t[i] == ipfqt[i].Abs()
    {
      seq(|ipfqt|, i requires 0 <= i < |ipfqt| && ipfqt[i].Valid() reads Repr() => ipfqt[i].Abs())
    }

    /** The search of ipreass: the entry of the fragment's datagram, or else the first free one. */
    method Search(f: Packet) returns (i: nat, free: nat)
      requires Valid()
      ensures i == Find(Abs(), 0, f.hdr.src, f.hdr.id)
      ensures i == |ipfqt| ==> free == FirstFree(Abs(), 0)
    {
      ghost var t := Abs();
      free := |ipfqt|;
      i := 0;
      while i < |ipfqt|
        invariant 0 <= i <= |ipfqt| && Find(t, 0, f.hdr.src, f.hdr.id) == Find(t, i, f.hdr.src, f.hdr.id)
        invariant free <= |ipfqt| && FirstFree(t, 0) == if free < |ipfqt| then free else FirstFree(t, i)
      {
        assert t[i] == ipfqt[i].Abs();
        if ipfqt[i].state == Free {
          if free == |ipfqt| {
            free := i;
          }
        } else if ipfqt[i].id == f.hdr.id && ipfqt[i].src == f.hdr.src {
          return;
        }
        i := i + 1;
      }
    }

    /** qok says whether newq can make a queue. */
    method IpReass(f: Packet, qok: bool, big: array?<Byte>) returns (r: Outcome)
      requires Valid() && Reass(Abs(), f, qok, big != null).1 != Overrun
      requires big != null ==> big !in Repr() && big.Length == MAXLRGBUF
      modifies Repr(), big
      ensures Valid() && (Abs(), r) == Reass(old(Abs()), f, qok, big != null)
    {
      hide Take;
      hide Matches;
      hide Valid;
      hide Reass;
      ghost var t, lrg := Abs(), big != null;
      ReassCases(t, f, qok, lrg);
      if !Fragment(f) {
        return Out(f);
      }
      var i, free := Search(f);
      if i < |ipfqt| {
        r := Hit(i, f, big);
        return;
      }
      if free == |ipfqt| || !qok {
        return Nothing;
      }
      Miss(free, f, lrg);
      assert Abs() == t[free := Take(t[free], f, lrg).0];
      return Nothing;
    }

    lemma ReassCases(t: seq<FQ>, f: Packet, qok: bool, lrg: bool)
      ensures var i, free, r := Find(t, 0, f.hdr.src, f.hdr.id), FirstFree(t, 0), Reass(t, f, qok, lrg);
              if !Fragment(f) then r == (t, Out(f))
              else if i < |t| then r == (t[i := Take(t[i], f, lrg).0], Take(t[i], f, lrg).1)
              else if free == |t| || !qok then r == (t, Nothing)
              else r == (t[free := Take(t[free], f, lrg).0], Nothing)
    {
    }

    method Hit(i: nat, f: Packet, big: array?<Byte>) returns (r: Outcome)
      requires Valid() && i < |ipfqt| && Matches(Abs()[i], f.hdr.src, f.hdr.id)
      requires Take(Abs()[i], f, big != null).1 != Overrun
      requires big != null ==> big !in Repr() && big.Length == MAXLRGBUF
      modifies Repr(), big
      ensures Valid() && Abs() == old(Abs())[i := Take(old(Abs())[i], f, big != null).0]
      ensures r == Take(old(Abs())[i], f, big != null).1
    {
      hide Take;
      r := AddTo(ipfqt[i], f, big);
      Updated(i);
    }

    method Miss(i: nat, f: Packet, ghost lrg: bool)
      requires Valid() && i < |ipfqt| && Abs()[i].state == Free
      modifies Repr()
      ensures Valid() && Abs() == old(Abs())[i := Take(old(Abs())[i], f, lrg).0]
    {
      hide Take;
      StartQueue(ipfqt[i], f, lrg);
      Updated(i);
    }

    /** The entries share no storage, so that a change to one is a change to that one alone. */
    twostate lemma Updated(i: nat)
      requires old(Valid()) && i < |ipfqt| && ipfqt[i].Valid()
      requires forall j :: 0 <= j < |ipfqt| && j != i ==> unchanged(ipfqt[j].Footprint())
      ensures Valid() && Abs() == old(Abs())[i := ipfqt[i].Abs()]
    {
      forall j | 0 <= j < |ipfqt| && j != i
        ensures ipfqt[j].Valid() && ipfqt[j].Abs() == old(ipfqt[j].Abs())
      {
        assert unchanged(ipfqt[j].Footprint());
      }
    }
  }

  method AddTo(fq: FragQueue, f: Packet, big: array?<Byte>) returns (r: Outcome)
    requires fq.Valid() && Matches(fq.Abs(), f.hdr.src, f.hdr.id) && Take(fq.Abs(), f, big != null).1 != Overrun
    requires big != null ==> big !in fq.Footprint() && big.Length == MAXLRGBUF
    modifies fq.Footprint(), big
    ensures fq.Valid() && (fq.Abs(), r) == Take(old(fq.Abs()), f, big != null)
  {
    hide Join;
    EnqKeepsEntries(fq.q.Contents(), FragEntry(f));
    var ok := fq.IpFAdd(f);
    if !ok {
      return Nothing;
    }
    r := fq.IpFJoin(big);
  }

  method StartQueue(fq: FragQueue, f: Packet, ghost lrg: bool)
    requires fq.Valid() && fq.state == Free
    modifies fq.Footprint()
    ensures fq.Valid() && fq.Abs() == Take(old(fq.Abs()), f, lrg).0
  {
    fq.src, fq.id, fq.state := f.hdr.src, f.hdr.id, FState.Valid;
    var ok := fq.IpFAdd(f);
  }
}
