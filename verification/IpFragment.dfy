/** Fragmentation of IP datagrams without options (section 3.2 of RFC 791): ipputp and ipfsend. */
module IpFragment {
  import opened Ring

  const IPMHLEN := 20

  datatype Header = Header(tos: int, id: int, ttl: int, proto: int, src: int, dst: int)

  /** An IP packet; df, mf and fragoff are the parts of ip_fragoff, the last in units of eight bytes. */
  datatype Packet = Packet(hdr: Header, df: bool, mf: bool, fragoff: nat, data: seq<Byte>) {
    function Start(): nat { 8 * fragoff }
    function End(): nat { 8 * fragoff + |data| }
    function Len(): nat { IPMHLEN + |data| }
  }

  /** The loop of ipputp: pieces of m bytes, and the residual, which keeps the packet's own MF. */
  function Pieces(p: Packet, m: nat): seq<Packet>
    requires m > 0 && m % 8 == 0
    decreases |p.data|
  {
    if |p.data| <= m then [p.(df := false)]
    else [p.(df := false, mf := true, data := p.data[..m])] + Pieces(Rest(p, m), m)
  }

  function Rest(p: Packet, m: nat): Packet
    requires 0 < m < |p.data|
  {
    p.(fragoff := p.fragoff + m / 8, data := p.data[m..])
  }

  function MaxData(mtu: nat): (m: nat)
    requires mtu >= IPMHLEN + 8
    ensures 0 < m <= mtu - IPMHLEN && m % 8 == 0
  {
    (mtu - IPMHLEN) / 8 * 8
  }

  /** The packets ipputp puts on an interface. */
  function PutPacket(p: Packet, mtu: nat): seq<Packet>
    requires mtu >= IPMHLEN + 8
  {
    if p.Len() <= mtu then [p]
    else if p.df then []
    else Pieces(p, MaxData(mtu))
  }

  lemma {:induction false} PiecesFit(p: Packet, m: nat)
    requires m > 0 && m % 8 == 0
    ensures forall f :: f in Pieces(p, m) ==> |f.data| <= m
    decreases |p.data|
  {
    if |p.data| > m {
      PiecesFit(Rest(p, m), m);
    }
  }

  /** Nothing longer than the MTU is sent. */
  lemma AllFit(p: Packet, mtu: nat)
    requires mtu >= IPMHLEN + 8
    ensures forall f :: f in PutPacket(p, mtu) ==> f.Len() <= mtu
  {
    PiecesFit(p, MaxData(mtu));
  }

  /** What fits is sent as it is. A datagram that must not be fragmented is otherwise not sent at all; any other
      is sent in as few pieces as the link allows, all with its header: every piece but the last has as many
      whole eights of bytes as fit. */
  lemma PutExact(p: Packet, mtu: nat)
    requires mtu >= IPMHLEN + 8
    ensures p.Len() <= mtu ==> PutPacket(p, mtu) == [p]
    ensures p.Len() > mtu && p.df ==> PutPacket(p, mtu) == []
    ensures p.Len() > mtu && !p.df ==>
              var fs := PutPacket(p, mtu);
              && |fs| >= 2 && (forall f :: f in fs ==> f.hdr == p.hdr && f.data != [])
              && forall i :: 0 <= i < |fs| - 1 ==> fs[i].mf && fs[i].Len() <= mtu < fs[i].Len() + 8 && |fs[i].data| % 8 == 0
  {
    if p.Len() > mtu {
      PiecesExact(p, MaxData(mtu));
    }
  }

  lemma {:induction false} PiecesExact(p: Packet, m: nat)
    requires m > 0 && m % 8 == 0 && p.data != []
    ensures var fs := Pieces(p, m);
            && |fs| >= 1 && (|p.data| > m ==> |fs| >= 2) && (forall f :: f in fs ==> f.hdr == p.hdr && f.data != [])
            && forall i :: 0 <= i < |fs| - 1 ==> fs[i].mf && |fs[i].data| == m
    decreases |p.data|
  {
    if |p.data| > m {
      PiecesExact(Rest(p, m), m);
      var first, rest := p.(df := false, mf := true, data := p.data[..m]), Pieces(Rest(p, m), m);
      assert Pieces(p, m) == [first] + rest;
      assert forall i :: 0 < i < |rest| ==> ([first] + rest)[i] == rest[i - 1];
    }
  }

  // ----- links too narrow to fragment for -----

  /** maxdlen as ipputp computes it for any MTU. */
  function MaxDlen(mtu: int): int { (mtu - IPMHLEN) / 8 * 8 }

  /** tosend after n turns of the loop of ipputp. */
  function ToSend(p: Packet, mtu: int, n: nat): int { |p.data| - n * MaxDlen(mtu) }

  lemma MaxDlenPositive(mtu: int)
    ensures MaxDlen(mtu) > 0 <==> mtu >= IPMHLEN + 8
    ensures mtu >= IPMHLEN + 8 ==> MaxDlen(mtu) == MaxData(mtu)
    ensures MaxDlen(mtu) <= mtu - IPMHLEN
  {
  }

  lemma {:induction false} NeverLess(p: Packet, mtu: int, n: nat)
    requires MaxDlen(mtu) <= 0
    ensures ToSend(p, mtu, n) >= |p.data|
  {
    hide MaxDlen;
    if n > 0 {
      NeverLess(p, mtu, n - 1);
      assert n * MaxDlen(mtu) == (n - 1) * MaxDlen(mtu) + MaxDlen(mtu);
    }
  }

  /** A turn of the loop makes progress, and the loop ends, if and only if the link carries at least eight
      bytes of data; on a narrower one it makes pieces for ever. */
  lemma FragmentingEnds(p: Packet, mtu: int)
    requires p.Len() > mtu
    ensures (exists n: nat :: ToSend(p, mtu, n) <= MaxDlen(mtu)) <==> mtu >= IPMHLEN + 8
    ensures ToSend(p, mtu, 1) < |p.data| <==> mtu >= IPMHLEN + 8
  {
    MaxDlenPositive(mtu);
    var m := MaxDlen(mtu);
    hide MaxDlen;
    if m > 0 {
      var n := |p.data|;
      assert n * m >= n;
      assert ToSend(p, mtu, n) <= m;
    } else {
      forall n: nat
        ensures ToSend(p, mtu, n) > m
      {
        NeverLess(p, mtu, n);
      }
    }
  }

  // ----- what fragments mean -----

  /** Headers that differ at most in their time to live, which every router lowers. */
  predicate Kin(h: Header, g: Header) { h == g.(ttl := h.ttl) }

  /** A whole datagram that may be fragmented. */
  predicate Datagram(d: Packet) {
    !d.df && !d.mf && d.fragoff == 0 && d.data != []
  }

  /** f is a fragment of d: its bytes are d's, and MF says whether more of d follows. */
  predicate PieceOf(f: Packet, d: Packet) {
    && Kin(f.hdr, d.hdr) && !f.df && f.data != [] && f.End() <= |d.data|
    && f.data == d.data[f.Start()..f.End()]
    && (f.mf <==> f.End() < |d.data|)
  }

  /** Fragments of d that follow each other from byte a to byte b. */
  predicate Chain(fs: seq<Packet>, d: Packet, a: nat, b: nat) {
    if fs == [] then a == b
    else PieceOf(fs[0], d) && fs[0].Start() == a && Chain(fs[1..], d, fs[0].End(), b)
  }

  lemma {:induction false} ChainJoins(fs: seq<Packet>, gs: seq<Packet>, d: Packet, a: nat, b: nat, c: nat)
    requires Chain(fs, d, a, b) && Chain(gs, d, b, c)
    ensures Chain(fs + gs, d, a, c)
  {
    if fs == [] {
      assert fs + gs == gs;
    } else {
      ChainJoins(fs[1..], gs, d, fs[0].End(), b, c);
      assert (fs + gs)[1..] == fs[1..] + gs;
    }
  }

  lemma {:induction false} ChainParts(fs: seq<Packet>, i: nat, d: Packet, a: nat, b: nat)
    requires Chain(fs, d, a, b) && i < |fs|
    ensures PieceOf(fs[i], d)
    ensures Chain(fs[..i], d, a, fs[i].Start()) && Chain(fs[i + 1..], d, fs[i].End(), b)
  {
    if i > 0 {
      ChainParts(fs[1..], i - 1, d, fs[0].End(), b);
      assert fs[..i][1..] == fs[1..][..i - 1];
      assert fs[i + 1..] == fs[1..][i..];
    }
  }

  lemma RestIsPiece(p: Packet, m: nat, d: Packet)
    requires PieceOf(p, d) && 0 < m < |p.data| && m % 8 == 0
    ensures PieceOf(Rest(p, m), d) && Rest(p, m).End() == p.End() && Rest(p, m).Start() == p.Start() + m
    ensures PieceOf(p.(df := false, mf := true, data := p.data[..m]), d)
  {
    SliceOfSlice(d.data, p.Start(), p.End(), 0, m);
    SliceOfSlice(d.data, p.Start(), p.End(), m, |p.data|);
    assert p.data[m..] == p.data[m..|p.data|];
    assert p.data[..m] == p.data[0..m];
  }

  /** Cutting a fragment yields fragments of the same datagram, end to end. */
  lemma {:induction false} PiecesChain(p: Packet, m: nat, d: Packet)
    requires PieceOf(p, d) && m > 0 && m % 8 == 0
    ensures Chain(Pieces(p, m), d, p.Start(), p.End())
    decreases |p.data|
  {
    if |p.data| <= m {
      assert [p.(df := false)][1..] == [];
    } else {
      RestIsPiece(p, m, d);
      PiecesChain(Rest(p, m), m, d);
      var first := p.(df := false, mf := true, data := p.data[..m]);
      assert ([first] + Pieces(Rest(p, m), m))[1..] == Pieces(Rest(p, m), m);
    }
  }

  lemma PutChain(p: Packet, mtu: nat, d: Packet)
    requires PieceOf(p, d) && mtu >= IPMHLEN + 8
    ensures Chain(PutPacket(p, mtu), d, p.Start(), p.End())
  {
    PiecesChain(p, MaxData(mtu), d);
    assert [p][1..] == [];
  }

  // ----- a datagram's way through a net -----

  /** One of the packets on the way crosses a link, with the time to live that is left to it. */
  datatype Hop = Hop(which: nat, mtu: nat, ttl: int)

  function Aged(f: Packet, ttl: int): Packet { f.(hdr := f.hdr.(ttl := ttl)) }

  function Cross(fs: seq<Packet>, h: Hop): seq<Packet>
    requires h.mtu >= IPMHLEN + 8
  {
    if h.which < |fs| then fs[..h.which] + PutPacket(Aged(fs[h.which], h.ttl), h.mtu) + fs[h.which + 1..] else fs
  }

  function Travel(fs: seq<Packet>, hops: seq<Hop>): seq<Packet>
    requires forall h :: h in hops ==> h.mtu >= IPMHLEN + 8
    decreases |hops|
  {
    if hops == [] then fs else Travel(Cross(fs, hops[0]), hops[1..])
  }

  lemma CrossKeepsChain(fs: seq<Packet>, h: Hop, d: Packet, a: nat, b: nat)
    requires h.mtu >= IPMHLEN + 8 && Chain(fs, d, a, b)
    ensures Chain(Cross(fs, h), d, a, b)
  {
    var i := h.which;
    if i < |fs| {
      var f := Aged(fs[i], h.ttl);
      ChainParts(fs, i, d, a, b);
      PutChain(f, h.mtu, d);
      ChainJoins(fs[..i], PutPacket(f, h.mtu), d, a, f.Start(), f.End());
      ChainJoins(fs[..i] + PutPacket(f, h.mtu), fs[i + 1..], d, a, f.End(), b);
    }
  }

  lemma {:induction false} TravelKeepsChain(fs: seq<Packet>, hops: seq<Hop>, d: Packet, a: nat, b: nat)
    requires (forall h :: h in hops ==> h.mtu >= IPMHLEN + 8) && Chain(fs, d, a, b)
    ensures Chain(Travel(fs, hops), d, a, b)
    decreases |hops|
  {
    if hops != [] {
      CrossKeepsChain(fs, hops[0], d, a, b);
      TravelKeepsChain(Cross(fs, hops[0]), hops[1..], d, a, b);
    }
  }

  /** A datagram that must not be fragmented arrives in one piece, as it was but for its time to live, if every
      link it crosses is wide enough for it; otherwise it does not arrive at all. */
  lemma {:induction false} DontFragment(d: Packet, hops: seq<Hop>)
    requires d.df && forall h :: h in hops ==> h.mtu >= IPMHLEN + 8
    ensures var fs := Travel([d], hops);
            if forall h :: h in hops && h.which == 0 ==> d.Len() <= h.mtu
            then |fs| == 1 && Kin(fs[0].hdr, d.hdr) && fs[0] == d.(hdr := fs[0].hdr)
            else fs == []
    decreases |hops|
  {
    if hops != [] {
      var h, rest := hops[0], hops[1..];
      assert forall x :: x in hops <==> x == h || x in rest;
      var d' := Aged(d, h.ttl);
      PutExact(d', h.mtu);
      hide PutPacket;
      if h.which > 0 {
        assert Cross([d], h) == [d];
        DontFragment(d, rest);
      } else if d.Len() <= h.mtu {
        assert [d][..0] + [d'] + [d][1..] == [d'];
        assert Cross([d], h) == [d'];
        DontFragment(d', rest);
      } else {
        assert [d][..0] + [] + [d][1..] == [];
        assert Cross([d], h) == [];
        NothingTravels(rest);
      }
    }
  }

  lemma {:induction false} NothingTravels(hops: seq<Hop>)
    requires forall h :: h in hops ==> h.mtu >= IPMHLEN + 8
    ensures Travel([], hops) == []
    decreases |hops|
  {
    if hops != [] {
      NothingTravels(hops[1..]);
    }
  }

  lemma WholeIsPiece(d: Packet)
    requires Datagram(d)
    ensures PieceOf(d, d)
  {
    assert d.data[0..|d.data|] == d.data;
  }

  /** However often a datagram and its fragments are cut, the pieces tile it. */
  lemma FragmentsTile(d: Packet, hops: seq<Hop>)
    requires (forall h :: h in hops ==> h.mtu >= IPMHLEN + 8) && Datagram(d)
    ensures Chain(Travel([d], hops), d, 0, |d.data|)
  {
    WholeIsPiece(d);
    hide PieceOf;
    hide Travel;
    assert [d][1..] == [];
    assert Chain([d], d, 0, |d.data|);
    TravelKeepsChain([d], hops, d, 0, |d.data|);
  }

  // ----- in place -----

  /** A packet in a network buffer: the header's fields, and ep_data with the header's bytes in front. */
  class Ep {
    var hdr: Header
    var df: bool
    var mf: bool
    var fragoff: nat
    var len: nat                 // ip_len
    const epdata: array<Byte>

    predicate Valid()
      reads this
    {
      IPMHLEN <= len <= epdata.Length
    }

    function Abs(): Packet
      reads this, epdata
      requires Valid()
    {
      Packet(hdr, df, mf, fragoff, epdata[IPMHLEN..len])
    }
  }

  /** The packets handed to netwrite, in order. */
  method IpPutP(pep: Ep, mtu: nat) returns (wire: seq<Packet>)
    requires pep.Valid() && mtu >= IPMHLEN + 8
    modifies pep, pep.epdata
    ensures wire == PutPacket(old(pep.Abs()), mtu)
  {
    if pep.len <= mtu {
      return [pep.Abs()];
    }
    if pep.df {
      return [];
    }
    var maxdlen := MaxData(mtu);
    var front, offset := CutFront(pep, maxdlen);
    Slide(pep, offset);
    wire := front + [pep.Abs()];
  }

  /** The loop of ipputp: all pieces but the last, and how many bytes they took. */
  method CutFront(pep: Ep, maxdlen: nat) returns (wire: seq<Packet>, offset: nat)
    requires pep.Valid() && maxdlen > 0 && maxdlen % 8 == 0
    ensures offset % 8 == 0 && offset <= |pep.Abs().data|
    ensures var p := pep.Abs();
            Pieces(p, maxdlen) == wire + [p.(df := false, fragoff := p.fragoff + offset / 8, data := p.data[offset..])]
  {
    hide Pieces;
    ghost var p, rest := pep.Abs(), pep.Abs();
    var offindg, tosend := 8 * pep.fragoff, pep.len - IPMHLEN;
    wire, offset := [], 0;
    assert [] + Pieces(rest, maxdlen) == Pieces(p, maxdlen);
    while tosend > maxdlen
      modifies {}
      invariant 0 <= tosend && offset + tosend == |p.data| && offset % 8 == 0 && offindg == rest.Start()
      invariant rest == p.(fragoff := p.fragoff + offset / 8, data := p.data[offset..])
      invariant wire + Pieces(rest, maxdlen) == Pieces(p, maxdlen)
    {
      var f := IpFSend(pep, offset, maxdlen, offindg);
      assert f.data == rest.data[..maxdlen];
      NextPiece(wire, rest, maxdlen, f);
      wire := wire + [f];
      rest := Rest(rest, maxdlen);
      tosend, offset, offindg := tosend - maxdlen, offset + maxdlen, offindg + maxdlen;
    }
    LastPiece(rest, maxdlen);
  }

  lemma LastPiece(p: Packet, m: nat)
    requires m > 0 && m % 8 == 0 && |p.data| <= m
    ensures Pieces(p, m) == [p.(df := false)]
  {
  }

  /** The residual is moved to the front of its buffer; it keeps MF. */
  method Slide(pep: Ep, offset: nat)
    requires pep.Valid() && offset % 8 == 0 && offset <= |pep.Abs().data|
    modifies pep, pep.epdata
    ensures pep.Valid()
    ensures var p := old(pep.Abs());
            pep.Abs() == p.(df := false, fragoff := p.fragoff + offset / 8, data := p.data[offset..])
  {
    var tosend := pep.len - IPMHLEN - offset;
    assert pep.epdata[IPMHLEN + offset..IPMHLEN + offset + tosend] == pep.Abs().data[offset..];
    ghost var moved := pep.Abs().data[offset..];
    BlkCopy(pep.epdata, IPMHLEN, IPMHLEN + offset, tosend);
    assert pep.epdata[IPMHLEN..IPMHLEN + tosend] == moved;
    pep.df, pep.fragoff, pep.len := false, (8 * pep.fragoff + offset) / 8, tosend + IPMHLEN;
  }

  lemma NextPiece(wire: seq<Packet>, p: Packet, m: nat, f: Packet)
    requires m > 0 && m % 8 == 0 && |p.data| > m
    requires f == p.(df := false, mf := true, data := p.data[..m])
    ensures wire + [f] + Pieces(Rest(p, m), m) == wire + Pieces(p, m)
  {
  }

  /** One fragment, in a new buffer. */
  method IpFSend(pep: Ep, offset: nat, maxdlen: nat, offindg: nat) returns (f: Packet)
    requires pep.Valid() && IPMHLEN + offset + maxdlen <= pep.len
    ensures f == Packet(pep.hdr, false, true, offindg / 8, pep.Abs().data[offset..offset + maxdlen])
  {
    var data := pep.epdata[IPMHLEN + offset..IPMHLEN + offset + maxdlen];
    forall k | 0 <= k < maxdlen
      ensures data[k] == pep.Abs().data[offset..offset + maxdlen][k]
    {
      assert pep.Abs().data[offset + k] == pep.epdata[IPMHLEN + (offset + k)];
    }
    assert data == pep.Abs().data[offset..offset + maxdlen];
    f := Packet(pep.hdr, false, true, offindg / 8, data);
  }

  /** blkcopy down within one buffer, where the two ranges may overlap. */
  method BlkCopy(a: array<Byte>, to: nat, from: nat, n: nat)
    requires to <= from && from + n <= a.Length
    modifies a
    ensures forall j :: to <= j < to + n ==> a[j] == old(a[from + (j - to)])
    ensures forall k :: 0 <= k < a.Length && !(to <= k < to + n) ==> a[k] == old(a[k])
  {
    for k := 0 to n
      invariant forall j :: to <= j < to + k ==> a[j] == old(a[from + (j - to)])
      invariant forall j :: 0 <= j < a.Length && !(to <= j < to + k) ==> a[j] == old(a[j])
    {
      a[to + k] := a[from + k];
    }
  }
}
