/** The routing table in place: hash chains through the rt_next fields of the routes' buffers. */
module RouteTable {
  import opened Routes

  datatype RtBuf = RtBuf(r: Route, next: Ptr)

  // ----- chains of buffers -----

  function First(c: seq<Rid>): Ptr { if c == [] then NONE else c[0] }
  function After(c: seq<Rid>, i: nat): Ptr { if i + 1 < |c| then c[i + 1] else NONE }

  ghost predicate Joined(buf: seq<RtBuf>, c: seq<Rid>)
    requires |buf| == RT_BPSIZE
  {
    forall i :: 0 <= i < |c| ==> buf[c[i]].next == After(c, i)
  }

  lemma JoinedFrom(buf: seq<RtBuf>, c: seq<Rid>, i: nat)
    requires |buf| == RT_BPSIZE && Joined(buf, c) && i <= |c|
    ensures Joined(buf, c[i..])
  {
    var d := c[i..];
    forall j | 0 <= j < |d|
      ensures buf[d[j]].next == After(d, j)
    {
      assert d[j] == c[i + j] && After(d, j) == After(c, i + j);
    }
  }

  lemma JoinedSame(buf: seq<RtBuf>, buf': seq<RtBuf>, c: seq<Rid>)
    requires |buf| == |buf'| == RT_BPSIZE && Joined(buf, c)
    requires forall id :: id in c ==> buf'[id].next == buf[id].next
    ensures Joined(buf', c)
  {
    assert forall i :: 0 <= i < |c| ==> c[i] in c;
  }

  lemma JoinedBehind(buf: seq<RtBuf>, n: Rid, d: seq<Rid>)
    requires |buf| == RT_BPSIZE && Joined(buf, d) && buf[n].next == First(d)
    ensures Joined(buf, [n] + d)
  {
    var r := [n] + d;
    forall j | 0 <= j < |r|
      ensures buf[r[j]].next == After(r, j)
    {
      assert After(r, j) == if j == 0 then First(d) else After(d, j - 1);
    }
  }

  /** Where place i of a chain is pointed to from: the buffer before it, or the table. */
  function Prev(c: seq<Rid>, i: nat): Ptr
    requires i <= |c|
  {
    if i == 0 then NONE else c[i - 1]
  }

  /** A chain cut at place i and continued with d. */
  lemma JoinedOn(buf: seq<RtBuf>, c: seq<Rid>, i: nat, d: seq<Rid>)
    requires |buf| == RT_BPSIZE && i <= |c| && Joined(buf, c) && Joined(buf, d)
    requires Distinct(c) && forall j :: 0 <= j < i ==> c[j] !in d
    ensures var buf' := if i == 0 then buf else buf[c[i - 1] := buf[c[i - 1]].(next := First(d))];
            Joined(buf', c[..i] + d) && (i > 0 ==> First(c[..i] + d) == First(c)) && (i == 0 ==> First(c[..i] + d) == First(d))
  {
    var buf' := if i == 0 then buf else buf[c[i - 1] := buf[c[i - 1]].(next := First(d))];
    JoinedFront(buf, buf', c, i);
    hide Joined;
    hide Distinct;
    if i == 0 {
      assert c[..0] + d == d;
    } else {
      assert c[i - 1] !in d;
      JoinedSame(buf, buf', d);
      var a := c[..i];
      assert a[i - 1] == c[i - 1] && |a| == i;
      JoinedConcat(buf', a, d);
    }
  }

  lemma JoinedFront(buf: seq<RtBuf>, buf': seq<RtBuf>, c: seq<Rid>, i: nat)
    requires |buf| == |buf'| == RT_BPSIZE && i <= |c| && Joined(buf, c) && Distinct(c)
    requires forall id: Rid :: i == 0 || id != c[i - 1] ==> buf'[id] == buf[id]
    ensures forall j :: 0 <= j < i - 1 ==> buf'[c[..i][j]].next == c[..i][j + 1]
  {
    forall j | 0 <= j < i - 1
      ensures buf'[c[..i][j]].next == c[..i][j + 1]
    {
      assert c[j] != c[i - 1] && After(c, j) == c[j + 1];
    }
  }

  lemma {:induction false} JoinedConcat(buf: seq<RtBuf>, a: seq<Rid>, d: seq<Rid>)
    requires |buf| == RT_BPSIZE && Joined(buf, d)
    requires forall j :: 0 <= j < |a| - 1 ==> buf[a[j]].next == a[j + 1]
    requires a != [] ==> buf[a[|a| - 1]].next == First(d)
    ensures Joined(buf, a + d)
  {
    hide Joined;
    if a == [] {
      assert a + d == d;
    } else {
      JoinedConcat(buf, a[1..], d);
      JoinedBehind(buf, a[0], a[1..] + d);
      assert a + d == [a[0]] + (a[1..] + d);
    }
  }

  // ----- loops on addresses -----

  /** rthash, for addresses of classes A to E */
  method RtHash(net: Addr) returns (hv: nat)
    requires net[0] < 248
    ensures hv == Hash(net)
  {
    var bc: int;
    if net[0] & 0x80 == 0 { bc := 1; }
    if net[0] & 0xc0 == 0x80 { bc := 2; }
    if net[0] & 0xe0 == 0xc0 { bc := 3; }
    if net[0] & 0xf0 == 0xe0 { bc := 4; }
    if net[0] & 0xf8 == 0xf0 { bc := 4; }
    ClassOf(net[0]);
    assert bc == ClassBytes(net);
    hv := 0;
    while bc > 0
      invariant 0 <= bc <= ClassBytes(net) && hv + Sum(net, bc) == Sum(net, ClassBytes(net))
    {
      bc := bc - 1;
      hv := hv + net[bc] as nat;
    }
    hv := hv % RT_TSIZE;
  }

  /** Exactly one of rthash's tests succeeds. */
  lemma ClassOf(b: bv8)
    requires b < 248
    ensures b & 0x80 == 0 ==> b & 0xc0 != 0x80 && b & 0xe0 != 0xc0 && b & 0xf0 != 0xe0 && b & 0xf8 != 0xf0
    ensures b & 0xc0 == 0x80 ==> b & 0xe0 != 0xc0 && b & 0xf0 != 0xe0 && b & 0xf8 != 0xf0
    ensures b & 0xe0 == 0xc0 ==> b & 0xf0 != 0xe0 && b & 0xf8 != 0xf0
    ensures b & 0x80 == 0 || b & 0xc0 == 0x80 || b & 0xe0 == 0xc0 || b & 0xf0 == 0xe0 || b & 0xf8 == 0xf0
  {
  }

  /** netmatch */
  method NetMatches(dst: Addr, net: Addr, mask: Addr, local: bool, brc: bool) returns (ok: bool)
    ensures ok == NetMatch(dst, net, mask, local, brc)
  {
    var i := 0;
    while i < 4
      invariant 0 <= i <= 4 && forall j :: 0 <= j < i ==> mask[j] & dst[j] == net[j]
    {
      if mask[i] & dst[i] != net[i] {
        return false;
      }
      i := i + 1;
    }
    if local && brc {
      return mask != MASKALL;
    }
    return true;
  }

  /** The loops of rtadd that count the bits of a mask. */
  method MaskKey(mask: Addr) returns (key: nat)
    ensures key == MaskBits(mask)
  {
    key := 0;
    var i := 0;
    while i < 4
      invariant 0 <= i <= 4 && key == BitsBelow(mask, i)
    {
      var j := 0;
      while j < 8
        invariant 0 <= j <= 8 && key == BitsBelow(mask, i) + Ones(mask[i], j)
      {
        key := key + ((mask[i] >> j) & 1) as nat;
        j := j + 1;
      }
      i := i + 1;
    }
    assert BitsBelow(mask, 4) == BitsBelow(mask, 3) + Ones(mask[3], 8);
    assert BitsBelow(mask, 2) == BitsBelow(mask, 1) + Ones(mask[1], 8);
  }

  function BitsBelow(mask: Addr, n: nat): nat
    requires n <= 4
  {
    if n == 0 then 0 else BitsBelow(mask, n - 1) + Ones(mask[n - 1], 8)
  }

  // ----- the table -----

  class Table {
    const buf: array<RtBuf>       // ri_bpool
    const rttable: array<Ptr>
    var ridefault: Ptr
    ghost var tab: Tab

    ghost predicate Valid()
      reads this, buf, rttable
    {
      && buf.Length == RT_BPSIZE && rttable.Length == RT_TSIZE && Shaped(tab)
      && (forall id: Rid :: buf[id].r == tab.pool[id])
      && ridefault == tab.dflt
      && forall h :: 0 <= h < RT_TSIZE ==> rttable[h] == First(tab.chains[h]) && Joined(buf[..], tab.chains[h])
    }

    /** rtinit */
    constructor ()
      ensures Valid() && Inv(tab) && AllMasked(tab) && fresh(buf) && fresh(rttable)
    {
      var none: Addr := [0, 0, 0, 0];
      var r := Route(none, none, none, 0, 0, 0, 0, 0, 0);
      buf := new RtBuf[RT_BPSIZE](_ => RtBuf(r, NONE));
      rttable := new Ptr[RT_TSIZE](_ => NONE);
      ridefault := NONE;
      tab := Empty(seq(RT_BPSIZE, _ => r));
      EmptyInv(seq(RT_BPSIZE, _ => r));
    }

    /** Fills in a route's fields, other than its link. */
    method SetRoute(id: Rid, r: Route)
      requires Valid()
      modifies buf, this`tab
      ensures Valid() && tab == old(tab).(pool := old(tab).pool[id := r])
    {
      ghost var b := buf[..];
      buf[id] := buf[id].(r := r);
      tab := tab.(pool := tab.pool[id := r]);
      forall h | 0 <= h < RT_TSIZE
        ensures Joined(buf[..], tab.chains[h])
      {
        JoinedSame(b, buf[..], tab.chains[h]);
      }
    }

    /** RTFREE; the buffer goes back to the pool with the last reference. */
    method RtFree(id: Rid)
      requires Valid()
      modifies buf, this`tab
      ensures Valid() && tab == Drop(old(tab), id)
    {
      hide Joined;
      var r := buf[id].r;
      SetRoute(id, r.(refcnt := r.refcnt - 1));
      tab := Drop(old(tab), id);
    }

    /** Points place i of chain h at x, by way of the buffer before it or of the table. */
    method Point(h: nat, prev: Ptr, x: Ptr)
      requires buf.Length == RT_BPSIZE && rttable.Length == RT_TSIZE && h < RT_TSIZE
      modifies buf, rttable
      ensures prev == NONE ==> buf[..] == old(buf[..]) && rttable[..] == old(rttable[..])[h := x]
      ensures prev != NONE ==> buf[..] == old(buf[..])[prev := old(buf[prev]).(next := x)] && rttable[..] == old(rttable[..])
    {
      if prev != NONE {
        buf[prev] := buf[prev].(next := x);
      } else {
        rttable[h] := x;
      }
    }

    /** Continues chain h from place i on with d. */
    method Continue(h: nat, prev: Ptr, x: Ptr, ghost i: nat, ghost d: seq<Rid>)
      requires Valid() && h < RT_TSIZE && i <= |tab.chains[h]| && prev == Prev(tab.chains[h], i) && x == First(d)
      requires AllDistinct(tab) && Joined(buf[..], d) && forall j :: 0 <= j < i ==> tab.chains[h][j] !in d
      modifies buf, rttable, this`tab
      ensures Valid() && tab == SetChain(old(tab), h, old(tab).chains[h][..i] + d)
    {
      hide Joined;
      ghost var b, c := buf[..], tab.chains[h];
      JoinedOn(b, c, i, d);
      Point(h, prev, x);
      assert buf[..] == if i == 0 then b else b[c[i - 1] := b[c[i - 1]].(next := First(d))];
      forall g | 0 <= g < RT_TSIZE && g != h
        ensures Joined(buf[..], tab.chains[g])
      {
        assert i > 0 ==> c[i - 1] in c;
        JoinedSame(b, buf[..], tab.chains[g]);
      }
      tab := SetChain(tab, h, c[..i] + d);
    }

    /** Takes the route at place i out of chain h. */
    method Unlink(h: nat, prev: Ptr, id: Rid, ghost i: nat)
      requires Valid() && AllDistinct(tab) && h < RT_TSIZE && i < |tab.chains[h]|
      requires prev == Prev(tab.chains[h], i) && id == tab.chains[h][i]
      modifies buf, rttable, this`tab
      ensures Valid() && tab == SetChain(old(tab), h, old(tab).chains[h][..i] + old(tab).chains[h][i + 1..])
    {
      ghost var c := tab.chains[h];
      JoinedFrom(buf[..], c, i + 1);
      assert buf[id].next == After(c, i) == First(c[i + 1..]);
      forall j | 0 <= j < i
        ensures c[j] !in c[i + 1..]
      {
      }
      hide Joined;
      Continue(h, prev, buf[id].next, i, c[i + 1..]);
    }

    /** Puts route n, on no chain so far, at place i of chain h, in front of the rest from place k on. */
    method LinkIn(h: nat, prev: Ptr, next: Ptr, n: Rid, ghost i: nat, ghost k: nat)
      requires Valid() && AllDistinct(tab) && h < RT_TSIZE && i <= k <= |tab.chains[h]|
      requires prev == Prev(tab.chains[h], i) && next == First(tab.chains[h][k..]) && !Listed(tab, n)
      modifies buf, rttable, this`tab
      ensures Valid() && tab == SetChain(old(tab), h, old(tab).chains[h][..i] + [n] + old(tab).chains[h][k..])
    {
      ghost var b, c := buf[..], tab.chains[h];
      buf[n] := buf[n].(next := next);
      forall g | 0 <= g < RT_TSIZE
        ensures Joined(buf[..], tab.chains[g])
      {
        assert n !in tab.chains[g];
        JoinedSame(b, buf[..], tab.chains[g]);
      }
      JoinedFrom(buf[..], c, k);
      JoinedBehind(buf[..], n, c[k..]);
      ghost var d := [n] + c[k..];
      forall j | 0 <= j < i
        ensures c[j] !in d
      {
        assert c[j] in c && n !in c;
      }
      hide Joined;
      Continue(h, prev, n, i, d);
      assert c[..i] + d == c[..i] + [n] + c[k..];
    }

    // ----- the calls -----

    method RtGet(dst: Addr, local: bool, brc: bool) returns (prt: Ptr)
      requires Valid() && Inv(tab) && dst[0] < 248
      modifies buf, this`tab
      ensures Valid() && Inv(tab) && (tab, prt) == Get(old(tab), dst, local, brc)
    {
      hide Inv;
      hide Usable;
      GetInv(tab, dst, local, brc);
      prt := Search(dst, local, brc);
      if prt == NONE {
        prt := ridefault;
      }
      if prt != NONE && buf[prt].r.metric >= RTM_INF {
        prt := NONE;
      }
      SearchAgrees(dst, local, brc);
      if prt != NONE {
        var r := buf[prt].r;
        SetRoute(prt, r.(refcnt := r.refcnt + 1, usecnt := r.usecnt + 1));
        tab := tab.(handles := tab.handles + multiset{prt});
      }
    }

    /** The usable route that is found has a finite metric, so that the last test concerns only the default. */
    lemma SearchAgrees(dst: Addr, local: bool, brc: bool)
      requires Valid()
      ensures var c := tab.chains[Hash(dst)];
              var i := FindUsable(tab.pool, c, dst, local, brc);
              i < |c| ==> tab.pool[c[i]].metric < RTM_INF
    {
      FindUsableFacts(tab.pool, tab.chains[Hash(dst)], dst, local, brc);
    }

    /** The loop of rtget. */
    method Search(dst: Addr, local: bool, brc: bool) returns (prt: Ptr)
      requires Valid() && dst[0] < 248
      ensures var c := tab.chains[Hash(dst)];
              var i := FindUsable(tab.pool, c, dst, local, brc);
              prt == if i < |c| then c[i] else NONE
    {
      hide Joined;
      var hv := RtHash(dst);
      ghost var c, i := tab.chains[hv], 0;
      prt := rttable[hv];
      assert c[0..] == c;
      while prt != NONE
        invariant 0 <= i <= |c| && prt == if i < |c| then c[i] else NONE
        invariant FindUsable(tab.pool, c, dst, local, brc) == i + FindUsable(tab.pool, c[i..], dst, local, brc)
        decreases |c| - i
      {
        assert c[i..][1..] == c[i + 1..];
        if buf[prt].r.ttl > 0 {
          var match0 := NetMatches(dst, buf[prt].r.net, buf[prt].r.mask, local, brc);
          if match0 && buf[prt].r.metric < RTM_INF {
            return;
          }
        }
        NextInChain(hv, i);
        prt := buf[prt].next;
        i := i + 1;
      }
    }

    method RtDel(net: Addr, mask: Addr) returns (ok: bool)
      requires Valid() && Inv(tab) && net[0] < 248
      modifies buf, rttable, this
      ensures Valid() && Inv(tab) && (tab, ok) == Del(old(tab), net, mask)
    {
      hide Inv;
      hide Joined;
      DelInv(tab, net, mask);
      if ridefault != NONE && net == buf[ridefault].r.net {
        RtFree(ridefault);
        ridefault := NONE;
        tab := tab.(dflt := NONE);
        return true;
      }
      var hv := RtHash(net);
      ghost var i;
      var prev, prt;
      prev, prt, i := SearchExact(hv, net, mask);
      if prt == NONE {
        return false;
      }
      TableDistinct(tab);
      Unlink(hv, prev, prt, i);
      RtFree(prt);
      return true;
    }

    /** The loop of rtdel. */
    method SearchExact(hv: nat, net: Addr, mask: Addr) returns (prev: Ptr, prt: Ptr, ghost i: nat)
      requires Valid() && hv < RT_TSIZE
      ensures var c := tab.chains[hv];
              i == FindExact(tab.pool, c, net, mask) && prev == Prev(c, i) && prt == if i < |c| then c[i] else NONE
    {
      ghost var c := tab.chains[hv];
      i := 0;
      prev, prt := NONE, rttable[hv];
      assert c[0..] == c;
      while prt != NONE
        invariant 0 <= i <= |c| && prev == Prev(c, i) && prt == if i < |c| then c[i] else NONE
        invariant FindExact(tab.pool, c, net, mask) == i + FindExact(tab.pool, c[i..], net, mask)
        decreases |c| - i
      {
        assert c[i..][1..] == c[i + 1..];
        if net == buf[prt].r.net && mask == buf[prt].r.mask {
          return;
        }
        assert buf[..][c[i]].next == After(c, i);
        prev := prt;
        prt := buf[prt].next;
        i := i + 1;
      }
    }

    /** n is the buffer that getbuf yields, or NONE. */
    method RtAdd(net: Addr, mask: Addr, gw: Addr, metric: int, ifnum: int, ttl: int, n: Ptr, dorip: bool) returns (ok: bool)
      requires Valid() && Inv(tab) && net[0] < 248 && (n != NONE ==> n !in tab.live)
      modifies buf, rttable, this
      ensures Valid() && Inv(tab) && tab == Add(old(tab), New(net, mask, gw, metric, ifnum, ttl), n, dorip)
      ensures ok == (n != NONE)
    {
      hide Inv;
      hide Joined;
      hide AddToChain;
      ghost var t0 := tab;
      ghost var r := New(net, mask, gw, metric, ifnum, ttl);
      AddInv(tab, r, n, dorip);
      if n == NONE {
        return false;
      }
      ok := true;
      NewInv(tab, n, r);
      TableDistinct(tab);
      NewUnlisted(tab, n);
      var key := MaskKey(mask);
      SetRoute(n, Route(net, mask, gw, metric, ifnum, key, ttl, 1, 0));
      tab := tab.(live := tab.live + {n});
      if net == RT_DEFAULT {
        if ridefault != NONE {
          RtFree(ridefault);
        }
        ridefault := n;
        tab := tab.(dflt := n);
        return;
      }
      var hv := RtHash(net);
      StillDistinct(t0, tab, n);
      LinkRoute(hv, n, ttl, metric, dorip);
    }

    lemma StillDistinct(t: Tab, t': Tab, n: Rid)
      requires Shaped(t) && Shaped(t') && t'.chains == t.chains
      ensures AllDistinct(t) ==> AllDistinct(t')
      ensures !Listed(t, n) ==> !Listed(t', n)
    {
    }

    /** rtadd from the search of the chain on. */
    method LinkRoute(hv: nat, n: Rid, ttl: int, metric: int, dorip: bool)
      requires Valid() && hv < RT_TSIZE && AllDistinct(tab) && !Listed(tab, n)
      requires tab.pool[n].ttl == ttl && tab.pool[n].metric == metric
      modifies buf, rttable, this`tab
      ensures Valid() && tab == AddToChain(old(tab), hv, old(tab).pool[n], n, dorip)
    {
      hide Joined;
      var prev, srt, isdup, i := SearchKey(hv, n);
      if isdup {
        if buf[srt].r.gw == buf[n].r.gw {
          var r := buf[srt].r;
          if dorip {
            r := r.(ttl := ttl);
            if r.metric != metric && metric == RTM_INF {
              r := r.(ttl := RIPZTIME);
            }
          }
          SetRoute(srt, r.(metric := metric));
          RtFree(n);
          return;
        }
        if buf[srt].r.metric <= buf[n].r.metric {
          RtFree(n);
          return;
        }
        var tmprt: Rid := srt;
        NextInChain(hv, i);
        srt := buf[srt].next;
        LinkIn(hv, prev, srt, n, i, i + 1);
        RtFree(tmprt);
        return;
      }
      LinkIn(hv, prev, srt, n, i, i);
    }

    lemma NextInChain(h: nat, i: nat)
      requires Valid() && h < RT_TSIZE && i < |tab.chains[h]|
      ensures buf[tab.chains[h][i]].next == First(tab.chains[h][i + 1..])
    {
      assert buf[..][tab.chains[h][i]].next == After(tab.chains[h], i);
    }

    /** The loop of rtadd. */
    method SearchKey(hv: nat, n: Rid) returns (prev: Ptr, srt: Ptr, isdup: bool, ghost i: nat)
      requires Valid() && hv < RT_TSIZE
      ensures var c := tab.chains[hv];
              && (i, isdup) == Find(tab.pool, c, tab.pool[n])
              && prev == Prev(c, i) && srt == First(c[i..]) && (isdup ==> srt != NONE && srt == c[i])
    {
      hide Joined;
      ghost var c := tab.chains[hv];
      i := 0;
      prev, srt, isdup := NONE, rttable[hv], false;
      assert c[0..] == c;
      while srt != NONE
        invariant 0 <= i <= |c| && prev == Prev(c, i) && srt == First(c[i..]) && !isdup
        invariant Find(tab.pool, c, tab.pool[n]) ==
                  (i + Find(tab.pool, c[i..], tab.pool[n]).0, Find(tab.pool, c[i..], tab.pool[n]).1)
        decreases |c| - i
      {
        assert c[i..][1..] == c[i + 1..] && srt == c[i];
        if buf[n].r.key > buf[srt].r.key {
          break;
        }
        if buf[srt].r.net == buf[n].r.net && buf[srt].r.mask == buf[n].r.mask {
          isdup := true;
          break;
        }
        NextInChain(hv, i);
        prev := srt;
        srt := buf[srt].next;
        i := i + 1;
      }
    }

    method RtTimer(delta: int, dorip: bool)
      requires Valid() && Inv(tab)
      modifies buf, rttable, this
      ensures Valid() && Inv(tab) && tab == Timer(old(tab), delta, dorip)
    {
      hide Inv;
      hide Joined;
      hide AgeChain;
      ghost var t0 := tab;
      TimerInv(t0, delta, dorip);
      var h := 0;
      while h < RT_TSIZE
        invariant 0 <= h <= RT_TSIZE && Valid() && Inv(tab)
        invariant AgeChains(tab, h, delta, dorip) == AgeChains(t0, 0, delta, dorip)
      {
        AgeOneChain(h, delta, dorip);
        h := h + 1;
      }
      ghost var t1 := tab;
      if ridefault != NONE && buf[ridefault].r.ttl < RT_INF {
        var r := buf[ridefault].r;
        r := r.(ttl := r.ttl - delta);
        SetRoute(ridefault, r);
        if r.ttl <= 0 {
          if dorip && r.metric < RTM_INF {
            SetRoute(ridefault, r.(metric := RTM_INF, ttl := RIPZTIME));
            assert tab.pool == t1.pool[t1.dflt := r.(metric := RTM_INF, ttl := RIPZTIME)];
          } else {
            RtFree(ridefault);
            ridefault := NONE;
            tab := tab.(dflt := NONE);
          }
        }
      }
    }

    /** The inner loop of rttimer. A route that has expired is looked at once more when it has been made
        infinite, but only then, so that the loop ends. */
    method AgeOneChain(h: nat, delta: int, dorip: bool)
      requires Valid() && Inv(tab) && h < RT_TSIZE
      modifies buf, rttable, this`tab
      ensures Valid() && Inv(tab) && tab == AgeChain(old(tab), h, 0, delta, dorip)
    {
      hide Inv;
      hide Joined;
      hide AgeChain;
      ghost var t0, i := tab, 0;
      var prev: Ptr, prt := NONE, rttable[h];
      assert tab.chains[h][0..] == tab.chains[h];
      while prt != NONE
        invariant Valid() && Inv(tab) && 0 <= i <= |tab.chains[h]|
        invariant prev == Prev(tab.chains[h], i) && prt == First(tab.chains[h][i..])
        invariant AgeChain(tab, h, i, delta, dorip) == AgeChain(t0, h, 0, delta, dorip)
        decreases |tab.chains[h]| - i, if prt != NONE && tab.pool[prt].metric < RTM_INF then 1 else 0
      {
        ghost var t := tab;
        assert prt == tab.chains[h][i];
        AgeStep(t, h, i, delta, dorip);
        var r := buf[prt].r;
        if r.ttl != RT_INF {
          r := r.(ttl := r.ttl - delta);
        }
        if r.ttl <= 0 {
          if dorip && r.metric < RTM_INF {
            AgeAgain(t, h, i, delta, dorip);
            Retouched(tab, prt, r.(metric := RTM_INF, ttl := RIPZTIME));
            SetRoute(prt, r.(metric := RTM_INF, ttl := RIPZTIME));
            continue;
          }
          Retouched(tab, prt, r);
          SetRoute(prt, r);
          NextInChain(h, i);
          var next := buf[prt].next;
          ghost var c := tab.chains[h];
          assert next == First(c[i + 1..]);
          RemoveAged(h, prev, prt, i);
          assert tab.chains[h][..i] == c[..i] && tab.chains[h][i..] == c[i + 1..];
          prt := next;
        } else {
          Retouched(tab, prt, r);
          SetRoute(prt, r);
          NextInChain(h, i);
          prev := prt;
          prt := buf[prt].next;
          i := i + 1;
        }
      }
      AgeEnd(tab, h, delta, dorip);
    }

    method RemoveAged(h: nat, prev: Ptr, prt: Rid, ghost i: nat)
      requires Valid() && Inv(tab) && h < RT_TSIZE && i < |tab.chains[h]|
      requires prev == Prev(tab.chains[h], i) && prt == tab.chains[h][i]
      modifies buf, rttable, this`tab
      ensures Valid() && Inv(tab)
      ensures var c := old(tab).chains[h];
              tab == Drop(SetChain(old(tab), h, c[..i] + c[i + 1..]), c[i])
    {
      hide Inv;
      hide Joined;
      TableDistinct(tab);
      UnlinkInv(tab, h, i);
      Unlink(h, prev, prt, i);
      DropInv(tab, prt);
      RtFree(prt);
    }
  }

  lemma AgeStep(t: Tab, h: nat, i: nat, delta: int, dorip: bool)
    requires Shaped(t) && h < RT_TSIZE && i < |t.chains[h]|
    ensures var c := t.chains[h];
            var x := Age(t.pool[c[i]], delta, dorip);
            var t1 := t.(pool := t.pool[c[i] := x.r]);
            AgeChain(t, h, i, delta, dorip) ==
            if x.Keep? then AgeChain(t1, h, i + 1, delta, dorip)
            else AgeChain(Drop(SetChain(t1, h, c[..i] + c[i + 1..]), c[i]), h, i, delta, dorip)
  {
  }

  lemma AgeEnd(t: Tab, h: nat, delta: int, dorip: bool)
    requires Shaped(t) && h < RT_TSIZE
    ensures AgeChain(t, h, |t.chains[h]|, delta, dorip) == t
  {
  }

  /** Looking again at a route just made infinite leads where the first look would have. */
  lemma AgeAgain(t: Tab, h: nat, i: nat, delta: int, dorip: bool)
    requires Shaped(t) && h < RT_TSIZE && i < |t.chains[h]|
    requires var r := t.pool[t.chains[h][i]];
             var ttl := if r.ttl != RT_INF then r.ttl - delta else r.ttl;
             ttl <= 0 && dorip && r.metric < RTM_INF
    ensures var id := t.chains[h][i];
            AgeChain(t.(pool := t.pool[id := t.pool[id].(metric := RTM_INF, ttl := RIPZTIME)]), h, i, delta, dorip)
            == AgeChain(t, h, i, delta, dorip)
  {
    var id := t.chains[h][i];
    var t' := t.(pool := t.pool[id := t.pool[id].(metric := RTM_INF, ttl := RIPZTIME)]);
    assert Age(t'.pool[id], delta, dorip) == Age(t.pool[id], delta, dorip);
    var r := Age(t.pool[id], delta, dorip).r;
    assert t'.pool[id := r] == t.pool[id := r];
  }
}
