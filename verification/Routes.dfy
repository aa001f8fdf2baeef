/** The IP routing table on values: hash chains of route numbers, a default route, and counted references.
    A route's number is the buffer it lives in. */
module Routes {

  const RT_TSIZE := 512
  const RT_BPSIZE := 100
  const RT_INF := 999
  const RTM_INF := 16
  const RIPZTIME := 120
  const NONE := -1

  /** The number of a buffer of the pool, and a pointer that may be NULL. */
  type Rid = i: int | 0 <= i < RT_BPSIZE
  type Ptr = i: int | NONE <= i < RT_BPSIZE

  type Addr = a: seq<bv8> | |a| == 4 witness [0, 0, 0, 0]

  const RT_DEFAULT: Addr := [0, 0, 0, 0]
  const MASKALL: Addr := [0xff, 0xff, 0xff, 0xff]

  datatype Route = Route(
    net: Addr, mask: Addr, gw: Addr, metric: int, ifnum: int, key: int, ttl: int, refcnt: int, usecnt: int)

  /** handles are the references that rtget has given out and rtfree has not yet taken back. */
  datatype Tab = Tab(pool: seq<Route>, live: set<Rid>, chains: seq<seq<Rid>>, dflt: Ptr, handles: multiset<Rid>)

  // ----- addresses -----

  /** How many bytes of an address its class gives to the network. */
  function ClassBytes(a: Addr): (bc: nat)
    ensures bc <= 4
  {
    if a[0] & 0x80 == 0 then 1
    else if a[0] & 0xc0 == 0x80 then 2
    else if a[0] & 0xe0 == 0xc0 then 3
    else 4
  }

  function Sum(a: Addr, n: nat): nat
    requires n <= 4
  {
    if n == 0 then 0 else Sum(a, n - 1) + a[n - 1] as nat
  }

  function Hash(a: Addr): (h: nat)
    ensures h < RT_TSIZE
  {
    Sum(a, ClassBytes(a)) % RT_TSIZE
  }

  /** The one bits among the low n bits of a byte. */
  function Ones(b: bv8, n: nat): nat
    requires n <= 8
  {
    if n == 0 then 0 else Ones(b, n - 1) + ((b >> (n - 1)) & 1) as nat
  }

  /** The length of a mask: the number of its one bits. */
  function MaskBits(m: Addr): nat { Ones(m[0], 8) + Ones(m[1], 8) + Ones(m[2], 8) + Ones(m[3], 8) }

  /** brc says whether dst is a broadcast address. */
  predicate NetMatch(dst: Addr, net: Addr, mask: Addr, local: bool, brc: bool) {
    && (forall i :: 0 <= i < 4 ==> mask[i] & dst[i] == net[i])
    && (local && brc ==> mask != MASKALL)
  }

  /** The mask covers the bytes that the class of the net gives to the network. */
  predicate Masked(net: Addr, mask: Addr) {
    net[0] < 248 && forall i :: 0 <= i < ClassBytes(net) ==> mask[i] == 0xff
  }

  lemma {:induction false} SumSame(a: Addr, b: Addr, n: nat)
    requires n <= 4 && forall i :: 0 <= i < n ==> a[i] == b[i]
    ensures Sum(a, n) == Sum(b, n)
  {
    if n > 0 {
      SumSame(a, b, n - 1);
    }
  }

  lemma AllOnes(m: bv8, x: bv8)
    requires m == 0xff
    ensures m & x == x
  {
  }

  /** A destination hashes to the chain of every route that it matches. */
  lemma MatchHashes(dst: Addr, net: Addr, mask: Addr)
    requires Masked(net, mask) && NetMatch(dst, net, mask, false, false)
    ensures Hash(dst) == Hash(net)
  {
    forall i | 0 <= i < ClassBytes(net)
      ensures dst[i] == net[i]
    {
      AllOnes(mask[i], dst[i]);
    }
    assert dst[0] == net[0];
    SumSame(dst, net, ClassBytes(net));
  }

  /** Without that, a route may match a destination and not be in its chain. */
  lemma ShortMaskMissesItsChain() returns (dst: Addr, net: Addr, mask: Addr)
    ensures net[0] < 248 && NetMatch(dst, net, mask, false, false) && Hash(dst) != Hash(net)
  {
    dst, net, mask := [11, 0, 0, 0], [10, 0, 0, 0], [0xfe, 0, 0, 0];
    assert Sum(dst, 1) == Sum(dst, 0) + 11 && Sum(net, 1) == Sum(net, 0) + 10;
  }

  lemma {:induction false} SumOther(a: Addr, i: nat, x: bv8, n: nat)
    requires i < n <= 4
    ensures Sum(a[i := x], n) == Sum(a, n) - a[i] as nat + x as nat
  {
    if i < n - 1 {
      SumOther(a, i, x, n - 1);
    } else {
      SumSame(a[i := x], a, i);
    }
  }

  /** A byte with a bit that the mask leaves free also matches with all such bits set. */
  lemma FreeBit(m: bv8, x: bv8)
    requires m & x == x && m != 0xff
    ensures m & (x | !m) == x && x | !m != x
  {
  }

  lemma DifferentBytes(x: bv8, y: bv8)
    requires x != y
    ensures x as nat != y as nat
  {
    ThereAndBack(x);
    ThereAndBack(y);
  }

  lemma ThereAndBack(x: bv8)
    ensures (x as nat) as bv8 == x
  {
  }

  lemma OtherByte(m: bv8, x: bv8) returns (y: bv8)
    requires m & x == x && m != 0xff
    ensures m & y == x && y as nat != x as nat
  {
    FreeBit(m, x);
    y := x | !m;
    DifferentBytes(y, x);
  }

  lemma HashesDiffer(a: nat, x: nat, y: nat)
    requires x != y && x < 256 && y < 256 && x <= a
    ensures a % RT_TSIZE != (a - x + y) % RT_TSIZE
  {
  }

  /** Sums of bytes never fall below one of them. */
  lemma {:induction false} SumAtLeast(a: Addr, i: nat, n: nat)
    requires i < n <= 4
    ensures Sum(a, n) >= a[i] as nat
  {
    if i < n - 1 {
      SumAtLeast(a, i, n - 1);
    }
  }

  lemma SameClass(a: Addr, i: nat, x: bv8)
    requires 0 < i < 4
    ensures ClassBytes(a[i := x]) == ClassBytes(a)
  {
  }

  /** Changing one byte that counts changes the hash. */
  lemma OtherHash(a: Addr, i: nat, x: bv8)
    requires 0 < i < ClassBytes(a) && x as nat != a[i] as nat
    ensures Hash(a[i := x]) != Hash(a)
  {
    hide ClassBytes;
    hide Sum;
    var n := ClassBytes(a);
    SameClass(a, i, x);
    SumOther(a, i, x, n);
    SumAtLeast(a, i, n);
    HashesDiffer(Sum(a, n), a[i] as nat, x as nat);
  }

  lemma StillMatches(net: Addr, mask: Addr, i: nat, x: bv8)
    requires NetMatch(net, net, mask, false, false) && i < 4 && mask[i] & x == net[i]
    ensures NetMatch(net[i := x], net, mask, false, false)
  {
  }

  /** A destination with another byte where the mask does not cover the class. */
  lemma OtherDestination(net: Addr, mask: Addr, i: nat) returns (dst: Addr)
    requires NetMatch(net, net, mask, false, false) && 0 < i < ClassBytes(net) && mask[i] != 0xff
    ensures NetMatch(dst, net, mask, false, false) && Hash(dst) != Hash(net)
  {
    hide Hash;
    hide ClassBytes;
    assert mask[i] & net[i] == net[i];
    hide NetMatch;
    var x := OtherByte(mask[i], net[i]);
    dst := net[i := x];
    StillMatches(net, mask, i, x);
    OtherHash(net, i, x);
  }

  /** When the mask covers the first byte, and with it the class itself, every destination that matches
      hashes to the chain of the route if and only if the mask covers all the bytes of the class. */
  lemma MatchHashesIff(net: Addr, mask: Addr)
    requires net[0] < 248 && NetMatch(net, net, mask, false, false) && mask[0] == 0xff
    ensures (forall dst: Addr :: NetMatch(dst, net, mask, false, false) ==> Hash(dst) == Hash(net)) <==> Masked(net, mask)
  {
    if Masked(net, mask) {
      forall dst: Addr | NetMatch(dst, net, mask, false, false)
        ensures Hash(dst) == Hash(net)
      {
        MatchHashes(dst, net, mask);
      }
    } else {
      var i :| 0 <= i < ClassBytes(net) && mask[i] != 0xff;
      var dst := OtherDestination(net, mask, i);
    }
  }

  /** A mask that leaves a class bit free may do by chance: the only other destination is of another class
      and has two more bytes that count, and the sums differ by the size of the table. */
  lemma FreeClassBitMayDo() returns (net: Addr, mask: Addr)
    ensures NetMatch(net, net, mask, false, false) && !Masked(net, mask)
    ensures forall dst: Addr :: NetMatch(dst, net, mask, false, false) ==> Hash(dst) == Hash(net)
  {
    net, mask := [74, 200, 184, 1], [0x7f, 0xff, 0xff, 0xff];
    forall dst: Addr | NetMatch(dst, net, mask, false, false)
      ensures Hash(dst) == Hash(net)
    {
      assert dst[1] == 200 && dst[2] == 184 && dst[3] == 1 by {
        AllOnes(mask[1], dst[1]);
        AllOnes(mask[2], dst[2]);
        AllOnes(mask[3], dst[3]);
      }
      EitherClass(dst[0]);
      if dst[0] == 74 {
        assert dst == net;
      } else {
        assert Sum(dst, 1) == 202 && Sum(dst, 2) == 402 && Sum(dst, 3) == 586;
      }
    }
    assert Sum(net, 1) == 74;
  }

  lemma EitherClass(x: bv8)
    requires 0x7f & x == 74
    ensures x == 74 || x == 202
  {
  }

  // ----- chains -----

  /** Where rtadd's search stops in a chain, and whether at a route for the same net and mask. */
  function Find(pool: seq<Route>, c: seq<Rid>, r: Route): (x: (nat, bool))
    requires |pool| == RT_BPSIZE
    ensures x.0 <= |c| && (x.1 ==> x.0 < |c|)
  {
    if c == [] || r.key > pool[c[0]].key then (0, false)
    else if pool[c[0]].net == r.net && pool[c[0]].mask == r.mask then (0, true)
    else var x := Find(pool, c[1..], r); (x.0 + 1, x.1)
  }

  /** Where rtdel finds the route for a net and mask, or the chain's length. */
  function FindExact(pool: seq<Route>, c: seq<Rid>, net: Addr, mask: Addr): (i: nat)
    requires |pool| == RT_BPSIZE
    ensures i <= |c|
  {
    if c == [] || (pool[c[0]].net == net && pool[c[0]].mask == mask) then 0 else 1 + FindExact(pool, c[1..], net, mask)
  }

  predicate Usable(r: Route, dst: Addr, local: bool, brc: bool) {
    r.ttl > 0 && NetMatch(dst, r.net, r.mask, local, brc) && r.metric < RTM_INF
  }

  /** Where rtget finds a usable route, or the chain's length. */
  function FindUsable(pool: seq<Route>, c: seq<Rid>, dst: Addr, local: bool, brc: bool): (i: nat)
    requires |pool| == RT_BPSIZE
    ensures i <= |c|
  {
    if c == [] || Usable(pool[c[0]], dst, local, brc) then 0 else 1 + FindUsable(pool, c[1..], dst, local, brc)
  }

  predicate Shaped(t: Tab) {
    |t.pool| == RT_BPSIZE && |t.chains| == RT_TSIZE
  }

  // ----- operations -----

  /** RTFREE */
  function Drop(t: Tab, id: Rid): (r: Tab)
    requires Shaped(t)
    ensures Shaped(r)
  {
    var n := t.pool[id].refcnt - 1;
    t.(pool := t.pool[id := t.pool[id].(refcnt := n)], live := if n <= 0 then t.live - {id} else t.live)
  }

  /** rtnew, into buffer n, and the key that rtadd computes. */
  function New(net: Addr, mask: Addr, gw: Addr, metric: int, ifnum: int, ttl: int): Route {
    Route(net, mask, gw, metric, ifnum, MaskBits(mask), ttl, 1, 0)
  }

  function SetChain(t: Tab, h: int, c: seq<Rid>): (r: Tab)
    requires Shaped(t) && 0 <= h < RT_TSIZE
    ensures Shaped(r)
  {
    t.(chains := t.chains[h := c])
  }

  /** rtadd; n is the buffer that getbuf yields, or NONE. */
  function Add(t: Tab, r: Route, n: Ptr, dorip: bool): (t': Tab)
    requires Shaped(t)
    ensures Shaped(t')
  {
    if n == NONE then t
    else
      var t1 := t.(pool := t.pool[n := r], live := t.live + {n});
      if r.net == RT_DEFAULT then
        (if t.dflt != NONE then Drop(t1, t.dflt) else t1).(dflt := n)
      else AddToChain(t1, Hash(r.net), r, n, dorip)
  }

  function AddToChain(t: Tab, h: nat, r: Route, n: Rid, dorip: bool): (t': Tab)
    requires Shaped(t) && h < RT_TSIZE
    ensures Shaped(t')
  {
    var c := t.chains[h];
    var (i, dup) := Find(t.pool, c, r);
    if !dup then SetChain(t, h, c[..i] + [n] + c[i..])
    else
      var srt := t.pool[c[i]];
      if srt.gw == r.gw then
        var ttl := if !dorip then srt.ttl else if srt.metric != r.metric && r.metric == RTM_INF then RIPZTIME else r.ttl;
        Drop(t.(pool := t.pool[c[i] := srt.(ttl := ttl, metric := r.metric)]), n)
      else if srt.metric <= r.metric then Drop(t, n)
      else Drop(SetChain(t, h, c[..i] + [n] + c[i + 1..]), c[i])
  }

  function Del(t: Tab, net: Addr, mask: Addr): (r: (Tab, bool))
    requires Shaped(t)
    ensures Shaped(r.0)
  {
    if t.dflt != NONE && t.pool[t.dflt].net == net then (Drop(t, t.dflt).(dflt := NONE), true)
    else
      var h := Hash(net);
      var c := t.chains[h];
      var i := FindExact(t.pool, c, net, mask);
      if i == |c| then (t, false) else (Drop(SetChain(t, h, c[..i] + c[i + 1..]), c[i]), true)
  }

  /** The route that rtget gives out, or NONE. */
  function Lookup(t: Tab, dst: Addr, local: bool, brc: bool): (id: Ptr)
    requires Shaped(t)
  {
    var c := t.chains[Hash(dst)];
    var i := FindUsable(t.pool, c, dst, local, brc);
    if i < |c| then c[i]
    else if t.dflt != NONE && t.pool[t.dflt].metric < RTM_INF then t.dflt
    else NONE
  }

  function Get(t: Tab, dst: Addr, local: bool, brc: bool): (r: (Tab, Ptr))
    requires Shaped(t)
    ensures Shaped(r.0)
  {
    var id := Lookup(t, dst, local, brc);
    if id == NONE then (t, NONE)
    else
      var r := t.pool[id];
      (t.(pool := t.pool[id := r.(refcnt := r.refcnt + 1, usecnt := r.usecnt + 1)], handles := t.handles + multiset{id}), id)
  }

  /** rtfree, of a reference that rtget has given out. */
  function Put(t: Tab, id: Rid): (r: Tab)
    requires Shaped(t) && id in t.handles
    ensures Shaped(r)
  {
    Drop(t, id).(handles := t.handles - multiset{id})
  }

  datatype Fate = Keep(r: Route) | Gone(r: Route)

  /** One route's turn in rttimer; a route that has expired is first made infinite, if there is RIP to tell. */
  function Age(r: Route, delta: int, dorip: bool): Fate {
    var r1 := if r.ttl != RT_INF then r.(ttl := r.ttl - delta) else r;
    if r1.ttl > 0 then Keep(r1)
    else if dorip && r1.metric < RTM_INF then
      if RIPZTIME - delta > 0 then Keep(r1.(metric := RTM_INF, ttl := RIPZTIME - delta))
      else Gone(r1.(metric := RTM_INF, ttl := RIPZTIME - delta))
    else Gone(r1)
  }

  /** One route's turns in several runs of rttimer, until it goes. */
  function AgeAll(r: Route, ds: seq<nat>, dorip: bool): Fate
    decreases |ds|
  {
    if ds == [] then Keep(r)
    else
      match Age(r, ds[0], dorip)
      case Gone(r') => Gone(r')
      case Keep(r') => AgeAll(r', ds[1..], dorip)
  }

  function Elapsed(ds: seq<nat>): nat {
    if ds == [] then 0 else ds[0] + Elapsed(ds[1..])
  }

  /** The time of a route counts down, in steps ds, to the number that stands for no limit. */
  predicate CountsToInf(ttl: int, ds: seq<nat>)
    decreases |ds|
  {
    ttl == RT_INF || (ds != [] && CountsToInf(ttl - ds[0], ds[1..]))
  }

  lemma {:induction false} NoLimitStays(r: Route, ds: seq<nat>, dorip: bool)
    requires r.ttl == RT_INF
    ensures AgeAll(r, ds, dorip) == Keep(r)
    decreases |ds|
  {
    if ds != [] {
      NoLimitStays(r, ds[1..], dorip);
    }
  }

  lemma {:induction false} CountsPast(ttl: int, ds: seq<nat>)
    requires ttl < RT_INF
    ensures !CountsToInf(ttl, ds)
    decreases |ds|
  {
    if ds != [] {
      CountsPast(ttl - ds[0], ds[1..]);
    }
  }

  lemma {:induction false} InfiniteGoes(r: Route, ds: seq<nat>, dorip: bool)
    requires r.metric >= RTM_INF && 0 < r.ttl < RT_INF && Elapsed(ds) >= r.ttl
    ensures AgeAll(r, ds, dorip).Gone?
    decreases |ds|
  {
    if r.ttl - ds[0] > 0 {
      InfiniteGoes(r.(ttl := r.ttl - ds[0]), ds[1..], dorip);
    }
  }

  /** Once its time and the time it is held as infinite for RIP are over, a route is gone if and only if its
      time never counted down to exactly the number that stands for no limit; if it did, it stays for ever. */
  lemma {:induction false} GoneInTime(r: Route, ds: seq<nat>, dorip: bool)
    requires r.ttl > 0 && Elapsed(ds) >= r.ttl + RIPZTIME
    ensures AgeAll(r, ds, dorip).Gone? <==> !CountsToInf(r.ttl, ds)
    decreases |ds|
  {
    if r.ttl == RT_INF {
      NoLimitStays(r, ds, dorip);
    } else if r.ttl - ds[0] > 0 {
      GoneInTime(r.(ttl := r.ttl - ds[0]), ds[1..], dorip);
    } else {
      CountsPast(r.ttl - ds[0], ds[1..]);
      if dorip && r.metric < RTM_INF && RIPZTIME - ds[0] > 0 {
        InfiniteGoes(r.(metric := RTM_INF, ttl := RIPZTIME - ds[0]), ds[1..], dorip);
      }
    }
  }

  /** rttimer on the part of chain h from place i on. */
  function AgeChain(t: Tab, h: nat, i: nat, delta: int, dorip: bool): (r: Tab)
    requires Shaped(t) && h < RT_TSIZE && i <= |t.chains[h]|
    ensures Shaped(r)
    decreases |t.chains[h]| - i
  {
    var c := t.chains[h];
    if i == |c| then t
    else
      match Age(t.pool[c[i]], delta, dorip)
      case Keep(r) => AgeChain(t.(pool := t.pool[c[i] := r]), h, i + 1, delta, dorip)
      case Gone(r) =>
        AgeChain(Drop(SetChain(t.(pool := t.pool[c[i] := r]), h, c[..i] + c[i + 1..]), c[i]), h, i, delta, dorip)
  }

  function AgeChains(t: Tab, h: nat, delta: int, dorip: bool): (r: Tab)
    requires Shaped(t) && h <= RT_TSIZE
    ensures Shaped(r)
    decreases RT_TSIZE - h
  {
    if h == RT_TSIZE then t else AgeChains(AgeChain(t, h, 0, delta, dorip), h + 1, delta, dorip)
  }

  /** rttimer on the default route, which is looked at once and whose time is counted only below RT_INF. */
  function AgeDefault(t: Tab, delta: int, dorip: bool): (r: Tab)
    requires Shaped(t)
    ensures Shaped(r)
  {
    if t.dflt == NONE || t.pool[t.dflt].ttl >= RT_INF then t
    else
      var r := t.pool[t.dflt].(ttl := t.pool[t.dflt].ttl - delta);
      if r.ttl > 0 then t.(pool := t.pool[t.dflt := r])
      else if dorip && r.metric < RTM_INF then t.(pool := t.pool[t.dflt := r.(metric := RTM_INF, ttl := RIPZTIME)])
      else Drop(t.(pool := t.pool[t.dflt := r]), t.dflt).(dflt := NONE)
  }

  function Timer(t: Tab, delta: int, dorip: bool): (r: Tab)
    requires Shaped(t)
    ensures Shaped(r)
  {
    AgeDefault(AgeChains(t, 0, delta, dorip), delta, dorip)
  }

  // ----- what every operation keeps -----

  predicate SameKey(a: Route, b: Route) { a.net == b.net && a.mask == b.mask }

  predicate Before(pool: seq<Route>, x: Rid, y: Rid)
    requires |pool| == RT_BPSIZE
  {
    x != y && pool[x].key >= pool[y].key && !SameKey(pool[x], pool[y])
  }

  predicate AtHome(pool: seq<Route>, x: Rid, h: nat)
    requires |pool| == RT_BPSIZE
  {
    Hash(pool[x].net) == h && pool[x].key == MaskBits(pool[x].mask) && pool[x].net != RT_DEFAULT
  }

  /** Longer masks come first, no net and mask occur twice, and every route is where its net hashes to. */
  ghost predicate ChainOk(pool: seq<Route>, c: seq<Rid>, h: nat)
    requires |pool| == RT_BPSIZE
  {
    && (forall i, j :: 0 <= i < j < |c| ==> Before(pool, c[i], c[j]))
    && forall i :: 0 <= i < |c| ==> AtHome(pool, c[i], h)
  }

  predicate Linked(t: Tab, id: Rid)
    requires Shaped(t)
  {
    id == t.dflt || id in t.chains[Hash(t.pool[id].net)]
  }

  function Links(t: Tab, id: Rid): nat
    requires Shaped(t)
  {
    if Linked(t, id) then 1 else 0
  }

  /** A buffer is in use while the table, or a caller of rtget, or the running code itself (extra) refers to
      its route, and the count says how often. */
  predicate RefOk(t: Tab, id: Rid, extra: nat)
    requires Shaped(t)
  {
    var n := Links(t, id) + t.handles[id] + extra;
    (id in t.live <==> n > 0) && (n > 0 ==> t.pool[id].refcnt == n)
  }

  ghost predicate InvBut(t: Tab, x: Rid, extra: nat) {
    && Shaped(t)
    && (forall h :: 0 <= h < RT_TSIZE ==> ChainOk(t.pool, t.chains[h], h))
    && (t.dflt != NONE ==> t.pool[t.dflt].net == RT_DEFAULT)
    && (forall id: Rid :: id != x ==> RefOk(t, id, 0))
    && RefOk(t, x, extra)
  }

  ghost predicate Inv(t: Tab) { InvBut(t, 0, 0) }

  lemma AnyRoute(t: Tab, x: Rid)
    ensures Inv(t) <==> InvBut(t, x, 0)
  {
    hide ChainOk;
    hide RefOk;
  }

  /** Chains only look at nets, masks and keys. */
  lemma ChainSame(pool: seq<Route>, pool': seq<Route>, c: seq<Rid>, h: nat)
    requires |pool| == |pool'| == RT_BPSIZE && ChainOk(pool, c, h)
    requires forall id :: id in c ==> SameKey(pool[id], pool'[id]) && pool[id].key == pool'[id].key
    ensures ChainOk(pool', c, h)
  {
    assert forall i :: 0 <= i < |c| ==> c[i] in c;
  }

  /** RTFREE of the extra reference: the buffer is given back exactly when it was the last. */
  lemma DropInv(t: Tab, id: Rid)
    requires InvBut(t, id, 1)
    ensures Inv(Drop(t, id))
    ensures id in Drop(t, id).live <==> Linked(t, id) || id in t.handles
  {
    var t' := Drop(t, id);
    forall h | 0 <= h < RT_TSIZE
      ensures ChainOk(t'.pool, t'.chains[h], h)
    {
      ChainSame(t.pool, t'.pool, t.chains[h], h);
    }
    hide ChainOk;
    forall x: Rid
      ensures RefOk(t', x, 0)
    {
      assert Linked(t', x) == Linked(t, x);
      assert x != id ==> RefOk(t, x, 0);
    }
  }

  lemma {:induction false} FindFacts(pool: seq<Route>, c: seq<Rid>, r: Route)
    requires |pool| == RT_BPSIZE && forall i, j :: 0 <= i < j < |c| ==> pool[c[i]].key >= pool[c[j]].key
    ensures var (i, dup) := Find(pool, c, r);
            && (forall j :: 0 <= j < i ==> pool[c[j]].key >= r.key && !SameKey(pool[c[j]], r))
            && (if dup then SameKey(pool[c[i]], r) else forall j :: i <= j < |c| ==> pool[c[j]].key < r.key)
  {
    if c != [] && r.key <= pool[c[0]].key && !SameKey(pool[c[0]], r) {
      var x := Find(pool, c[1..], r);
      FindFacts(pool, c[1..], r);
      forall j | 0 <= j < x.0 + 1
        ensures pool[c[j]].key >= r.key && !SameKey(pool[c[j]], r)
      {
        if j > 0 {
          assert c[j] == c[1..][j - 1];
        }
      }
      forall j | x.0 + 1 <= j < |c| && !x.1
        ensures pool[c[j]].key < r.key
      {
        assert c[j] == c[1..][j - 1];
      }
    }
  }

  lemma InsertChain(pool: seq<Route>, c: seq<Rid>, h: nat, n: Rid)
    requires |pool| == RT_BPSIZE && ChainOk(pool, c, h) && n !in c && AtHome(pool, n, h)
    ensures var (i, dup) := Find(pool, c, pool[n]);
            if dup then ChainOk(pool, c[..i] + [n] + c[i + 1..], h) else ChainOk(pool, c[..i] + [n] + c[i..], h)
  {
    FindFacts(pool, c, pool[n]);
    var (i, dup) := Find(pool, c, pool[n]);
    if dup {
      ReplacedChain(pool, c, h, n, i);
    } else {
      forall j | 0 <= j < i
        ensures Before(pool, c[j], n)
      {
      }
      forall j | i <= j < |c|
        ensures Before(pool, n, c[j])
      {
        assert AtHome(pool, c[j], h);
      }
      InsertedChain(pool, c, h, n, i);
    }
  }

  lemma InsertedChain(pool: seq<Route>, c: seq<Rid>, h: nat, n: Rid, i: nat)
    requires |pool| == RT_BPSIZE && ChainOk(pool, c, h) && i <= |c| && AtHome(pool, n, h)
    requires forall j :: 0 <= j < i ==> Before(pool, c[j], n)
    requires forall j :: i <= j < |c| ==> Before(pool, n, c[j])
    ensures ChainOk(pool, c[..i] + [n] + c[i..], h)
  {
    hide Before;
    hide AtHome;
    var c' := c[..i] + [n] + c[i..];
    forall j | 0 <= j < |c'|
      ensures c'[j] == if j < i then c[j] else if j == i then n else c[j - 1]
    {
    }
  }

  lemma ReplacedChain(pool: seq<Route>, c: seq<Rid>, h: nat, n: Rid, i: nat)
    requires |pool| == RT_BPSIZE && ChainOk(pool, c, h) && n !in c && i < |c|
    requires pool[n].key == MaskBits(pool[n].mask) && SameKey(pool[c[i]], pool[n])
    ensures ChainOk(pool, c[..i] + [n] + c[i + 1..], h)
  {
    var c' := c[..i] + [n] + c[i + 1..];
    assert AtHome(pool, c[i], h);
    forall j | 0 <= j < |c'|
      ensures c'[j] == if j == i then n else c[j]
    {
    }
    forall j, k | 0 <= j < k < |c'|
      ensures Before(pool, c'[j], c'[k])
    {
      assert Before(pool, c[j], c[k]);
    }
    forall j | 0 <= j < |c'|
      ensures AtHome(pool, c'[j], h)
    {
      assert AtHome(pool, c[j], h);
    }
  }

  lemma RemovedChain(pool: seq<Route>, c: seq<Rid>, h: nat, i: nat)
    requires |pool| == RT_BPSIZE && ChainOk(pool, c, h) && i < |c|
    ensures ChainOk(pool, c[..i] + c[i + 1..], h)
    ensures forall id :: id in c[..i] + c[i + 1..] <==> id in c && id != c[i]
  {
    hide AtHome;
    var c' := c[..i] + c[i + 1..];
    forall j | 0 <= j < |c'|
      ensures c'[j] == if j < i then c[j] else c[j + 1]
    {
    }
    forall id
      ensures id in c' <==> id in c && id != c[i]
    {
      if id in c && id != c[i] {
        var k :| 0 <= k < |c| && c[k] == id;
        assert c'[if k < i then k else k - 1] == id;
      }
    }
  }

  /** A route that nothing refers to and that is filled in for the table to take over. */
  lemma NewInv(t: Tab, n: Rid, r: Route)
    requires Inv(t) && n !in t.live && r.refcnt == 1
    ensures InvBut(t.(pool := t.pool[n := r], live := t.live + {n}), n, 1)
    ensures forall h :: 0 <= h < RT_TSIZE ==> n !in t.chains[h]
    ensures n != t.dflt && n !in t.handles
  {
    AnyRoute(t, n);
    var t' := t.(pool := t.pool[n := r], live := t.live + {n});
    forall h | 0 <= h < RT_TSIZE
      ensures n !in t.chains[h] && ChainOk(t'.pool, t'.chains[h], h)
    {
      NotInChain(t, n, h);
      ChainSame(t.pool, t'.pool, t.chains[h], h);
    }
    hide ChainOk;
    forall x: Rid | x != n
      ensures RefOk(t', x, 0)
    {
      assert RefOk(t, x, 0);
    }
  }

  lemma NotInChain(t: Tab, n: Rid, h: nat)
    requires InvBut(t, n, 0) && n !in t.live && h < RT_TSIZE
    ensures n !in t.chains[h]
  {
    assert ChainOk(t.pool, t.chains[h], h) && !Linked(t, n);
    forall i | 0 <= i < |t.chains[h]|
      ensures t.chains[h][i] != n
    {
      assert AtHome(t.pool, t.chains[h][i], h);
    }
  }

  /** A chain may change if the references it loses and gains are those of the running code. */
  lemma Relinked(t: Tab, h: nat, c: seq<Rid>, x: Rid, e: nat, y: Rid, e': nat)
    requires InvBut(t, x, e) && h < RT_TSIZE && ChainOk(t.pool, c, h)
    requires forall id: Rid ::
               Links(SetChain(t, h, c), id) + (if id == y then e' else 0) == Links(t, id) + (if id == x then e else 0)
    ensures InvBut(SetChain(t, h, c), y, e')
  {
    var t' := SetChain(t, h, c);
    hide ChainOk;
    hide Links;
    forall id: Rid | id != y
      ensures RefOk(t', id, 0)
    {
      var before := if id == x then e else 0;
      assert Links(t', id) + 0 == Links(t, id) + before && RefOk(t, id, before);
    }
    var before := if y == x then e else 0;
    assert Links(t', y) + e' == Links(t, y) + before && RefOk(t, y, before);
  }

  /** Where a route can be linked at all. */
  lemma LinkedHere(t: Tab, h: nat, id: Rid)
    requires Shaped(t) && h < RT_TSIZE && ChainOk(t.pool, t.chains[h], h)
    ensures id in t.chains[h] ==> Hash(t.pool[id].net) == h && Links(t, id) == 1 && t.pool[id].net != RT_DEFAULT
  {
    if id in t.chains[h] {
      var i :| 0 <= i < |t.chains[h]| && t.chains[h][i] == id;
      assert AtHome(t.pool, t.chains[h][i], h);
    }
  }

  lemma UnlinkInv(t: Tab, h: nat, i: nat)
    requires Inv(t) && h < RT_TSIZE && i < |t.chains[h]|
    ensures var c := t.chains[h];
            InvBut(SetChain(t, h, c[..i] + c[i + 1..]), c[i], 1)
  {
    var c := t.chains[h];
    var c' := c[..i] + c[i + 1..];
    RemovedChain(t.pool, c, h, i);
    forall id: Rid
      ensures Links(SetChain(t, h, c'), id) + (if id == c[i] then 1 else 0) == Links(t, id)
    {
      LinkedHere(t, h, id);
    }
    Relinked(t, h, c', 0, 0, c[i], 1);
  }

  lemma LinkInv(t: Tab, h: nat, c: seq<Rid>, n: Rid)
    requires InvBut(t, n, 1) && h < RT_TSIZE && AtHome(t.pool, n, h) && Links(t, n) == 0
    requires ChainOk(t.pool, c, h) && forall id :: id in c <==> id in t.chains[h] || id == n
    ensures Inv(SetChain(t, h, c))
  {
    var t' := SetChain(t, h, c);
    forall id: Rid
      ensures Links(t', id) == Links(t, id) + if id == n then 1 else 0
    {
      LinkedHere(t, h, id);
      LinkedHere(t', h, id);
    }
    Relinked(t, h, c, n, 1, n, 0);
    AnyRoute(t', n);
  }

  lemma ReplaceInv(t: Tab, h: nat, i: nat, n: Rid)
    requires InvBut(t, n, 1) && h < RT_TSIZE && AtHome(t.pool, n, h) && Links(t, n) == 0 && i < |t.chains[h]|
    requires SameKey(t.pool[t.chains[h][i]], t.pool[n])
    ensures var c := t.chains[h];
            InvBut(SetChain(t, h, c[..i] + [n] + c[i + 1..]), c[i], 1)
  {
    var c := t.chains[h];
    var c' := c[..i] + [n] + c[i + 1..];
    var t' := SetChain(t, h, c');
    LinkedHere(t, h, n);
    ReplacedChain(t.pool, c, h, n, i);
    RemovedChain(t.pool, c, h, i);
    forall id: Rid
      ensures Links(t', id) + (if id == c[i] then 1 else 0) == Links(t, id) + if id == n then 1 else 0
    {
      assert id in c' <==> id in c[..i] + c[i + 1..] || id == n;
      LinkedHere(t, h, id);
      LinkedHere(t', h, id);
    }
    Relinked(t, h, c', n, 1, c[i], 1);
  }

  lemma AddInv(t: Tab, r: Route, n: Ptr, dorip: bool)
    requires Inv(t) && (n != NONE ==> n !in t.live) && r.refcnt == 1 && r.key == MaskBits(r.mask)
    ensures Inv(Add(t, r, n, dorip))
  {
    if n != NONE {
      var t1 := t.(pool := t.pool[n := r], live := t.live + {n});
      NewInv(t, n, r);
      if r.net == RT_DEFAULT {
        AddDefaultInv(t1, n);
      } else {
        AddToChainInv(t1, Hash(r.net), r, n, dorip);
      }
    }
  }

  lemma AddDefaultInv(t: Tab, n: Rid)
    requires InvBut(t, n, 1) && t.pool[n].net == RT_DEFAULT && n != t.dflt && Links(t, n) == 0
    ensures Inv((if t.dflt != NONE then Drop(t, t.dflt) else t).(dflt := n))
  {
    var t1 := t.(dflt := n);
    forall h | 0 <= h < RT_TSIZE
      ensures n !in t.chains[h]
    {
      LinkedHere(t, h, n);
    }
    if t.dflt == NONE {
      SwapDefault(t, n);
      AnyRoute(t1, n);
    } else {
      SwapDefault(t, n);
      DropInv(t1, t.dflt);
      assert Drop(t1, t.dflt) == Drop(t, t.dflt).(dflt := n);
    }
  }

  /** The default route changes hands. */
  lemma SwapDefault(t: Tab, n: Rid)
    requires InvBut(t, n, 1) && t.pool[n].net == RT_DEFAULT && n != t.dflt && Links(t, n) == 0
    ensures var t1 := t.(dflt := n);
            if t.dflt == NONE then InvBut(t1, n, 0) else InvBut(t1, t.dflt, 1)
  {
    var t1 := t.(dflt := n);
    forall id: Rid
      ensures Links(t1, id) + (if id == t.dflt then 1 else 0) == Links(t, id) + (if id == n then 1 else 0)
    {
      if id == t.dflt {
        LinkedHere(t, Hash(t.pool[id].net), id);
      }
    }
    hide ChainOk;
    hide Links;
    forall id: Rid
      ensures RefOk(t1, id, 0) || id == t.dflt
    {
      assert RefOk(t, id, if id == n then 1 else 0);
    }
    if t.dflt != NONE {
      assert RefOk(t, t.dflt, 0);
      assert RefOk(t1, t.dflt, 1);
    }
  }

  lemma AddToChainInv(t: Tab, h: nat, r: Route, n: Rid, dorip: bool)
    requires InvBut(t, n, 1) && t.pool[n] == r && Links(t, n) == 0 && h == Hash(r.net)
    requires r.net != RT_DEFAULT && r.key == MaskBits(r.mask)
    ensures Inv(AddToChain(t, h, r, n, dorip))
  {
    var c := t.chains[h];
    var (i, dup) := Find(t.pool, c, r);
    LinkedHere(t, h, n);
    FindFacts(t.pool, c, r) by {
      assert ChainOk(t.pool, c, h);
      KeysFall(t.pool, c, h);
    }
    InsertChain(t.pool, c, h, n);
    if !dup {
      LinkInv(t, h, c[..i] + [n] + c[i..], n);
    } else {
      AddToFoundInv(t, h, r, n, dorip, i);
    }
  }

  /** The search of rtadd has found a route for the same net and mask. */
  lemma AddToFoundInv(t: Tab, h: nat, r: Route, n: Rid, dorip: bool, i: nat)
    requires InvBut(t, n, 1) && Shaped(t) && h < RT_TSIZE && t.pool[n] == r && Links(t, n) == 0 && AtHome(t.pool, n, h)
    requires Find(t.pool, t.chains[h], r) == (i, true) && i < |t.chains[h]| && SameKey(t.pool[t.chains[h][i]], r)
    ensures Inv(AddToChain(t, h, r, n, dorip))
  {
    hide InvBut;
    hide Inv;
    hide Links;
    hide Find;
    var c := t.chains[h];
    var srt := t.pool[c[i]];
    if srt.gw == r.gw {
      var ttl := if !dorip then srt.ttl else if srt.metric != r.metric && r.metric == RTM_INF then RIPZTIME else r.ttl;
      RetouchInv(t, c[i], srt.(ttl := ttl, metric := r.metric), n, 1);
      DropInv(t.(pool := t.pool[c[i] := srt.(ttl := ttl, metric := r.metric)]), n);
    } else if srt.metric <= r.metric {
      DropInv(t, n);
    } else {
      ReplaceInv(t, h, i, n);
      DropInv(SetChain(t, h, c[..i] + [n] + c[i + 1..]), c[i]);
    }
  }

  lemma KeysFall(pool: seq<Route>, c: seq<Rid>, h: nat)
    requires |pool| == RT_BPSIZE && ChainOk(pool, c, h)
    ensures forall i, j :: 0 <= i < j < |c| ==> pool[c[i]].key >= pool[c[j]].key
  {
    assert forall i, j :: 0 <= i < j < |c| ==> Before(pool, c[i], c[j]);
  }

  /** New times and metrics do not matter to the table's order. */
  lemma RetouchInv(t: Tab, id: Rid, r: Route, x: Rid, e: nat)
    requires InvBut(t, x, e) && SameKey(t.pool[id], r) && r.key == t.pool[id].key && r.refcnt == t.pool[id].refcnt
    ensures InvBut(t.(pool := t.pool[id := r]), x, e)
  {
    var t' := t.(pool := t.pool[id := r]);
    forall h | 0 <= h < RT_TSIZE
      ensures ChainOk(t'.pool, t'.chains[h], h)
    {
      ChainSame(t.pool, t'.pool, t.chains[h], h);
    }
    hide ChainOk;
    forall y: Rid
      ensures y != x ==> RefOk(t', y, 0)
      ensures y == x ==> RefOk(t', y, e)
    {
      assert Links(t', y) == Links(t, y);
      assert y != x ==> RefOk(t, y, 0);
    }
  }

  lemma DelInv(t: Tab, net: Addr, mask: Addr)
    requires Inv(t)
    ensures Inv(Del(t, net, mask).0)
  {
    if t.dflt != NONE && t.pool[t.dflt].net == net {
      DropDefaultInv(t);
    } else {
      var h := Hash(net);
      var c := t.chains[h];
      var i := FindExact(t.pool, c, net, mask);
      if i < |c| {
        UnlinkInv(t, h, i);
        DropInv(SetChain(t, h, c[..i] + c[i + 1..]), c[i]);
      }
    }
  }

  lemma DropDefaultInv(t: Tab)
    requires Inv(t) && t.dflt != NONE
    ensures Inv(Drop(t, t.dflt).(dflt := NONE))
  {
    var t1 := t.(dflt := NONE);
    var d: Rid := t.dflt;
    AnyRoute(t, d);
    LinkedHere(t, Hash(t.pool[d].net), d);
    forall id: Rid | id != d
      ensures RefOk(t1, id, 0)
    {
      assert RefOk(t, id, 0);
    }
    assert RefOk(t1, d, 1);
    DropInv(t1, d);
    assert Drop(t1, d) == Drop(t, d).(dflt := NONE);
  }

  lemma GetInv(t: Tab, dst: Addr, local: bool, brc: bool)
    requires Inv(t)
    ensures Inv(Get(t, dst, local, brc).0)
  {
    var (t', id) := Get(t, dst, local, brc);
    if id != NONE {
      LookupLinked(t, dst, local, brc);
      AnyRoute(t, id);
      forall h | 0 <= h < RT_TSIZE
        ensures ChainOk(t'.pool, t'.chains[h], h)
      {
        ChainSame(t.pool, t'.pool, t.chains[h], h);
      }
      hide ChainOk;
      forall y: Rid
        ensures RefOk(t', y, 0)
      {
        assert Links(t', y) == Links(t, y) && RefOk(t, y, 0);
      }
      AnyRoute(t', id);
    }
  }

  lemma LookupLinked(t: Tab, dst: Addr, local: bool, brc: bool)
    requires Inv(t) && Lookup(t, dst, local, brc) != NONE
    ensures Linked(t, Lookup(t, dst, local, brc))
  {
    LinkedHere(t, Hash(dst), Lookup(t, dst, local, brc));
  }

  lemma PutInv(t: Tab, id: Rid)
    requires Inv(t) && id in t.handles
    ensures Inv(Put(t, id))
  {
    var t1 := t.(handles := t.handles - multiset{id});
    AnyRoute(t, id);
    forall y: Rid | y != id
      ensures RefOk(t1, y, 0)
    {
      assert Links(t1, y) == Links(t, y) && RefOk(t, y, 0);
    }
    assert Links(t1, id) == Links(t, id) && RefOk(t1, id, 1);
    DropInv(t1, id);
    assert Drop(t1, id) == Put(t, id);
  }

  // ----- ageing -----

  lemma AgeKeepsKey(r: Route, delta: int, dorip: bool)
    ensures var x := Age(r, delta, dorip).r;
            SameKey(r, x) && x.key == r.key && x.refcnt == r.refcnt
  {
  }

  lemma {:induction false} AgeChainInv(t: Tab, h: nat, i: nat, delta: int, dorip: bool)
    requires Inv(t) && Shaped(t) && h < RT_TSIZE && i <= |t.chains[h]|
    ensures Inv(AgeChain(t, h, i, delta, dorip))
    decreases |t.chains[h]| - i
  {
    hide Inv;
    hide Age;
    var c := t.chains[h];
    if i < |c| {
      var r := Age(t.pool[c[i]], delta, dorip).r;
      var t1 := t.(pool := t.pool[c[i] := r]);
      AgeKeepsKey(t.pool[c[i]], delta, dorip);
      Retouched(t, c[i], r);
      if Age(t.pool[c[i]], delta, dorip).Keep? {
        AgeChainInv(t1, h, i + 1, delta, dorip);
      } else {
        UnlinkInv(t1, h, i);
        DropInv(SetChain(t1, h, c[..i] + c[i + 1..]), c[i]);
        AgeChainInv(Drop(SetChain(t1, h, c[..i] + c[i + 1..]), c[i]), h, i, delta, dorip);
      }
    }
  }

  lemma Retouched(t: Tab, id: Rid, r: Route)
    requires Inv(t) && Shaped(t) && SameKey(t.pool[id], r) && r.key == t.pool[id].key && r.refcnt == t.pool[id].refcnt
    ensures Inv(t.(pool := t.pool[id := r]))
  {
    RetouchInv(t, id, r, 0, 0);
  }

  lemma {:induction false} AgeChainsInv(t: Tab, h: nat, delta: int, dorip: bool)
    requires Inv(t) && Shaped(t) && h <= RT_TSIZE
    ensures Inv(AgeChains(t, h, delta, dorip))
    decreases RT_TSIZE - h
  {
    hide Inv;
    hide AgeChain;
    if h < RT_TSIZE {
      AgeChainInv(t, h, 0, delta, dorip);
      AgeChainsInv(AgeChain(t, h, 0, delta, dorip), h + 1, delta, dorip);
    }
  }

  lemma TimerInv(t: Tab, delta: int, dorip: bool)
    requires Inv(t)
    ensures Inv(Timer(t, delta, dorip))
  {
    hide AgeChains;
    AgeChainsInv(t, 0, delta, dorip);
    var t1 := AgeChains(t, 0, delta, dorip);
    if t1.dflt != NONE {
      var d: Rid := t1.dflt;
      var r := t1.pool[d].(ttl := t1.pool[d].ttl - delta);
      Retouched(t1, d, r);
      Retouched(t1, d, r.(metric := RTM_INF, ttl := RIPZTIME));
      DropDefaultInv(t1.(pool := t1.pool[d := r]));
    }
  }

  /** The routes of a chain that outlive rttimer, in their old order. */
  function Survivors(pool: seq<Route>, c: seq<Rid>, delta: int, dorip: bool): seq<Rid>
    requires |pool| == RT_BPSIZE
  {
    if c == [] then []
    else (if Age(pool[c[0]], delta, dorip).Keep? then [c[0]] else []) + Survivors(pool, c[1..], delta, dorip)
  }

  /** A route after rttimer has dealt with it; the reference of a deleted one is gone. */
  function Aged(r: Route, delta: int, dorip: bool): Route {
    match Age(r, delta, dorip)
    case Keep(x) => x
    case Gone(x) => x.(refcnt := x.refcnt - 1)
  }

  lemma {:induction false} SurvivorsSame(pool: seq<Route>, pool': seq<Route>, c: seq<Rid>, delta: int, dorip: bool)
    requires |pool| == |pool'| == RT_BPSIZE && forall id :: id in c ==> pool[id] == pool'[id]
    ensures Survivors(pool, c, delta, dorip) == Survivors(pool', c, delta, dorip)
  {
    if c != [] {
      SurvivorsSame(pool, pool', c[1..], delta, dorip);
    }
  }

  ghost predicate AgedFrom(t: Tab, t': Tab, h: nat, i: nat, delta: int, dorip: bool)
    requires Shaped(t) && Shaped(t') && h < RT_TSIZE && i <= |t.chains[h]|
  {
    var c := t.chains[h];
    && t'.chains == t.chains[h := c[..i] + Survivors(t.pool, c[i..], delta, dorip)]
    && (forall id: Rid :: t'.pool[id] == if id in c[i..] then Aged(t.pool[id], delta, dorip) else t.pool[id])
    && t'.dflt == t.dflt && t'.handles == t.handles
  }

  ghost predicate Distinct(c: seq<Rid>) { forall j, k :: 0 <= j < k < |c| ==> c[j] != c[k] }

  lemma KeptStep(t: Tab, t': Tab, h: nat, i: nat, delta: int, dorip: bool)
    requires Shaped(t) && Shaped(t') && h < RT_TSIZE && i < |t.chains[h]| && Distinct(t.chains[h])
    requires var c := t.chains[h];
             var x := Age(t.pool[c[i]], delta, dorip);
             x.Keep? && AgedFrom(t.(pool := t.pool[c[i] := x.r]), t', h, i + 1, delta, dorip)
    ensures AgedFrom(t, t', h, i, delta, dorip)
  {
    hide Age;
    var c := t.chains[h];
    var x := Age(t.pool[c[i]], delta, dorip);
    var rest := c[i + 1..];
    assert c[i..] == [c[i]] + rest && c[..i + 1] == c[..i] + [c[i]];
    NotLater(c, i);
    SurvivorsSame(t.pool, t.pool[c[i] := x.r], rest, delta, dorip);
    assert Survivors(t.pool, c[i..], delta, dorip) == [c[i]] + Survivors(t.pool, rest, delta, dorip) by {
      assert c[i..][1..] == rest;
    }
    assert c[..i + 1] + Survivors(t.pool, rest, delta, dorip) == c[..i] + Survivors(t.pool, c[i..], delta, dorip);
  }

  lemma GoneStep(t: Tab, t': Tab, h: nat, i: nat, delta: int, dorip: bool)
    requires Shaped(t) && Shaped(t') && h < RT_TSIZE && i < |t.chains[h]| && Distinct(t.chains[h])
    requires var c := t.chains[h];
             var x := Age(t.pool[c[i]], delta, dorip);
             x.Gone? && AgedFrom(Drop(SetChain(t.(pool := t.pool[c[i] := x.r]), h, c[..i] + c[i + 1..]), c[i]), t', h, i, delta, dorip)
    ensures AgedFrom(t, t', h, i, delta, dorip)
  {
    hide Age;
    var c := t.chains[h];
    var x := Age(t.pool[c[i]], delta, dorip);
    var rest := c[i + 1..];
    var c1 := c[..i] + rest;
    assert c[i..] == [c[i]] + rest && c1[..i] == c[..i] && c1[i..] == rest;
    NotLater(c, i);
    var t2 := Drop(SetChain(t.(pool := t.pool[c[i] := x.r]), h, c1), c[i]);
    SurvivorsSame(t.pool, t2.pool, rest, delta, dorip);
    assert Survivors(t.pool, c[i..], delta, dorip) == Survivors(t.pool, rest, delta, dorip) by {
      assert c[i..][1..] == rest;
      assert [] + Survivors(t.pool, rest, delta, dorip) == Survivors(t.pool, rest, delta, dorip);
    }
    assert t.chains[h := c1][h := c[..i] + Survivors(t.pool, rest, delta, dorip)] == t.chains[h := c[..i] + Survivors(t.pool, rest, delta, dorip)];
  }

  lemma NotLater(c: seq<Rid>, i: nat)
    requires i < |c| && Distinct(c)
    ensures c[i] !in c[i + 1..] && Distinct(c[..i] + c[i + 1..])
  {
    var c1 := c[..i] + c[i + 1..];
    forall j | 0 <= j < |c1|
      ensures c1[j] == if j < i then c[j] else c[j + 1]
    {
    }
  }

  /** One chain's ageing, all at once: each route meets its own fate, whatever happens to the others. */
  lemma {:induction false} AgeChainExact(t: Tab, h: nat, i: nat, delta: int, dorip: bool)
    requires Shaped(t) && h < RT_TSIZE && i <= |t.chains[h]| && Distinct(t.chains[h])
    ensures AgedFrom(t, AgeChain(t, h, i, delta, dorip), h, i, delta, dorip)
    decreases |t.chains[h]| - i
  {
    var c := t.chains[h];
    if i == |c| {
      assert c[..i] + [] == c && t.chains[h := c] == t.chains;
    } else {
      hide Age;
      hide AgedFrom;
      hide Distinct;
      var x := Age(t.pool[c[i]], delta, dorip);
      var t1 := t.(pool := t.pool[c[i] := x.r]);
      if x.Keep? {
        AgeChainExact(t1, h, i + 1, delta, dorip);
        KeptStep(t, AgeChain(t1, h, i + 1, delta, dorip), h, i, delta, dorip);
      } else {
        NotLater(c, i);
        var t2 := Drop(SetChain(t1, h, c[..i] + c[i + 1..]), c[i]);
        AgeChainExact(t2, h, i, delta, dorip);
        GoneStep(t, AgeChain(t2, h, i, delta, dorip), h, i, delta, dorip);
      }
    }
  }

  ghost predicate AllDistinct(t: Tab)
    requires Shaped(t)
  {
    && (forall h :: 0 <= h < RT_TSIZE ==> Distinct(t.chains[h]))
    && forall g, h, id :: 0 <= g < h < RT_TSIZE && id in t.chains[g] ==> id !in t.chains[h]
  }

  ghost predicate ChainAged(t: Tab, t': Tab, g: nat, delta: int, dorip: bool)
    requires Shaped(t) && Shaped(t') && g < RT_TSIZE
  {
    && t'.chains[g] == Survivors(t.pool, t.chains[g], delta, dorip)
    && forall id :: id in t'.chains[g] ==> t'.pool[id] == Age(t.pool[id], delta, dorip).r
  }

  ghost predicate ChainUntouched(t: Tab, t': Tab, g: nat)
    requires Shaped(t) && Shaped(t') && g < RT_TSIZE
  {
    t'.chains[g] == t.chains[g] && forall id :: id in t.chains[g] ==> t'.pool[id] == t.pool[id]
  }

  /** rttimer on the table: every chain keeps the routes whose own turn says so, in their old order. */
  lemma {:induction false} AgeChainsExact(t: Tab, h: nat, delta: int, dorip: bool)
    requires Shaped(t) && h <= RT_TSIZE && AllDistinct(t)
    ensures var t' := AgeChains(t, h, delta, dorip);
            && (forall g :: 0 <= g < h ==> ChainUntouched(t, t', g))
            && (forall g :: h <= g < RT_TSIZE ==> ChainAged(t, t', g, delta, dorip))
            && t'.dflt == t.dflt && t'.handles == t.handles
    decreases RT_TSIZE - h
  {
    if h < RT_TSIZE {
      hide Age;
      hide Aged;
      hide AgeChain;
      AgeChainExact(t, h, 0, delta, dorip);
      var t1 := AgeChain(t, h, 0, delta, dorip);
      OneChain(t, t1, h, delta, dorip);
      AgeChainsExact(t1, h + 1, delta, dorip);
      var t' := AgeChains(t1, h + 1, delta, dorip);
      hide AllDistinct;
      hide AgedFrom;
      forall g | 0 <= g < h
        ensures ChainUntouched(t, t', g)
      {
        assert ChainUntouched(t, t1, g) && ChainUntouched(t1, t', g);
      }
      forall g | h < g < RT_TSIZE
        ensures ChainAged(t, t', g, delta, dorip)
      {
        LaterChain(t, t1, t', g, delta, dorip);
      }
      assert ChainAged(t, t', h, delta, dorip) by {
        OneChainThen(t, t1, t', h, delta, dorip);
      }
    }
  }

  /** Ageing one chain leaves the others alone. */
  lemma OneChain(t: Tab, t1: Tab, h: nat, delta: int, dorip: bool)
    requires Shaped(t) && Shaped(t1) && h < RT_TSIZE && AllDistinct(t) && AgedFrom(t, t1, h, 0, delta, dorip)
    ensures AllDistinct(t1) && ChainAged(t, t1, h, delta, dorip)
    ensures forall g :: 0 <= g < RT_TSIZE && g != h ==> ChainUntouched(t, t1, g)
  {
    hide Age;
    var c := t.chains[h];
    assert c[0..] == c && c[..0] == [];
    assert [] + Survivors(t.pool, c, delta, dorip) == Survivors(t.pool, c, delta, dorip);
    SurvivorsWithin(t.pool, c, delta, dorip);
  }

  lemma LaterChain(t: Tab, t1: Tab, t': Tab, g: nat, delta: int, dorip: bool)
    requires Shaped(t) && Shaped(t1) && Shaped(t') && g < RT_TSIZE
    requires ChainUntouched(t, t1, g) && ChainAged(t1, t', g, delta, dorip)
    ensures ChainAged(t, t', g, delta, dorip)
  {
    hide Age;
    SurvivorsSame(t.pool, t1.pool, t.chains[g], delta, dorip);
    SurvivorsMembers(t.pool, t.chains[g], delta, dorip);
  }

  lemma {:induction false} SurvivorsMembers(pool: seq<Route>, c: seq<Rid>, delta: int, dorip: bool)
    requires |pool| == RT_BPSIZE
    ensures forall id :: id in Survivors(pool, c, delta, dorip) <==> id in c && Age(pool[id], delta, dorip).Keep?
  {
    if c != [] {
      hide Age;
      SurvivorsMembers(pool, c[1..], delta, dorip);
    }
  }

  /** What the rest of the ageing does not touch stays as this chain's turn left it. */
  lemma OneChainThen(t: Tab, t1: Tab, t': Tab, h: nat, delta: int, dorip: bool)
    requires Shaped(t) && Shaped(t1) && Shaped(t') && h < RT_TSIZE && ChainAged(t, t1, h, delta, dorip)
    requires ChainUntouched(t1, t', h)
    ensures ChainAged(t, t', h, delta, dorip)
  {
  }

  lemma {:induction false} SurvivorsWithin(pool: seq<Route>, c: seq<Rid>, delta: int, dorip: bool)
    requires |pool| == RT_BPSIZE && Distinct(c)
    ensures Distinct(Survivors(pool, c, delta, dorip))
    ensures forall id :: id in Survivors(pool, c, delta, dorip) <==> id in c && Age(pool[id], delta, dorip).Keep?
  {
    SurvivorsMembers(pool, c, delta, dorip);
    if c != [] {
      hide Age;
      assert Distinct(c[1..]);
      SurvivorsWithin(pool, c[1..], delta, dorip);
    }
  }

  /** rttimer keeps exactly the routes whose own turn says so, and whatever it removes it also releases. */
  lemma TimerExact(t: Tab, delta: int, dorip: bool)
    requires Inv(t)
    ensures Inv(Timer(t, delta, dorip))
    ensures forall h, id :: 0 <= h < RT_TSIZE ==>
              (id in Timer(t, delta, dorip).chains[h] <==> id in t.chains[h] && Age(t.pool[id], delta, dorip).Keep?)
  {
    hide Age;
    hide AgeChains;
    TimerInv(t, delta, dorip);
    TableDistinct(t);
    AgeChainsExact(t, 0, delta, dorip);
    forall h, id | 0 <= h < RT_TSIZE
      ensures id in Timer(t, delta, dorip).chains[h] <==> id in t.chains[h] && Age(t.pool[id], delta, dorip).Keep?
    {
      assert ChainAged(t, AgeChains(t, 0, delta, dorip), h, delta, dorip);
      SurvivorsMembers(t.pool, t.chains[h], delta, dorip);
    }
  }

  lemma TableDistinct(t: Tab)
    requires Inv(t)
    ensures AllDistinct(t)
  {
    forall h | 0 <= h < RT_TSIZE
      ensures Distinct(t.chains[h])
    {
      var c := t.chains[h];
      forall j, k | 0 <= j < k < |c|
        ensures c[j] != c[k]
      {
        assert Before(t.pool, c[j], c[k]);
      }
    }
    forall g, h, id | 0 <= g < h < RT_TSIZE && id in t.chains[g]
      ensures id !in t.chains[h]
    {
      LinkedHere(t, g, id);
      LinkedHere(t, h, id);
    }
  }

  // ----- looking up -----

  ghost predicate Listed(t: Tab, id: Rid)
    requires Shaped(t)
  {
    exists h :: 0 <= h < RT_TSIZE && id in t.chains[h]
  }

  /** A route of the whole table, wherever it is, that may carry traffic to dst: it has time left, is not
      infinitely far and matches, and is not a host route if dst is a broadcast address on the local net. */
  ghost predicate Candidate(t: Tab, id: Rid, dst: Addr, local: bool, brc: bool)
    requires Shaped(t)
  {
    && Listed(t, id)
    && var r := t.pool[id];
       && 0 < r.ttl && r.metric < RTM_INF
       && (forall i :: 0 <= i < 4 ==> dst[i] & r.mask[i] == r.net[i])
       && !(local && brc && r.mask == MASKALL)
  }

  lemma UsableIff(r: Route, dst: Addr, local: bool, brc: bool)
    ensures Usable(r, dst, local, brc) <==>
            && 0 < r.ttl && r.metric < RTM_INF && (forall i :: 0 <= i < 4 ==> dst[i] & r.mask[i] == r.net[i])
            && !(local && brc && r.mask == MASKALL)
  {
    forall i | 0 <= i < 4
      ensures r.mask[i] & dst[i] == dst[i] & r.mask[i]
    {
      EitherOrder(r.mask[i], dst[i]);
    }
  }

  lemma EitherOrder(a: bv8, b: bv8)
    ensures a & b == b & a
  {
  }

  ghost predicate AllMasked(t: Tab)
    requires Shaped(t)
  {
    forall id: Rid :: Listed(t, id) ==> Masked(t.pool[id].net, t.pool[id].mask)
  }

  lemma {:induction false} FindUsableFacts(pool: seq<Route>, c: seq<Rid>, dst: Addr, local: bool, brc: bool)
    requires |pool| == RT_BPSIZE
    ensures var i := FindUsable(pool, c, dst, local, brc);
            && (i < |c| ==> Usable(pool[c[i]], dst, local, brc))
            && forall j :: 0 <= j < i ==> !Usable(pool[c[j]], dst, local, brc)
  {
    if c != [] && !Usable(pool[c[0]], dst, local, brc) {
      FindUsableFacts(pool, c[1..], dst, local, brc);
      var i := FindUsable(pool, c[1..], dst, local, brc);
      forall j | 0 <= j < i + 1
        ensures !Usable(pool[c[j]], dst, local, brc)
      {
        if j > 0 {
          assert c[j] == c[1..][j - 1];
        }
      }
    }
  }

  lemma CandidateInChain(t: Tab, id: Rid, dst: Addr, local: bool, brc: bool)
    requires Inv(t) && AllMasked(t) && Candidate(t, id, dst, local, brc)
    ensures id in t.chains[Hash(dst)]
  {
    var h :| 0 <= h < RT_TSIZE && id in t.chains[h];
    LinkedHere(t, h, id);
    UsableIff(t.pool[id], dst, local, brc);
    assert NetMatch(dst, t.pool[id].net, t.pool[id].mask, false, false);
    MatchHashes(dst, t.pool[id].net, t.pool[id].mask);
  }

  /** The search of one hash chain gives what a search of the whole table would: a usable route whose mask
      is at least as long as that of any other, or else the default, if that is not infinitely far. */
  lemma LookupIsLongestMatch(t: Tab, dst: Addr, local: bool, brc: bool)
    requires Inv(t) && AllMasked(t)
    ensures var id := Lookup(t, dst, local, brc);
            if exists x: Rid :: Candidate(t, x, dst, local, brc)
            then id != NONE && Candidate(t, id, dst, local, brc)
                 && forall x: Rid :: Candidate(t, x, dst, local, brc) ==> MaskBits(t.pool[x].mask) <= MaskBits(t.pool[id].mask)
            else id == if t.dflt != NONE && t.pool[t.dflt].metric < RTM_INF then t.dflt else NONE
  {
    assert Shaped(t);
    hide Inv;
    hide AllMasked;
    hide Candidate;
    hide FindUsable;
    var c := t.chains[Hash(dst)];
    var i := FindUsable(t.pool, c, dst, local, brc);
    forall x: Rid | Candidate(t, x, dst, local, brc)
      ensures i < |c| && MaskBits(t.pool[x].mask) <= MaskBits(t.pool[c[i]].mask)
    {
      NoneLonger(t, x, dst, local, brc);
    }
    FoundIsCandidate(t, dst, local, brc);
  }

  lemma FoundIsCandidate(t: Tab, dst: Addr, local: bool, brc: bool)
    requires Shaped(t)
    ensures var c := t.chains[Hash(dst)];
            var i := FindUsable(t.pool, c, dst, local, brc);
            i < |c| ==> Candidate(t, c[i], dst, local, brc)
  {
    hide Usable;
    hide FindUsable;
    var c := t.chains[Hash(dst)];
    var i := FindUsable(t.pool, c, dst, local, brc);
    FindUsableFacts(t.pool, c, dst, local, brc);
    if i < |c| {
      UsableIff(t.pool[c[i]], dst, local, brc);
      assert c[i] in c;
    }
  }

  lemma NoneLonger(t: Tab, x: Rid, dst: Addr, local: bool, brc: bool)
    requires Inv(t) && AllMasked(t) && Candidate(t, x, dst, local, brc)
    ensures var c := t.chains[Hash(dst)];
            var i := FindUsable(t.pool, c, dst, local, brc);
            i < |c| && MaskBits(t.pool[x].mask) <= MaskBits(t.pool[c[i]].mask)
  {
    hide Usable;
    var h := Hash(dst);
    var c := t.chains[h];
    var i := FindUsable(t.pool, c, dst, local, brc);
    FindUsableFacts(t.pool, c, dst, local, brc);
    CandidateInChain(t, x, dst, local, brc);
    UsableIff(t.pool[x], dst, local, brc);
    var k :| 0 <= k < |c| && c[k] == x;
    assert k >= i && AtHome(t.pool, c[k], h) && AtHome(t.pool, c[i], h);
    assert k > i ==> Before(t.pool, c[i], c[k]);
  }

  // ----- what adding and deleting do -----

  predicate IsFor(r: Route, net: Addr, mask: Addr) { r.net == net && r.mask == mask }

  /** rtdel takes away exactly the route for this net and mask, and says whether there was one. */
  lemma DelExact(t: Tab, net: Addr, mask: Addr)
    requires Inv(t) && net != RT_DEFAULT
    ensures var (t', found) := Del(t, net, mask);
            && (found <==> exists x: Rid :: Listed(t, x) && IsFor(t.pool[x], net, mask))
            && forall x: Rid :: Listed(t', x) <==> Listed(t, x) && !IsFor(t.pool[x], net, mask)
  {
    hide IsFor;
    hide Listed;
    var h := Hash(net);
    var c := t.chains[h];
    var i := FindExact(t.pool, c, net, mask);
    var t' := Del(t, net, mask).0;
    OnlyRouteFor(t, net, mask);
    if i < |c| {
      forall x: Rid
        ensures Listed(t', x) <==> Listed(t, x) && !IsFor(t.pool[x], net, mask)
      {
        RemovedListed(t, h, i, x);
      }
    }
  }

  /** The search of rtdel finds the one route there is for a net and mask. */
  lemma OnlyRouteFor(t: Tab, net: Addr, mask: Addr)
    requires Inv(t)
    ensures var c := t.chains[Hash(net)];
            var i := FindExact(t.pool, c, net, mask);
            forall x: Rid :: Listed(t, x) && IsFor(t.pool[x], net, mask) <==> i < |c| && x == c[i]
  {
    var h := Hash(net);
    var c := t.chains[h];
    var i := FindExact(t.pool, c, net, mask);
    FindExactFacts(t.pool, c, net, mask);
    forall x: Rid
      ensures Listed(t, x) && IsFor(t.pool[x], net, mask) <==> i < |c| && x == c[i]
    {
      WhereListed(t, x);
      if x in c && IsFor(t.pool[x], net, mask) {
        var k :| 0 <= k < |c| && c[k] == x;
        assert k > i ==> Before(t.pool, c[i], c[k]);
      }
      if i < |c| {
        assert Listed(t, c[i]);
      }
    }
  }

  lemma RemovedListed(t: Tab, h: nat, i: nat, x: Rid)
    requires Inv(t) && h < RT_TSIZE && i < |t.chains[h]|
    ensures var c := t.chains[h];
            Listed(Drop(SetChain(t, h, c[..i] + c[i + 1..]), c[i]), x) <==> Listed(t, x) && x != c[i]
  {
    var c := t.chains[h];
    var t' := Drop(SetChain(t, h, c[..i] + c[i + 1..]), c[i]);
    RemovedChain(t.pool, c, h, i);
    if Listed(t, x) && x != c[i] {
      var g :| 0 <= g < RT_TSIZE && x in t.chains[g];
      assert x in t'.chains[g];
    }
    if Listed(t', x) {
      var g :| 0 <= g < RT_TSIZE && x in t'.chains[g];
      assert x in t.chains[g];
      LinkedHere(t, g, x);
      LinkedHere(t, h, c[i]);
    }
  }

  /** The metric that rtadd leaves for a net and mask: that of the new route if there was none or it has the
      same gateway, else the better of the two. */
  function BestMetric(t: Tab, r: Route): int
    requires Shaped(t)
  {
    var c := t.chains[Hash(r.net)];
    var i := FindExact(t.pool, c, r.net, r.mask);
    if i == |c| || t.pool[c[i]].gw == r.gw || r.metric < t.pool[c[i]].metric then r.metric else t.pool[c[i]].metric
  }

  /** The two searches, of rtadd by falling key and of rtdel straight through, find the same. */
  lemma SameSearch(t: Tab, r: Route)
    requires Inv(t) && r.key == MaskBits(r.mask)
    ensures var c := t.chains[Hash(r.net)];
            var (i, dup) := Find(t.pool, c, r);
            FindExact(t.pool, c, r.net, r.mask) == if dup then i else |c|
  {
    var h := Hash(r.net);
    var c := t.chains[h];
    assert ChainOk(t.pool, c, h);
    KeysFall(t.pool, c, h);
    FindFacts(t.pool, c, r);
    FindExactFacts(t.pool, c, r.net, r.mask);
    var (i, dup) := Find(t.pool, c, r);
    var k := FindExact(t.pool, c, r.net, r.mask);
    if k < |c| {
      assert AtHome(t.pool, c[k], h) && SameKey(t.pool[c[k]], r);
    }
  }

  /** After rtadd there is exactly one route for its net and mask, with the best metric heard of. */
  lemma AddResult(t: Tab, r: Route, n: Rid, dorip: bool)
    requires Inv(t) && n !in t.live && r.refcnt == 1 && r.key == MaskBits(r.mask) && r.net != RT_DEFAULT
    ensures var t' := Add(t, r, n, dorip);
            var i := FindExact(t'.pool, t'.chains[Hash(r.net)], r.net, r.mask);
            i < |t'.chains[Hash(r.net)]| && t'.pool[t'.chains[Hash(r.net)][i]].metric == BestMetric(t, r)
  {
    var h := Hash(r.net);
    var t1 := t.(pool := t.pool[n := r], live := t.live + {n});
    NewInv(t, n, r);
    var c := t.chains[h];
    SameSearch(t, r);
    FindNew(t.pool, t1.pool, c, r);
    FindFacts(t.pool, c, r) by {
      assert ChainOk(t.pool, c, h);
      KeysFall(t.pool, c, h);
    }
    var (i, dup) := Find(t1.pool, c, r);
    var t' := Add(t, r, n, dorip);
    var c' := t'.chains[h];
    assert c'[i] == if dup && (t.pool[c[i]].gw == r.gw || t.pool[c[i]].metric <= r.metric) then c[i] else n;
    assert IsFor(t'.pool[c'[i]], r.net, r.mask);
    AddInv(t, r, n, dorip);
    assert Listed(t', c'[i]);
    OnlyRouteFor(t', r.net, r.mask);
  }

  lemma {:induction false} FindNew(pool: seq<Route>, pool': seq<Route>, c: seq<Rid>, r: Route)
    requires |pool| == |pool'| == RT_BPSIZE && forall id :: id in c ==> pool[id] == pool'[id]
    ensures Find(pool', c, r) == Find(pool, c, r)
  {
    if c != [] {
      FindNew(pool, pool', c[1..], r);
    }
  }

  lemma WhereListed(t: Tab, x: Rid)
    requires Inv(t)
    ensures Listed(t, x) <==> x in t.chains[Hash(t.pool[x].net)]
  {
    if Listed(t, x) {
      var h :| 0 <= h < RT_TSIZE && x in t.chains[h];
      LinkedHere(t, h, x);
    }
  }

  lemma {:induction false} FindExactFacts(pool: seq<Route>, c: seq<Rid>, net: Addr, mask: Addr)
    requires |pool| == RT_BPSIZE
    ensures var i := FindExact(pool, c, net, mask);
            && (i < |c| ==> pool[c[i]].net == net && pool[c[i]].mask == mask)
            && forall j :: 0 <= j < i ==> !(pool[c[j]].net == net && pool[c[j]].mask == mask)
  {
    if c != [] && !(pool[c[0]].net == net && pool[c[0]].mask == mask) {
      FindExactFacts(pool, c[1..], net, mask);
      var i := FindExact(pool, c[1..], net, mask);
      forall j | 0 <= j < i + 1
        ensures !(pool[c[j]].net == net && pool[c[j]].mask == mask)
      {
        if j > 0 {
          assert c[j] == c[1..][j - 1];
        }
      }
    }
  }

  // ----- runs -----

  datatype Op =
    | DoAdd(net: Addr, mask: Addr, gw: Addr, metric: int, ifnum: int, ttl: int, n: Ptr)
    | DoDel(net: Addr, mask: Addr)
    | DoGet(dst: Addr, local: bool, brc: bool)
    | DoPut(id: Rid)
    | DoTimer(delta: int)

  /** getbuf yields a buffer that is not in use, and only what rtget gave out is given to rtfree. */
  predicate Enabled(t: Tab, op: Op) {
    match op
    case DoAdd(_, _, _, _, _, _, n) => n != NONE ==> n !in t.live
    case DoPut(id) => id in t.handles
    case _ => true
  }

  function Next(t: Tab, op: Op, dorip: bool): (r: Tab)
    requires Shaped(t) && Enabled(t, op)
    ensures Shaped(r)
  {
    match op
    case DoAdd(net, mask, gw, metric, ifnum, ttl, n) => Add(t, New(net, mask, gw, metric, ifnum, ttl), n, dorip)
    case DoDel(net, mask) => Del(t, net, mask).0
    case DoGet(dst, local, brc) => Get(t, dst, local, brc).0
    case DoPut(id) => Put(t, id)
    case DoTimer(delta) => Timer(t, delta, dorip)
  }

  lemma StepKeepsInv(t: Tab, op: Op, dorip: bool)
    requires Inv(t) && Enabled(t, op)
    ensures Inv(Next(t, op, dorip))
  {
    hide Inv;
    hide Add;
    hide Del;
    hide Get;
    hide Put;
    hide Timer;
    match op
    case DoAdd(net, mask, gw, metric, ifnum, ttl, n) => AddInv(t, New(net, mask, gw, metric, ifnum, ttl), n, dorip);
    case DoDel(net, mask) => DelInv(t, net, mask);
    case DoGet(dst, local, brc) => GetInv(t, dst, local, brc);
    case DoPut(id) => PutInv(t, id);
    case DoTimer(delta) => TimerInv(t, delta, dorip);
  }

  /** The table may only come to list routes it listed before, with the same net and mask, and route n. */
  ghost predicate NothingElse(t: Tab, t': Tab, n: Ptr)
    requires Shaped(t) && Shaped(t')
  {
    forall x: Rid :: x != n && Listed(t', x) ==> Listed(t, x) && SameKey(t.pool[x], t'.pool[x])
  }

  lemma TimerAddsNothing(t: Tab, delta: int, dorip: bool)
    requires Inv(t)
    ensures NothingElse(t, Timer(t, delta, dorip), NONE)
  {
    hide Age;
    hide AgeChains;
    TableDistinct(t);
    AgeChainsExact(t, 0, delta, dorip);
    var t1 := AgeChains(t, 0, delta, dorip);
    forall x: Rid | Listed(t1, x)
      ensures Listed(t, x) && SameKey(t.pool[x], t1.pool[x])
    {
      var h :| 0 <= h < RT_TSIZE && x in t1.chains[h];
      assert ChainAged(t, t1, h, delta, dorip);
      SurvivorsMembers(t.pool, t.chains[h], delta, dorip);
      AgeKeepsKey(t.pool[x], delta, dorip);
    }
    DefaultAddsNothing(t1, delta, dorip);
  }

  lemma DefaultAddsNothing(t: Tab, delta: int, dorip: bool)
    requires Shaped(t)
    ensures NothingElse(t, AgeDefault(t, delta, dorip), NONE)
  {
    var t' := AgeDefault(t, delta, dorip);
    assert t'.chains == t.chains;
    forall x: Rid | Listed(t', x)
      ensures Listed(t, x)
    {
      var h :| 0 <= h < RT_TSIZE && x in t'.chains[h];
      assert x in t.chains[h];
    }
  }

  lemma AddToChainAdds(t: Tab, h: nat, r: Route, n: Rid, dorip: bool, x: Rid)
    requires Shaped(t) && h < RT_TSIZE
    ensures var t' := AddToChain(t, h, r, n, dorip);
            && SameKey(t.pool[x], t'.pool[x])
            && forall g :: 0 <= g < RT_TSIZE && x in t'.chains[g] && x != n ==> x in t.chains[g]
  {
    hide Find;
  }

  lemma AddAddsOne(t: Tab, r: Route, n: Rid, dorip: bool)
    requires Shaped(t)
    ensures NothingElse(t, Add(t, r, n, dorip), n)
    ensures Listed(Add(t, r, n, dorip), n) && !Listed(t, n) ==> SameKey(Add(t, r, n, dorip).pool[n], r)
  {
    var t1 := t.(pool := t.pool[n := r], live := t.live + {n});
    var t' := Add(t, r, n, dorip);
    forall x: Rid
      ensures r.net != RT_DEFAULT ==> SameKey(t1.pool[x], t'.pool[x])
      ensures x != n ==> SameKey(t.pool[x], t'.pool[x])
      ensures forall g :: 0 <= g < RT_TSIZE && x in t'.chains[g] && x != n ==> x in t.chains[g]
    {
      AddToChainAdds(t1, Hash(r.net), r, n, dorip, x);
    }
    hide Add;
    hide AddToChain;
    if r.net == RT_DEFAULT {
      AddDefaultChains(t, r, n, dorip);
    }
  }

  lemma AddDefaultChains(t: Tab, r: Route, n: Rid, dorip: bool)
    requires Shaped(t) && r.net == RT_DEFAULT
    ensures Add(t, r, n, dorip).chains == t.chains
  {
  }

  /** A chain that gets n at place i, in front of c[i] or for it, or stays as it was. */
  lemma MembersStay(c: seq<Rid>, i: nat, n: Rid, x: Rid)
    requires i <= |c| && x in c
    ensures x in c[..i] + [n] + c[i..]
    ensures i < |c| && x != c[i] ==> x in c[..i] + [n] + c[i + 1..]
  {
    assert c == c[..i] + c[i..];
    if i < |c| {
      assert c[i..] == [c[i]] + c[i + 1..];
    }
  }

  lemma OthersInChain(t: Tab, h: nat, r: Route, n: Rid, dorip: bool, x: Rid)
    requires Shaped(t) && h < RT_TSIZE && x != n && x in t.chains[h]
    requires var (i, dup) := Find(t.pool, t.chains[h], r); i <= |t.chains[h]| && (dup ==> i < |t.chains[h]| && x != t.chains[h][i])
    ensures var t' := AddToChain(t, h, r, n, dorip); x in t'.chains[h] && t'.pool[x] == t.pool[x]
  {
    var (i, dup) := Find(t.pool, t.chains[h], r);
    MembersStay(t.chains[h], i, n, x);
  }

  lemma OtherChains(t: Tab, h: nat, r: Route, n: Rid, dorip: bool, x: Rid)
    requires Shaped(t) && h < RT_TSIZE && x != n
    requires var (i, dup) := Find(t.pool, t.chains[h], r); i <= |t.chains[h]| && (dup ==> i < |t.chains[h]| && x != t.chains[h][i])
    ensures var t' := AddToChain(t, h, r, n, dorip);
            t'.pool[x] == t.pool[x] && forall g :: 0 <= g < RT_TSIZE && g != h ==> t'.chains[g] == t.chains[g]
  {
  }

  /** What the search of rtadd finds, if it finds anything, is the route for the same net and mask. */
  lemma FoundIsFor(t: Tab, r: Route)
    requires Inv(t) && r.key == MaskBits(r.mask)
    ensures var c := t.chains[Hash(r.net)];
            var (i, dup) := Find(t.pool, c, r);
            i <= |c| && (dup ==> i < |c| && IsFor(t.pool[c[i]], r.net, r.mask))
  {
    var c := t.chains[Hash(r.net)];
    assert ChainOk(t.pool, c, Hash(r.net));
    KeysFall(t.pool, c, Hash(r.net));
    FindFacts(t.pool, c, r);
  }

  /** rtadd leaves every route for another net or mask as it was, and adds none. */
  lemma AddKeepsOthers(t: Tab, r: Route, n: Rid, dorip: bool, x: Rid)
    requires Inv(t) && n !in t.live && r.refcnt == 1 && r.key == MaskBits(r.mask) && r.net != RT_DEFAULT
    ensures var t' := Add(t, r, n, dorip);
            && (Listed(t, x) && !IsFor(t.pool[x], r.net, r.mask) ==> Listed(t', x) && t'.pool[x] == t.pool[x])
            && (Listed(t', x) && !IsFor(t'.pool[x], r.net, r.mask) ==> Listed(t, x) && t.pool[x] == t'.pool[x])
  {
    hide AddToChain;
    hide ChainOk;
    hide RefOk;
    var h := Hash(r.net);
    var t1 := t.(pool := t.pool[n := r], live := t.live + {n});
    NewInv(t, n, r);
    FoundIsFor(t, r);
    FindNew(t.pool, t1.pool, t.chains[h], r);
    AddAddsOne(t, r, n, dorip);
    if x != n && !IsFor(t.pool[x], r.net, r.mask) {
      OtherChains(t1, h, r, n, dorip, x);
      if x in t.chains[h] {
        OthersInChain(t1, h, r, n, dorip, x);
      }
    }
  }

  lemma DelAddsNothing(t: Tab, net: Addr, mask: Addr)
    requires Shaped(t)
    ensures NothingElse(t, Del(t, net, mask).0, NONE)
  {
    var t' := Del(t, net, mask).0;
    forall x: Rid | Listed(t', x)
      ensures Listed(t, x) && SameKey(t.pool[x], t'.pool[x])
    {
      var h :| 0 <= h < RT_TSIZE && x in t'.chains[h];
      assert x in t.chains[h];
    }
  }

  /** While only routes with masks that cover their class are added, the table holds no others. */
  lemma StepKeepsMasked(t: Tab, op: Op, dorip: bool)
    requires Inv(t) && Shaped(t) && Enabled(t, op) && AllMasked(t)
    requires op.DoAdd? ==> op.net == RT_DEFAULT || Masked(op.net, op.mask)
    ensures AllMasked(Next(t, op, dorip))
  {
    hide Inv;
    hide Listed;
    hide Add;
    hide Del;
    hide Timer;
    var t' := Next(t, op, dorip);
    match op {
      case DoAdd(net, mask, gw, metric, ifnum, ttl, n) =>
        AddKeepsMasked(t, New(net, mask, gw, metric, ifnum, ttl), n, dorip);
      case DoDel(net, mask) =>
        DelAddsNothing(t, net, mask);
        MaskedSub(t, t', NONE);
      case DoTimer(delta) =>
        TimerAddsNothing(t, delta, dorip);
        MaskedSub(t, t', NONE);
      case _ =>
        OnlyCounts(t, t');
    }
  }

  lemma OnlyCounts(t: Tab, t': Tab)
    requires Shaped(t) && Shaped(t') && AllMasked(t) && t'.chains == t.chains
    requires forall x: Rid :: SameKey(t.pool[x], t'.pool[x])
    ensures AllMasked(t')
  {
    assert forall x: Rid :: Listed(t', x) ==> Listed(t, x);
  }

  lemma AddKeepsMasked(t: Tab, r: Route, n: Ptr, dorip: bool)
    requires Inv(t) && AllMasked(t) && n !in t.live && r.refcnt == 1 && r.key == MaskBits(r.mask)
    requires r.net == RT_DEFAULT || Masked(r.net, r.mask)
    ensures AllMasked(Add(t, r, n, dorip))
  {
    var t' := Add(t, r, n, dorip);
    if n != NONE {
      AddAddsOne(t, r, n, dorip);
      NewUnlisted(t, n);
      AddInv(t, r, n, dorip);
      hide Add;
      if Listed(t', n) && r.net == RT_DEFAULT {
        DefaultUnlisted(t', n);
      }
      MaskedSub(t, t', n);
    }
  }

  lemma MaskedSub(t: Tab, t': Tab, n: Ptr)
    requires Shaped(t) && Shaped(t') && AllMasked(t) && NothingElse(t, t', n)
    requires n != NONE && Listed(t', n) ==> Masked(t'.pool[n].net, t'.pool[n].mask)
    ensures AllMasked(t')
  {
    hide Listed;
  }

  lemma NewUnlisted(t: Tab, n: Rid)
    requires Inv(t) && n !in t.live
    ensures !Listed(t, n)
  {
    AnyRoute(t, n);
    forall h | 0 <= h < RT_TSIZE
      ensures n !in t.chains[h]
    {
      NotInChain(t, n, h);
    }
  }

  lemma DefaultUnlisted(t: Tab, n: Rid)
    requires Inv(t) && Listed(t, n)
    ensures t.pool[n].net != RT_DEFAULT
  {
    var h :| 0 <= h < RT_TSIZE && n in t.chains[h];
    LinkedHere(t, h, n);
  }

  /** rtinit */
  function Empty(pool: seq<Route>): Tab { Tab(pool, {}, seq(RT_TSIZE, _ => []), NONE, multiset{}) }

  lemma EmptyInv(pool: seq<Route>)
    requires |pool| == RT_BPSIZE
    ensures Inv(Empty(pool)) && AllMasked(Empty(pool))
  {
  }
}
