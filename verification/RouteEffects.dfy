/** What the operations on the routing table do to single routes: to the one that is added, to the default, to
    one that grows old, and to one that is given out. */
module RouteEffects {
  import opened Routes

  // ----- masks -----

  /** The byte with its first n bits set. */
  function FirstBits(n: nat): bv8
    requires n <= 8
  {
    [0x00, 0x80, 0xc0, 0xe0, 0xf0, 0xf8, 0xfc, 0xfe, 0xff][n]
  }

  function Clamp(n: int): nat { if n < 0 then 0 else if n > 8 then 8 else n }

  /** The mask of a prefix of n bits. */
  function Prefix(n: nat): Addr {
    [FirstBits(Clamp(n)), FirstBits(Clamp(n - 8)), FirstBits(Clamp(n - 16)), FirstBits(Clamp(n - 24))]
  }

  lemma {:induction false} OnesOfFirst(n: nat, m: nat)
    requires n <= 8 && m <= 8
    ensures Ones(FirstBits(n), m) == if n + m <= 8 then 0 else n + m - 8
  {
    if m > 0 {
      OnesOfFirst(n, m - 1);
      BitOfFirst(n, m - 1);
    }
  }

  lemma BitOfFirst(n: nat, i: nat)
    requires n <= 8 && i < 8
    ensures (FirstBits(n) >> i) & 1 == if i >= 8 - n then 1 else 0
  {
    match n
    case 0 =>
    case 1 =>
    case 2 =>
    case 3 =>
    case 4 =>
    case 5 =>
    case 6 =>
    case 7 =>
    case 8 =>
  }

  /** The sort key of a route is the length of its prefix. */
  lemma PrefixLength(n: nat)
    requires n <= 32
    ensures MaskBits(Prefix(n)) == n
  {
    hide Ones;
    hide FirstBits;
    OnesOfFirst(Clamp(n), 8);
    OnesOfFirst(Clamp(n - 8), 8);
    OnesOfFirst(Clamp(n - 16), 8);
    OnesOfFirst(Clamp(n - 24), 8);
    BitsOfFour(FirstBits(Clamp(n)), FirstBits(Clamp(n - 8)), FirstBits(Clamp(n - 16)), FirstBits(Clamp(n - 24)));
  }

  lemma BitsOfFour(a: bv8, b: bv8, c: bv8, d: bv8)
    ensures MaskBits([a, b, c, d]) == Ones(a, 8) + Ones(b, 8) + Ones(c, 8) + Ones(d, 8)
  {
    hide Ones;
  }

  // ----- adding -----

  /** The route that rtadd leaves for the net and mask: a new one if there was none; the old one, heard of again,
      from the same gateway; and from another gateway the new one only if that is nearer. */
  lemma AddExact(t: Tab, r: Route, n: Rid, dorip: bool) returns (y: Rid)
    requires Inv(t) && n !in t.live && r.refcnt == 1 && r.key == MaskBits(r.mask) && r.net != RT_DEFAULT
    ensures var t' := Add(t, r, n, dorip);
            && Listed(t', y) && IsFor(t'.pool[y], r.net, r.mask)
            && ((forall x: Rid :: Listed(t, x) ==> !IsFor(t.pool[x], r.net, r.mask)) ==> y == n && t'.pool[y] == r)
            && forall x: Rid :: Listed(t, x) && IsFor(t.pool[x], r.net, r.mask) ==>
                 var was := t.pool[x];
                 if was.gw != r.gw && r.metric < was.metric then y == n && t'.pool[y] == r
                 else if was.gw != r.gw then y == x && t'.pool[y] == was
                 else y == x && t'.pool[y].gw == was.gw && t'.pool[y].metric == r.metric && t'.pool[y].ifnum == was.ifnum
                      && t'.pool[y].ttl == if !dorip then was.ttl else if r.metric == RTM_INF != was.metric then RIPZTIME else r.ttl
  {
    var h := Hash(r.net);
    var t1 := t.(pool := t.pool[n := r], live := t.live + {n});
    NewInv(t, n, r);
    var c := t.chains[h];
    SameSearch(t, r);
    FindNew(t.pool, t1.pool, c, r);
    FoundIsFor(t, r);
    OnlyRouteFor(t, r.net, r.mask);
    var (i, dup) := Find(t1.pool, c, r);
    var t' := Add(t, r, n, dorip);
    y := if dup && (t.pool[c[i]].gw == r.gw || t.pool[c[i]].metric <= r.metric) then c[i] else n;
    assert t'.chains[h][i] == y;
    if dup {
      assert Listed(t, c[i]);
    }
  }

  /** Without a buffer rtadd does nothing; a route for the default net takes the place of the default route,
      whatever that was, and leaves the chains alone. */
  lemma AddDefault(t: Tab, r: Route, n: Ptr, dorip: bool)
    requires Shaped(t) && (n != NONE ==> r.net == RT_DEFAULT && n != t.dflt)
    ensures n == NONE ==> Add(t, r, n, dorip) == t
    ensures n != NONE ==>
              var t' := Add(t, r, n, dorip);
              && t'.dflt == n && t'.pool[n] == r && n in t'.live && t'.chains == t.chains
              && (t.dflt != NONE ==> t'.pool[t.dflt].refcnt == t.pool[t.dflt].refcnt - 1)
  {
  }

  /** Deleting the default net takes the default route away, whatever the mask; the chains stay. */
  lemma DelDefault(t: Tab, mask: Addr)
    requires Inv(t) && t.dflt != NONE
    ensures var (t', found) := Del(t, RT_DEFAULT, mask);
            found && t'.dflt == NONE && t'.chains == t.chains && t'.pool[t.dflt].refcnt == t.pool[t.dflt].refcnt - 1
  {
  }

  // ----- growing old -----

  /** A route that is not for ever loses the time that passes and nothing else until it has none left; from
      then on it is gone, or kept as infinitely far for RIP. */
  lemma {:induction false} AgesExactly(r: Route, ds: seq<nat>, dorip: bool)
    requires r.ttl > 0 && !CountsToInf(r.ttl, ds)
    ensures Elapsed(ds) < r.ttl ==> AgeAll(r, ds, dorip) == Keep(r.(ttl := r.ttl - Elapsed(ds)))
    ensures Elapsed(ds) >= r.ttl ==>
              match AgeAll(r, ds, dorip)
              case Keep(r') => dorip && r.metric < RTM_INF && r' == r.(metric := RTM_INF, ttl := r'.ttl) && 0 < r'.ttl <= RIPZTIME
              case Gone(r') => true
    decreases |ds|
  {
    if ds != [] {
      if r.ttl - ds[0] > 0 {
        AgesExactly(r.(ttl := r.ttl - ds[0]), ds[1..], dorip);
      } else if dorip && r.metric < RTM_INF && RIPZTIME - ds[0] > 0 {
        StaysInfinite(r.(metric := RTM_INF, ttl := RIPZTIME - ds[0]), ds[1..], dorip);
      }
    }
  }

  lemma {:induction false} StaysInfinite(r: Route, ds: seq<nat>, dorip: bool)
    requires r.metric == RTM_INF && 0 < r.ttl < RT_INF
    ensures match AgeAll(r, ds, dorip)
            case Keep(r') => r' == r.(ttl := r'.ttl) && 0 < r'.ttl <= r.ttl
            case Gone(r') => true
    decreases |ds|
  {
    if ds != [] && r.ttl - ds[0] > 0 {
      StaysInfinite(r.(ttl := r.ttl - ds[0]), ds[1..], dorip);
    }
  }

  /** With RIP to tell, a route that runs out of time is held as infinitely far unless the same run takes the
      time of that as well; without, it goes at once. */
  lemma HeldForRip(r: Route, delta: nat, dorip: bool)
    requires r.ttl != RT_INF && 0 < r.ttl <= delta
    ensures Age(r, delta, dorip).Keep? <==> dorip && r.metric < RTM_INF && delta < RIPZTIME
    ensures Age(r, delta, dorip).Keep? ==> Age(r, delta, dorip).r == r.(metric := RTM_INF, ttl := RIPZTIME - delta)
  {
  }

  /** The default route, whose hold time is whole. */
  lemma DefaultAges(t: Tab, delta: nat, dorip: bool)
    requires Shaped(t) && t.dflt != NONE
    ensures var d, t' := t.pool[t.dflt], AgeDefault(t, delta, dorip);
            && t'.chains == t.chains && (forall x: Rid :: x != t.dflt ==> t'.pool[x] == t.pool[x])
            && (d.ttl >= RT_INF ==> t' == t)
            && (delta < d.ttl < RT_INF ==> t'.dflt == t.dflt && t'.pool[t.dflt] == d.(ttl := d.ttl - delta))
            && (d.ttl < RT_INF && d.ttl <= delta ==>
                  if dorip && d.metric < RTM_INF then t'.dflt == t.dflt && t'.pool[t.dflt] == d.(metric := RTM_INF, ttl := RIPZTIME)
                  else t'.dflt == NONE && t'.pool[t.dflt].refcnt == d.refcnt - 1)
  {
  }

  // ----- giving out -----

  /** A route that is given out has one reference and one use more; nothing else changes. Given back, it has a
      reference less, and is as it was but for the use. */
  lemma GetExact(t: Tab, dst: Addr, local: bool, brc: bool)
    requires Shaped(t)
    ensures var (t', id) := Get(t, dst, local, brc);
            && id == Lookup(t, dst, local, brc)
            && (id == NONE ==> t' == t)
            && (id != NONE ==>
                  && t' == t.(pool := t.pool[id := t.pool[id].(refcnt := t.pool[id].refcnt + 1, usecnt := t.pool[id].usecnt + 1)],
                              handles := t.handles + multiset{id})
                  && id in t'.handles
                  && (t.pool[id].refcnt > 0 ==> Put(t', id).pool == t.pool[id := t.pool[id].(usecnt := t.pool[id].usecnt + 1)]
                                                && Put(t', id).live == t.live && Put(t', id).handles == t.handles))
  {
    hide Lookup;
  }
}
