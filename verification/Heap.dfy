/** The heap (getmem, getstk, freemem) on values: the free list is a sequence of blocks. */
module Heap {

  datatype Block = Block(addr: int, len: int) {
    function End(): int { addr + len }
    predicate Has(x: int) { addr <= x < addr + len }
  }

  function RoundMb(n: nat): (r: nat)
    ensures r % 8 == 0 && n <= r < n + 8
  {
    (n + 7) / 8 * 8
  }

  // ----- free lists -----

  /** In order of address, with a gap between any two blocks: disjoint, and coalesced as far as can be. */
  ghost predicate Canonical(s: seq<Block>) {
    && (forall i :: 0 <= i < |s| ==> s[i].addr > 0 && s[i].len > 0)
    && forall i, j :: 0 <= i < j < |s| ==> s[i].End() < s[j].addr
  }

  ghost predicate Covers(s: seq<Block>, x: int) {
    exists i :: 0 <= i < |s| && s[i].Has(x)
  }

  lemma CoversRest(s: seq<Block>, x: int)
    requires s != []
    ensures Covers(s, x) <==> s[0].Has(x) || Covers(s[1..], x)
  {
    if Covers(s, x) {
      var i :| 0 <= i < |s| && s[i].Has(x);
      assert i > 0 ==> s[1..][i - 1].Has(x);
    }
    if Covers(s[1..], x) {
      var i :| 0 <= i < |s[1..]| && s[1..][i].Has(x);
      assert s[i + 1].Has(x);
    }
  }

  lemma CanonicalRest(s: seq<Block>)
    requires Canonical(s) && s != []
    ensures Canonical(s[1..]) && forall x :: Covers(s[1..], x) ==> x > s[0].End()
  {
    forall x | Covers(s[1..], x)
      ensures x > s[0].End()
    {
      var i :| 0 <= i < |s[1..]| && s[1..][i].Has(x);
      assert s[i + 1].Has(x);
    }
  }

  ghost predicate SameCover(s: seq<Block>, t: seq<Block>) {
    forall x :: Covers(s, x) <==> Covers(t, x)
  }

  /** The first block of a canonical list is the first run of covered bytes. */
  lemma FirstRun(s: seq<Block>)
    requires Canonical(s) && s != []
    ensures forall x :: s[0].Has(x) ==> Covers(s, x)
    ensures !Covers(s, s[0].End()) && forall x :: x < s[0].addr ==> !Covers(s, x)
  {
    forall x
      ensures s[0].Has(x) ==> Covers(s, x)
      ensures Covers(s, x) ==> s[0].Has(x) || x > s[0].End()
    {
      CoversRest(s, x);
      CanonicalRest(s);
    }
  }

  /** There is one canonical list for a set of bytes. */
  lemma {:induction false} CanonicalUnique(s: seq<Block>, t: seq<Block>)
    requires Canonical(s) && Canonical(t) && SameCover(s, t)
    ensures s == t
  {
    hide Covers;
    if s == [] {
      if t != [] {
        FirstRun(t);
        assert t[0].Has(t[0].addr);
        NothingCovered(t[0].addr);
      }
    } else if t == [] {
      FirstRun(s);
      assert s[0].Has(s[0].addr);
      NothingCovered(s[0].addr);
    } else {
      FirstRun(s);
      FirstRun(t);
      assert s[0].Has(s[0].addr) && t[0].Has(t[0].addr);
      assert s[0].addr == t[0].addr;
      assert Covers(s, s[0].End()) <==> Covers(t, s[0].End());
      assert Covers(s, t[0].End()) <==> Covers(t, t[0].End());
      assert s[0] == t[0];
      CanonicalRest(s);
      CanonicalRest(t);
      forall x
        ensures Covers(s[1..], x) <==> Covers(t[1..], x)
      {
        CoversRest(s, x);
        CoversRest(t, x);
      }
      CanonicalUnique(s[1..], t[1..]);
      assert s == [s[0]] + s[1..] && t == [t[0]] + t[1..];
    }
  }

  lemma NothingCovered(x: int)
    ensures !Covers([], x)
  {
  }

  // ----- freemem -----

  /** Where freemem's search stops: the first block that is not below the freed one. */
  function Place(s: seq<Block>, addr: int): (i: nat)
    ensures i <= |s|
    ensures forall j :: 0 <= j < i ==> s[j].addr < addr
    ensures i < |s| ==> s[i].addr >= addr
  {
    if s == [] || s[0].addr >= addr then 0 else 1 + Place(s[1..], addr)
  }

  predicate Overlaps(s: seq<Block>, b: Block) {
    var i := Place(s, b.addr);
    (i > 0 && s[i - 1].End() > b.addr) || (i < |s| && b.End() > s[i].addr)
  }

  /** The list with b put in between places i - 1 and i, joined to either neighbour that it touches. */
  function Insert(s: seq<Block>, i: nat, b: Block): seq<Block>
    requires i <= |s|
  {
    var left := i > 0 && s[i - 1].End() == b.addr;
    var b1 := if left then Block(s[i - 1].addr, s[i - 1].len + b.len) else b;
    var front := if left then s[..i - 1] else s[..i];
    if i < |s| && b1.End() == s[i].addr then front + [Block(b1.addr, b1.len + s[i].len)] + s[i + 1..]
    else front + [b1] + s[i..]
  }

  /** freemem on a heap from lo to hi: the list afterwards, and whether the request was accepted. */
  function FreeMem(s: seq<Block>, lo: int, hi: int, addr: int, size: nat): (seq<Block>, bool) {
    if size == 0 || addr > hi || addr < lo then (s, false)
    else
      var b := Block(addr, RoundMb(size));
      if Overlaps(s, b) then (s, false) else (Insert(s, Place(s, addr), b), true)
  }

  /** freemem's two comparisons tell overlap exactly. */
  lemma OverlapExact(s: seq<Block>, b: Block)
    requires Canonical(s) && b.len > 0
    ensures Overlaps(s, b) <==> exists x :: b.Has(x) && Covers(s, x)
  {
    var i := Place(s, b.addr);
    if i > 0 && s[i - 1].End() > b.addr {
      assert s[i - 1].Has(b.addr) && b.Has(b.addr);
    } else if i < |s| && b.End() > s[i].addr {
      assert s[i].Has(s[i].addr) && b.Has(s[i].addr);
    } else {
      forall x | b.Has(x)
        ensures !Covers(s, x)
      {
        forall j | 0 <= j < |s|
          ensures !s[j].Has(x)
        {
          assert j < i - 1 ==> s[j].End() < s[i - 1].addr;
          assert i < j ==> s[i].End() < s[j].addr;
        }
      }
    }
  }

  // ----- replacing part of a list -----

  ghost predicate Fits(s: seq<Block>, f: nat, mid: seq<Block>, k: nat) {
    && f <= k <= |s| && Canonical(mid)
    && (forall i, j :: 0 <= i < f && 0 <= j < |mid| ==> s[i].End() < mid[j].addr)
    && (forall i, j :: k <= i < |s| && 0 <= j < |mid| ==> mid[j].End() < s[i].addr)
  }

  lemma JoinedCanonical(a: seq<Block>, b: seq<Block>)
    requires Canonical(a) && Canonical(b)
    requires forall i, j :: 0 <= i < |a| && 0 <= j < |b| ==> a[i].End() < b[j].addr
    ensures Canonical(a + b)
  {
    forall i | 0 <= i < |a + b|
      ensures (a + b)[i] == if i < |a| then a[i] else b[i - |a|]
    {
    }
  }

  lemma ReplacedCanonical(s: seq<Block>, f: nat, mid: seq<Block>, k: nat)
    requires Canonical(s) && Fits(s, f, mid, k)
    ensures Canonical(s[..f] + mid + s[k..])
  {
    var head, tail := s[..f], s[k..];
    JoinedCanonical(head, mid);
    forall i, j | 0 <= i < |head + mid| && 0 <= j < |tail|
      ensures (head + mid)[i].End() < tail[j].addr
    {
      assert tail[j] == s[k + j];
      assert i < f ==> (head + mid)[i] == s[i];
    }
    JoinedCanonical(head + mid, tail);
  }

  lemma CoversJoined(a: seq<Block>, b: seq<Block>, x: int)
    ensures Covers(a + b, x) <==> Covers(a, x) || Covers(b, x)
  {
    if Covers(a, x) {
      var i :| 0 <= i < |a| && a[i].Has(x);
      assert (a + b)[i].Has(x);
    }
    if Covers(b, x) {
      var i :| 0 <= i < |b| && b[i].Has(x);
      assert (a + b)[|a| + i].Has(x);
    }
    if Covers(a + b, x) {
      var i :| 0 <= i < |a + b| && (a + b)[i].Has(x);
      assert i < |a| ==> a[i].Has(x);
      assert i >= |a| ==> b[i - |a|].Has(x);
    }
  }

  /** What replacing the blocks from f up to k by others does to the covered bytes. */
  lemma ReplacedCovers(s: seq<Block>, f: nat, mid: seq<Block>, k: nat, x: int)
    requires f <= k <= |s|
    ensures Covers(s[..f] + mid + s[k..], x) <==> Covers(s[..f], x) || Covers(mid, x) || Covers(s[k..], x)
    ensures Covers(s, x) <==> Covers(s[..f], x) || Covers(s[f..k], x) || Covers(s[k..], x)
  {
    CoversJoined(s[..f] + mid, s[k..], x);
    CoversJoined(s[..f], mid, x);
    CoversJoined(s[..f] + s[f..k], s[k..], x);
    CoversJoined(s[..f], s[f..k], x);
    assert s[..f] + s[f..k] + s[k..] == s;
  }

  lemma CoversOne(b: Block, x: int)
    ensures Covers([b], x) <==> b.Has(x)
  {
    assert [b][0] == b;
  }

  /** The block that freemem leaves in place of those it joins, and where those begin and end. */
  function Merged(s: seq<Block>, i: nat, b: Block): (nat, Block, nat)
    requires i <= |s|
  {
    var left := i > 0 && s[i - 1].End() == b.addr;
    var b1 := if left then Block(s[i - 1].addr, s[i - 1].len + b.len) else b;
    var f := if left then i - 1 else i;
    if i < |s| && b1.End() == s[i].addr then (f, Block(b1.addr, b1.len + s[i].len), i + 1) else (f, b1, i)
  }

  lemma InsertIsMerged(s: seq<Block>, i: nat, b: Block)
    requires i <= |s|
    ensures var (f, m, k) := Merged(s, i, b);
            f <= i <= k <= |s| && Insert(s, i, b) == s[..f] + [m] + s[k..]
  {
  }

  lemma MergedCovers(s: seq<Block>, i: nat, b: Block, x: int)
    requires i <= |s| && b.len > 0 && Canonical(s)
    ensures var (f, m, k) := Merged(s, i, b);
            f <= k <= |s| && (m.Has(x) <==> b.Has(x) || Covers(s[f..k], x))
  {
    var (f, m, k) := Merged(s, i, b);
    if f == i && k == i {
      assert s[f..k] == [];
    } else if k == f + 1 {
      assert s[f..k] == [s[f]];
      CoversOne(s[f], x);
    } else {
      assert s[f..k] == [s[i - 1]] + [s[i]];
      CoversJoined([s[i - 1]], [s[i]], x);
      CoversOne(s[i - 1], x);
      CoversOne(s[i], x);
    }
  }

  /** freemem keeps the list canonical and adds exactly the freed bytes. */
  lemma InsertExact(s: seq<Block>, b: Block)
    requires Canonical(s) && b.len > 0 && b.addr > 0 && !Overlaps(s, b)
    ensures Canonical(Insert(s, Place(s, b.addr), b))
    ensures forall x :: Covers(Insert(s, Place(s, b.addr), b), x) <==> Covers(s, x) || b.Has(x)
  {
    var i := Place(s, b.addr);
    var (f, m, k) := Merged(s, i, b);
    InsertIsMerged(s, i, b);
    MergedFits(s, b);
    ReplacedCanonical(s, f, [m], k);
    hide Covers;
    hide Merged;
    hide Insert;
    forall x
      ensures Covers(Insert(s, i, b), x) <==> Covers(s, x) || b.Has(x)
    {
      ReplacedCovers(s, f, [m], k, x);
      MergedCovers(s, i, b, x);
      CoversOne(m, x);
    }
  }

  lemma MergedFits(s: seq<Block>, b: Block)
    requires Canonical(s) && b.len > 0 && b.addr > 0 && !Overlaps(s, b)
    ensures var (f, m, k) := Merged(s, Place(s, b.addr), b);
            Fits(s, f, [m], k)
  {
    var i := Place(s, b.addr);
    LowerEnds(s, i);
    HigherStarts(s, i);
    MergedFitsAt(s, i, b);
  }

  lemma MergedFitsAt(s: seq<Block>, i: nat, b: Block)
    requires i <= |s| && b.len > 0 && b.addr > 0
    requires i > 0 ==> s[i - 1].len > 0 && s[i - 1].addr > 0 && s[i - 1].End() <= b.addr
    requires i < |s| ==> s[i].len > 0 && b.End() <= s[i].addr
    requires forall j :: 0 <= j < i - 1 ==> s[j].End() < s[i - 1].addr
    requires i < |s| ==> forall j :: i < j < |s| ==> s[i].End() < s[j].addr
    ensures var (f, m, k) := Merged(s, i, b);
            Fits(s, f, [m], k)
  {
    hide Canonical;
    var (f, m, k) := Merged(s, i, b);
    assert m.addr == if f < i then s[i - 1].addr else b.addr;
    assert m.End() == if i < k then s[i].End() else b.End();
    OneCanonical(m);
  }

  lemma OneCanonical(m: Block)
    ensures Canonical([m]) <==> m.addr > 0 && m.len > 0
  {
    assert [m][0] == m;
  }

  lemma LowerEnds(s: seq<Block>, i: nat)
    requires Canonical(s) && i <= |s|
    ensures i > 0 ==> s[i - 1].len > 0 && s[i - 1].addr > 0 && forall j :: 0 <= j < i - 1 ==> s[j].End() < s[i - 1].addr
  {
  }

  lemma HigherStarts(s: seq<Block>, i: nat)
    requires Canonical(s) && i <= |s|
    ensures i < |s| ==> s[i].len > 0 && forall j :: i < j < |s| ==> s[i].End() < s[j].addr
  {
  }

  // ----- getmem and getstk -----

  /** First fit: the lowest block of at least n bytes, or the list's length. */
  function FirstFit(s: seq<Block>, n: int): (i: nat)
    ensures i <= |s| && (i < |s| ==> s[i].len >= n)
    ensures forall j :: 0 <= j < i ==> s[j].len < n
  {
    if s == [] || s[0].len >= n then 0 else 1 + FirstFit(s[1..], n)
  }

  /** Last fit: the highest such block, or the list's length. */
  function LastFit(s: seq<Block>, n: int): (i: nat)
    ensures i <= |s| && (i < |s| ==> s[i].len >= n)
    ensures i < |s| ==> forall j :: i < j < |s| ==> s[j].len < n
    ensures i == |s| ==> forall j :: 0 <= j < |s| ==> s[j].len < n
  {
    if s == [] then 0
    else if s[|s| - 1].len >= n then |s| - 1
    else var i := LastFit(s[..|s| - 1], n); if i == |s| - 1 then |s| else i
  }

  datatype Result = None | Some(b: Block)

  /** getmem takes the low end of the block it finds. */
  function GetMem(s: seq<Block>, nbytes: nat): (seq<Block>, Result) {
    var n := RoundMb(nbytes);
    var i := FirstFit(s, n);
    if nbytes == 0 || i == |s| then (s, None)
    else
      var p := s[i];
      (s[..i] + (if p.len == n then [] else [Block(p.addr + n, p.len - n)]) + s[i + 1..], Some(Block(p.addr, n)))
  }

  /** getstk takes the high end; n is the size rounded up to a word, which must come to whole blocks of eight. */
  function GetStk(s: seq<Block>, n: nat): (seq<Block>, Result) {
    var i := LastFit(s, n);
    if n == 0 || i == |s| then (s, None)
    else
      var p := s[i];
      (s[..i] + (if p.len == n then [] else [Block(p.addr, p.len - n)]) + s[i + 1..], Some(Block(p.End() - n, n)))
  }

  /** mid is what is left of p when b has been taken off either end of it. */
  predicate Cut(p: Block, b: Block, mid: seq<Block>) {
    && 0 < b.len <= p.len
    && ((b.addr == p.addr && mid == if b.len == p.len then [] else [Block(b.End(), p.len - b.len)])
        || (b.End() == p.End() && mid == if b.len == p.len then [] else [Block(p.addr, p.len - b.len)]))
  }

  lemma CutCovers(p: Block, b: Block, mid: seq<Block>, x: int)
    requires Cut(p, b, mid)
    ensures (p.Has(x) <==> Covers(mid, x) || b.Has(x)) && !(Covers(mid, x) && b.Has(x))
  {
    if mid == [] {
      NothingCovered(x);
    } else {
      CoversOne(mid[0], x);
    }
  }

  lemma CutFits(s: seq<Block>, i: nat, mid: seq<Block>, b: Block)
    requires Canonical(s) && i < |s| && Cut(s[i], b, mid)
    ensures Fits(s, i, mid, i + 1)
  {
    forall j | 0 <= j < i
      ensures s[j].End() < s[i].addr
    {
    }
    forall j | i + 1 <= j < |s|
      ensures s[i].End() < s[j].addr
    {
    }
  }

  /** A request that takes b off either end of block i. */
  lemma TakenExact(s: seq<Block>, i: nat, mid: seq<Block>, b: Block)
    requires Canonical(s) && i < |s| && Cut(s[i], b, mid)
    ensures Canonical(s[..i] + mid + s[i + 1..])
    ensures forall x :: Covers(s, x) <==> Covers(s[..i] + mid + s[i + 1..], x) || b.Has(x)
    ensures forall x :: b.Has(x) ==> !Covers(s[..i] + mid + s[i + 1..], x)
  {
    CutFits(s, i, mid, b);
    ReplacedCanonical(s, i, mid, i + 1);
    hide Canonical;
    hide Covers;
    hide Cut;
    forall x
      ensures Covers(s, x) <==> Covers(s[..i] + mid + s[i + 1..], x) || b.Has(x)
      ensures b.Has(x) ==> !Covers(s[..i] + mid + s[i + 1..], x)
    {
      ReplacedCovers(s, i, mid, i + 1, x);
      assert s[i..i + 1] == [s[i]];
      CoversOne(s[i], x);
      CutCovers(s[i], b, mid, x);
      OnlyBlock(s, i, x);
    }
  }

  /** A byte of one block is in no other. */
  lemma OnlyBlock(s: seq<Block>, i: nat, x: int)
    requires Canonical(s) && i < |s|
    ensures s[i].Has(x) ==> !Covers(s[..i], x) && !Covers(s[i + 1..], x)
  {
    forall j | 0 <= j < i
      ensures s[i].Has(x) ==> !s[j].Has(x)
    {
      assert s[j].End() < s[i].addr;
    }
    forall j | i < j < |s|
      ensures s[i].Has(x) ==> !s[j].Has(x)
    {
      assert s[i].End() < s[j].addr;
    }
    assert forall j :: 0 <= j < i ==> s[..i][j] == s[j];
    assert forall j :: i < j < |s| ==> s[i + 1..][j - i - 1] == s[j];
  }

  lemma GetMemExact(s: seq<Block>, nbytes: nat)
    requires Canonical(s)
    ensures var (t, r) := GetMem(s, nbytes);
            && Canonical(t)
            && (r.None? ==> t == s && (nbytes == 0 || forall j :: 0 <= j < |s| ==> s[j].len < RoundMb(nbytes)))
            && (r.Some? ==> r.b.len == RoundMb(nbytes) && r.b.addr > 0 && Split(s, t, r.b))
  {
    var n := RoundMb(nbytes);
    hide RoundMb;
    var i := FirstFit(s, n);
    if nbytes > 0 && i < |s| {
      var p := s[i];
      assert p.addr > 0;
      hide Canonical;
      hide Covers;
      var mid := if p.len == n then [] else [Block(p.addr + n, p.len - n)];
      assert GetMem(s, nbytes) == (s[..i] + mid + s[i + 1..], Some(Block(p.addr, n)));
      hide GetMem;
      TakenExact(s, i, mid, Block(p.addr, n));
    }
  }

  /** s is t and b together, and t and b have nothing in common. */
  ghost predicate Split(s: seq<Block>, t: seq<Block>, b: Block) {
    && (forall x :: Covers(s, x) <==> Covers(t, x) || b.Has(x))
    && forall x :: b.Has(x) ==> !Covers(t, x)
  }

  lemma GetStkExact(s: seq<Block>, n: nat)
    requires Canonical(s)
    ensures var (t, r) := GetStk(s, n);
            && Canonical(t)
            && (r.None? ==> t == s && (n == 0 || forall j :: 0 <= j < |s| ==> s[j].len < n))
            && (r.Some? ==> r.b.len == n && r.b.addr > 0 && Split(s, t, r.b))
  {
    var i := LastFit(s, n);
    if n > 0 && i < |s| {
      var p := s[i];
      assert p.addr > 0;
      hide Canonical;
      hide Covers;
      var mid := if p.len == n then [] else [Block(p.addr, p.len - n)];
      assert GetStk(s, n) == (s[..i] + mid + s[i + 1..], Some(Block(p.End() - n, n)));
      hide GetStk;
      TakenExact(s, i, mid, Block(p.End() - n, n));
    }
  }

  /** All n bytes from a on are free. */
  ghost predicate FreeRun(s: seq<Block>, a: int, n: int) { forall x :: a <= x < a + n ==> Covers(s, x) }

  /** Free bytes in a row lie in one block, for between blocks there are gaps. */
  lemma InOneBlock(s: seq<Block>, a: int, n: int) returns (i: nat)
    requires Canonical(s) && n > 0 && FreeRun(s, a, n)
    ensures i < |s| && s[i].addr <= a && a + n <= s[i].End()
  {
    assert Covers(s, a);
    i :| 0 <= i < |s| && s[i].Has(a);
    var x := s[i].End();
    GapBehind(s, i);
    assert x < a + n ==> Covers(s, x);
  }

  lemma GapBehind(s: seq<Block>, i: nat)
    requires Canonical(s) && i < |s|
    ensures !Covers(s, s[i].End())
  {
    forall j | 0 <= j < |s|
      ensures !s[j].Has(s[i].End())
    {
      assert j < i ==> s[j].End() < s[i].addr;
      assert i < j ==> s[i].End() < s[j].addr;
    }
  }

  lemma BlockIsRun(s: seq<Block>, i: nat, a: int, n: int)
    requires i < |s| && s[i].addr <= a && a + n <= s[i].End()
    ensures FreeRun(s, a, n)
  {
    forall x | a <= x < a + n
      ensures Covers(s, x)
    {
      assert s[i].Has(x);
    }
  }

  /** getmem finds a block whenever there are enough free bytes in a row, and gives out the lowest. */
  lemma GetMemLowest(s: seq<Block>, nbytes: nat)
    requires Canonical(s)
    ensures var n, r := RoundMb(nbytes), GetMem(s, nbytes).1;
            && (r.Some? <==> nbytes > 0 && exists a :: FreeRun(s, a, n))
            && (r.Some? ==> FreeRun(s, r.b.addr, n) && forall a :: FreeRun(s, a, n) ==> r.b.addr <= a)
  {
    var n, r := RoundMb(nbytes), GetMem(s, nbytes).1;
    var i := FirstFit(s, n);
    if nbytes > 0 {
      if i < |s| {
        BlockIsRun(s, i, s[i].addr, n);
      }
      forall a | FreeRun(s, a, n)
        ensures i < |s| && s[i].addr <= a
      {
        var k := InOneBlock(s, a, n);
        assert i < k ==> s[i].End() < s[k].addr;
      }
    }
    hide FreeRun;
    hide Canonical;
  }

  /** getstk gives out the highest. */
  lemma GetStkHighest(s: seq<Block>, n: nat)
    requires Canonical(s)
    ensures var r := GetStk(s, n).1;
            && (r.Some? <==> n > 0 && exists a :: FreeRun(s, a, n))
            && (r.Some? ==> FreeRun(s, r.b.addr, n) && forall a :: FreeRun(s, a, n) ==> a <= r.b.addr)
  {
    var r := GetStk(s, n).1;
    var i := LastFit(s, n);
    if n > 0 {
      if i < |s| {
        BlockIsRun(s, i, s[i].End() - n, n);
      }
      forall a | FreeRun(s, a, n)
        ensures i < |s| && a <= s[i].End() - n
      {
        var k := InOneBlock(s, a, n);
        assert k < i ==> s[k].End() < s[i].addr;
      }
    }
    hide FreeRun;
    hide Canonical;
  }

  // ----- runs -----

  /** The free list, and the blocks that have been handed out and not come back. */
  datatype State = State(free: seq<Block>, live: seq<Block>)

  datatype Op = DoGet(nbytes: nat) | DoGetStk(n: nat) | DoFree(i: nat)

  predicate Enabled(h: State, op: Op) {
    match op
    case DoGet(_) => true
    case DoGetStk(n) => n % 8 == 0
    case DoFree(i) => i < |h.live|
  }

  function Next(h: State, op: Op, lo: int, hi: int): State
    requires Enabled(h, op)
  {
    match op
    case DoGet(nbytes) =>
      var (t, r) := GetMem(h.free, nbytes);
      State(t, if r.Some? then h.live + [r.b] else h.live)
    case DoGetStk(n) =>
      var (t, r) := GetStk(h.free, n);
      State(t, if r.Some? then h.live + [r.b] else h.live)
    case DoFree(i) =>
      var b := h.live[i];
      var (t, ok) := FreeMem(h.free, lo, hi, b.addr, if b.len > 0 then b.len else 0);
      State(t, if ok then h.live[..i] + h.live[i + 1..] else h.live)
  }

  /** What is free and what is live make up what there was at the start, and nothing is both or live twice. */
  ghost predicate Inv(start: seq<Block>, h: State) {
    && Canonical(h.free)
    && (forall x :: Covers(start, x) <==> Covers(h.free, x) || Covers(h.live, x))
    && (forall x :: Covers(h.free, x) ==> !Covers(h.live, x))
    && (forall i :: 0 <= i < |h.live| ==> h.live[i].len > 0 && h.live[i].len % 8 == 0 && h.live[i].addr > 0)
    && forall i, j, x :: 0 <= i < j < |h.live| && h.live[i].Has(x) ==> !h.live[j].Has(x)
  }

  lemma TakeInv(start: seq<Block>, h: State, t: seq<Block>, b: Block)
    requires Inv(start, h) && Canonical(t) && Split(h.free, t, b) && b.len > 0 && b.len % 8 == 0 && b.addr > 0
    ensures Inv(start, State(t, h.live + [b]))
  {
    hide Canonical;
    var live := h.live + [b];
    forall x
      ensures Covers(live, x) <==> Covers(h.live, x) || b.Has(x)
    {
      CoversJoined(h.live, [b], x);
      CoversOne(b, x);
    }
    forall i, x | 0 <= i < |h.live| && h.live[i].Has(x)
      ensures !b.Has(x)
    {
      assert Covers(h.live, x);
    }
  }

  lemma LiveApart(start: seq<Block>, h: State, i: nat)
    requires Inv(start, h) && i < |h.live|
    ensures var b, rest := h.live[i], h.live[..i] + h.live[i + 1..];
            && (forall x :: Covers(h.live, x) <==> Covers(rest, x) || b.Has(x))
            && (forall x :: b.Has(x) ==> !Covers(rest, x) && !Covers(h.free, x) && Covers(start, x))
  {
    hide Canonical;
    var b, rest := h.live[i], h.live[..i] + h.live[i + 1..];
    forall x
      ensures Covers(h.live, x) <==> Covers(rest, x) || b.Has(x)
      ensures b.Has(x) ==> !Covers(rest, x) && !Covers(h.free, x) && Covers(start, x)
    {
      ReplacedCovers(h.live, i, [], i + 1, x);
      assert h.live[..i] + [] + h.live[i + 1..] == rest && h.live[i..i + 1] == [b];
      CoversOne(b, x);
      NothingCovered(x);
      if b.Has(x) {
        assert forall j :: 0 <= j < i ==> h.live[..i][j] == h.live[j];
        assert forall j :: i < j < |h.live| ==> h.live[i + 1..][j - i - 1] == h.live[j];
      }
    }
  }

  /** A block that is given back is accepted, and joins the free list. */
  lemma FreeInv(start: seq<Block>, h: State, i: nat, lo: int, hi: int)
    requires Inv(start, h) && i < |h.live| && forall x :: Covers(start, x) ==> lo <= x <= hi
    ensures var b := h.live[i];
            && FreeMem(h.free, lo, hi, b.addr, b.len).1
            && Inv(start, State(FreeMem(h.free, lo, hi, b.addr, b.len).0, h.live[..i] + h.live[i + 1..]))
  {
    var b := h.live[i];
    LiveApart(start, h, i);
    assert b.Has(b.addr);
    assert RoundMb(b.len) == b.len;
    OverlapExact(h.free, b);
    InsertExact(h.free, b);
    FreedInv(start, h, i, Insert(h.free, Place(h.free, b.addr), b));
  }

  lemma FreedInv(start: seq<Block>, h: State, i: nat, t: seq<Block>)
    requires Inv(start, h) && i < |h.live| && Canonical(t)
    requires forall x :: Covers(t, x) <==> Covers(h.free, x) || h.live[i].Has(x)
    ensures Inv(start, State(t, h.live[..i] + h.live[i + 1..]))
  {
    hide Canonical;
    LiveApart(start, h, i);
    hide Covers;
    var rest := h.live[..i] + h.live[i + 1..];
    forall j | 0 <= j < |rest|
      ensures rest[j] == h.live[if j < i then j else j + 1]
    {
    }
  }

  lemma StepKeepsInv(start: seq<Block>, h: State, op: Op, lo: int, hi: int)
    requires Inv(start, h) && Enabled(h, op) && forall x :: Covers(start, x) ==> lo <= x <= hi
    ensures Inv(start, Next(h, op, lo, hi))
  {
    hide GetMem;
    hide GetStk;
    hide FreeMem;
    match op
    case DoGet(nbytes) =>
      GetMemExact(h.free, nbytes);
      var (t, r) := GetMem(h.free, nbytes);
      if r.Some? {
        assert nbytes > 0 by {
          NoneForNothing(h.free, nbytes);
        }
        TakeInv(start, h, t, r.b);
      }
    case DoGetStk(n) =>
      GetStkExact(h.free, n);
      NoneForNothing(h.free, n);
      var (t, r) := GetStk(h.free, n);
      if r.Some? {
        TakeInv(start, h, t, r.b);
      }
    case DoFree(i) =>
      FreeInv(start, h, i, lo, hi);
  }

  lemma NoneForNothing(s: seq<Block>, n: nat)
    ensures n == 0 ==> GetMem(s, n).1.None? && GetStk(s, n).1.None?
  {
  }

  /** The heap after a run of calls. */
  function Run(h: State, ops: seq<Op>, lo: int, hi: int): State
    decreases |ops|
  {
    if ops == [] then h
    else if !Enabled(h, ops[0]) then Run(h, ops[1..], lo, hi)
    else Run(Next(h, ops[0], lo, hi), ops[1..], lo, hi)
  }

  lemma {:induction false} RunKeepsInv(start: seq<Block>, h: State, ops: seq<Op>, lo: int, hi: int)
    requires Inv(start, h) && forall x :: Covers(start, x) ==> lo <= x <= hi
    ensures Inv(start, Run(h, ops, lo, hi))
    decreases |ops|
  {
    hide Inv;
    hide Next;
    if ops != [] {
      if Enabled(h, ops[0]) {
        StepKeepsInv(start, h, ops[0], lo, hi);
        RunKeepsInv(start, Next(h, ops[0], lo, hi), ops[1..], lo, hi);
      } else {
        RunKeepsInv(start, h, ops[1..], lo, hi);
      }
    }
  }

  /** After any calls of getmem and getstk, whose blocks have all come back in whatever order, the free list
      is exactly what it was. */
  lemma EverythingFreedRestores(start: seq<Block>, ops: seq<Op>, lo: int, hi: int)
    requires Canonical(start) && forall x :: Covers(start, x) ==> lo <= x <= hi
    requires Run(State(start, []), ops, lo, hi).live == []
    ensures Run(State(start, []), ops, lo, hi).free == start
  {
    var h := Run(State(start, []), ops, lo, hi);
    assert Inv(start, State(start, []));
    RunKeepsInv(start, State(start, []), ops, lo, hi);
    hide Canonical;
    forall x
      ensures Covers(h.free, x) <==> Covers(start, x)
    {
      NothingCovered(x);
    }
    CanonicalUnique(h.free, start);
  }

  /** freestk frees just what getstk handed out, whose topmost word is at the block's end less four. */
  lemma FreeStkFreesTheBlock(b: Block)
    requires b.len > 0 && b.len % 8 == 0
    ensures var p := b.End() - 4;
            p - RoundMb(b.len) + 4 == b.addr && RoundMb(RoundMb(b.len)) == b.len
  {
  }
}
