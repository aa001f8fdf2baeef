/** The heap in place: struct mblock headers in the free memory itself, linked from memlist. */
module HeapList {
  import opened Heap

  datatype MBlock = MBlock(next: int, len: int)

  const NULL := 0     // also stands for the address of memlist, which is no block's

  function First(s: seq<Block>): int { if s == [] then NULL else s[0].addr }
  function After(s: seq<Block>, i: nat): int { if i + 1 < |s| then s[i + 1].addr else NULL }
  function Prev(s: seq<Block>, i: nat): int
    requires i <= |s|
  {
    if i == 0 then NULL else s[i - 1].addr
  }

  ghost predicate Linked(mem: map<int, MBlock>, s: seq<Block>) {
    forall i :: 0 <= i < |s| ==> s[i].addr in mem && mem[s[i].addr] == MBlock(After(s, i), s[i].len)
  }

  lemma LinkedRest(mem: map<int, MBlock>, s: seq<Block>, k: nat)
    requires Linked(mem, s) && k <= |s|
    ensures Linked(mem, s[k..])
  {
    var r := s[k..];
    forall i | 0 <= i < |r|
      ensures r[i].addr in mem && mem[r[i].addr] == MBlock(After(r, i), r[i].len)
    {
      assert r[i] == s[k + i] && After(r, i) == After(s, k + i);
    }
  }

  /** Headers that no block of the list has may change. */
  lemma LinkedSame(mem: map<int, MBlock>, mem': map<int, MBlock>, s: seq<Block>)
    requires Linked(mem, s) && forall i :: 0 <= i < |s| ==> s[i].addr in mem' && mem'[s[i].addr] == mem[s[i].addr]
    ensures Linked(mem', s)
  {
  }

  lemma LinkedElse(mem: map<int, MBlock>, s: seq<Block>, at: int, m: MBlock)
    requires Linked(mem, s) && forall j :: 0 <= j < |s| ==> s[j].addr != at
    ensures Linked(mem[at := m], s)
  {
  }

  lemma LinkedBehind(mem: map<int, MBlock>, b: Block, s: seq<Block>)
    requires Linked(mem, s) && b.addr in mem && mem[b.addr] == MBlock(First(s), b.len)
    ensures Linked(mem, [b] + s)
  {
    var r := [b] + s;
    forall i | 0 <= i < |r|
      ensures r[i].addr in mem && mem[r[i].addr] == MBlock(After(r, i), r[i].len)
    {
      assert After(r, i) == if i == 0 then First(s) else After(s, i - 1);
    }
  }

  lemma {:induction false} LinkedJoined(mem: map<int, MBlock>, a: seq<Block>, d: seq<Block>)
    requires Linked(mem, d)
    requires forall j :: 0 <= j < |a| ==> a[j].addr in mem && mem[a[j].addr].len == a[j].len
    requires forall j :: 0 <= j < |a| - 1 ==> mem[a[j].addr].next == a[j + 1].addr
    requires a != [] ==> mem[a[|a| - 1].addr].next == First(d)
    ensures Linked(mem, a + d)
  {
    hide Linked;
    if a == [] {
      assert a + d == d;
    } else {
      LinkedJoined(mem, a[1..], d);
      LinkedBehind(mem, a[0], a[1..] + d);
      assert a + d == [a[0]] + (a[1..] + d);
    }
  }

  /** A list cut at place i and continued with d, by way of the header before it. */
  lemma LinkedOn(mem: map<int, MBlock>, s: seq<Block>, i: nat, d: seq<Block>)
    requires Canonical(s) && Linked(mem, s) && i <= |s| && Linked(mem, d)
    requires forall j :: 0 <= j < |d| ==> i > 0 ==> d[j].addr != s[i - 1].addr
    ensures i > 0 ==> s[i - 1].addr in mem
    ensures var mem' := if i == 0 then mem else mem[s[i - 1].addr := mem[s[i - 1].addr].(next := First(d))];
            Linked(mem', s[..i] + d)
  {
    var mem' := if i == 0 then mem else mem[s[i - 1].addr := mem[s[i - 1].addr].(next := First(d))];
    LinkedSame(mem, mem', d);
    forall j | 0 <= j < i
      ensures s[..i][j].addr in mem' && mem'[s[..i][j].addr].len == s[..i][j].len
      ensures j < i - 1 ==> mem'[s[..i][j].addr].next == s[..i][j + 1].addr
    {
      assert j < i - 1 ==> s[j].End() < s[i - 1].addr;
    }
    LinkedJoined(mem', s[..i], d);
  }

  class HeapList {
    var mem: map<int, MBlock>
    var memlist: int              // memlist.mnext
    const end: int
    const maxaddr: int
    ghost var free: seq<Block>

    ghost predicate Valid()
      reads this
    {
      Canonical(free) && Linked(mem, free) && memlist == First(free)
    }

    /** sysinit's one block */
    constructor (end: int, maxaddr: int, addr: int, len: nat)
      requires 0 < addr && 0 < len
      ensures Valid() && free == [Block(addr, len)] && this.end == end && this.maxaddr == maxaddr
    {
      this.end, this.maxaddr := end, maxaddr;
      memlist := addr;
      mem := map[addr := MBlock(NULL, len)];
      free := [Block(addr, len)];
    }

    method SetNext(q: int, x: int)
      requires q != NULL ==> q in mem
      modifies this`mem, this`memlist
      ensures q == NULL ==> mem == old(mem) && memlist == x
      ensures q != NULL ==> mem == old(mem)[q := old(mem)[q].(next := x)] && memlist == old(memlist)
    {
      if q == NULL {
        memlist := x;
      } else {
        mem := mem[q := mem[q].(next := x)];
      }
    }

    lemma AtPlace(i: nat)
      requires Valid() && i < |free|
      ensures var b := free[i];
              && b.addr != NULL && b.addr in mem && mem[b.addr].len == b.len && mem[b.addr].next == First(free[i + 1..])
      ensures First(free[i..]) == free[i].addr
    {
      assert mem[free[i].addr] == MBlock(After(free, i), free[i].len);
    }

    lemma PrevThere(i: nat)
      requires Valid() && i <= |free|
      ensures i > 0 ==> Prev(free, i) in mem && Prev(free, i) != NULL
    {
    }

    /** The list from place i on becomes d. */
    method Continue(q: int, ghost i: nat, ghost d: seq<Block>, x: int)
      requires Canonical(free) && Linked(mem, free) && memlist == First(free) && i <= |free| && q == Prev(free, i)
      requires Linked(mem, d) && x == First(d) && Canonical(free[..i] + d)
      modifies this
      ensures Valid() && free == old(free)[..i] + d
    {
      ghost var s := free;
      NotBefore(s[..i], d);
      PrevThere(i);
      LinkedOn(mem, s, i, d);
      SetNext(q, x);
      free := s[..i] + d;
    }

    lemma NotBefore(a: seq<Block>, d: seq<Block>)
      requires Canonical(a + d)
      ensures forall j :: 0 <= j < |d| ==> a != [] ==> d[j].addr != a[|a| - 1].addr
    {
      var r := a + d;
      forall j | 0 <= j < |d|
        ensures a != [] ==> d[j].addr != a[|a| - 1].addr
      {
        assert r[|a| + j] == d[j];
        assert a != [] ==> r[|a| - 1] == a[|a| - 1] && r[|a| - 1].End() < r[|a| + j].addr;
      }
    }

    method Get(nbytes: nat) returns (r: int)
      requires Valid()
      modifies this
      ensures Valid()
      ensures var (t, b) := GetMem(old(free), nbytes);
              free == t && r == if b.Some? then b.b.addr else -1
    {
      hide Canonical;
      hide Linked;
      GetMemExact(free, nbytes);
      if nbytes == 0 || memlist == NULL {
        MemlistEmpty();
        return -1;
      }
      var n := RoundMb(nbytes);
      ghost var i;
      var q, p;
      q, p, i := SearchFirst(n);
      if p == NULL {
        return -1;
      }
      AtPlace(i);
      LinkedRest(mem, free, i + 1);
      if mem[p].len == n {
        assert free[..i] + [] + free[i + 1..] == free[..i] + free[i + 1..];
        Continue(q, i, free[i + 1..], mem[p].next);
        return p;
      }
      PutAt(q, p + n, MBlock(mem[p].next, mem[p].len - n), i, i + 1);
      return p;
    }

    lemma MemlistEmpty()
      requires Valid()
      ensures memlist == NULL ==> free == []
    {
    }

    /** A header at a new address takes the place of the blocks from i up to k. */
    method PutAt(q: int, at: int, m: MBlock, ghost i: nat, ghost k: nat)
      requires Valid() && i <= k <= |free| && q == Prev(free, i) && m.next == First(free[k..])
      requires Canonical(free[..i] + [Block(at, m.len)] + free[k..])
      modifies this
      ensures Valid() && free == old(free)[..i] + [Block(at, m.len)] + old(free)[k..]
    {
      hide Linked;
      ghost var s, mem0 := free, mem;
      ghost var rest := s[k..];
      LinkedRest(mem, s, k);
      OtherAddresses(s[..i], Block(at, m.len), rest);
      mem := mem[at := m];
      NotAt(mem0, s, k, at, m);
      LinkedBehind(mem, Block(at, m.len), rest);
      ghost var d := [Block(at, m.len)] + rest;
      assert s[..i] + d == s[..i] + [Block(at, m.len)] + rest;
      FrontLinked(mem0, mem, s, i, d, at, m);
      SetNext(q, at);
      free := s[..i] + d;
    }

    lemma NotAt(mem: map<int, MBlock>, s: seq<Block>, k: nat, at: int, m: MBlock)
      requires Linked(mem, s) && k <= |s| && forall b :: b in s[k..] ==> b.addr != at
      ensures Linked(mem[at := m], s[k..])
    {
      LinkedRest(mem, s, k);
      LinkedSame(mem, mem[at := m], s[k..]);
    }

    /** The header of block f changes, and it comes to reach as far as block k. */
    method Grow(q: int, m: MBlock, ghost f: nat, ghost k: nat)
      requires Valid() && f < k <= |free| && q == free[f].addr && m.next == First(free[k..])
      requires Canonical(free[..f] + [Block(q, m.len)] + free[k..])
      modifies this`mem, this`free
      ensures Valid() && free == old(free)[..f] + [Block(q, m.len)] + old(free)[k..]
    {
      hide Linked;
      ghost var s, mem0 := free, mem;
      ghost var rest := s[k..];
      OtherAddresses(s[..f], Block(q, m.len), rest);
      mem := mem[q := m];
      NotAt(mem0, s, k, q, m);
      LinkedBehind(mem, Block(q, m.len), rest);
      ghost var d := [Block(q, m.len)] + rest;
      FrontSame(mem0, s, f, q, m);
      LinkedJoined(mem, s[..f], d);
      assert s[..f] + d == s[..f] + [Block(q, m.len)] + rest;
      free := s[..f] + d;
    }

    /** The headers below block f still lead to it. */
    lemma FrontSame(mem: map<int, MBlock>, s: seq<Block>, f: nat, q: int, m: MBlock)
      requires Linked(mem, s) && f < |s| && q == s[f].addr && forall b :: b in s[..f] ==> b.addr != q
      ensures var mem' := mem[q := m];
              && (forall j :: 0 <= j < f ==> s[..f][j].addr in mem' && mem'[s[..f][j].addr].len == s[..f][j].len)
              && (forall j :: 0 <= j < f - 1 ==> mem'[s[..f][j].addr].next == s[..f][j + 1].addr)
              && (f > 0 ==> mem'[s[f - 1].addr].next == q)
    {
      forall j | 0 <= j < f
        ensures s[j].addr != q && s[j].addr in mem && mem[s[j].addr] == MBlock(s[j + 1].addr, s[j].len)
      {
        assert s[..f][j] in s[..f];
        assert mem[s[j].addr] == MBlock(After(s, j), s[j].len);
      }
    }

    lemma OtherAddresses(a: seq<Block>, b: Block, c: seq<Block>)
      requires Canonical(a + [b] + c)
      ensures forall x :: x in a ==> x.addr != b.addr
      ensures forall x :: x in c ==> x.addr != b.addr
    {
      var r := a + [b] + c;
      assert r[|a|] == b;
      forall x | x in a
        ensures x.addr != b.addr
      {
        var j :| 0 <= j < |a| && a[j] == x;
        assert r[j] == x && r[j].End() < r[|a|].addr;
      }
      forall x | x in c
        ensures x.addr != b.addr
      {
        var j :| 0 <= j < |c| && c[j] == x;
        assert r[|a| + 1 + j] == x && r[|a|].End() < r[|a| + 1 + j].addr;
      }
    }

    /** As LinkedOn, when a header within block i has changed. */
    lemma FrontLinked(mem0: map<int, MBlock>, mem: map<int, MBlock>, s: seq<Block>, i: nat, d: seq<Block>,
                      at: int, m: MBlock)
      requires Canonical(s) && Linked(mem0, s) && i <= |s| && d != [] && Linked(mem, d) && Canonical(s[..i] + d)
      requires mem == mem0[at := m] && forall b :: b in s[..i] ==> b.addr != at
      ensures i > 0 ==> s[i - 1].addr in mem
      ensures var mem' := if i == 0 then mem else mem[s[i - 1].addr := mem[s[i - 1].addr].(next := First(d))];
              Linked(mem', s[..i] + d)
    {
      NotBefore(s[..i], d);
      FrontKept(mem0, s, i, at, m);
      BelowLast(s, i);
      hide Canonical;
      hide Linked;
      var mem' := if i == 0 then mem else mem[s[i - 1].addr := mem[s[i - 1].addr].(next := First(d))];
      if i > 0 {
        LinkedElse(mem, d, s[i - 1].addr, mem[s[i - 1].addr].(next := First(d)));
        FrontLinks(mem, s, i, First(d));
      }
      LinkedJoined(mem', s[..i], d);
    }

    lemma FrontLinks(mem: map<int, MBlock>, s: seq<Block>, i: nat, x: int)
      requires 0 < i <= |s| && forall j :: 0 <= j < i - 1 ==> s[j].addr != s[i - 1].addr
      requires forall j :: 0 <= j < i ==> s[j].addr in mem && mem[s[j].addr] == MBlock(After(s, j), s[j].len)
      ensures var mem' := mem[s[i - 1].addr := mem[s[i - 1].addr].(next := x)];
              && (forall j :: 0 <= j < i ==> s[..i][j].addr in mem' && mem'[s[..i][j].addr].len == s[..i][j].len)
              && (forall j :: 0 <= j < i - 1 ==> mem'[s[..i][j].addr].next == s[..i][j + 1].addr)
    {
      var mem' := mem[s[i - 1].addr := mem[s[i - 1].addr].(next := x)];
      forall j | 0 <= j < i
        ensures s[j].addr in mem' && mem'[s[j].addr].len == s[j].len
        ensures j < i - 1 ==> mem'[s[j].addr].next == s[j + 1].addr
      {
      }
    }

    lemma BelowLast(s: seq<Block>, i: nat)
      requires Canonical(s) && i <= |s|
      ensures forall j :: 0 <= j < i - 1 ==> s[j].addr != s[i - 1].addr
    {
      forall j | 0 <= j < i - 1
        ensures s[j].addr != s[i - 1].addr
      {
        assert s[j].End() < s[i - 1].addr;
      }
    }

    lemma FrontKept(mem: map<int, MBlock>, s: seq<Block>, i: nat, at: int, m: MBlock)
      requires Linked(mem, s) && i <= |s| && forall b :: b in s[..i] ==> b.addr != at
      ensures forall j :: 0 <= j < i ==> s[j].addr in mem[at := m] && mem[at := m][s[j].addr] == MBlock(After(s, j), s[j].len)
    {
      forall j | 0 <= j < i
        ensures s[j].addr != at && s[j].addr in mem && mem[s[j].addr] == MBlock(After(s, j), s[j].len)
      {
        assert s[..i][j] in s[..i];
      }
    }

    /** The loop of getmem. */
    method SearchFirst(n: nat) returns (q: int, p: int, ghost i: nat)
      requires Valid()
      ensures i == FirstFit(free, n) && q == Prev(free, i) && p == First(free[i..]) && (p == NULL <==> i == |free|)
    {
      hide Canonical;
      hide Linked;
      q, p, i := NULL, memlist, 0;
      assert free[0..] == free;
      while p != NULL
        invariant 0 <= i <= |free| && q == Prev(free, i) && p == First(free[i..])
        invariant FirstFit(free, n) == i + FirstFit(free[i..], n)
        decreases |free| - i
      {
        AtPlace(i);
        assert free[i..][1..] == free[i + 1..];
        if mem[p].len >= n {
          return;
        }
        q := p;
        p := mem[p].next;
        i := i + 1;
      }
      if i < |free| {
        AtPlace(i);
      }
    }

    /** nbytes is the size after roundew; the result is the address of the topmost word. */
    method Stk(nbytes: nat) returns (r: int)
      requires Valid()
      modifies this
      ensures Valid()
      ensures var (t, b) := GetStk(old(free), nbytes);
              free == t && r == if b.Some? then b.b.End() - 4 else -1
    {
      hide Canonical;
      hide Linked;
      GetStkExact(free, nbytes);
      if nbytes == 0 {
        return -1;
      }
      ghost var i;
      var q, p;
      q, p, i := SearchLast(nbytes);
      if p == NULL {
        return -1;
      }
      AtPlace(i);
      LinkedRest(mem, free, i + 1);
      var len := mem[p].len;
      if nbytes == len {
        assert free[..i] + [] + free[i + 1..] == free[..i] + free[i + 1..];
        Continue(q, i, free[i + 1..], mem[p].next);
      } else {
        Grow(p, mem[p].(len := len - nbytes), i, i + 1);
      }
      return p + len - 4;
    }

    /** The loop of getstk. */
    method SearchLast(n: nat) returns (fitsq: int, fits: int, ghost f: nat)
      requires Valid()
      ensures f == LastFit(free, n) && (fits == NULL <==> f == |free|)
      ensures f < |free| ==> fits == free[f].addr && fitsq == Prev(free, f)
    {
      hide Canonical;
      hide Linked;
      ghost var i := 0;
      var q, p := NULL, memlist;
      fitsq, fits, f := NULL, NULL, 0;
      assert free[0..] == free;
      while p != NULL
        invariant 0 <= i <= |free| && q == Prev(free, i) && p == First(free[i..])
        invariant f == LastFit(free[..i], n) && (fits == NULL <==> f == i)
        invariant f < i ==> fits == free[f].addr && fitsq == Prev(free, f)
        decreases |free| - i
      {
        AtPlace(i);
        assert free[..i + 1][..i] == free[..i];
        if mem[p].len >= n {
          fitsq, fits, f := q, p, i;
        } else if fits == NULL {
          f := i + 1;
        }
        q := p;
        p := mem[p].next;
        i := i + 1;
      }
      if i < |free| {
        AtPlace(i);
      }
      assert free[..|free|] == free;
    }

    method FreeBlock(block: int, nbytes: nat) returns (ok: bool)
      requires Valid() && block > 0
      modifies this
      ensures Valid() && (free, ok) == FreeMem(old(free), end, maxaddr, block, nbytes)
    {
      hide Canonical;
      hide Linked;
      if nbytes == 0 || block > maxaddr || block < end {
        return false;
      }
      var size := RoundMb(nbytes);
      ghost var b := Block(block, size);
      ghost var i;
      var q, p;
      q, p, i := SearchPlace(block);
      Neighbours(i);
      if q != NULL && mem[q].len + q > block {
        return false;
      }
      if p != NULL && size + block > p {
        return false;
      }
      InsertExact(free, b);
      InsertIsMerged(free, i, b);
      if q != NULL && mem[q].len + q == block {
        JoinLeft(q, p, b, size, i);
      } else {
        JoinRight(q, p, Block(block, size), i);
      }
      return true;
    }

    /** The search of freemem. */
    method SearchPlace(block: int) returns (q: int, p: int, ghost i: nat)
      requires Valid()
      ensures i == Place(free, block) && q == Prev(free, i) && p == First(free[i..])
    {
      hide Canonical;
      hide Linked;
      q, p, i := NULL, memlist, 0;
      assert free[0..] == free;
      while p != NULL && p < block
        invariant 0 <= i <= |free| && q == Prev(free, i) && p == First(free[i..])
        invariant Place(free, block) == i + Place(free[i..], block)
        decreases |free| - i
      {
        AtPlace(i);
        assert free[i..][1..] == free[i + 1..];
        q := p;
        p := mem[p].next;
        i := i + 1;
      }
      if i < |free| {
        AtPlace(i);
      }
    }

    /** What freemem sees on either side. */
    lemma Neighbours(i: nat)
      requires Valid() && i <= |free|
      ensures i > 0 ==>
                var b := free[i - 1];
                b.addr > 0 && b.len > 0 && Prev(free, i) == b.addr != NULL && b.addr in mem && mem[b.addr] == MBlock(First(free[i..]), b.len)
      ensures i < |free| ==>
                var b := free[i];
                First(free[i..]) == b.addr != NULL && b.addr in mem && mem[b.addr] == MBlock(First(free[i + 1..]), b.len)
      ensures i == |free| ==> First(free[i..]) == NULL
    {
      if i > 0 {
        AtPlace(i - 1);
        assert free[i - 1 + 1..] == free[i..];
      }
      if i < |free| {
        AtPlace(i);
      }
    }

    /** The freed block touches the one below it, which grows, perhaps as far as the one above. */
    method JoinLeft(q: int, p: int, ghost b: Block, size: nat, ghost i: nat)
      requires Valid() && 0 < i <= |free| && q == Prev(free, i) && p == First(free[i..]) && size == b.len
      requires b.len > 0 && free[i - 1].End() == b.addr && Canonical(Insert(free, i, b))
      modifies this
      ensures Valid() && free == Insert(old(free), i, b)
    {
      hide Canonical;
      hide Linked;
      Neighbours(i);
      var len := mem[q].len + size;
      if len + q == p {
        SomethingAbove(i, p, len + q);
        Grow(q, MBlock(mem[p].next, len + mem[p].len), i - 1, i + 1);
      } else {
        Grow(q, MBlock(p, len), i - 1, i);
      }
    }

    /** A block that ends where p begins has a block at p above it: p is not NULL. */
    lemma SomethingAbove(i: nat, p: int, top: int)
      requires Valid() && i <= |free| && p == First(free[i..]) && top == p
      ensures top > 0 ==> i < |free|
    {
    }

    /** The freed block is linked in as a new one, perhaps joined to the one above. */
    method JoinRight(q: int, p: int, b: Block, ghost i: nat)
      requires Valid() && i <= |free| && q == Prev(free, i) && p == First(free[i..])
      requires b.len > 0 && b.addr > 0 && (i > 0 ==> free[i - 1].End() != b.addr) && Canonical(Insert(free, i, b))
      modifies this
      ensures Valid() && free == Insert(old(free), i, b)
    {
      hide Canonical;
      hide Linked;
      Neighbours(i);
      if b.len + b.addr == p {
        SomethingAbove(i, p, b.len + b.addr);
        PutAt(q, b.addr, MBlock(mem[p].next, b.len + mem[p].len), i, i + 1);
      } else {
        PutAt(q, b.addr, MBlock(p, b.len), i, i);
      }
    }
  }
}
