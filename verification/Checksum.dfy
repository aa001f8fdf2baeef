/** The Internet checksum (cksum, tcpcksum, udpcksum; RFC 1071). */
module Checksum {
  import opened Ring

  type Word = x: int | 0 <= x < 0x1_0000

  const ONES := 0xffff
  const WRAP := 0x1_0000_0000

  function Total(ws: seq<Word>): nat {
    if ws == [] then 0 else Total(ws[..|ws| - 1]) + ws[|ws| - 1]
  }

  // ----- the ones-complement sum, word by word -----

  /** Addition with the carry brought round to the low end. */
  function OnesAdd(a: Word, b: Word): Word {
    var s := a + b;
    if s > ONES then s - ONES else s
  }

  function OnesSum(ws: seq<Word>): Word {
    if ws == [] then 0 else OnesAdd(OnesSum(ws[..|ws| - 1]), ws[|ws| - 1])
  }

  /** The word that stands for a sum: zero only for zero, else from 1 to 0xffff. */
  function Norm(t: nat): (r: Word)
    ensures r == 0 <==> t == 0
  {
    if t == 0 then 0 else 1 + (t - 1) % ONES
  }

  /** The 16 low bits of the complement. */
  function Complement(x: nat): Word { ONES - x % 0x1_0000 }

  /** The two foldings of a 32-bit sum. */
  function Fold(s: nat): nat {
    var s1 := s / 0x1_0000 + s % 0x1_0000;
    s1 + s1 / 0x1_0000
  }

  /** cksum, with its sum in 32 bits. */
  function Cksum(ws: seq<Word>): Word { Complement(Fold(Total(ws) % WRAP)) }

  lemma NormSame(t: nat, k: nat, r: Word)
    requires t == k * ONES + r && (r == 0 ==> t == 0)
    ensures Norm(t) == r
  {
    if t > 0 {
      assert t - 1 == k * ONES + (r - 1) && 0 <= r - 1 < ONES;
      assert (t - 1) % ONES == r - 1 by {
        Remainder(t - 1, k, r - 1);
      }
    }
  }

  lemma Remainder(t: nat, k: nat, r: nat)
    requires t == k * ONES + r && r < ONES
    ensures t % ONES == r
  {
  }

  lemma NormParts(t: nat) returns (k: nat)
    ensures t == k * ONES + Norm(t)
  {
    k := if t == 0 then 0 else (t - 1) / ONES;
  }

  lemma NormAdd(t: nat, w: Word)
    ensures OnesAdd(Norm(t), w) == Norm(t + w)
  {
    var k := NormParts(t);
    if Norm(t) + w > ONES {
      NormSame(t + w, k + 1, OnesAdd(Norm(t), w));
    } else {
      NormSame(t + w, k, OnesAdd(Norm(t), w));
    }
  }

  /** The ones-complement sum depends only on the plain sum. */
  lemma {:induction false} OnesSumIsNorm(ws: seq<Word>)
    ensures OnesSum(ws) == Norm(Total(ws))
  {
    if ws != [] {
      OnesSumIsNorm(ws[..|ws| - 1]);
      NormAdd(Total(ws[..|ws| - 1]), ws[|ws| - 1]);
    }
  }

  lemma {:induction false} TotalBound(ws: seq<Word>)
    ensures Total(ws) <= ONES * |ws|
  {
    if ws != [] {
      TotalBound(ws[..|ws| - 1]);
    }
  }

  /** Two foldings are enough for a 32-bit sum. */
  lemma FoldIsNorm(s: nat)
    requires s < WRAP
    ensures Fold(s) % 0x1_0000 == Norm(s)
  {
    var hi, lo := s / 0x1_0000, s % 0x1_0000;
    var s1 := hi + lo;
    assert s == hi * ONES + s1;
    if s1 <= ONES {
      NormSame(s, hi, s1);
    } else {
      NormSame(s, hi + 1, s1 - ONES);
    }
  }

  /** For up to 65537 words the sum does not overflow, and the result is the complement of the
      ones-complement sum of the words. */
  lemma CksumIsOnesComplement(ws: seq<Word>)
    requires |ws| <= 65537
    ensures Total(ws) < WRAP && Cksum(ws) == ONES - OnesSum(ws)
  {
    hide Fold;
    hide Norm;
    hide Total;
    hide OnesSum;
    TotalBound(ws);
    NoWrap(Total(ws));
    FoldIsNorm(Total(ws));
    OnesSumIsNorm(ws);
    assert Complement(Fold(Total(ws))) == ONES - Norm(Total(ws));
  }

  lemma NoWrap(t: nat)
    ensures t < WRAP ==> t % WRAP == t
  {
  }

  lemma {:induction false} TotalOfSame(w: Word, n: nat)
    ensures Total(seq(n, _ => w)) == n * w
  {
    if n > 0 {
      TotalOfSame(w, n - 1);
      assert seq(n, _ => w)[..n - 1] == seq(n - 1, _ => w);
    }
  }

  /** One word more, and the sum can lose a carry. */
  lemma CarryLostBeyond()
    ensures var ws: seq<Word> := seq(65538, _ => 0xffff);
            Cksum(ws) != ONES - OnesSum(ws)
  {
    var ws: seq<Word> := seq(65538, _ => 0xffff);
    TotalOfSame(0xffff, 65538);
    OnesSumIsNorm(ws);
    NormSame(Total(ws), 65537, 0xffff);
    assert Total(ws) % WRAP == 65534;
  }

  lemma {:induction false} TotalJoined(a: seq<Word>, b: seq<Word>)
    ensures Total(a + b) == Total(a) + Total(b)
  {
    if b == [] {
      assert a + b == a;
    } else {
      TotalJoined(a, b[..|b| - 1]);
      assert (a + b)[..|a + b| - 1] == a + b[..|b| - 1];
    }
  }

  lemma TotalReplaced(ws: seq<Word>, i: nat, c: Word)
    requires i < |ws|
    ensures Total(ws[i := c]) == Total(ws) - ws[i] + c
  {
    assert ws == ws[..i] + ([ws[i]] + ws[i + 1..]) && ws[i := c] == ws[..i] + ([c] + ws[i + 1..]);
    TotalJoined(ws[..i], [ws[i]] + ws[i + 1..]);
    TotalJoined(ws[..i], [c] + ws[i + 1..]);
    TotalJoined([ws[i]], ws[i + 1..]);
    TotalJoined([c], ws[i + 1..]);
    TotalOne(ws[i]);
    TotalOne(c);
  }

  lemma TotalOne(w: Word)
    ensures Total([w]) == w
  {
    assert [w][..0] == [];
  }

  /** The order of the words does not matter. */
  lemma {:induction false} OrderIsFree(a: seq<Word>, b: seq<Word>)
    requires multiset(a) == multiset(b)
    ensures Total(a) == Total(b) && Cksum(a) == Cksum(b)
  {
    if a == [] {
      assert |multiset(b)| == 0;
      assert b == [];
    } else {
      var w := a[|a| - 1];
      assert w in multiset(b);
      var i :| 0 <= i < |b| && b[i] == w;
      var b1 := b[..i] + b[i + 1..];
      OneLess(a, |a| - 1);
      OneLess(b, i);
      assert a[..|a| - 1] + a[|a|..] == a[..|a| - 1];
      assert multiset(a[..|a| - 1]) + multiset{w} == multiset(b1) + multiset{w};
      Cancel(multiset(a[..|a| - 1]), multiset(b1), w);
      OrderIsFree(a[..|a| - 1], b1);
    }
  }

  lemma Cancel(x: multiset<Word>, y: multiset<Word>, w: Word)
    requires x + multiset{w} == y + multiset{w}
    ensures x == y
  {
    assert x == (x + multiset{w}) - multiset{w};
    assert y == (y + multiset{w}) - multiset{w};
  }

  lemma OneLessBag(s: seq<Word>, i: nat)
    requires i < |s|
    ensures multiset(s) == multiset(s[..i] + s[i + 1..]) + multiset{s[i]}
  {
    var a, b := s[..i], s[i + 1..];
    assert s == a + [s[i]] + b;
    assert multiset(a + [s[i]] + b) == multiset(a) + multiset{s[i]} + multiset(b);
    assert multiset(a + b) == multiset(a) + multiset(b);
  }

  lemma OneLess(s: seq<Word>, i: nat)
    requires i < |s|
    ensures multiset(s) == multiset(s[..i] + s[i + 1..]) + multiset{s[i]}
    ensures Total(s) == Total(s[..i] + s[i + 1..]) + s[i]
  {
    OneLessBag(s, i);
    TotalLess(s, i);
    hide Total;
  }

  lemma TotalLess(s: seq<Word>, i: nat)
    requires i < |s|
    ensures Total(s) == Total(s[..i] + s[i + 1..]) + s[i]
  {
    var a, w, b := s[..i], s[i], s[i + 1..];
    assert s == a + ([w] + b);
    hide Total;
    TotalJoined(a, [w] + b);
    TotalJoined([w], b);
    TotalJoined(a, b);
    TotalOne(w);
  }

  /** What UDP sends in place of a zero checksum. */
  function UdpStored(c: Word): Word { if c == 0 then 0xffff else c }

  /** A receiver that sums up everything, the checksum in its once-zeroed field included, gets zero; also
      when UDP has stored 0xffff for zero. */
  lemma StoredThenZero(ws: seq<Word>, i: nat)
    requires |ws| <= 65537 && i < |ws| && ws[i] == 0
    ensures Cksum(ws[i := Cksum(ws)]) == 0 && Cksum(ws[i := UdpStored(Cksum(ws))]) == 0
  {
    CksumIsOnesComplement(ws);
    OnesSumIsNorm(ws);
    SumsToOnes(ws, i, Cksum(ws));
    SumsToOnes(ws, i, UdpStored(Cksum(ws)));
  }

  lemma SumsToOnes(ws: seq<Word>, i: nat, c: Word)
    requires |ws| <= 65537 && i < |ws| && ws[i] == 0
    requires c == ONES - Norm(Total(ws)) || (c == ONES && Norm(Total(ws)) == ONES)
    ensures Cksum(ws[i := c]) == 0
  {
    var k := NormParts(Total(ws));
    var t := ws[i := c];
    TotalReplaced(ws, i, c);
    CksumIsOnesComplement(t);
    OnesSumIsNorm(t);
    NormSame(Total(t), if c == ONES - Norm(Total(ws)) then k else k + 1, ONES);
  }

  // ----- bytes, padding and pseudo-headers -----

  function Pair(hi: Byte, lo: Byte): Word { 256 * (hi as int) + lo as int }

  /** The 16-bit words of a segment in network order, an odd last byte with a zero behind it. */
  function Words(b: seq<Byte>): (ws: seq<Word>)
    ensures |ws| == (|b| + 1) / 2
  {
    if b == [] then [] else if |b| == 1 then [Pair(b[0], 0)] else [Pair(b[0], b[1])] + Words(b[2..])
  }

  /** Source and destination address, then protocol and length, then the segment. */
  function WithPseudo(addrs: seq<Word>, proto: nat, seg: seq<Byte>): seq<Word>
    requires proto + |seg| < 0x1_0000
  {
    addrs + [proto + |seg|] + Words(seg)
  }

  lemma {:induction false} WordsAt(b: seq<Byte>, i: nat)
    requires 2 * i < |b|
    ensures Words(b)[i] == Pair(b[2 * i], if 2 * i + 1 < |b| then b[2 * i + 1] else 0)
  {
    if i > 0 {
      WordsAt(b[2..], i - 1);
    }
  }

  lemma {:induction false} WordsStore(b: seq<Byte>, i: nat, hi: Byte, lo: Byte)
    requires 2 * i + 1 < |b|
    ensures Words(b[2 * i := hi][2 * i + 1 := lo]) == Words(b)[i := Pair(hi, lo)]
  {
    var b' := b[2 * i := hi][2 * i + 1 := lo];
    if i == 0 {
      assert b'[2..] == b[2..];
    } else {
      WordsStore(b[2..], i - 1, hi, lo);
      assert b'[2..] == b[2..][2 * (i - 1) := hi][2 * (i - 1) + 1 := lo];
    }
  }

  /** Storing the checksum of a TCP or UDP segment in its zeroed field, at byte 2i, makes the check of the
      whole come to zero; so does UDP's substitute for zero. */
  lemma SegmentChecks(addrs: seq<Word>, proto: nat, seg: seq<Byte>, i: nat, hi: Byte, lo: Byte)
    requires |addrs| == 4 && proto + |seg| < 0x1_0000 && 2 * i + 1 < |seg| && seg[2 * i] == seg[2 * i + 1] == 0
    ensures var c := Cksum(WithPseudo(addrs, proto, seg));
            Pair(hi, lo) == c || Pair(hi, lo) == UdpStored(c) ==>
            Cksum(WithPseudo(addrs, proto, seg[2 * i := hi][2 * i + 1 := lo])) == 0
  {
    var ws := WithPseudo(addrs, proto, seg);
    StoreInSegment(addrs, proto, seg, i, hi, lo);
    hide WithPseudo;
    hide Cksum;
    StoredThenZero(ws, 5 + i);
  }

  /** The sum that a segment's checksum stands for. */
  function Sum(addrs: seq<Word>, proto: nat, seg: seq<Byte>): nat { Total(addrs) + proto + |seg| + Total(Words(seg)) }

  lemma NormDiffers(a: nat, b: nat)
    ensures Norm(a) == Norm(b) <==> (a == 0 <==> b == 0) && (a - b) % ONES == 0
  {
    var k := NormParts(a);
    var m := NormParts(b);
    var r, q := Norm(a), Norm(b);
    hide Norm;
    if r == q {
      Multiple(a - b, k - m);
    } else {
      assert a - b == (k - m) * ONES + (r - q);
      if r > q {
        EuclidRemainder(a - b, k - m, r - q);
      } else {
        EuclidRemainder(a - b, k - m - 1, r - q + ONES);
      }
    }
  }

  lemma Multiple(x: int, k: int)
    requires x == k * ONES
    ensures x % ONES == 0
  {
  }

  lemma EuclidRemainder(x: int, k: int, r: nat)
    requires x == k * ONES + r && r <= ONES
    ensures x % ONES == if r == ONES then 0 else r
  {
    if r == ONES {
      Multiple(x, k + 1);
    }
  }

  /** Two segments have the same checksum if and only if addresses, protocol, length and data add up to the same
      but for a multiple of 65535. */
  lemma SameChecksumIff(addrs: seq<Word>, proto: nat, seg: seq<Byte>, addrs': seq<Word>, proto': nat, seg': seq<Byte>)
    requires |addrs| == |addrs'| == 4 && proto + |seg| < 0x1_0000 && proto' + |seg'| < 0x1_0000
    ensures var s, s' := Sum(addrs, proto, seg), Sum(addrs', proto', seg');
            Cksum(WithPseudo(addrs, proto, seg)) == Cksum(WithPseudo(addrs', proto', seg')) <==>
            (s == 0 <==> s' == 0) && (s - s') % ONES == 0
  {
    SumIsNorm(addrs, proto, seg);
    SumIsNorm(addrs', proto', seg');
    hide WithPseudo;
    hide Cksum;
    hide Sum;
    NormDiffers(Sum(addrs, proto, seg), Sum(addrs', proto', seg'));
  }

  lemma SumIsNorm(addrs: seq<Word>, proto: nat, seg: seq<Byte>)
    requires |addrs| == 4 && proto + |seg| < 0x1_0000
    ensures Cksum(WithPseudo(addrs, proto, seg)) == ONES - Norm(Sum(addrs, proto, seg))
  {
    var ws := WithPseudo(addrs, proto, seg);
    TotalWithPseudo(addrs, proto, seg);
    hide Cksum;
    hide Words;
    CksumIsOnesComplement(ws);
    OnesSumIsNorm(ws);
  }

  /** So a segment that is delivered to another protocol, or with zeros added at its end, or to an address that
      differs in one word (but for 0 and 65535) does not check. */
  lemma ChangesShow(addrs: seq<Word>, proto: nat, proto': nat, seg: seq<Byte>, i: nat, w: Word)
    requires |addrs| == 4 && i < 4 && 0 < proto < 256 && 0 < proto' < 256 && |seg| + 258 < 0x1_0000
    ensures var c := Cksum(WithPseudo(addrs, proto, seg));
            && (proto' != proto ==> Cksum(WithPseudo(addrs, proto', seg)) != c)
            && Cksum(WithPseudo(addrs, proto, seg + [0])) != c && Cksum(WithPseudo(addrs, proto, seg + [0, 0])) != c
            && (w != addrs[i] && {w, addrs[i]} != {0, ONES} ==> Cksum(WithPseudo(addrs[i := w], proto, seg)) != c)
  {
    SameChecksumIff(addrs, proto, seg, addrs, proto', seg);
    SameChecksumIff(addrs, proto, seg, addrs, proto, seg + [0]);
    SameChecksumIff(addrs, proto, seg, addrs, proto, seg + [0, 0]);
    SameChecksumIff(addrs, proto, seg, addrs[i := w], proto, seg);
    hide WithPseudo;
    hide Cksum;
    ZerosAdded(seg);
    TotalReplaced(addrs, i, w);
    hide Total;
    hide Words;
    NotMultiple(proto - proto');
    NotMultiple(addrs[i] - w);
    NotMultiple(-1);
    NotMultiple(-2);
  }

  lemma NotMultiple(d: int)
    requires -ONES <= d <= ONES
    ensures d % ONES == 0 <==> d == 0 || d == ONES || d == -ONES
  {
  }

  lemma ZerosAdded(seg: seq<Byte>)
    ensures Total(Words(seg + [0])) == Total(Words(seg)) == Total(Words(seg + [0, 0]))
  {
    ZeroAdded(seg);
    ZeroAdded(seg + [0]);
    assert seg + [0] + [0] == seg + [0, 0];
  }

  lemma ZeroAdded(seg: seq<Byte>)
    ensures Total(Words(seg + [0])) == Total(Words(seg))
  {
    WordsZero(seg);
    hide Words;
    TotalJoined(Words(seg), [0]);
    TotalOne(0);
  }

  lemma WordsStep(b: seq<Byte>)
    requires |b| >= 2
    ensures Words(b) == [Pair(b[0], b[1])] + Words(b[2..])
  {
  }

  lemma WordsShort(x: Byte)
    ensures Words([]) == [] && Words([0]) == [0] && Words([x]) == Words([x, 0])
  {
    assert [x, 0][2..] == [];
  }

  lemma {:induction false} WordsZero(seg: seq<Byte>)
    ensures Words(seg + [0]) == if |seg| % 2 == 1 then Words(seg) else Words(seg) + [0]
  {
    hide Words;
    if seg == [] {
      WordsShort(0);
      assert seg + [0] == [0];
    } else if |seg| == 1 {
      WordsShort(seg[0]);
      assert seg == [seg[0]] && seg + [0] == [seg[0], 0];
    } else {
      WordsZero(seg[2..]);
      WordsStep(seg);
      WordsStep(seg + [0]);
      assert (seg + [0])[2..] == seg[2..] + [0];
    }
  }

  lemma StoreInSegment(addrs: seq<Word>, proto: nat, seg: seq<Byte>, i: nat, hi: Byte, lo: Byte)
    requires |addrs| == 4 && proto + |seg| < 0x1_0000 && 2 * i + 1 < |seg|
    ensures var ws := WithPseudo(addrs, proto, seg);
            && 5 + i < |ws| <= 65537 && ws[5 + i] == Pair(seg[2 * i], seg[2 * i + 1])
            && WithPseudo(addrs, proto, seg[2 * i := hi][2 * i + 1 := lo]) == ws[5 + i := Pair(hi, lo)]
  {
    WordsAt(seg, i);
    WordsStore(seg, i, hi, lo);
    hide Words;
    var front, w := addrs + [proto + |seg|], Words(seg);
    assert (front + w)[5 + i := Pair(hi, lo)] == front + w[i := Pair(hi, lo)];
  }

  // ----- the loops -----

  lemma TotalStep(ws: seq<Word>, i: nat)
    requires i < |ws|
    ensures Total(ws[..i + 1]) == Total(ws[..i]) + ws[i]
  {
    assert ws[..i + 1][..i] == ws[..i];
  }

  /** The foldings, and the complement as a 16-bit word. */
  method Finish(sum: nat) returns (c: Word)
    ensures c == Complement(Fold(sum))
  {
    var s := sum / 0x1_0000 + sum % 0x1_0000;
    s := s + s / 0x1_0000;
    c := ONES - s % 0x1_0000;
  }

  method CksumWords(buf: array<Word>, nwords: nat) returns (c: Word)
    requires nwords <= buf.Length
    ensures c == Cksum(buf[..nwords])
  {
    var sum, i := 0, 0;
    while i < nwords
      invariant 0 <= i <= nwords && sum == Total(buf[..i]) % WRAP
    {
      TotalStep(buf[..], i);
      assert buf[..][..i] == buf[..i] && buf[..][..i + 1] == buf[..i + 1];
      AddWraps(Total(buf[..i]), buf[i]);
      sum := (sum + buf[i]) % WRAP;
      i := i + 1;
    }
    c := Finish(sum);
  }

  lemma AddWraps(t: nat, w: Word)
    ensures (t % WRAP + w) % WRAP == (t + w) % WRAP
  {
  }

  /** tcpcksum and udpcksum: seg is the segment's buffer, in which the byte behind an odd length is set to
      zero, and len its length. */
  method SegmentCksum(addrs: array<Word>, proto: nat, seg: array<Byte>, len: nat) returns (c: Word)
    requires addrs.Length == 4 && len + len % 2 <= seg.Length && proto + len < 0x1_0000
    modifies seg
    ensures c == Cksum(WithPseudo(addrs[..], proto, old(seg[..len])))
    ensures seg[..len] == old(seg[..len])
  {
    hide Words;
    hide Cksum;
    hide Fold;
    hide Complement;
    hide WithPseudo;
    ghost var b := seg[..len];
    var sum, i := 0, 0;
    while i < 4
      modifies {}
      invariant 0 <= i <= 4 && sum == Total(addrs[..i])
    {
      TotalStep(addrs[..], i);
      assert addrs[..][..i] == addrs[..i] && addrs[..][..i + 1] == addrs[..i + 1];
      sum := sum + addrs[i];
      i := i + 1;
    }
    assert addrs[..4] == addrs[..];
    sum := sum + (proto + len);
    var n := len;
    if n % 2 != 0 {
      seg[n] := 0;
      n := n + 1;
    }
    assert seg[..len] == b;
    var rest := AddWords(seg, len, n / 2);
    sum := sum + rest;
    TotalWithPseudo(addrs[..], proto, b);
    c := Finish(sum);
  }

  lemma TotalWithPseudo(addrs: seq<Word>, proto: nat, seg: seq<Byte>)
    requires |addrs| == 4 && proto + |seg| < 0x1_0000
    ensures var ws := WithPseudo(addrs, proto, seg);
            && Total(ws) == Total(addrs) + (proto + |seg|) + Total(Words(seg))
            && Cksum(ws) == Complement(Fold(Total(ws)))
  {
    hide Words;
    hide Fold;
    var ws := WithPseudo(addrs, proto, seg);
    TotalJoined(addrs + [proto + |seg|], Words(seg));
    TotalJoined(addrs, [proto + |seg|]);
    TotalOne(proto + |seg|);
    CksumIsOnesComplement(ws);
    NoWrap(Total(ws));
  }

  /** The second loop, over n words of a segment that has been padded. */
  method AddWords(seg: array<Byte>, len: nat, n: nat) returns (sum: nat)
    requires len + len % 2 <= seg.Length && n == (len + len % 2) / 2 && (len % 2 == 1 ==> seg[len] == 0)
    ensures sum == Total(Words(seg[..len]))
  {
    hide Words;
    ghost var ws := Words(seg[..len]);
    var i := 0;
    sum := 0;
    while i < n
      invariant 0 <= i <= n && sum == Total(ws[..i])
    {
      TotalStep(ws, i);
      WordsAt(seg[..len], i);
      sum := sum + Pair(seg[2 * i], seg[2 * i + 1]);
      i := i + 1;
    }
    assert ws[..n] == ws;
  }
}
