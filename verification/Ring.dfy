/** Circular buffers: slot t % n of an n-byte buffer holds the byte at stream position t. */
module Ring {

  newtype Byte = x: int | 0 <= x < 256

  /** The slot of stream position t. */
  function Slot(t: int, n: int): (s: int)
    requires n > 0
    ensures 0 <= s < n
  {
    t % n
  }

  /** The positions lo..hi of stream w are in place. */
  ghost predicate Holds(buf: seq<Byte>, w: seq<Byte>, lo: int, hi: int)
    requires |buf| > 0
  {
    0 <= lo <= hi <= |w| && forall t :: lo <= t < hi ==> buf[Slot(t, |buf|)] == w[t]
  }

  /** Copying data into the ring from slot at on, wrapping at the end. */
  function CopyIn(buf: seq<Byte>, at: nat, data: seq<Byte>): (r: seq<Byte>)
    requires at < |buf| && |data| <= |buf|
    ensures |r| == |buf|
  {
    seq(|buf|, i requires 0 <= i < |buf| => var k := Slot(i - at, |buf|); if k < |data| then data[k] else buf[i])
  }

  /** Copying len bytes out of the ring from slot at on. */
  function CopyOut(buf: seq<Byte>, at: nat, len: nat): (r: seq<Byte>)
    requires at < |buf| && len <= |buf|
    ensures |r| == len
  {
    seq(len, k requires 0 <= k < len => buf[Slot(at + k, |buf|)])
  }

  lemma ModShift(a: int, b: int, n: int)
    requires n > 0
    ensures Slot(Slot(a, n) + b, n) == Slot(a + b, n)
  {
    var q := a / n;
    assert a + b == q * n + (a % n + b);
    ModAddMultiple(a % n + b, q, n);
  }

  lemma {:induction false} ModAddMultiple(a: int, q: int, n: int)
    requires n > 0
    ensures (q * n + a) % n == a % n
    decreases if q < 0 then -q else q
  {
    if q > 0 {
      ModAddMultiple(a, q - 1, n);
      assert q * n + a == (q - 1) * n + a + n;
      ModAddOne((q - 1) * n + a, n);
    } else if q < 0 {
      ModAddMultiple(a, q + 1, n);
      assert (q + 1) * n + a == q * n + a + n;
      ModAddOne(q * n + a, n);
    }
  }

  lemma MulAtLeast(d: int, n: int)
    requires n > 0 && d >= 1
    ensures d * n >= n
  {
  }

  lemma Quotient(a: int, q: int, r: int, n: int)
    requires n > 0 && a == q * n + r && 0 <= r < n
    ensures q == a / n && r == a % n
  {
    var d := q - a / n;
    assert a == (a / n) * n + a % n;
    assert d * n == q * n - (a / n) * n;
    if d >= 1 {
      MulAtLeast(d, n);
    } else if d <= -1 {
      MulAtLeast(-d, n);
    }
  }

  lemma ModAddOne(a: int, n: int)
    requires n > 0
    ensures (a + n) % n == a % n
  {
    var q := a / n;
    assert (q + 1) * n == q * n + n;
    Quotient(a + n, q + 1, a % n, n);
  }

  lemma ModSmall(a: int, n: int)
    requires 0 <= a < n
    ensures Slot(a, n) == a
  {
  }

  /** The slot of position t, seen from the slot of position o. */
  lemma SlotDistance(t: int, o: int, n: int)
    requires n > 0
    ensures Slot(Slot(t, n) - Slot(o, n), n) == Slot(t - o, n)
  {
    ModShift(t, -(o % n), n);
    ModShift(o, t - o - o % n, n);
    var q := o / n;
    assert t - o % n == q * n + (t - o);
    ModAddMultiple(t - o, q, n);
  }

  /** Stepping an index by one, with the wrap test of the copy loops. */
  lemma NextSlot(at: nat, i: nat, n: nat)
    requires n > 0
    ensures Slot(at + i + 1, n) == if Slot(at + i, n) + 1 >= n then 0 else Slot(at + i, n) + 1
  {
    var q, r := (at + i) / n, (at + i) % n;
    if r + 1 < n {
      Quotient(at + i + 1, q, r + 1, n);
    } else {
      assert (q + 1) * n == q * n + n;
      Quotient(at + i + 1, q + 1, 0, n);
    }
  }

  lemma SlotIndex(at: int, i: int, j: int, n: int)
    requires 0 <= at < n && 0 <= i < n && 0 <= j < n
    ensures j == Slot(at + i, n) <==> Slot(j - at, n) == i
  {
    if (j - at) % n == i {
      ModShift(j - at, at, n);
      ModSmall(j, n);
    }
    if j == (at + i) % n {
      ModShift(at + i, -at, n);
      ModSmall(i, n);
    }
  }

  lemma CopyInNothing(buf: seq<Byte>, at: nat)
    requires at < |buf|
    ensures CopyIn(buf, at, []) == buf
  {
    forall i | 0 <= i < |buf|
      ensures CopyIn(buf, at, [])[i] == buf[i]
    {
      assert Slot(i - at, |buf|) >= 0;
    }
  }

  /** One turn of the copy loop. */
  lemma CopyInStep(buf: seq<Byte>, at: nat, data: seq<Byte>, i: nat)
    requires at < |buf| && i < |data| <= |buf|
    ensures CopyIn(buf, at, data[..i])[Slot(at + i, |buf|) := data[i]] == CopyIn(buf, at, data[..i + 1])
  {
    var n := |buf|;
    var l, r := CopyIn(buf, at, data[..i])[Slot(at + i, n) := data[i]], CopyIn(buf, at, data[..i + 1]);
    forall j | 0 <= j < n
      ensures l[j] == r[j]
    {
      SlotIndex(at, i, j, n);
    }
  }

  /** What the ring holds after a copy that starts at stream position o. */
  lemma CopyInSlot(buf: seq<Byte>, o: nat, data: seq<Byte>, t: int)
    requires |data| <= |buf| && |buf| > 0 && o + |data| - |buf| <= t < o + |buf|
    ensures CopyIn(buf, Slot(o, |buf|), data)[Slot(t, |buf|)] ==
            if o <= t < o + |data| then data[t - o] else buf[Slot(t, |buf|)]
  {
    var n := |buf|;
    SlotDistance(t, o, n);
    if t >= o {
      ModSmall(t - o, n);
    } else {
      ModAddOne(t - o, n);
      ModSmall(t - o + n, n);
    }
  }

  /** Copying stream bytes into the part of the ring after base keeps what is in place there. */
  lemma CopyInKeeps(buf: seq<Byte>, w: seq<Byte>, base: nat, o: nat, data: seq<Byte>, lo: int, hi: int)
    requires |buf| > 0 && base <= o && o + |data| <= base + |buf| && o + |data| <= |w|
    requires data == w[o..o + |data|]
    requires base <= lo && hi <= base + |buf| && Holds(buf, w, lo, hi)
    ensures Holds(CopyIn(buf, Slot(o, |buf|), data), w, lo, hi)
  {
    forall t | lo <= t < hi
      ensures CopyIn(buf, Slot(o, |buf|), data)[Slot(t, |buf|)] == w[t]
    {
      CopyInSlot(buf, o, data, t);
    }
  }

  lemma CopyInHolds(buf: seq<Byte>, w: seq<Byte>, o: nat, data: seq<Byte>)
    requires |buf| > 0 && |data| <= |buf| && o + |data| <= |w|
    requires data == w[o..o + |data|]
    ensures Holds(CopyIn(buf, Slot(o, |buf|), data), w, o, o + |data|)
  {
    forall t | o <= t < o + |data|
      ensures CopyIn(buf, Slot(o, |buf|), data)[Slot(t, |buf|)] == w[t]
    {
      CopyInSlot(buf, o, data, t);
    }
  }

  lemma CopyOutHeld(buf: seq<Byte>, w: seq<Byte>, o: nat, len: nat)
    requires |buf| > 0 && len <= |buf| && Holds(buf, w, o, o + len)
    ensures CopyOut(buf, Slot(o, |buf|), len) == w[o..o + len]
  {
    forall k | 0 <= k < len
      ensures CopyOut(buf, Slot(o, |buf|), len)[k] == w[o + k]
    {
      ModShift(o, k, |buf|);
    }
  }

  lemma HoldsJoin(buf: seq<Byte>, w: seq<Byte>, a: int, b: int, c: int, d: int)
    requires |buf| > 0 && Holds(buf, w, a, b) && Holds(buf, w, c, d) && a <= c <= b
    ensures Holds(buf, w, a, if b < d then d else b)
  {
  }

  lemma HoldsLonger(buf: seq<Byte>, w: seq<Byte>, more: seq<Byte>, lo: int, hi: int)
    requires |buf| > 0 && Holds(buf, w, lo, hi)
    ensures Holds(buf, w + more, lo, hi)
  {
  }

  // ----- slices -----

  lemma SliceOfSlice<T>(w: seq<T>, a: int, b: int, c: int, d: int)
    requires 0 <= a <= b <= |w| && 0 <= c <= d <= b - a
    ensures w[a..b][c..d] == w[a + c..a + d]
  {
    forall i | 0 <= i < d - c
      ensures w[a..b][c..d][i] == w[a + c..a + d][i]
    {
    }
  }

  lemma SliceOfPrefix<T>(w: seq<T>, n: int, c: int, d: int)
    requires 0 <= c <= d <= n <= |w|
    ensures w[..n][c..d] == w[c..d]
  {
    forall i | 0 <= i < d - c
      ensures w[..n][c..d][i] == w[c..d][i]
    {
    }
  }

  lemma ExtendPrefix<T>(w: seq<T>, n: int, a: int, b: int)
    requires 0 <= a <= b <= n <= |w|
    ensures w[..a] + w[..n][a..b] == w[..b]
  {
    SliceOfPrefix(w, n, a, b);
  }

  lemma JoinSlices<T>(w: seq<T>, a: int, b: int)
    requires 0 <= a <= b <= |w|
    ensures w[..a] + w[a..b] == w[..b]
  {
  }

  lemma ThreeParts<T>(w: seq<T>, n: int, a: int, b: int, c: int)
    requires 0 <= a <= b <= n <= |w| && 0 <= c <= b
    ensures w[..a] + w[..n][a..b] + w[c..][b - c..] == w
  {
    ExtendPrefix(w, n, a, b);
    SliceOfSlice(w, c, |w|, b - c, |w| - c);
    assert w[c..][b - c..] == w[b..];
  }
}
