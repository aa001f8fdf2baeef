/** The receiving half of a TCP control block in ESTABLISHED, without FIN and urgent data. */
module TcpReceive {
  import opened Ring
  import opened TcpSegment
  import Gpq

  const NTCPFRAG := 10   // longest fragment queue

  /** An out-of-order range whose bytes are already in the ring. */
  datatype Frag = Frag(start: int, len: int)

  type FragQueue = seq<Gpq.Entry<Frag>>

  /** rbstart..cwin are the tcb_ fields of the same name; segq is None when tcb_rsegq is EMPTY. */
  datatype Rcv = Rcv(
    buf: seq<Byte>, rbstart: int, rbcount: int, rnext: int, cwin: int, rmss: int,
    segq: Option<FragQueue>, pushseq: int, needout: bool, push: bool)
  {
    function Room(): int { |buf| - rbcount }
    function Base(): int { rnext - rbcount }
  }

  /** tcpok: either end of the segment lies in the window. */
  predicate Acceptable(r: Rcv, start: int, len: nat) {
    var wlast := r.rnext + r.Room() - 1;
    if r.Room() == 0 && len == 0 then start == r.rnext
    else
      var rv := r.rnext <= start <= wlast;
      if len == 0 then rv else rv || r.rnext <= start + len - 1 <= wlast
  }

  /** tcprwindow: the advertisement, and the edge it leaves in cwin. */
  function Advertise(r: Rcv): int {
    var window := if r.Room() * 4 < |r.buf| || r.Room() < r.rmss then 0 else r.Room();
    Max(window, r.cwin - r.rnext)
  }

  function Advertised(r: Rcv): Rcv {
    r.(cwin := r.rnext + Advertise(r))
  }

  /** The loop of tfcoalesce: drops ranges that start at or before rnext, moving rnext to their ends. */
  function Absorb(rnext: int, q: FragQueue): (int, FragQueue)
    decreases |q|
  {
    if q == [] then (rnext, [])
    else
      var f := q[0].elt;
      if f.start - rnext <= 0 then Absorb(Max(rnext, f.start + f.len), q[1..])
      else (rnext, Gpq.Enq(q[1..], Gpq.Entry(-f.start, f)))
  }

  /** tfcoalesce: len more bytes in order, then whatever they connect to. */
  function Coalesce(r: Rcv, len: int): Rcv {
    var next := r.rnext + len;
    var (last, q) := if r.segq.None? then (next, []) else Absorb(next, r.segq.value);
    r.(rnext := last, rbcount := r.rbcount + (last - r.rnext),
       segq := if q == [] then None else Some(q),
       pushseq := if last >= r.pushseq then 0 else r.pushseq)
  }

  /** tfinsert: a full queue, or no queue to be had, drops the range. */
  function InsertFrag(segq: Option<FragQueue>, f: Frag, qfree: bool): Option<FragQueue> {
    if f.len == 0 then segq
    else if segq.None? then (if qfree then Some(Gpq.Enq([], Gpq.Entry(-f.start, f))) else None)
    else if |segq.value| >= NTCPFRAG then segq
    else Some(Gpq.Enq(segq.value, Gpq.Entry(-f.start, f)))
  }

  /** tcpdodat. */
  function DoData(r: Rcv, start: int, first: int, len: int, psh: bool, qfree: bool): Rcv {
    if r.rnext == first then
      var c := if len > 0 then Coalesce(r, len).(needout := true) else r;
      var psh' := psh || (len > 0 && c.rnext >= r.pushseq);
      c.(push := c.push || psh')
    else
      r.(pushseq := if psh then start + len else r.pushseq,
         segq := InsertFrag(r.segq, Frag(first, len), qfree))
  }

  /** What tcpdata keeps of a segment: the part at or after rnext and inside the window. */
  function Kept(r: Rcv, s: Segment): (int, int) {
    var first := Max(r.rnext, s.start);
    (first, Min(s.start + |s.data|, r.rnext + r.Room()) - first)
  }

  predicate Fits(r: Rcv) {
    0 <= r.rbstart < |r.buf| && 0 <= r.rbcount <= |r.buf|
  }

  lemma KeptBounds(r: Rcv, s: Segment)
    requires Fits(r) && Acceptable(r, s.start, |s.data|)
    ensures var (first, len) := Kept(r, s);
            && 0 <= len && s.start <= first && r.rnext <= first
            && first + len <= s.start + |s.data| && first + len <= r.rnext + r.Room()
  {
  }

  function KeptBytes(r: Rcv, s: Segment): (data: seq<Byte>)
    requires Fits(r) && Acceptable(r, s.start, |s.data|)
    ensures |data| == Kept(r, s).1 && |data| <= |r.buf|
  {
    KeptBounds(r, s);
    var (first, len) := Kept(r, s);
    s.data[first - s.start..first - s.start + len]
  }

  /** tcpdata, for an acceptable segment. */
  function Receive(r: Rcv, s: Segment, qfree: bool): Rcv
    requires Fits(r) && Acceptable(r, s.start, |s.data|)
  {
    var (first, len) := Kept(r, s);
    var at := Slot(r.rbstart + r.rbcount + (first - r.rnext), |r.buf|);
    DoData(r.(buf := CopyIn(r.buf, at, KeptBytes(r, s))), s.start, first, len, s.psh, qfree)
  }

  /** tcpgetdata: the bytes handed to the reader. */
  function ReadBytes(r: Rcv, len: nat): seq<Byte>
    requires Fits(r)
  {
    CopyOut(r.buf, r.rbstart, Min(len, r.rbcount))
  }

  function AfterRead(r: Rcv, len: nat): Rcv
    requires Fits(r)
  {
    var cc := Min(len, r.rbcount);
    var r1 := r.(rbstart := Slot(r.rbstart + cc, |r.buf|), rbcount := r.rbcount - cc,
                 push := r.push && r.rbcount != cc);
    if r1.cwin - r1.rnext <= 0 then
      Advertised(r1).(needout := r1.needout || Advertise(r1) != 0)
    else r1
  }

  // ----- the invariant: w is the sender's stream, its first byte has sequence number isn -----

  ghost predicate FragInPlace(r: Rcv, w: seq<Byte>, isn: int, f: Frag)
    requires |r.buf| > 0
  {
    && f.len > 0 && f.start > r.rnext && f.start + f.len <= r.Base() + |r.buf|
    && Holds(r.buf, w, f.start - isn, f.start + f.len - isn)
  }

  ghost predicate FragsInPlace(r: Rcv, w: seq<Byte>, isn: int, q: FragQueue)
    requires |r.buf| > 0
  {
    && Gpq.Sorted(q) && |q| <= NTCPFRAG
    && forall e :: e in q ==> e.key == -e.elt.start && FragInPlace(r, w, isn, e.elt)
  }

  ghost predicate Inv(r: Rcv, w: seq<Byte>, isn: int) {
    && Fits(r) && 0 < isn <= r.Base() && r.rmss >= 0
    && r.rbstart == Slot(r.Base() - isn, |r.buf|)
    && Holds(r.buf, w, r.Base() - isn, r.rnext - isn)
    && r.cwin <= r.Base() + |r.buf|
    && (r.segq.Some? ==> r.segq.value != [] && FragsInPlace(r, w, isn, r.segq.value))
  }

  lemma InvBounds(r: Rcv, w: seq<Byte>, isn: int)
    requires Inv(r, w, isn)
    ensures Fits(r) && r.cwin <= r.Base() + |r.buf| && 0 <= r.Base() - isn <= r.rnext - isn <= |w|
  {
  }

  lemma RingContents(r: Rcv, w: seq<Byte>, isn: int)
    requires Inv(r, w, isn)
    ensures CopyOut(r.buf, r.rbstart, r.rbcount) == w[r.Base() - isn..r.rnext - isn]
  {
    hide Slot;
    CopyOutHeld(r.buf, w, r.Base() - isn, r.rbcount);
  }

  lemma InvLonger(r: Rcv, w: seq<Byte>, more: seq<Byte>, isn: int)
    requires Inv(r, w, isn)
    ensures Inv(r, w + more, isn)
  {
    HoldsLonger(r.buf, w, more, r.Base() - isn, r.rnext - isn);
    if r.segq.Some? {
      forall e | e in r.segq.value
        ensures FragInPlace(r, w + more, isn, e.elt)
      {
        HoldsLonger(r.buf, w, more, e.elt.start - isn, e.elt.start + e.elt.len - isn);
      }
    }
  }

  // ----- absorbing queued ranges -----

  /** rnext may move to x, and the ring holds the stream up to there. */
  ghost predicate Reach(r: Rcv, w: seq<Byte>, isn: int, x: int)
    requires |r.buf| > 0
  {
    r.rnext <= x <= r.Base() + |r.buf| && Holds(r.buf, w, r.Base() - isn, x - isn)
  }

  lemma PutBack(x: int, q: FragQueue)
    requires q != [] && Gpq.Sorted(q) && q[0].elt.start > x
    requires forall e :: e in q ==> e.key == -e.elt.start
    ensures var (y, q') := Absorb(x, q);
            && y == x && Gpq.Sorted(q') && |q'| == |q|
            && forall e :: e in q' ==> e in q && e.elt.start > y
  {
    Gpq.SortedTail(q);
    var e := Gpq.Entry(-q[0].elt.start, q[0].elt);
    assert q[0] == e by {
      assert q[0] in q;
    }
    Gpq.EnqKeepsEntries(q[1..], e);
    Gpq.EnqSorted(q[1..], e);
  }

  lemma {:induction false} AbsorbReaches(r: Rcv, w: seq<Byte>, isn: int, x: int, q: FragQueue)
    requires Fits(r) && r.Base() >= isn && Reach(r, w, isn, x)
    requires FragsInPlace(r, w, isn, q)
    ensures var (y, q') := Absorb(x, q);
            && x <= y && Reach(r, w, isn, y)
            && Gpq.Sorted(q') && |q'| <= |q|
            && forall e :: e in q' ==> e in q && e.elt.start > y
    decreases |q|
  {
    hide Slot;
    hide Holds;
    if q != [] {
      var f, rest := q[0].elt, q[1..];
      if f.start <= x {
        assert FragInPlace(r, w, isn, f) by {
          assert q[0] in q;
        }
        HoldsJoin(r.buf, w, r.Base() - isn, x - isn, f.start - isn, f.start + f.len - isn);
        Gpq.SortedTail(q);
        var x' := Max(x, f.start + f.len);
        assert Absorb(x, q) == Absorb(x', rest);
        AbsorbReaches(r, w, isn, x', rest);
      } else {
        PutBack(x, q);
      }
    }
  }

  // ----- a segment keeps the invariant -----

  /** The ring index that tcpdata computes is the slot of the first kept byte. */
  lemma SlotOfFirst(r: Rcv, w: seq<Byte>, isn: int, first: int)
    requires Inv(r, w, isn) && first >= r.rnext
    ensures Slot(r.rbstart + r.rbcount + (first - r.rnext), |r.buf|) == Slot(first - isn, |r.buf|)
  {
    ModShift(r.Base() - isn, r.rbcount + (first - r.rnext), |r.buf|);
  }

  lemma CopyKeepsInv(r: Rcv, w: seq<Byte>, isn: int, first: int, data: seq<Byte>)
    requires Inv(r, w, isn) && r.rnext <= first && first + |data| <= r.Base() + |r.buf|
    requires first - isn + |data| <= |w| && data == w[first - isn..first - isn + |data|]
    ensures var r1 := r.(buf := CopyIn(r.buf, Slot(first - isn, |r.buf|), data));
            Inv(r1, w, isn) && Holds(r1.buf, w, first - isn, first - isn + |data|)
  {
    hide Slot;
    hide CopyIn;
    var base := r.Base() - isn;
    var r1 := r.(buf := CopyIn(r.buf, Slot(first - isn, |r.buf|), data));
    CopyInHolds(r.buf, w, first - isn, data);
    CopyInKeeps(r.buf, w, base, first - isn, data, base, r.rnext - isn);
    if r.segq.Some? {
      forall e | e in r.segq.value
        ensures FragInPlace(r1, w, isn, e.elt)
      {
        assert FragInPlace(r, w, isn, e.elt);
        CopyInKeeps(r.buf, w, base, first - isn, data, e.elt.start - isn, e.elt.start + e.elt.len - isn);
      }
    }
  }

  lemma CoalesceKeepsInv(r: Rcv, w: seq<Byte>, isn: int, len: nat)
    requires Inv(r, w, isn) && r.rnext + len <= r.Base() + |r.buf|
    requires Holds(r.buf, w, r.rnext - isn, r.rnext - isn + len)
    ensures var c := Coalesce(r, len);
            Inv(c, w, isn) && c.Base() == r.Base() && c.rnext >= r.rnext + len
  {
    hide Slot;
    hide Holds;
    HoldsJoin(r.buf, w, r.Base() - isn, r.rnext - isn, r.rnext - isn, r.rnext - isn + len);
    if r.segq.Some? {
      AbsorbReaches(r, w, isn, r.rnext + len, r.segq.value);
      var c := Coalesce(r, len);
      var (last, q) := Absorb(r.rnext + len, r.segq.value);
      forall e | e in q
        ensures FragInPlace(c, w, isn, e.elt)
      {
        assert FragInPlace(r, w, isn, e.elt);
      }
    }
  }

  lemma EnqInPlace(r: Rcv, w: seq<Byte>, isn: int, q: FragQueue, f: Frag)
    requires |r.buf| > 0 && FragsInPlace(r, w, isn, q) && |q| < NTCPFRAG && FragInPlace(r, w, isn, f)
    ensures FragsInPlace(r, w, isn, Gpq.Enq(q, Gpq.Entry(-f.start, f)))
  {
    hide Slot;
    hide Holds;
    hide Gpq.Enq;
    Gpq.EnqKeepsEntries(q, Gpq.Entry(-f.start, f));
    Gpq.EnqSorted(q, Gpq.Entry(-f.start, f));
  }

  lemma InsertKeepsInv(r: Rcv, w: seq<Byte>, isn: int, f: Frag, qfree: bool)
    requires Inv(r, w, isn) && f.len >= 0 && (f.len > 0 ==> FragInPlace(r, w, isn, f))
    ensures Inv(r.(segq := InsertFrag(r.segq, f, qfree)), w, isn)
  {
    hide Slot;
    hide Holds;
    hide Gpq.Enq;
    var q := if r.segq.None? then [] else r.segq.value;
    if f.len > 0 && |q| < NTCPFRAG && (r.segq.Some? || qfree) {
      EnqInPlace(r, w, isn, q, f);
      var q' := Gpq.Enq(q, Gpq.Entry(-f.start, f));
      assert InsertFrag(r.segq, f, qfree) == Some(q');
      forall e | e in q'
        ensures FragInPlace(r.(segq := Some(q')), w, isn, e.elt)
      {
        assert FragInPlace(r, w, isn, e.elt);
      }
    } else {
      assert InsertFrag(r.segq, f, qfree) == r.segq;
    }
  }

  lemma DoDataKeepsInv(r: Rcv, w: seq<Byte>, isn: int, start: int, first: int, len: nat, psh: bool, qfree: bool)
    requires Inv(r, w, isn) && r.rnext <= first && first + len <= r.Base() + |r.buf|
    requires Holds(r.buf, w, first - isn, first - isn + len)
    ensures var r' := DoData(r, start, first, len, psh, qfree);
            && Inv(r', w, isn) && r'.Base() == r.Base() && r'.cwin == r.cwin
            && r.rnext <= r'.rnext && r'.buf == r.buf
  {
    hide Slot;
    if r.rnext != first {
      InsertKeepsInv(r, w, isn, Frag(first, len), qfree);
      SetFlags(r.(segq := InsertFrag(r.segq, Frag(first, len), qfree)), w, isn, DoData(r, start, first, len, psh, qfree));
    } else {
      if len > 0 {
        CoalesceKeepsInv(r, w, isn, len);
      }
      SetFlags(if len > 0 then Coalesce(r, len) else r, w, isn, DoData(r, start, first, len, psh, qfree));
    }
  }

  lemma SetFlags(r: Rcv, w: seq<Byte>, isn: int, r': Rcv)
    requires Inv(r, w, isn)
    requires r' == r.(pushseq := r'.pushseq, needout := r'.needout, push := r'.push)
    ensures Inv(r', w, isn)
  {
    if r.segq.Some? {
      forall e | e in r'.segq.value
        ensures FragInPlace(r', w, isn, e.elt)
      {
        assert FragInPlace(r, w, isn, e.elt);
      }
    }
  }

  /** The receiver with the kept bytes in their slots, before rnext moves. */
  ghost function Stored(r: Rcv, s: Segment, isn: int): Rcv
    requires Fits(r) && Acceptable(r, s.start, |s.data|)
  {
    r.(buf := CopyIn(r.buf, Slot(Kept(r, s).0 - isn, |r.buf|), KeptBytes(r, s)))
  }

  lemma ReceiveUnfolded(r: Rcv, s: Segment, w: seq<Byte>, isn: int, qfree: bool)
    requires Inv(r, w, isn) && Acceptable(r, s.start, |s.data|)
    ensures var (first, len) := Kept(r, s);
            && r.rnext <= first && 0 <= len && first + len <= r.Base() + |r.buf|
            && Receive(r, s, qfree) == DoData(Stored(r, s, isn), s.start, first, len, s.psh, qfree)
            && Stored(r, s, isn) == r.(buf := Stored(r, s, isn).buf)
  {
    hide Slot;
    hide CopyIn;
    hide DoData;
    KeptBounds(r, s);
    SlotOfFirst(r, w, isn, Kept(r, s).0);
  }

  lemma KeptBytesGenuine(r: Rcv, s: Segment, w: seq<Byte>, isn: int)
    requires Fits(r) && Acceptable(r, s.start, |s.data|) && Genuine(s, w, isn)
    ensures var (first, len) := Kept(r, s);
            0 <= first - isn <= first - isn + len <= |w| && KeptBytes(r, s) == w[first - isn..first - isn + len]
  {
    KeptBounds(r, s);
    var (first, len) := Kept(r, s);
    SliceOfSlice(w, s.start - isn, s.start - isn + |s.data|, first - s.start, first - s.start + len);
  }

  /** Every acceptable genuine segment keeps the ring in step with the stream, moves no byte the
      reader has yet to take, and never moves rnext back. */
  lemma ReceiveKeepsInv(r: Rcv, s: Segment, w: seq<Byte>, isn: int, qfree: bool)
    requires Inv(r, w, isn) && Genuine(s, w, isn) && Acceptable(r, s.start, |s.data|)
    ensures var r' := Receive(r, s, qfree);
            && Inv(r', w, isn) && r'.Base() == r.Base() && r'.cwin == r.cwin
            && r.rnext <= r'.rnext && |r'.buf| == |r.buf|
  {
    hide Slot;
    hide Holds;
    hide CopyIn;
    hide DoData;
    hide FragsInPlace;
    ReceiveUnfolded(r, s, w, isn, qfree);
    KeptBytesGenuine(r, s, w, isn);
    var (first, len) := Kept(r, s);
    CopyKeepsInv(r, w, isn, first, KeptBytes(r, s));
    DoDataKeepsInv(Stored(r, s, isn), w, isn, s.start, first, len, s.psh, qfree);
  }

  // ----- rnext stops at the first byte that is still missing -----

  ghost predicate Covered(q: FragQueue, s: int) {
    exists e :: e in q && e.elt.start <= s < e.elt.start + e.elt.len
  }

  ghost predicate Ordered(q: FragQueue) {
    Gpq.Sorted(q) && forall e :: e in q ==> e.key == -e.elt.start && e.elt.len > 0
  }

  lemma {:induction false} AbsorbFillsGap(x: int, q: FragQueue)
    requires Ordered(q)
    ensures var y := Absorb(x, q).0;
            && x <= y && !Covered(q, y)
            && forall s :: x <= s < y ==> Covered(q, s)
    decreases |q|
  {
    if q != [] {
      var f, rest := q[0].elt, q[1..];
      Gpq.SortedTail(q);
      assert q[0] in q;
      if f.start <= x {
        var x' := Max(x, f.start + f.len);
        assert Absorb(x, q) == Absorb(x', rest);
        AbsorbFillsGap(x', rest);
        CoveredByTail(q, x, Absorb(x, q).0);
      } else {
        BeforeAll(x, q);
      }
    }
  }

  lemma CoveredByTail(q: FragQueue, x: int, y: int)
    requires Ordered(q) && q != [] && q[0].elt.start <= x && y >= Max(x, q[0].elt.start + q[0].elt.len)
    requires !Covered(q[1..], y) && forall s :: Max(x, q[0].elt.start + q[0].elt.len) <= s < y ==> Covered(q[1..], s)
    ensures !Covered(q, y) && forall s :: x <= s < y ==> Covered(q, s)
  {
    assert q[0] in q;
    forall s | x <= s < y
      ensures Covered(q, s)
    {
      if s >= q[0].elt.start + q[0].elt.len {
        assert Covered(q[1..], s);
        var e :| e in q[1..] && e.elt.start <= s < e.elt.start + e.elt.len;
        assert e in q;
      }
    }
    assert forall e :: e in q ==> e == q[0] || e in q[1..];
  }

  lemma BeforeAll(x: int, q: FragQueue)
    requires Ordered(q) && q != [] && q[0].elt.start > x
    ensures !Covered(q, x)
  {
    assert q[0] in q;
    Gpq.SortedTail(q);
    assert forall e :: e in q ==> e == q[0] || e in q[1..];
  }

  /** After a segment that touches rnext, every byte up to the new rnext came from the segment or from
      a queued range, and the byte at the new rnext from neither. */
  lemma ReceiveFillsGap(r: Rcv, s: Segment, w: seq<Byte>, isn: int, qfree: bool)
    requires Inv(r, w, isn) && Acceptable(r, s.start, |s.data|) && s.start <= r.rnext < s.start + |s.data|
    ensures var q := if r.segq.None? then [] else r.segq.value;
            var next := Receive(r, s, qfree).rnext;
            && next >= Min(s.start + |s.data|, r.rnext + r.Room()) && !Covered(q, next)
            && forall t :: r.rnext <= t < next ==> t < s.start + |s.data| || Covered(q, t)
  {
    hide Slot;
    hide Holds;
    hide Stored;
    hide DoData;
    hide Receive;
    ReceiveUnfolded(r, s, w, isn, qfree);
    var len := Kept(r, s).1;
    InOrderNext(Stored(r, s, isn), s.start, len, s.psh, qfree);
    var q := if r.segq.None? then [] else r.segq.value;
    assert Ordered(q);
    AbsorbFillsGap(r.rnext + len, q);
  }

  lemma InOrderNext(r: Rcv, start: int, len: nat, psh: bool, qfree: bool)
    requires len > 0
    ensures DoData(r, start, r.rnext, len, psh, qfree).rnext ==
            Absorb(r.rnext + len, if r.segq.None? then [] else r.segq.value).0
  {
  }

  // ----- window advertisement and reading -----

  /** The advertised edge never moves left, and never passes the end of the ring's room. */
  lemma AdvertiseKeepsInv(r: Rcv, w: seq<Byte>, isn: int)
    requires Inv(r, w, isn)
    ensures Inv(Advertised(r), w, isn)
    ensures r.cwin <= Advertised(r).cwin <= r.rnext + r.Room() && Advertise(r) >= 0
  {
    hide Slot;
    var r' := Advertised(r);
    if r.segq.Some? {
      forall e | e in r'.segq.value
        ensures FragInPlace(r', w, isn, e.elt)
      {
        assert FragInPlace(r, w, isn, e.elt);
      }
    }
  }

  /** Over what was already advertised and is not yet used up, the window is opened only for a quarter of the
      ring and a full segment, and then to all the room there is; otherwise the edge stays where it is, or where
      the data already is. */
  lemma NoSillyWindow(r: Rcv)
    requires Fits(r)
    ensures var r', open := Advertised(r), Max(0, r.cwin - r.rnext);
            && (Advertise(r) > open <==> r.Room() > open && r.Room() * 4 >= |r.buf| && r.Room() >= r.rmss)
            && r'.cwin == if Advertise(r) > open then r.rnext + r.Room() else Max(r.cwin, r.rnext)
  {
  }

  lemma TakeKeepsInv(r: Rcv, w: seq<Byte>, isn: int, cc: nat, push: bool)
    requires Inv(r, w, isn) && cc <= r.rbcount
    ensures Inv(r.(rbstart := Slot(r.rbstart + cc, |r.buf|), rbcount := r.rbcount - cc, push := push), w, isn)
  {
    hide Slot;
    ModShift(r.Base() - isn, cc, |r.buf|);
    var r' := r.(rbstart := Slot(r.rbstart + cc, |r.buf|), rbcount := r.rbcount - cc, push := push);
    if r.segq.Some? {
      forall e | e in r'.segq.value
        ensures FragInPlace(r', w, isn, e.elt)
      {
        assert FragInPlace(r, w, isn, e.elt);
      }
    }
  }

  lemma ReadGives(r: Rcv, w: seq<Byte>, isn: int, len: nat)
    requires Inv(r, w, isn)
    ensures ReadBytes(r, len) == w[r.Base() - isn..r.Base() - isn + Min(len, r.rbcount)]
  {
    hide Slot;
    hide FragsInPlace;
    CopyOutHeld(r.buf, w, r.Base() - isn, Min(len, r.rbcount));
  }

  /** The reader is handed the next bytes of the stream, and only those leave the ring. */
  lemma ReadKeepsInv(r: Rcv, w: seq<Byte>, isn: int, len: nat)
    requires Inv(r, w, isn)
    ensures var from, cc := r.Base() - isn, Min(len, r.rbcount);
            var r' := AfterRead(r, len);
            && ReadBytes(r, len) == w[from..from + cc]
            && Inv(r', w, isn) && r'.Base() == r.Base() + cc && r'.rnext == r.rnext && r'.cwin >= r.cwin
            && |r'.buf| == |r.buf|
  {
    hide Slot;
    hide FragsInPlace;
    hide ReadBytes;
    hide Advertise;
    hide Holds;
    var cc := Min(len, r.rbcount);
    InvBounds(r, w, isn);
    ReadGives(r, w, isn, len);
    var r1 := r.(rbstart := Slot(r.rbstart + cc, |r.buf|), rbcount := r.rbcount - cc,
                 push := r.push && r.rbcount != cc);
    TakeKeepsInv(r, w, isn, cc, r.push && r.rbcount != cc);
    AdvertiseKeepsInv(r1, w, isn);
    var r2 := Advertised(r1);
    SetFlags(r2, w, isn, r2.(needout := r1.needout || Advertise(r1) != 0));
    assert AfterRead(r, len) == if r1.cwin - r1.rnext <= 0 then r2.(needout := r1.needout || Advertise(r1) != 0) else r1;
  }

  // ----- the control block -----

  /** The receive fields of one struct tcb. */
  class Receiver {
    const rcvbuf: array<Byte>
    var rbstart: int
    var rbcount: int
    var rnext: int
    var cwin: int
    const rmss: int
    var segq: Option<FragQueue>
    var pushseq: int
    var needout: bool
    var push: bool

    ghost function State(): Rcv
      reads this, rcvbuf
    {
      Rcv(rcvbuf[..], rbstart, rbcount, rnext, cwin, rmss, segq, pushseq, needout, push)
    }

    /** As tcpsync and tcpwinit leave the block once the peer's SYN, numbered irs, has been counted. */
    constructor (size: nat, irs: int, mss: nat)
      requires size > 0 && irs >= 0
      ensures fresh(rcvbuf)
      ensures State() == Rcv(rcvbuf[..], 0, 0, irs + 1, irs + size, mss, None, 0, false, false)
      ensures rcvbuf.Length == size && Inv(State(), [], irs + 1)
    {
      rcvbuf := new Byte[size];
      rbstart, rbcount, rnext, cwin, rmss := 0, 0, irs + 1, irs + size, mss;
      segq, pushseq, needout, push := None, 0, false, false;
      new;
      ModSmall(0, size);
    }

    /** strip reports that tcpok cut the segment down to its header. */
    method TcpOk(start: int, len: nat) returns (ok: bool, strip: bool)
      ensures ok == Acceptable(State(), start, len)
      ensures strip ==> !ok
    {
      var rwindow := rcvbuf.Length - rbcount;
      if rwindow == 0 && len == 0 {
        return start == rnext, false;
      }
      var wlast := rnext + rwindow - 1;
      ok := start - rnext >= 0 && start - wlast <= 0;
      if len == 0 {
        return ok, false;
      }
      var slast := start + len - 1;
      ok := ok || (slast - rnext >= 0 && slast - wlast <= 0);
      strip := rwindow == 0;
    }

    method TcpRWindow() returns (window: int)
      modifies this`cwin
      ensures State() == Advertised(old(State())) && window == Advertise(old(State()))
    {
      window := rcvbuf.Length - rbcount;
      if window * 4 < rcvbuf.Length || window < rmss {
        window := 0;
      }
      window := Max(window, cwin - rnext);
      cwin := rnext + window;
    }

    /** psh reports the push that became due. */
    method TfCoalesce(len: nat) returns (psh: bool)
      requires Fits(State()) && rnext > 0
      requires segq.Some? ==> segq.value != []
      requires segq.Some? ==> forall e :: e in segq.value ==> e.elt.len > 0
      modifies this`rnext, this`rbcount, this`segq, this`pushseq
      ensures State() == Coalesce(old(State()), len)
      ensures psh == (rnext >= old(pushseq))
    {
      rnext := rnext + len;
      rbcount := rbcount + len;
      psh := false;
      if rnext - pushseq >= 0 {
        psh, pushseq := true, 0;
      }
      if segq.None? {
        return;
      }
      var due := DrainQueue();
      psh := psh || due;
    }

    /** The loop of tfcoalesce over the queued ranges. */
    method DrainQueue() returns (psh: bool)
      requires rnext > 0 && segq.Some? && segq.value != []
      requires forall e :: e in segq.value ==> e.elt.len > 0
      modifies this`rnext, this`rbcount, this`segq, this`pushseq
      ensures var (x, q) := Absorb(old(rnext), old(segq.value));
              && rnext == x >= old(rnext) && segq == (if q == [] then None else Some(q))
      ensures rbcount - rnext == old(rbcount - rnext)
      ensures pushseq == (if psh then 0 else old(pushseq))
      ensures psh ==> rnext >= old(pushseq)
      ensures !psh ==> rnext == old(rnext) || rnext < old(pushseq)
    {
      ghost var q0, x0 := segq.value, rnext;
      var q := segq.value;
      var tf := q[0].elt;
      q := q[1..];
      psh := false;
      while tf.start - rnext <= 0
        invariant rnext >= x0 && rbcount - rnext == old(rbcount - rnext)
        invariant tf.len > 0 && forall e :: e in q ==> e.elt.len > 0
        invariant Absorb(x0, q0) ==
                  if tf.start <= rnext then Absorb(Max(rnext, tf.start + tf.len), q)
                  else (rnext, Gpq.Enq(q, Gpq.Entry(-tf.start, tf)))
        invariant pushseq == if psh then 0 else old(pushseq)
        invariant psh ==> rnext >= old(pushseq)
        invariant !psh ==> rnext == x0 || rnext < old(pushseq)
        decreases |q| + if tf.start <= rnext then 1 else 0
      {
        var fresh' := tf.len - (rnext - tf.start);
        if fresh' > 0 {
          rnext := rnext + fresh';
          rbcount := rbcount + fresh';
        }
        if rnext - pushseq >= 0 {
          psh, pushseq := true, 0;
        }
        if q == [] {
          segq := None;
          return;
        }
        tf := q[0].elt;
        q := q[1..];
      }
      segq := Some(Gpq.Enq(q, Gpq.Entry(-tf.start, tf)));
    }

    method TfInsert(first: int, len: nat, qfree: bool)
      modifies this`segq
      ensures State() == old(State()).(segq := InsertFrag(old(segq), Frag(first, len), qfree))
    {
      if len == 0 {
        return;
      }
      var tf := Frag(first, len);
      if segq.None? && qfree {
        segq := Some([]);
      }
      if segq.Some? && |segq.value| < NTCPFRAG {
        segq := Some(Gpq.Enq(segq.value, Gpq.Entry(-tf.start, tf)));
      }
    }

    method TcpDoDat(start: int, first: int, len: nat, psh: bool, qfree: bool)
      requires Fits(State()) && rnext > 0
      requires segq.Some? ==> segq.value != []
      requires segq.Some? ==> forall e :: e in segq.value ==> e.elt.len > 0
      modifies this`rnext, this`rbcount, this`segq, this`pushseq, this`needout, this`push
      ensures State() == DoData(old(State()), start, first, len, psh, qfree)
    {
      if rnext == first {
        var code := psh;
        if len > 0 {
          var due := TfCoalesce(len);
          code := code || due;
          needout := true;
        }
        if code {
          push := true;
        }
      } else {
        if psh {
          pushseq := start + len;
        }
        TfInsert(first, len, qfree);
      }
    }

    method TcpData(s: Segment, qfree: bool)
      requires Fits(State()) && rnext > 0 && Acceptable(State(), s.start, |s.data|)
      requires segq.Some? ==> segq.value != []
      requires segq.Some? ==> forall e :: e in segq.value ==> e.elt.len > 0
      modifies this`rnext, this`rbcount, this`segq, this`pushseq, this`needout, this`push, rcvbuf
      ensures State() == Receive(old(State()), s, qfree)
    {
      hide Slot;
      hide CopyIn;
      hide DoData;
      hide Kept;
      hide Acceptable;
      KeptBounds(State(), s);
      var first, datalen := Trim(s);
      var pb := rbstart + rbcount;
      pb := pb + (first - rnext);
      pb := Slot(pb, rcvbuf.Length);
      StoreData(pb, s.data, first - s.start, datalen);
      TcpDoDat(s.start, first, datalen, s.psh, qfree);
    }

    /** Cuts off what was received before and what lies beyond the window. */
    method Trim(s: Segment) returns (first: int, datalen: int)
      requires Fits(State())
      ensures (first, datalen) == Kept(State(), s)
    {
      datalen := |s.data|;
      var rwindow := rcvbuf.Length - rbcount;
      var wlast := rnext + rwindow - 1;
      first := s.start;
      var last := first + datalen - 1;
      if rnext - first > 0 {
        datalen := datalen - (rnext - first);
        first := rnext;
      }
      if last - wlast > 0 {
        datalen := datalen - (last - wlast);
      }
    }

    /** The copy loop of tcpdata. */
    method StoreData(at: nat, data: seq<Byte>, from: nat, len: nat)
      requires at < rcvbuf.Length && from + len <= |data| && len <= rcvbuf.Length
      modifies rcvbuf
      ensures rcvbuf[..] == CopyIn(old(rcvbuf[..]), at, data[from..from + len])
    {
      var pb, pp := at, from;
      ghost var buf, kept := rcvbuf[..], data[from..from + len];
      ModSmall(at, rcvbuf.Length);
      CopyInNothing(buf, at);
      assert kept[..0] == [];
      for i := 0 to len
        invariant pb == Slot(at + i, rcvbuf.Length) && pp == from + i
        invariant rcvbuf[..] == CopyIn(buf, at, kept[..i])
      {
        CopyInStep(buf, at, kept, i);
        NextSlot(at, i, rcvbuf.Length);
        rcvbuf[pb] := data[pp];
        pp := pp + 1;
        pb := pb + 1;
        if pb >= rcvbuf.Length {
          pb := 0;
        }
      }
      assert kept[..len] == kept;
    }

    method TcpGetData(len: nat) returns (got: seq<Byte>)
      requires Fits(State())
      modifies this`rbstart, this`rbcount, this`push, this`cwin, this`needout
      ensures got == ReadBytes(old(State()), len)
      ensures State() == AfterRead(old(State()), len)
    {
      got := Take(len);
      if rbcount == 0 {
        push := false;
      }
      if cwin - rnext <= 0 {
        var window := TcpRWindow();
        if window != 0 {
          needout := true;
        }
      }
    }

    /** The copy loop of tcpgetdata. */
    method Take(len: nat) returns (got: seq<Byte>)
      requires Fits(State())
      modifies this`rbstart, this`rbcount
      ensures got == ReadBytes(old(State()), len)
      ensures rbstart == Slot(old(rbstart) + |got|, rcvbuf.Length) && rbcount == old(rbcount) - |got|
    {
      got := [];
      ModSmall(rbstart, rcvbuf.Length);
      while rbcount != 0 && |got| < len
        invariant |got| <= Min(len, old(rbcount)) && rbcount == old(rbcount) - |got|
        invariant rbstart == Slot(old(rbstart) + |got|, rcvbuf.Length)
        invariant got == CopyOut(rcvbuf[..], old(rbstart), |got|)
        decreases rbcount
      {
        NextSlot(old(rbstart), |got|, rcvbuf.Length);
        got := got + [rcvbuf[rbstart]];
        rbcount := rbcount - 1;
        rbstart := rbstart + 1;
        if rbstart >= rcvbuf.Length {
          rbstart := 0;
        }
      }
    }
  }
}
