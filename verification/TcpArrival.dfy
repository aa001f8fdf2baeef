/** What becomes of the bytes that arrive out of order: which the receiver knows after each segment, and
    after any number of segments in any order. */
module TcpArrival {
  import opened Ring
  import opened TcpSegment
  import opened TcpReceive
  import Gpq

  /** The queue of out-of-order ranges, empty when there is none. */
  function Ranges(r: Rcv): FragQueue { if r.segq.None? then [] else r.segq.value }

  /** Whether the receiver has byte t, in order or in a range that waits for what is missing before it. */
  ghost predicate Known(r: Rcv, t: int) { t < r.rnext || Covered(Ranges(r), t) }

  /** Whether one more range would be kept. */
  predicate RoomForRange(r: Rcv, qfree: bool) { if r.segq.None? then qfree else |r.segq.value| < NTCPFRAG }

  /** The bytes of a segment that lie in the window. */
  predicate InWindow(r: Rcv, s: Segment, t: int) { s.start <= t < s.start + |s.data| && r.rnext <= t < r.rnext + r.Room() }

  /** A segment with data is taken if and only if it has a byte in the window and does not stick out of it on
      both sides. */
  lemma AcceptableIff(r: Rcv, s: Segment)
    requires Fits(r) && s.data != []
    ensures Acceptable(r, s.start, |s.data|) <==>
            (exists t :: InWindow(r, s, t)) && !(s.start < r.rnext && s.start + |s.data| > r.rnext + r.Room())
  {
    if Acceptable(r, s.start, |s.data|) {
      var t := if r.rnext <= s.start < r.rnext + r.Room() then s.start else s.start + |s.data| - 1;
      assert InWindow(r, s, t);
    }
  }

  predicate Has(f: Frag, t: int) { f.start <= t < f.start + f.len }

  lemma CoveredCons(q: FragQueue, t: int)
    requires q != []
    ensures Covered(q, t) <==> Has(q[0].elt, t) || Covered(q[1..], t)
  {
    assert forall e :: e in q <==> e == q[0] || e in q[1..];
  }

  lemma CoveredPutBack(q: FragQueue, e: Gpq.Entry<Frag>, t: int)
    ensures Covered(Gpq.Enq(q, e), t) <==> Has(e.elt, t) || Covered(q, t)
  {
    Gpq.EnqKeepsEntries(q, e);
    hide Gpq.Enq;
  }

  lemma OrderedTail(q: FragQueue)
    requires Ordered(q) && q != []
    ensures Ordered(q[1..]) && q[0] == Gpq.Entry(-q[0].elt.start, q[0].elt) && q[0].elt.len > 0
  {
    Gpq.SortedTail(q);
    assert q[0] in q;
  }

  lemma {:induction false} AbsorbKnown(x: int, q: FragQueue, t: int)
    requires Ordered(q)
    ensures var (y, q') := Absorb(x, q);
            (t < y || Covered(q', t) <==> t < x || Covered(q, t)) && (q == [] ==> q' == [])
    decreases |q|
  {
    hide Ordered;
    hide Covered;
    hide Gpq.Enq;
    if q != [] {
      var f, rest := q[0].elt, q[1..];
      OrderedTail(q);
      CoveredCons(q, t);
      if f.start <= x {
        AbsorbKnown(Max(x, f.start + f.len), rest, t);
      } else {
        CoveredPutBack(rest, q[0], t);
      }
    }
  }

  /** A segment that starts behind rnext leaves everything known as it was and adds one range, with the part
      of the segment inside the window, if and only if there is room for a range. */
  lemma OutOfOrderIsQueued(r: Rcv, s: Segment, w: seq<Byte>, isn: int, qfree: bool)
    requires Inv(r, w, isn) && Acceptable(r, s.start, |s.data|) && s.start > r.rnext && s.data != []
    ensures var r' := Receive(r, s, qfree);
            var f := Frag(s.start, Min(|s.data|, r.rnext + r.Room() - s.start));
            && f.len > 0 && r'.rnext == r.rnext && r'.rbcount == r.rbcount
            && multiset(Ranges(r')) ==
               multiset(Ranges(r)) + (if RoomForRange(r, qfree) then multiset{Gpq.Entry(-f.start, f)} else multiset{})
  {
    hide Slot;
    hide Holds;
    hide Stored;
    hide Receive;
    hide Gpq.Enq;
    ReceiveUnfolded(r, s, w, isn, qfree);
    var f := Frag(s.start, Min(|s.data|, r.rnext + r.Room() - s.start));
    assert Kept(r, s) == (f.start, f.len);
    Gpq.EnqKeepsEntries(Ranges(r), Gpq.Entry(-f.start, f));
  }

  /** Every acceptable segment: afterwards the receiver knows exactly what it knew, and the segment's bytes in
      the window, unless they are out of order and there is no room for their range. */
  lemma ReceiveKnows(r: Rcv, s: Segment, w: seq<Byte>, isn: int, qfree: bool, t: int)
    requires Inv(r, w, isn) && Acceptable(r, s.start, |s.data|)
    ensures Known(Receive(r, s, qfree), t) <==>
            Known(r, t) || (InWindow(r, s, t) && (s.start <= r.rnext || RoomForRange(r, qfree)))
  {
    hide Slot;
    hide Holds;
    hide Receive;
    if s.start > r.rnext && s.data != [] {
      OutOfOrderIsQueued(r, s, w, isn, qfree);
      var f := Frag(s.start, Min(|s.data|, r.rnext + r.Room() - s.start));
      var q, q' := Ranges(r), Ranges(Receive(r, s, qfree));
      SameEntries(q', if RoomForRange(r, qfree) then q + [Gpq.Entry(-f.start, f)] else q);
    } else {
      InOrderKnows(r, s, w, isn, qfree, t);
    }
  }

  lemma SameEntries(a: FragQueue, b: FragQueue)
    requires multiset(a) == multiset(b)
    ensures forall e :: e in a <==> e in b
  {
    assert forall e :: (e in a <==> e in multiset(a)) && (e in b <==> e in multiset(b));
  }

  lemma InOrderKnows(r: Rcv, s: Segment, w: seq<Byte>, isn: int, qfree: bool, t: int)
    requires Inv(r, w, isn) && Acceptable(r, s.start, |s.data|) && (s.start <= r.rnext || s.data == [])
    ensures Known(Receive(r, s, qfree), t) <==> Known(r, t) || InWindow(r, s, t)
  {
    hide Slot;
    hide Holds;
    hide Stored;
    hide Receive;
    ReceiveUnfolded(r, s, w, isn, qfree);
    assert Ordered(Ranges(r));
    AbsorbKnown(r.rnext + Kept(r, s).1, Ranges(r), t);
    hide Absorb;
  }

  // ----- any number of segments -----

  /** tcpok, and tcpdata if the segment is acceptable. */
  function Arrive(r: Rcv, s: Segment): Rcv
    requires Fits(r)
  {
    if Acceptable(r, s.start, |s.data|) then Receive(r, s, true) else r
  }

  ghost predicate Arrives(r: Rcv, ss: seq<Segment>, r': Rcv)
    decreases |ss|
  {
    if ss == [] then r' == r else Fits(r) && Arrives(Arrive(r, ss[0]), ss[1..], r')
  }

  predicate Brings(ss: seq<Segment>, t: int) { exists s :: s in ss && s.start <= t < s.start + |s.data| }

  lemma ArriveStep(r: Rcv, s: Segment, w: seq<Byte>, isn: int, t: int)
    requires Inv(r, w, isn) && Genuine(s, w, isn) && s.start + |s.data| <= r.Base() + |r.buf| && |Ranges(r)| < NTCPFRAG
    ensures var r' := Arrive(r, s);
            && Inv(r', w, isn) && r'.Base() == r.Base() && |r'.buf| == |r.buf| && |Ranges(r')| <= |Ranges(r)| + 1
            && (Known(r', t) <==> Known(r, t) || s.start <= t < s.start + |s.data|)
  {
    hide Receive;
    hide Slot;
    hide Holds;
    if Acceptable(r, s.start, |s.data|) {
      ReceiveKeepsInv(r, s, w, isn, true);
      ReceiveKnows(r, s, w, isn, true, t);
      FewRanges(r, s, w, isn);
    }
  }

  lemma FewRanges(r: Rcv, s: Segment, w: seq<Byte>, isn: int)
    requires Inv(r, w, isn) && Acceptable(r, s.start, |s.data|)
    ensures |Ranges(Receive(r, s, true))| <= |Ranges(r)| + 1
  {
    hide Slot;
    hide Holds;
    hide Receive;
    hide Stored;
    ReceiveUnfolded(r, s, w, isn, true);
    AbsorbFewer(r.rnext + Kept(r, s).1, Ranges(r));
    hide Absorb;
  }

  lemma {:induction false} AbsorbFewer(x: int, q: FragQueue)
    ensures |Absorb(x, q).1| <= |q|
    decreases |q|
  {
    if q != [] && q[0].elt.start <= x {
      AbsorbFewer(Max(x, q[0].elt.start + q[0].elt.len), q[1..]);
    }
  }

  /** However the segments of a stretch are cut, repeated and mixed up: while they are at most as many as the
      queue has places, the receiver afterwards knows exactly what it knew and what they brought. */
  lemma {:induction false} AnyOrder(r: Rcv, ss: seq<Segment>, r': Rcv, w: seq<Byte>, isn: int, t: int)
    requires Inv(r, w, isn) && Arrives(r, ss, r') && |Ranges(r)| + |ss| <= NTCPFRAG
    requires forall s :: s in ss ==> Genuine(s, w, isn) && s.start + |s.data| <= r.Base() + |r.buf|
    ensures Inv(r', w, isn) && r'.Base() == r.Base()
    ensures Known(r', t) <==> Known(r, t) || Brings(ss, t)
    decreases |ss|
  {
    hide Inv;
    hide Genuine;
    hide Known;
    hide Arrive;
    if ss != [] {
      var s, rest := ss[0], ss[1..];
      assert s in ss && forall x :: x in ss <==> x == s || x in rest;
      ArriveStep(r, s, w, isn, t);
      AnyOrder(Arrive(r, s), rest, r', w, isn, t);
      assert Brings(ss, t) <==> s.start <= t < s.start + |s.data| || Brings(rest, t);
    }
  }

  /** So rnext ends at the first byte that none of them brought and that was not known before. */
  lemma FirstMissing(r: Rcv, ss: seq<Segment>, r': Rcv, w: seq<Byte>, isn: int, t: int)
    requires Inv(r, w, isn) && Arrives(r, ss, r') && |Ranges(r)| + |ss| <= NTCPFRAG
    requires forall s :: s in ss ==> Genuine(s, w, isn) && s.start + |s.data| <= r.Base() + |r.buf|
    requires !Known(r, t) && !Brings(ss, t) && forall u :: u < t ==> Known(r, u) || Brings(ss, u)
    ensures r'.rnext == t
  {
    AnyOrder(r, ss, r', w, isn, t);
    AnyOrder(r, ss, r', w, isn, r'.rnext);
    NextIsMissing(r', w, isn);
  }

  lemma NextIsMissing(r: Rcv, w: seq<Byte>, isn: int)
    requires Inv(r, w, isn)
    ensures !Known(r, r.rnext)
  {
    hide Slot;
    hide Holds;
    forall e | e in Ranges(r)
      ensures e.elt.start > r.rnext
    {
      assert FragInPlace(r, w, isn, e.elt);
    }
  }

  // ----- flags -----

  /** Data in order asks for an acknowledgement, and is pushed to the reader by its own flag or when it reaches
      the end of the latest pushed data that had arrived out of order; data out of order only leaves its end. */
  lemma FlagsExact(r: Rcv, s: Segment, w: seq<Byte>, isn: int, qfree: bool)
    requires Inv(r, w, isn) && Acceptable(r, s.start, |s.data|) && s.data != []
    ensures var r' := Receive(r, s, qfree);
            if s.start <= r.rnext then
              && r'.needout
              && (r'.push <==> r.push || s.psh || r'.rnext >= r.pushseq)
              && r'.pushseq == (if r'.rnext >= r.pushseq then 0 else r.pushseq)
            else
              && r'.needout == r.needout && r'.push == r.push
              && r'.pushseq == if s.psh then Min(s.start + |s.data|, r.rnext + r.Room()) else r.pushseq
  {
    hide Slot;
    hide Holds;
    hide Stored;
    hide Receive;
    ReceiveUnfolded(r, s, w, isn, qfree);
    hide Absorb;
  }

  /** A read that empties the ring clears the push; one that finds the advertised window shut asks for output if it
      makes enough room to open it, and one that does not leaves window and output alone. */
  lemma ReadFlags(r: Rcv, len: nat)
    requires Fits(r) && len > 0
    ensures var r' := AfterRead(r, len);
            && r'.rbcount == Max(0, r.rbcount - len) && r'.segq == r.segq && r'.pushseq == r.pushseq
            && (r'.push <==> r.push && r'.rbcount > 0)
            && (r.cwin > r.rnext ==> r'.needout == r.needout && r'.cwin == r.cwin)
            && (r.cwin <= r.rnext ==>
                  var opens := r'.Room() > 0 && r'.Room() * 4 >= |r.buf| && r'.Room() >= r.rmss;
                  (r'.needout <==> r.needout || opens) && r'.cwin == if opens then r.rnext + r'.Room() else r.rnext)
  {
  }
}
