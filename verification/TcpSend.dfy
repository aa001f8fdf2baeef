/** The sending half of a TCP control block in ESTABLISHED, without FIN and urgent data, and with the
    SYN acknowledged. */
module TcpSend {
  import opened Ring
  import opened TcpSegment

  /** suna..smss are the tcb_ fields of the same name; buf is tcb_sndbuf. */
  datatype Snd = Snd(
    buf: seq<Byte>, sbstart: int, sbcount: int, suna: int, snext: int, swindow: int, smss: int,
    lwseq: int, lwack: int, needout: bool)
  {
    function Space(): int { |buf| - sbcount }
  }

  /** The fields of an incoming segment that the sending half looks at. */
  datatype Ack = Ack(start: int, ack: int, window: nat)

  datatype WriteOutcome = TooBig | MustWait | Room

  predicate Fits(s: Snd) {
    && 0 <= s.sbstart < |s.buf| && 0 <= s.sbcount <= |s.buf|
    && s.suna <= s.snext <= s.suna + s.sbcount && s.swindow >= 0 && s.smss > 0
  }

  /** tcpgetspace, one turn of its loop. */
  function GetSpace(s: Snd, len: nat): WriteOutcome {
    if len > |s.buf| then TooBig
    else if len < s.Space() then Room
    else MustWait
  }

  /** tcpwr, once space has been granted. */
  function Write(s: Snd, data: seq<Byte>): Snd
    requires Fits(s) && |data| <= s.Space()
  {
    s.(buf := CopyIn(s.buf, Slot(s.sbstart + s.sbcount, |s.buf|), data),
       sbcount := s.sbcount + |data|, needout := true)
  }

  /** tcpsndlen: offset into the unacknowledged data, and length. */
  function SendLength(s: Snd, rexmt: bool): (int, int) {
    var off := if rexmt then 0 else s.snext - s.suna;
    var len := s.sbcount - off;
    (off, Min(if rexmt then len else Min(len, s.swindow), s.smss))
  }

  /** tcpsend: the segment put on the wire. */
  function Packet(s: Snd, rexmt: bool): Segment
    requires Fits(s)
  {
    var (off, len) := SendLength(s, rexmt);
    Segment(if rexmt then s.suna else s.snext,
            CopyOut(s.buf, Slot(s.sbstart + off, |s.buf|), len), len > 0)
  }

  function Sent(s: Snd, rexmt: bool): Snd
    requires Fits(s)
  {
    var (off, len) := SendLength(s, rexmt);
    var newdata := if rexmt then Max(0, s.suna + len - s.snext) else len;
    s.(snext := s.snext + newdata, needout := false)
  }

  /** tcpacked: duplicates and acknowledgements of data never sent change nothing. */
  function Acked(s: Snd, ack: int): Snd
    requires |s.buf| > 0
  {
    if ack - s.suna <= 0 || ack > s.snext then s
    else s.(suna := ack, sbstart := Slot(s.sbstart + (ack - s.suna), |s.buf|), sbcount := s.sbcount - (ack - s.suna))
  }

  /** tcpswindow: only the newest segment may change the send window. */
  function WindowUpdate(s: Snd, a: Ack): Snd {
    if a.start < s.lwseq || (a.start == s.lwseq && a.ack < s.lwack) then s
    else s.(swindow := a.window, lwseq := a.start, lwack := a.ack)
  }

  // ----- the invariant: w is everything ever written, numbered from isn -----

  /** The ring holds exactly the written bytes that are not yet acknowledged. */
  ghost predicate Inv(s: Snd, w: seq<Byte>, isn: int) {
    && Fits(s) && isn <= s.suna && s.suna - isn + s.sbcount == |w|
    && s.sbstart == Slot(s.suna - isn, |s.buf|)
    && Holds(s.buf, w, s.suna - isn, |w|)
  }

  lemma InvBounds(s: Snd, w: seq<Byte>, isn: int)
    requires Inv(s, w, isn)
    ensures Fits(s) && 0 <= s.suna - isn <= s.snext - isn <= s.suna - isn + s.sbcount == |w|
  {
  }

  lemma RingContents(s: Snd, w: seq<Byte>, isn: int)
    requires Inv(s, w, isn)
    ensures CopyOut(s.buf, s.sbstart, s.sbcount) == w[s.suna - isn..]
  {
    hide Slot;
    CopyOutHeld(s.buf, w, s.suna - isn, s.sbcount);
  }

  lemma WriteKeepsInv(s: Snd, w: seq<Byte>, isn: int, data: seq<Byte>)
    requires Inv(s, w, isn) && |data| <= s.Space()
    ensures Inv(Write(s, data), w + data, isn)
  {
    hide Slot;
    hide Holds;
    hide CopyIn;
    var o := |w|;
    ModShift(s.suna - isn, s.sbcount, |s.buf|);
    assert data == (w + data)[o..o + |data|];
    HoldsLonger(s.buf, w, data, s.suna - isn, o);
    CopyInHolds(s.buf, w + data, o, data);
    CopyInKeeps(s.buf, w + data, s.suna - isn, o, data, s.suna - isn, o);
    HoldsJoin(Write(s, data).buf, w + data, s.suna - isn, o, o, o + |data|);
  }

  /** New or repeated, a segment carries the stream bytes of its sequence numbers, and afterwards
      snext has passed all of them. */
  lemma SendIsGenuine(s: Snd, w: seq<Byte>, isn: int, rexmt: bool)
    requires Inv(s, w, isn)
    ensures var p, s' := Packet(s, rexmt), Sent(s, rexmt);
            && Genuine(p, w, isn) && p.start + |p.data| <= s'.snext && s.snext <= s'.snext
            && |p.data| <= s.smss && Inv(s', w, isn)
  {
    hide Slot;
    hide CopyOut;
    var (off, len) := SendLength(s, rexmt);
    var o := s.suna - isn + off;
    ModShift(s.suna - isn, off, |s.buf|);
    CopyOutHeld(s.buf, w, o, len);
  }

  /** New data is as much as is there, as one segment holds and as the peer's window allows, whichever is
      least; a shut window lets none out. */
  lemma NewDataLength(s: Snd)
    requires Fits(s)
    ensures var p, unsent := Packet(s, false), s.suna + s.sbcount - s.snext;
            && p.start == s.snext && (p.psh <==> p.data != [])
            && |p.data| <= unsent && |p.data| <= s.swindow && |p.data| <= s.smss
            && (|p.data| == unsent || |p.data| == s.swindow || |p.data| == s.smss)
            && Sent(s, false) == s.(snext := s.snext + |p.data|, needout := false)
  {
  }

  /** Sending again starts at the oldest unacknowledged byte and does not look at the window; snext only
      moves when the segment reaches beyond it. */
  lemma RepeatedLength(s: Snd)
    requires Fits(s)
    ensures var p := Packet(s, true);
            && p.start == s.suna && (p.psh <==> p.data != [])
            && |p.data| <= s.sbcount && |p.data| <= s.smss && (|p.data| == s.sbcount || |p.data| == s.smss)
            && Sent(s, true) == s.(snext := Max(s.snext, s.suna + |p.data|), needout := false)
  {
  }

  /** Room is for writes that leave a byte of the ring free; a write is too big if no ring of that size has
      room for it or for one byte more. */
  lemma SpaceExact(s: Snd, data: seq<Byte>)
    requires Fits(s)
    ensures GetSpace(s, |data|) == Room <==> |data| <= s.Space() && Write(s, data).Space() > 0
    ensures GetSpace(s, |data|) == TooBig <==> s.(sbcount := 0).Space() < |data|
    ensures |data| <= s.Space() ==> Write(s, data).needout
  {
  }

  // ----- the window -----

  /** The segment that the window was last taken from. */
  function Latest(s: Snd): Ack
    requires s.swindow >= 0
  {
    Ack(s.lwseq, s.lwack, s.swindow)
  }

  predicate Older(a: Ack, b: Ack) { a.start < b.start || (a.start == b.start && a.ack < b.ack) }

  /** The last of the newest. */
  predicate IsLatest(arrived: seq<Ack>, i: nat) {
    && i < |arrived|
    && (forall j :: 0 <= j < i ==> !Older(arrived[i], arrived[j]))
    && (forall j :: i < j < |arrived| ==> Older(arrived[j], arrived[i]))
  }

  function WindowUpdates(s: Snd, arrived: seq<Ack>): Snd
    decreases |arrived|
  {
    if arrived == [] then s else WindowUpdate(WindowUpdates(s, arrived[..|arrived| - 1]), arrived[|arrived| - 1])
  }

  /** In whatever order segments arrive, the window is that of the newest one, by sequence number and then by
      acknowledgement; of several, that of the last to arrive. */
  lemma {:induction false} NewestWindow(s: Snd, arrived: seq<Ack>) returns (i: nat)
    requires s.swindow >= 0
    ensures var s' := WindowUpdates(s, arrived);
            && IsLatest([Latest(s)] + arrived, i) && s'.swindow >= 0
            && Latest(s') == ([Latest(s)] + arrived)[i]
            && s' == s.(swindow := s'.swindow, lwseq := s'.lwseq, lwack := s'.lwack)
    decreases |arrived|
  {
    if arrived == [] {
      i := 0;
    } else {
      var n := |arrived| - 1;
      var front, all := [Latest(s)] + arrived[..n], [Latest(s)] + arrived;
      i := NewestWindow(s, arrived[..n]);
      assert all == front + [arrived[n]];
      if !Older(arrived[n], front[i]) {
        forall j | 0 <= j < |front|
          ensures !Older(arrived[n], all[j])
        {
          assert all[j] == front[j];
        }
        i := |front|;
      }
    }
  }

  lemma AckedKeepsInv(s: Snd, w: seq<Byte>, isn: int, ack: int)
    requires Inv(s, w, isn)
    ensures Inv(Acked(s, ack), w, isn) && Acked(s, ack).snext == s.snext
    ensures Acked(s, ack).suna == if s.suna < ack <= s.snext then ack else s.suna
  {
    hide Slot;
    ModShift(s.suna - isn, ack - s.suna, |s.buf|);
  }

  /** The test for writes that can never fit misses one length: a write that fills the whole ring is
      not refused, yet no state of the ring has room for it. */
  lemma FullRingWriteWaitsForEver(s: Snd, len: nat)
    requires Fits(s)
    ensures len == |s.buf| ==> GetSpace(s, len) == MustWait
    ensures (exists t: Snd :: Fits(t) && |t.buf| == |s.buf| && GetSpace(t, len) == Room) <==> len < |s.buf|
  {
    if len < |s.buf| {
      var t := s.(sbcount := 0, suna := 0, snext := 0);
      assert Fits(t) && |t.buf| == |s.buf| && GetSpace(t, len) == Room;
    }
  }

  // ----- the control block -----

  /** The send fields of one struct tcb. */
  class Sender {
    const sndbuf: array<Byte>
    var sbstart: int
    var sbcount: int
    var suna: int
    var snext: int
    var swindow: int
    const smss: int
    var lwseq: int
    var lwack: int
    var needout: bool

    ghost function State(): Snd
      reads this, sndbuf
    {
      Snd(sndbuf[..], sbstart, sbcount, suna, snext, swindow, smss, lwseq, lwack, needout)
    }

    /** As the handshake leaves the block once the SYN numbered iss has been acknowledged. */
    constructor (size: nat, iss: int, window: nat, mss: nat, peer: int)
      requires size > 0 && mss > 0
      ensures fresh(sndbuf) && sndbuf.Length == size
      ensures State() == Snd(sndbuf[..], 0, 0, iss + 1, iss + 1, window, mss, peer, iss, false)
      ensures Inv(State(), [], iss + 1)
    {
      sndbuf := new Byte[size];
      sbstart, sbcount, suna, snext, swindow, smss := 0, 0, iss + 1, iss + 1, window, mss;
      lwseq, lwack, needout := peer, iss, false;
      new;
      ModSmall(0, size);
    }

    /** One turn of the loop of tcpgetspace, in a block that is in use and has no error. */
    method TcpGetSpace(len: nat) returns (r: WriteOutcome)
      ensures r == GetSpace(State(), len)
    {
      if len > sndbuf.Length {
        return TooBig;
      }
      if len < sndbuf.Length - sbcount {
        return Room;
      }
      return MustWait;
    }

    method TcpWr(data: seq<Byte>)
      requires Fits(State()) && |data| <= State().Space()
      modifies this`sbcount, this`needout, sndbuf
      ensures State() == Write(old(State()), data)
    {
      var sboff := (sbstart + sbcount) % sndbuf.Length;
      ghost var at, buf, c0 := sboff, sndbuf[..], sbcount;
      ModSmall(at, sndbuf.Length);
      CopyInNothing(buf, at);
      assert data[..0] == [];
      for i := 0 to |data|
        invariant sboff == Slot(at + i, sndbuf.Length) && sbcount == c0 + i
        invariant sndbuf[..] == CopyIn(buf, at, data[..i])
      {
        CopyInStep(buf, at, data, i);
        NextSlot(at, i, sndbuf.Length);
        sndbuf[sboff] := data[i];
        sbcount := sbcount + 1;
        sboff := sboff + 1;
        if sboff >= sndbuf.Length {
          sboff := 0;
        }
      }
      needout := true;
      assert data[..|data|] == data;
    }

    method TcpSndLen(rexmt: bool) returns (off: int, len: int)
      ensures (off, len) == SendLength(State(), rexmt)
    {
      off := if rexmt then 0 else snext - suna;
      len := sbcount - off;
      if !rexmt {
        len := Min(len, swindow);
      }
      len := Min(len, smss);
    }

    method TcpSend(rexmt: bool) returns (p: Segment)
      requires Fits(State())
      modifies this`snext, this`needout
      ensures p == Packet(old(State()), rexmt) && State() == Sent(old(State()), rexmt)
    {
      var off, datalen := TcpSndLen(rexmt);
      var seqno := if !rexmt then snext else suna;
      var payload := Fetch((sbstart + off) % sndbuf.Length, datalen);
      needout := false;
      var newdata := datalen;
      if rexmt {
        newdata := suna + datalen - snext;
        if newdata < 0 {
          newdata := 0;
        }
      }
      snext := snext + newdata;
      p := Segment(seqno, payload, datalen > 0);
    }

    /** The copy loop of tcpsend. */
    method Fetch(at: nat, len: nat) returns (payload: seq<Byte>)
      requires at < sndbuf.Length && len <= sndbuf.Length
      ensures payload == CopyOut(sndbuf[..], at, len)
    {
      payload := [];
      var i := at;
      ModSmall(at, sndbuf.Length);
      for k := 0 to len
        invariant i == Slot(at + k, sndbuf.Length)
        invariant payload == CopyOut(sndbuf[..], at, k)
      {
        NextSlot(at, k, sndbuf.Length);
        payload := payload + [sndbuf[i]];
        i := i + 1;
        if i >= sndbuf.Length {
          i := 0;
        }
      }
    }

    method TcpAcked(ack: int) returns (acked: int)
      requires Fits(State())
      modifies this`suna, this`sbstart, this`sbcount
      ensures State() == Acked(old(State()), ack)
      ensures ack <= snext ==> acked == Max(0, ack - old(suna))
    {
      acked := ack - suna;
      if acked <= 0 {
        return 0;
      }
      if ack > snext {
        return;
      }
      suna := ack;
      sbstart := (sbstart + acked) % sndbuf.Length;
      sbcount := sbcount - acked;
    }

    method TcpSWindow(a: Ack)
      modifies this`swindow, this`lwseq, this`lwack
      ensures State() == WindowUpdate(old(State()), a)
    {
      if a.start < lwseq || (a.start == lwseq && a.ack < lwack) {
        return;
      }
      swindow, lwseq, lwack := a.window, a.start, a.ack;
    }
  }
}
