/** One direction of an established connection over a network that may lose, repeat and reorder:
    every packet ever sent may be delivered at any later time, any number of times. */
module TcpConnection {
  import opened Ring
  import opened TcpSegment
  import S = TcpSend
  import R = TcpReceive

  /** rseq is the receiver's own, unchanging sequence number; segs and acks are all packets ever sent. */
  datatype Conn = Conn(
    snd: S.Snd, rcv: R.Rcv, isn: int, rseq: int,
    written: seq<Byte>, read: seq<Byte>, segs: set<Segment>, acks: set<S.Ack>)

  datatype Step =
    | UserWrite(data: seq<Byte>)
    | SendData(rexmt: bool)
    | SendAck
    | ArriveSegment(s: Segment, qfree: bool)
    | ArriveAck(a: S.Ack)
    | UserRead(len: nat)

  ghost predicate Init(c: Conn) {
    && |c.snd.buf| > 0 && |c.rcv.buf| > 0 && c.isn > 0 && c.snd.smss > 0 && c.snd.swindow >= 0 && c.rcv.rmss >= 0
    && c.snd == c.snd.(sbstart := 0, sbcount := 0, suna := c.isn, snext := c.isn)
    && c.rcv == c.rcv.(rbstart := 0, rbcount := 0, rnext := c.isn, cwin := c.isn - 1 + |c.rcv.buf|, segq := None)
    && c.written == [] && c.read == [] && c.segs == {} && c.acks == {}
  }

  predicate Enabled(c: Conn, st: Step) {
    && S.Fits(c.snd) && R.Fits(c.rcv)
    && match st
       case UserWrite(data) => S.GetSpace(c.snd, |data|) == S.Room
       case ArriveSegment(s, _) => s in c.segs
       case ArriveAck(a) => a in c.acks
       case _ => true
  }

  /** tcpackit and data-less tcpsend: acknowledge rnext and advertise a window. */
  function Acknowledge(c: Conn): Conn {
    c.(rcv := R.Advertised(c.rcv).(needout := false),
       acks := c.acks + {S.Ack(c.rseq, c.rcv.rnext, Max(0, R.Advertise(c.rcv)))})
  }

  function Next(c: Conn, st: Step): Conn
    requires Enabled(c, st)
  {
    match st
    case UserWrite(data) => c.(snd := S.Write(c.snd, data), written := c.written + data)
    case SendData(rexmt) => c.(snd := S.Sent(c.snd, rexmt), segs := c.segs + {S.Packet(c.snd, rexmt)})
    case SendAck => Acknowledge(c)
    case ArriveSegment(s, qfree) =>
      if R.Acceptable(c.rcv, s.start, |s.data|) then c.(rcv := R.Receive(c.rcv, s, qfree))
      else if |s.data| > 0 && c.rcv.Room() > 0 then Acknowledge(c)
      else c
    case ArriveAck(a) => c.(snd := S.WindowUpdate(S.Acked(c.snd, a.ack), a))
    case UserRead(len) => c.(rcv := R.AfterRead(c.rcv, len), read := c.read + R.ReadBytes(c.rcv, len))
  }

  /** The part of the stream that has been on the wire. */
  ghost function OnWire(c: Conn): seq<Byte> {
    if 0 <= c.snd.snext - c.isn <= |c.written| then c.written[..c.snd.snext - c.isn] else []
  }

  ghost predicate Inv(c: Conn) {
    && S.Inv(c.snd, c.written, c.isn) && R.Inv(c.rcv, OnWire(c), c.isn)
    && c.snd.suna <= c.rcv.rnext
    && (forall s :: s in c.segs ==> Genuine(s, OnWire(c), c.isn))
    && (forall a :: a in c.acks ==> a.ack <= c.rcv.rnext)
    && c.read == c.written[..c.rcv.Base() - c.isn]
  }

  lemma InitInv(c: Conn)
    requires Init(c)
    ensures Inv(c)
  {
    ModSmall(0, |c.snd.buf|);
    ModSmall(0, |c.rcv.buf|);
  }

  lemma WriteStep(c: Conn, data: seq<Byte>)
    requires Inv(c) && Enabled(c, UserWrite(data))
    ensures Inv(Next(c, UserWrite(data)))
  {
    hide R.Inv;
    hide Genuine;
    hide Slot;
    hide Holds;
    var c' := Next(c, UserWrite(data));
    R.InvBounds(c.rcv, OnWire(c), c.isn);
    S.WriteKeepsInv(c.snd, c.written, c.isn, data);
    assert OnWire(c') == OnWire(c);
  }

  /** More of the stream on the wire leaves everything else as it was. */
  lemma WireGrows(c: Conn, c': Conn)
    requires Inv(c) && c' == c.(snd := c'.snd, segs := c'.segs)
    requires S.Inv(c'.snd, c.written, c.isn) && c'.snd.suna == c.snd.suna && c.snd.snext <= c'.snd.snext
    requires forall s :: s in c'.segs ==> s in c.segs || Genuine(s, OnWire(c'), c.isn)
    ensures Inv(c')
  {
    hide R.Inv;
    hide S.Inv;
    hide Genuine;
    var from, to := c.snd.snext - c.isn, c'.snd.snext - c.isn;
    Bounds(c);
    S.InvBounds(c'.snd, c.written, c.isn);
    JoinSlices(c.written, from, to);
    R.InvLonger(c.rcv, OnWire(c), c.written[from..to], c.isn);
    forall s | s in c.segs
      ensures Genuine(s, OnWire(c'), c.isn)
    {
      GenuineLonger(s, OnWire(c), c.written[from..to], c.isn);
    }
  }

  lemma Bounds(c: Conn)
    requires Inv(c)
    ensures S.Inv(c.snd, c.written, c.isn) && R.Inv(c.rcv, OnWire(c), c.isn)
    ensures R.Fits(c.rcv) && S.Fits(c.snd) && c.rcv.cwin <= c.rcv.Base() + |c.rcv.buf|
    ensures 0 <= c.rcv.Base() - c.isn <= c.rcv.rnext - c.isn <= c.snd.snext - c.isn <= |c.written|
    ensures c.isn <= c.snd.suna <= c.rcv.rnext
    ensures OnWire(c) == c.written[..c.snd.snext - c.isn] && c.read == c.written[..c.rcv.Base() - c.isn]
  {
    hide R.Inv;
    hide S.Inv;
    hide Genuine;
    R.InvBounds(c.rcv, OnWire(c), c.isn);
    S.InvBounds(c.snd, c.written, c.isn);
  }

  lemma GenuineOnWire(s: Segment, w: seq<Byte>, n: int, isn: int)
    requires Genuine(s, w, isn) && s.start - isn + |s.data| <= n <= |w|
    ensures Genuine(s, w[..n], isn)
  {
    SliceOfPrefix(w, n, s.start - isn, s.start - isn + |s.data|);
  }

  lemma SendStep(c: Conn, rexmt: bool)
    requires Inv(c)
    ensures Enabled(c, SendData(rexmt)) && Inv(Next(c, SendData(rexmt)))
  {
    hide Inv;
    hide R.Inv;
    hide S.Inv;
    hide Genuine;
    hide S.SendLength;
    hide S.Packet;
    Bounds(c);
    S.SendIsGenuine(c.snd, c.written, c.isn, rexmt);
    var c' := Next(c, SendData(rexmt));
    S.InvBounds(c'.snd, c'.written, c.isn);
    GenuineOnWire(S.Packet(c.snd, rexmt), c.written, c'.snd.snext - c.isn, c.isn);
    WireGrows(c, c');
  }

  lemma AcknowledgeStep(c: Conn)
    requires Inv(c)
    ensures Inv(Acknowledge(c)) && R.Advertise(c.rcv) >= 0
  {
    hide S.Inv;
    hide Genuine;
    hide Slot;
    hide Holds;
    R.AdvertiseKeepsInv(c.rcv, OnWire(c), c.isn);
    var r := R.Advertised(c.rcv);
    R.SetFlags(r, OnWire(c), c.isn, r.(needout := false));
  }

  lemma ArriveStep(c: Conn, s: Segment, qfree: bool)
    requires Inv(c) && s in c.segs
    ensures Inv(Next(c, ArriveSegment(s, qfree)))
    ensures c.rcv.rnext <= Next(c, ArriveSegment(s, qfree)).rcv.rnext
  {
    hide R.Inv;
    hide S.Inv;
    hide Genuine;
    hide R.Receive;
    hide Slot;
    hide Holds;
    if R.Acceptable(c.rcv, s.start, |s.data|) {
      R.ReceiveKeepsInv(c.rcv, s, OnWire(c), c.isn, qfree);
    } else if |s.data| > 0 && c.rcv.Room() > 0 {
      AcknowledgeStep(c);
    }
  }

  lemma AckStep(c: Conn, a: S.Ack)
    requires Inv(c) && a in c.acks
    ensures Inv(Next(c, ArriveAck(a)))
  {
    hide R.Inv;
    hide Genuine;
    hide Slot;
    hide Holds;
    S.AckedKeepsInv(c.snd, c.written, c.isn, a.ack);
  }

  lemma ReadStep(c: Conn, len: nat)
    requires Inv(c)
    ensures Enabled(c, UserRead(len)) && Inv(Next(c, UserRead(len)))
  {
    hide R.Inv;
    hide S.Inv;
    hide Genuine;
    hide R.AfterRead;
    hide R.ReadBytes;
    R.InvBounds(c.rcv, OnWire(c), c.isn);
    S.InvBounds(c.snd, c.written, c.isn);
    R.ReadKeepsInv(c.rcv, OnWire(c), c.isn, len);
    var from := c.rcv.Base() - c.isn;
    var cc := Min(len, c.rcv.rbcount);
    var c' := Next(c, UserRead(len));
    assert OnWire(c') == OnWire(c);
    ExtendPrefix(c.written, c.snd.snext - c.isn, from, from + cc);
  }

  /** Every step keeps the invariant, and the advertised edge never moves left. */
  lemma StepKeepsInv(c: Conn, st: Step)
    requires Inv(c) && Enabled(c, st)
    ensures Inv(Next(c, st)) && Next(c, st).rcv.cwin >= c.rcv.cwin && Next(c, st).isn == c.isn
  {
    hide Inv;
    match st
    case UserWrite(data) => WriteStep(c, data);
    case SendData(rexmt) => SendStep(c, rexmt);
    case SendAck => AcknowledgeStep(c); EdgeStep(c, st);
    case ArriveSegment(s, qfree) => ArriveStep(c, s, qfree); EdgeStep(c, st);
    case ArriveAck(a) => AckStep(c, a);
    case UserRead(len) => ReadStep(c, len); EdgeStep(c, st);
  }

  lemma EdgeStep(c: Conn, st: Step)
    requires Inv(c) && Enabled(c, st)
    requires st.SendAck? || st.ArriveSegment? || st.UserRead?
    ensures Next(c, st).rcv.cwin >= c.rcv.cwin
  {
    hide Slot;
    hide Holds;
    if st.ArriveSegment? && R.Acceptable(c.rcv, st.s.start, |st.s.data|) {
      R.ReceiveKeepsInv(c.rcv, st.s, OnWire(c), c.isn, st.qfree);
    } else if st.UserRead? {
      R.ReadKeepsInv(c.rcv, OnWire(c), c.isn, st.len);
    }
  }

  // ----- runs -----

  ghost predicate Run(run: seq<Conn>, steps: seq<Step>) {
    && |run| == |steps| + 1 && Init(run[0])
    && forall i :: 0 <= i < |steps| ==> Enabled(run[i], steps[i]) && run[i + 1] == Next(run[i], steps[i])
  }

  lemma {:induction false} RunKeepsInv(run: seq<Conn>, steps: seq<Step>, n: nat)
    requires Run(run, steps) && n < |run|
    ensures Inv(run[n])
  {
    hide Inv;
    hide Next;
    hide Enabled;
    if n == 0 {
      InitInv(run[0]);
    } else {
      RunKeepsInv(run, steps, n - 1);
      StepKeepsInv(run[n - 1], steps[n - 1]);
    }
  }

  /** End-to-end safety. In every state of every run: what has been read is a prefix of what has been
      written; the bytes read, then those waiting in the receive ring, then those of the send ring that
      lie beyond rnext, are exactly the bytes written; and the advertised window never reaches past the
      room in the ring. */
  lemma EndToEnd(run: seq<Conn>, steps: seq<Step>, n: nat)
    requires Run(run, steps) && n < |run|
    ensures var c := run[n];
            && R.Fits(c.rcv) && S.Fits(c.snd)
            && c.read <= c.written
            && c.snd.suna <= c.rcv.rnext <= c.snd.snext <= c.snd.suna + c.snd.sbcount
            && c.read + CopyOut(c.rcv.buf, c.rcv.rbstart, c.rcv.rbcount)
               + CopyOut(c.snd.buf, c.snd.sbstart, c.snd.sbcount)[c.rcv.rnext - c.snd.suna..] == c.written
            && c.rcv.cwin <= c.rcv.rnext + c.rcv.Room()
  {
    hide CopyOut;
    hide R.Inv;
    hide S.Inv;
    RunKeepsInv(run, steps, n);
    S.InvBounds(run[n].snd, run[n].written, run[n].isn);
    Conserved(run[n]);
  }

  lemma Conserved(c: Conn)
    requires Inv(c)
    ensures R.Fits(c.rcv) && S.Fits(c.snd) && c.rcv.cwin <= c.rcv.rnext + c.rcv.Room()
    ensures c.read <= c.written && c.snd.suna <= c.rcv.rnext <= c.snd.snext
    ensures c.read + CopyOut(c.rcv.buf, c.rcv.rbstart, c.rcv.rbcount)
            + CopyOut(c.snd.buf, c.snd.sbstart, c.snd.sbcount)[c.rcv.rnext - c.snd.suna..] == c.written
  {
    hide Inv;
    hide R.Inv;
    hide S.Inv;
    hide CopyOut;
    hide OnWire;
    Bounds(c);
    R.RingContents(c.rcv, OnWire(c), c.isn);
    S.RingContents(c.snd, c.written, c.isn);
    ThreeParts(c.written, c.snd.snext - c.isn, c.rcv.Base() - c.isn, c.rcv.rnext - c.isn, c.snd.suna - c.isn);
  }

  lemma {:induction false} EdgeNeverMovesLeft(run: seq<Conn>, steps: seq<Step>, i: nat, j: nat)
    requires Run(run, steps) && i <= j < |run|
    ensures run[i].rcv.cwin <= run[j].rcv.cwin
    decreases j
  {
    hide Inv;
    hide Next;
    hide Enabled;
    if i < j {
      EdgeNeverMovesLeft(run, steps, i, j - 1);
      RunKeepsInv(run, steps, j - 1);
      StepKeepsInv(run[j - 1], steps[j - 1]);
    }
  }

  /** No deadlock while the receiver has room: sending the oldest unacknowledged bytes again either
      brings the receiver something new or draws an acknowledgement that brings the sender something new. */
  lemma ResendMakesProgress(c: Conn, qfree: bool)
    requires Inv(c) && c.snd.sbcount > 0 && c.rcv.Room() > 0
    ensures var p := S.Packet(c.snd, true);
            var c1 := Next(c, SendData(true));
            var c2 := Next(c1, ArriveSegment(p, qfree));
            || c2.rcv.rnext > c.rcv.rnext
            || exists a :: a in c2.acks && a.ack == c.rcv.rnext && a.ack > c.snd.suna
  {
    hide Slot;
    hide Holds;
    hide CopyOut;
    var p := S.Packet(c.snd, true);
    var c1 := Next(c, SendData(true));
    SendStep(c, true);
    assert p in c1.segs && |p.data| > 0 && p.start == c.snd.suna;
    if R.Acceptable(c1.rcv, p.start, |p.data|) {
      R.ReceiveFillsGap(c1.rcv, p, OnWire(c1), c.isn, qfree);
    } else {
      assert S.Ack(c.rseq, c.rcv.rnext, Max(0, R.Advertise(c.rcv))) in Acknowledge(c1).acks;
    }
  }

  /** With no room the data is stripped first, and a segment without data draws no acknowledgement: nothing that
      is sent to a full receiver changes anything. */
  lemma FullReceiverIsSilent(c: Conn, s: Segment, qfree: bool)
    requires Inv(c) && s in c.segs && |s.data| > 0 && c.rcv.Room() == 0
    ensures Next(c, ArriveSegment(s, qfree)) == c
  {
    hide Inv;
  }

  /** It is the read that ends the silence: a full receiver has something to send afterwards exactly when the
      read makes room for a quarter of the ring and a full segment, and that acknowledges everything received. */
  lemma ReadEndsSilence(c: Conn, len: nat)
    requires Inv(c) && c.rcv.Room() == 0 && !c.rcv.needout
    ensures var c1 := Next(c, UserRead(len));
            var cc := Min(len, c.rcv.rbcount);
            && (c1.rcv.needout <==> cc * 4 >= |c.rcv.buf| && cc >= c.rcv.rmss)
            && exists a :: a in Next(c1, SendAck).acks && a.ack == c.rcv.rnext
                           && (c1.rcv.needout ==> a.window == cc)
  {
    hide Slot;
    hide Holds;
    ReadStep(c, len);
    Bounds(c);
    var c1 := Next(c, UserRead(len));
    R.NoSillyWindow(c1.rcv);
    assert S.Ack(c.rseq, c.rcv.rnext, Max(0, R.Advertise(c1.rcv))) in Next(c1, SendAck).acks;
  }

  /** Over every step the advertised edge moves past what was received only to the end of the room, and only
      when that is a quarter of the ring and a full segment. */
  lemma EdgeMovesFar(c: Conn, st: Step)
    requires Inv(c) && Enabled(c, st)
    ensures var r, r' := c.rcv, Next(c, st).rcv;
            || r'.cwin <= Max(r.cwin, r'.rnext)
            || (r'.cwin == r'.rnext + r'.Room() && r'.Room() * 4 >= |r'.buf| && r'.Room() >= r'.rmss)
  {
    hide Slot;
    hide Holds;
    Bounds(c);
    hide Inv;
    hide R.Inv;
    match st
    case SendAck => R.NoSillyWindow(c.rcv);
    case ArriveSegment(s, qfree) => SegmentMovesFar(c, s, qfree);
    case UserRead(len) => ReadMovesFar(c.rcv, len);
    case _ =>
  }

  lemma SegmentMovesFar(c: Conn, s: Segment, qfree: bool)
    requires Inv(c) && s in c.segs
    ensures var r, r' := c.rcv, Next(c, ArriveSegment(s, qfree)).rcv;
            || r'.cwin <= Max(r.cwin, r'.rnext)
            || (r'.cwin == r'.rnext + r'.Room() && r'.Room() * 4 >= |r'.buf| && r'.Room() >= r'.rmss)
  {
    hide Slot;
    hide Holds;
    Bounds(c);
    hide R.Inv;
    hide S.Inv;
    if R.Acceptable(c.rcv, s.start, |s.data|) {
      hide R.Receive;
      R.ReceiveKeepsInv(c.rcv, s, OnWire(c), c.isn, qfree);
    } else {
      R.NoSillyWindow(c.rcv);
    }
  }

  lemma ReadMovesFar(r: R.Rcv, len: nat)
    requires R.Fits(r)
    ensures var r' := R.AfterRead(r, len);
            || r'.cwin <= Max(r.cwin, r'.rnext)
            || (r'.cwin == r'.rnext + r'.Room() && r'.Room() * 4 >= |r'.buf| && r'.Room() >= r'.rmss)
  {
    hide Slot;
    var cc := Min(len, r.rbcount);
    R.NoSillyWindow(r.(rbstart := Slot(r.rbstart + cc, |r.buf|), rbcount := r.rbcount - cc, push := r.push && r.rbcount != cc));
  }
}
