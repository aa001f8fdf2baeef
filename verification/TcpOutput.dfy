/** TCP output: the transmit loop, the round-trip estimator, the congestion window and the retransmission
    limit (tcpxmit, tcphowmuch, tcprtt, tcprexmt, tcpostate), in ESTABLISHED and without SYN and FIN. */
module TcpOutput {
  import opened Ring
  import opened TcpSegment
  import opened TcpSend

  const TCP_MAXRETRIES := 12
  const TCP_MAXRXT := 2000
  const TCP_MINRXT := 50

  // ----- the transmit loop -----

  function HowMuch(s: Snd): int { s.suna + s.sbcount - s.snext }

  function Pending(s: Snd): int { s.snext - s.suna }

  /** The loop of tcpxmit: the block afterwards and what was sent. */
  function SendLoop(s: Snd, window: int): (r: (Snd, seq<Segment>))
    requires Fits(s) && s.swindow > 0
    ensures Fits(r.0)
    decreases HowMuch(s)
  {
    if HowMuch(s) > 0 && Pending(s) <= window then
      Progress(s);
      var (s', out) := SendLoop(Sent(s, false), window);
      (s', [Packet(s, false)] + out)
    else (s, [])
  }

  /** With data to send and an open window every segment carries some, and never more than one segment's worth. */
  lemma Progress(s: Snd)
    requires Fits(s) && s.swindow > 0 && HowMuch(s) > 0
    ensures var s' := Sent(s, false);
            && Fits(s') && s'.swindow == s.swindow && s'.smss == s.smss && s'.suna == s.suna && s'.sbcount == s.sbcount
            && s.snext < s'.snext <= s.snext + Min(s.swindow, s.smss)
  {
  }

  /** What is left unacknowledged never exceeds the window by more than a segment, unless it did before; and the
      loop stops only when everything has been sent or the window is exceeded. */
  lemma {:induction false} InFlightBound(s: Snd, window: int)
    requires Fits(s) && s.swindow > 0
    ensures var s' := SendLoop(s, window).0;
            && Pending(s') <= Max(Pending(s), window + Min(s.swindow, s.smss))
            && (HowMuch(s') == 0 || Pending(s') > window)
            && s'.suna == s.suna && s'.smss == s.smss && s'.swindow == s.swindow && s'.sbcount == s.sbcount
    decreases HowMuch(s)
  {
    if HowMuch(s) > 0 && Pending(s) <= window {
      Progress(s);
      InFlightBound(Sent(s, false), window);
    }
  }

  /** The segments of one run of the loop carry the unsent bytes of the stream in order, from snext on. */
  ghost predicate InOrder(out: seq<Segment>, w: seq<Byte>, isn: int, from: int, to: int) {
    if out == [] then from == to
    else Genuine(out[0], w, isn) && out[0].start == from && out[0].data != []
         && InOrder(out[1..], w, isn, from + |out[0].data|, to)
  }

  lemma {:induction false} LoopSendsTheStream(s: Snd, window: int, w: seq<Byte>, isn: int)
    requires Inv(s, w, isn) && s.swindow > 0
    ensures var (s', out) := SendLoop(s, window);
            Inv(s', w, isn) && InOrder(out, w, isn, s.snext, s'.snext)
    decreases HowMuch(s)
  {
    hide Inv;
    hide Genuine;
    InvBounds(s, w, isn);
    if HowMuch(s) > 0 && Pending(s) <= window {
      Progress(s);
      SendIsGenuine(s, w, isn, false);
      NewPacket(s);
      var s1 := Sent(s, false);
      LoopSendsTheStream(s1, window, w, isn);
      var (s', out) := SendLoop(s1, window);
      assert ([Packet(s, false)] + out)[1..] == out;
    }
  }

  lemma NewPacket(s: Snd)
    requires Fits(s) && s.swindow > 0 && HowMuch(s) > 0
    ensures Packet(s, false).start == s.snext && |Packet(s, false).data| == Sent(s, false).snext - s.snext > 0
  {
  }

  // ----- round trips, congestion window, retries -----

  datatype OState = Idle | Persist | Xmit | Rexmt

  /** The output fields of struct tcb; srt is scaled by 8 and rtde by 4. */
  datatype Out = Out(
    smss: int, srt: int, rtde: int, rexmt: int, cwnd: int, ssthresh: int, count: int, ostate: OState, aborted: bool)

  /** tcprtt; rrt is the time that the retransmission timer ran, if it was running. */
  function Rtt(o: Out, rrt: Option<nat>): Out
    requires o.cwnd > 0 && o.srt >= 0 && o.rtde >= 0
  {
    var o1 := if rrt.Some? && o.ostate != Rexmt then Sample(o, rrt.value) else o;
    if o1.cwnd < o1.ssthresh then o1.(cwnd := o1.cwnd + o1.smss)
    else o1.(cwnd := o1.cwnd + o1.smss * o1.smss / o1.cwnd)
  }

  function Abs(x: int): int { if x < 0 then -x else x }

  function Sample(o: Out, rrt: nat): (r: Out)
    requires o.srt >= 0 && o.rtde >= 0
    ensures r.cwnd == o.cwnd && r.ssthresh == o.ssthresh && r.smss == o.smss && r.count == o.count
    ensures r.ostate == o.ostate && r.aborted == o.aborted
  {
    var srt := if o.srt == 0 then rrt * 8 else o.srt;
    var delta := rrt - srt / 8;
    var srt' := srt + delta;
    var rtde' := o.rtde + (Abs(delta) - o.rtde / 4);
    o.(srt := srt', rtde := rtde', rexmt := Max((srt' / 4 + rtde') / 2, TCP_MINRXT))
  }

  /** tcpostate after an acknowledgement of new data; left is what is still in the send buffer. */
  function OnAcked(o: Out, left: nat): Out {
    var o1 := if o.ostate == Rexmt then o.(count := 0, ostate := Xmit) else o;
    if left == 0 then o1.(ostate := Idle) else o1
  }

  /** A retransmission timer runs out (tcprexmt, and what tcpxmit adds to it): the block, and whether the
      first segment was sent again and for how long the timer was set. */
  function OnTimeout(o: Out, swindow: nat): (Out, bool, int)
    requires o.count >= 0
  {
    var n := o.count + 1;
    if n > TCP_MAXRETRIES then (o.(count := n, aborted := true, ostate := Rexmt), false, 0)
    else
      var ssthresh := if o.ostate != Rexmt then o.cwnd else o.ssthresh;
      var half := Min(swindow, ssthresh) / 2;
      (o.(count := n, ssthresh := Max(half, o.smss), cwnd := o.smss, ostate := Rexmt),
       true, Min(o.rexmt * Pow2(n), TCP_MAXRXT))
  }

  function Pow2(n: nat): nat { if n == 0 then 1 else 2 * Pow2(n - 1) }

  datatype Event = Timeout(swindow: nat) | Ack(rrt: Option<nat>, left: nat)

  /** As tcpsync and the end of the handshake leave the block. */
  function Start(smss: nat): Out { Out(smss, 0, 0, 50, smss, 65535, 0, Idle, false) }

  predicate OutInv(o: Out, r: nat) {
    && o.cwnd >= o.smss > 0 && o.ssthresh >= Min(o.smss, 65535) && o.count >= 0 && (o.ostate != Rexmt ==> o.count == 0)
    && 0 <= o.srt <= 8 * r + 7 && 0 <= o.rtde <= 4 * r + 3 && TCP_MINRXT <= o.rexmt <= Max(50, 3 * r + 2)
  }

  function Step(o: Out, e: Event): Out
    requires o.cwnd > 0 && o.srt >= 0 && o.rtde >= 0 && o.count >= 0
  {
    match e
    case Timeout(w) => OnTimeout(o, w).0
    case Ack(rrt, left) => OnAcked(Rtt(o, rrt), left)
  }

  /** A round trip within 0..r keeps the scaled average, the deviation and the timeout in bounds. */
  lemma SampleBounds(o: Out, rrt: nat, r: nat)
    requires OutInv(o, r) && rrt <= r
    ensures OutInv(Sample(o, rrt), r)
  {
    var srt := if o.srt == 0 then rrt * 8 else o.srt;
    assert 0 <= srt / 8 <= r;
    assert srt - srt / 8 <= 7 * r + 7;
    assert o.rtde - o.rtde / 4 <= 3 * r + 3;
  }

  lemma SquareOver(m: int, c: int)
    requires m >= 0 && c > 0
    ensures m * m / c >= 0
  {
    assert m * m >= 0;
  }

  lemma StepKeepsBounds(o: Out, e: Event, r: nat)
    requires OutInv(o, r) && (e.Ack? && e.rrt.Some? ==> e.rrt.value <= r)
    ensures OutInv(Step(o, e), r)
  {
    hide Pow2;
    match e
    case Timeout(w) =>
    case Ack(rrt, left) =>
      RttKeepsBounds(o, rrt, r);
      hide Rtt;
  }

  lemma RttKeepsBounds(o: Out, rrt: Option<nat>, r: nat)
    requires OutInv(o, r) && (rrt.Some? ==> rrt.value <= r)
    ensures OutInv(Rtt(o, rrt), r)
  {
    if rrt.Some? {
      SampleBounds(o, rrt.value, r);
    }
    hide Sample;
    SquareOver(o.smss, o.cwnd);
  }

  function Longest(es: seq<Event>): nat {
    if es == [] then 0
    else Max(if es[0].Ack? && es[0].rrt.Some? then es[0].rrt.value else 0, Longest(es[1..]))
  }

  function Run(o: Out, es: seq<Event>, r: nat): (o': Out)
    requires OutInv(o, r) && Longest(es) <= r
    ensures OutInv(o', r)
    decreases |es|
  {
    if es == [] then o
    else
      StepKeepsBounds(o, es[0], r);
      Run(Step(o, es[0]), es[1..], r)
  }

  /** Over every run of acknowledgements and timeouts whose measured round trips are at most r, the timeout
      is at most 3r + 2 hundredths of a second, or half a second, and the congestion window never closes. */
  lemma EstimatorBounds(smss: nat, es: seq<Event>, r: nat)
    requires smss > 0 && Longest(es) <= r
    ensures OutInv(Start(smss), r)
    ensures var o := Run(Start(smss), es, r);
            && 0 <= o.srt <= 8 * r + 7 && 0 <= o.rtde <= 4 * r + 3
            && TCP_MINRXT <= o.rexmt <= Max(50, 3 * r + 2) && o.cwnd >= o.smss > 0
  {
  }

  function Samples(o: Out, r: nat, n: nat): (s: Out)
    requires o.srt >= 0 && o.rtde >= 0
    ensures s.srt >= 0 && s.rtde >= 0
    decreases n
  {
    if n == 0 then o else Sample(Samples(o, r, n - 1), r)
  }

  /** On a path with a constant round trip the estimate is exact from the first sample on, and the deviation
      falls with every sample until it is below 4. */
  lemma {:induction false} ConstantRoundTrip(o: Out, r: nat, n: nat)
    requires o.rtde >= 0 && o.srt >= 0 && (o.srt == 0 || o.srt / 8 == r) && n > 0
    ensures var s := Samples(o, r, n);
            s.srt / 8 == r && s.srt >= 0 && 0 <= s.rtde <= Max(3, o.rtde - n)
    decreases n
  {
    if n > 1 {
      ConstantRoundTrip(o, r, n - 1);
    }
    var p := Samples(o, r, n - 1);
    assert Samples(o, r, n) == Sample(p, r);
    SameAgain(p, r);
    hide Sample;
  }

  lemma SameAgain(o: Out, r: nat)
    requires o.rtde >= 0 && o.srt >= 0 && (o.srt == 0 || o.srt / 8 == r)
    ensures Sample(o, r).srt / 8 == r && Sample(o, r).srt >= 0 && 0 <= Sample(o, r).rtde <= Max(3, o.rtde - 1)
  {
  }

  /** Every sample moves the estimate towards the measured time and not past it, and the timeout is the
      estimate and half of four times the mean deviation, but at least half a second. */
  lemma SampleExact(o: Out, rrt: nat)
    requires o.srt >= 0 && o.rtde >= 0
    ensures var s := Sample(o, rrt);
            && (o.srt > 0 && o.srt / 8 <= rrt ==> o.srt / 8 <= s.srt / 8 <= rrt)
            && (o.srt > 0 && o.srt / 8 >= rrt ==> rrt <= s.srt / 8 <= o.srt / 8)
            && (o.srt == 0 ==> s.srt / 8 == rrt)
            && Max(TCP_MINRXT, s.srt / 8 + s.rtde / 2) <= s.rexmt <= Max(TCP_MINRXT, s.srt / 8 + s.rtde / 2 + 1)
  {
  }

  /** Only segments sent once are measured: while retransmitting, or with the timer stopped, an acknowledgement
      leaves estimate and timeout alone. */
  lemma NoSampleOfResent(o: Out, rrt: Option<nat>)
    requires o.cwnd > 0 && o.srt >= 0 && o.rtde >= 0
    ensures var r := Rtt(o, rrt);
            if o.ostate == Rexmt || rrt.None? then (r.srt, r.rtde, r.rexmt) == (o.srt, o.rtde, o.rexmt)
            else var s := Sample(o, rrt.value); (r.srt, r.rtde, r.rexmt) == (s.srt, s.rtde, s.rexmt)
  {
    hide Sample;
  }

  /** From any estimate, after as many equal samples as it is off in eighths, the estimate is exact. */
  lemma EstimateConverges(o: Out, r: nat, n: nat)
    requires o.srt > 0 && o.rtde >= 0 && r > 0 && n >= Abs(o.srt - 8 * r)
    ensures Samples(o, r, n).srt / 8 == r
  {
    EstimateNears(o, r, n);
    hide Samples;
  }

  lemma {:induction false} EstimateNears(o: Out, r: nat, n: nat)
    requires o.srt > 0 && o.rtde >= 0 && r > 0
    ensures var s := Samples(o, r, n).srt;
            && s > 0
            && (o.srt < 8 * r + 8 ==> s < 8 * r + 8 && (s >= 8 * r || s >= o.srt + n))
            && (o.srt >= 8 * r ==> s >= 8 * r && (s < 8 * r + 8 || s <= o.srt - n))
    decreases n
  {
    if n > 0 {
      EstimateNears(o, r, n - 1);
      var p := Samples(o, r, n - 1);
      assert Samples(o, r, n) == Sample(p, r);
      NextEstimate(p, r);
      hide Sample;
      hide Samples;
    }
  }

  lemma NextEstimate(o: Out, r: nat)
    requires o.srt > 0 && o.rtde >= 0 && r > 0
    ensures var s := Sample(o, r).srt;
            && s > 0
            && (o.srt < 8 * r ==> o.srt < s < 8 * r + 8)
            && (o.srt >= 8 * r + 8 ==> 8 * r <= s < o.srt)
            && (8 * r <= o.srt < 8 * r + 8 ==> s == o.srt)
  {
  }

  // ----- the congestion window -----

  /** n acknowledgements of new data, without a sample. */
  function Acks(o: Out, n: nat): (r: Out)
    requires o.cwnd >= o.smss > 0 && o.srt >= 0 && o.rtde >= 0
    ensures r.cwnd >= o.cwnd && r == o.(cwnd := r.cwnd)
    decreases n
  {
    if n == 0 then o
    else
      var p := Acks(o, n - 1);
      SquareOver(p.smss, p.cwnd);
      Rtt(p, None)
  }

  /** Slow start: below the threshold every acknowledgement opens the window by a segment. */
  lemma {:induction false} SlowStart(o: Out, n: nat)
    requires o.cwnd >= o.smss > 0 && o.srt >= 0 && o.rtde >= 0 && o.cwnd + (n - 1) * o.smss < o.ssthresh
    ensures Acks(o, n).cwnd == o.cwnd + n * o.smss
    decreases n
  {
    if n > 0 {
      assert (n - 1) * o.smss == (n - 2) * o.smss + o.smss;
      SlowStart(o, n - 1);
    }
  }

  /** Congestion avoidance: from the threshold on, a whole window of acknowledgements opens it by no more than
      a segment. */
  lemma AvoidanceIsSlow(o: Out, n: nat)
    requires o.cwnd >= o.smss > 0 && o.cwnd >= o.ssthresh && o.srt >= 0 && o.rtde >= 0 && n * o.smss <= o.cwnd
    ensures Acks(o, n).cwnd <= o.cwnd + o.smss
  {
    var q := o.smss * o.smss / o.cwnd;
    DivFacts(o.smss * o.smss, o.cwnd);
    SquareOver(o.smss, o.cwnd);
    AvoidanceStep(o, n, q);
    WindowOfAcks(n, o.smss, o.cwnd, q);
    hide Acks;
  }

  lemma WindowOfAcks(n: nat, m: int, c: int, q: nat)
    requires m > 0 && n * m <= c && q * c <= m * m
    ensures n * q <= m
  {
    TimesGrows(n * m, c, q);
    Regrouped(n, m, q);
    FactorLess(n * q, m + 1, m);
  }

  lemma Regrouped(n: int, m: int, q: int)
    ensures n * m * q == n * q * m
  {
  }

  lemma {:induction false} AvoidanceStep(o: Out, n: nat, q: nat)
    requires o.cwnd >= o.smss > 0 && o.cwnd >= o.ssthresh && o.srt >= 0 && o.rtde >= 0
    requires q == o.smss * o.smss / o.cwnd
    ensures Acks(o, n).cwnd <= o.cwnd + n * q
    decreases n
  {
    if n > 0 {
      AvoidanceStep(o, n - 1, q);
      var p := Acks(o, n - 1);
      SquarePositive(o.smss);
      LessOver(o.smss * o.smss, o.cwnd, p.cwnd);
      assert Acks(o, n).cwnd == p.cwnd + o.smss * o.smss / p.cwnd;
      AddOne(n - 1, q);
    }
  }

  lemma AddOne(n: int, q: int)
    ensures (n + 1) * q == n * q + q
  {
  }

  lemma SquarePositive(m: int)
    ensures m * m >= 0
  {
  }

  lemma DivFacts(a: int, b: int)
    requires b > 0
    ensures a / b * b <= a < a / b * b + b
  {
  }

  lemma LessOver(a: int, b: int, c: int)
    requires a >= 0 && 0 < b <= c
    ensures a / c <= a / b
  {
    DivFacts(a, b);
    DivFacts(a, c);
    TimesGrows(b, c, a / c);
    AddOne(a / b, b);
    FactorLess(a / c, a / b + 1, b);
  }

  lemma FactorLess(x: int, y: int, m: int)
    requires m > 0 && x * m < y * m
    ensures x < y
  {
    if x >= y {
      TimesGrows(y, x, m);
    }
  }

  /** A timeout starts again from one segment, with a threshold of half of what was under way, but at least
      one segment; the first of several takes the congestion window for that, the others the threshold. */
  lemma TimeoutShrinks(o: Out, swindow: nat)
    requires o.count >= 0 && o.smss > 0 && o.count < TCP_MAXRETRIES
    ensures var (o', sent, delay) := OnTimeout(o, swindow);
            var underway := Min(swindow, if o.ostate == Rexmt then o.ssthresh else o.cwnd);
            && sent && o'.cwnd == o.smss && o'.count == o.count + 1 && o'.ostate == Rexmt
            && o'.ssthresh >= o.smss && 2 * o'.ssthresh <= Max(2 * o.smss, underway)
            && (o'.ssthresh == o.smss || 2 * o'.ssthresh >= underway - 1)
  {
  }

  function Halved(c: int, n: nat): int { if n == 0 then c else Halved(c, n - 1) / 2 }

  /** n timeouts in a row halve the threshold n times. */
  lemma {:induction false} ThresholdHalves(o: Out, ws: seq<nat>)
    requires o.ostate != Rexmt && o.count == 0 && o.cwnd >= o.smss > 0 && 0 < |ws| <= TCP_MAXRETRIES
    requires forall w :: w in ws ==> w >= o.cwnd
    ensures var o' := Timeouts(o, ws).0;
            o'.cwnd == o'.smss == o.smss && o'.ssthresh == Max(o.smss, Halved(o.cwnd, |ws|)) && o'.ssthresh <= o.cwnd
    decreases |ws|
  {
    var n := |ws| - 1;
    assert ws[n] in ws;
    assert forall w :: w in ws[..n] ==> w in ws;
    if n > 0 {
      ThresholdHalves(o, ws[..n]);
    } else {
      assert Halved(o.cwnd, 1) == Halved(o.cwnd, 0) / 2;
    }
  }

  /** In every run, new data acknowledged leaves no retries counted: a later loss has all twelve again. */
  lemma AckedStartsOver(smss: nat, es: seq<Event>, r: nat, rrt: Option<nat>, left: nat)
    requires smss > 0 && Longest(es) <= r && (rrt.Some? ==> rrt.value <= r)
    ensures OutInv(Start(smss), r) && OutInv(Run(Start(smss), es, r), r)
    ensures var o := Step(Run(Start(smss), es, r), Event.Ack(rrt, left));
            o.count == 0 && (left == 0 ==> o.ostate == Idle) && o.ostate != Rexmt
  {
    hide Sample;
  }

  /** Timeouts without any acknowledgement: the block, how often the segment was sent again, and the sum of
      the times for which the timer was set. */
  function Timeouts(o: Out, ws: seq<nat>): (r: (Out, nat, int))
    requires o.count >= 0
    ensures r.0.count == o.count + |ws| && (ws != [] ==> r.0.ostate == Rexmt)
    decreases |ws|
  {
    if ws == [] then (o, 0, 0)
    else
      var (o1, n, t) := Timeouts(o, ws[..|ws| - 1]);
      var (o2, sent, delay) := OnTimeout(o1, ws[|ws| - 1]);
      (o2, n + if sent then 1 else 0, t + delay)
  }

  /** At most twelve retransmissions come before the connection is given up, and the thirteenth timeout does so. */
  lemma {:induction false} TwelveRetries(o: Out, ws: seq<nat>)
    requires o.count == 0 && !o.aborted
    ensures var (o', n, t) := Timeouts(o, ws);
            n == Min(|ws|, TCP_MAXRETRIES) && (o'.aborted <==> |ws| > TCP_MAXRETRIES)
    decreases |ws|
  {
    if ws != [] {
      TwelveRetries(o, ws[..|ws| - 1]);
    }
  }

  /** Times for which the timer is set before the n-th to last retransmissions. */
  function BackOff(rexmt: int, n: nat): int {
    if n == 0 then 0 else BackOff(rexmt, n - 1) + Min(rexmt * Pow2(n), TCP_MAXRXT)
  }

  lemma {:induction false} TimeoutsBackOff(o: Out, ws: seq<nat>)
    requires o.count == 0 && |ws| <= TCP_MAXRETRIES
    ensures Timeouts(o, ws).2 == BackOff(o.rexmt, |ws|) && Timeouts(o, ws).0.rexmt == o.rexmt
    decreases |ws|
  {
    if ws != [] {
      TimeoutsBackOff(o, ws[..|ws| - 1]);
    }
  }

  lemma {:induction false} BackOffGrows(a: int, b: int, n: nat)
    requires a <= b
    ensures BackOff(a, n) <= BackOff(b, n) && BackOff(a, n) <= TCP_MAXRXT * n
  {
    if n > 0 {
      BackOffGrows(a, b, n - 1);
      TimesGrows(a, b, Pow2(n));
    }
  }

  lemma TimesGrows(a: int, b: int, m: nat)
    requires a <= b
    ensures a * m <= b * m
  {
  }

  /** A connection is not given up within 171 seconds of the first timeout, nor tried for more than 240:
      section 4.2.3.5 of RFC 1122 asks for at least 100. */
  lemma GivesUpInTime(o: Out, ws: seq<nat>)
    requires o.count == 0 && o.rexmt >= TCP_MINRXT && |ws| == TCP_MAXRETRIES
    ensures 17100 <= Timeouts(o, ws).2 <= 24000
  {
    TimeoutsBackOff(o, ws);
    BackOffGrows(TCP_MINRXT, o.rexmt, TCP_MAXRETRIES);
    BackOffGrows(o.rexmt, o.rexmt, TCP_MAXRETRIES);
    assert BackOff(50, 3) == 700;
    assert BackOff(50, 6) == 5100 by {
      assert Pow2(6) == 64 && Pow2(5) == 32 && Pow2(4) == 16;
      assert BackOff(50, 4) == 1500 && BackOff(50, 5) == 3100;
    }
    LongBackOff(50, 6);
    LongBackOff(50, 7);
    LongBackOff(50, 8);
    LongBackOff(50, 9);
    LongBackOff(50, 10);
    LongBackOff(50, 11);
  }

  lemma {:induction false} LongBackOff(rexmt: int, n: nat)
    requires rexmt == 50 && n >= 6
    ensures BackOff(rexmt, n + 1) == BackOff(rexmt, n) + TCP_MAXRXT
  {
    Pow2Large(n + 1);
  }

  lemma {:induction false} Pow2Large(n: nat)
    requires n >= 6
    ensures Pow2(n) >= 64
  {
    if n == 6 {
      assert Pow2(6) == 2 * Pow2(5) && Pow2(4) == 16;
    } else {
      Pow2Large(n - 1);
    }
  }

  // ----- the control block -----

  class Output {
    const snd: Sender
    var srt: int
    var rtde: int
    var rexmt: int
    var cwnd: int
    var ssthresh: int
    var rexmtcount: int
    var ostate: OState
    var persist: int
    var aborted: bool

    ghost function Abs(): Out
      reads this
    {
      Out(snd.smss, srt, rtde, rexmt, cwnd, ssthresh, rexmtcount, ostate, aborted)
    }

    constructor (snd: Sender)
      requires snd.smss > 0
      ensures this.snd == snd && Abs() == Start(snd.smss)
    {
      this.snd := snd;
      srt, rtde, rexmt, cwnd, ssthresh := 0, 0, 50, snd.smss, 65535;
      rexmtcount, ostate, persist, aborted := 0, Idle, 0, false;
    }

    method TcpHowMuch() returns (tosend: int)
      ensures tosend == HowMuch(snd.State())
    {
      tosend := snd.suna + snd.sbcount - snd.snext;
    }

    /** The SEND event of tcpxmit; running says whether the retransmission timer runs. Returns the segments
        sent and the time for which a timer is set, if one is. */
    method TcpXmit(running: bool) returns (out: seq<Segment>, timer: Option<int>)
      requires Fits(snd.State()) && Abs().cwnd > 0
      modifies this`ostate, this`persist, snd
      ensures Fits(snd.State())
      ensures var s := old(snd.State());
              if HowMuch(s) == 0 then
                && ostate == old(ostate) && timer == None
                && (if s.needout then out == [Packet(s, false)] && snd.State() == Sent(s, false) else out == [] && snd.State() == s)
              else if s.swindow == 0 then
                ostate == Persist && persist == rexmt && timer == Some(rexmt) && out == [Packet(s, false)] && snd.State() == Sent(s, false)
              else
                && ostate == Xmit && timer == (if running then None else Some(rexmt))
                && (snd.State(), out) == SendLoop(s, Min(s.swindow, cwnd))
                && Pending(snd.State()) <= Max(Pending(s), Min(s.swindow, cwnd) + Min(s.swindow, s.smss))
    {
      var tosend := TcpHowMuch();
      out, timer := [], None;
      if tosend == 0 {
        if snd.needout {
          var p := snd.TcpSend(false);
          out := [p];
        }
        return;
      } else if snd.swindow == 0 {
        ostate, persist := Persist, rexmt;
        var p := snd.TcpSend(false);
        out, timer := [p], Some(persist);
        return;
      }
      ostate := Xmit;
      var window := Min(snd.swindow, cwnd);
      InFlightBound(snd.State(), window);
      out := TransmitLoop(window);
      if !running {
        timer := Some(rexmt);
      }
    }

    method TransmitLoop(window: int) returns (out: seq<Segment>)
      requires Fits(snd.State()) && snd.swindow > 0
      modifies snd`snext, snd`needout
      ensures Fits(snd.State()) && (snd.State(), out) == SendLoop(old(snd.State()), window)
    {
      hide Packet;
      hide Sent;
      ghost var s := snd.State();
      var pending := snd.snext - snd.suna;
      var more := TcpHowMuch();
      out := [];
      assert [] + SendLoop(s, window).1 == SendLoop(s, window).1;
      while more > 0 && pending <= window
        invariant Fits(snd.State()) && snd.State().swindow > 0
        invariant pending == Pending(snd.State()) && more == HowMuch(snd.State())
        invariant SendLoop(s, window) == (SendLoop(snd.State(), window).0, out + SendLoop(snd.State(), window).1)
        decreases more
      {
        ghost var s1 := snd.State();
        Progress(s1);
        var p := snd.TcpSend(false);
        ghost var rest := SendLoop(snd.State(), window).1;
        assert SendLoop(s1, window).1 == [p] + rest;
        assert out + ([p] + rest) == out + [p] + rest;
        out := out + [p];
        pending := snd.snext - snd.suna;
        more := TcpHowMuch();
      }
      assert out + [] == out;
    }

    method TcpRtt(rrt: Option<nat>)
      requires Abs().cwnd > 0 && srt >= 0 && rtde >= 0
      modifies this
      ensures Abs() == Rtt(old(Abs()), rrt) && persist == old(persist)
    {
      if rrt.Some? && ostate != Rexmt {
        if srt == 0 {
          srt := rrt.value * 8;
        }
        var delta := rrt.value - srt / 8;
        srt := srt + delta;
        if delta < 0 {
          delta := -delta;
        }
        rtde := rtde + (delta - rtde / 4);
        rexmt := (srt / 4 + rtde) / 2;
        if rexmt < TCP_MINRXT {
          rexmt := TCP_MINRXT;
        }
      }
      if cwnd < ssthresh {
        cwnd := cwnd + snd.smss;
      } else {
        cwnd := cwnd + snd.smss * snd.smss / cwnd;
      }
    }

    /** acked is the number of bytes newly acknowledged. */
    method TcpOState(acked: int)
      modifies this`rexmtcount, this`ostate
      ensures acked <= 0 ==> Abs() == old(Abs())
      ensures acked > 0 && snd.sbcount >= 0 ==> Abs() == OnAcked(old(Abs()), snd.sbcount)
    {
      if acked <= 0 {
        return;
      }
      if ostate == Rexmt {
        rexmtcount, ostate := 0, Xmit;
      }
      if snd.sbcount == 0 {
        ostate := Idle;
      }
    }

    /** A retransmission timeout while transmitting or retransmitting. */
    method TcpRexmt() returns (out: seq<Segment>, timer: int)
      requires Fits(snd.State()) && rexmtcount >= 0 && snd.swindow >= 0
      modifies this, snd
      ensures var (o, sent, delay) := OnTimeout(old(Abs()), old(snd.swindow));
              Abs() == o && timer == delay && out == if sent then [Packet(old(snd.State()), true)] else []
      ensures persist == old(persist)
    {
      rexmtcount := rexmtcount + 1;
      if rexmtcount > TCP_MAXRETRIES {
        aborted := true;
        ostate := Rexmt;
        return [], 0;
      }
      var p := snd.TcpSend(true);
      out := [p];
      timer := Min(rexmt * Pow2(rexmtcount), TCP_MAXRXT);
      if ostate != Rexmt {
        ssthresh := cwnd;
      }
      ssthresh := Min(snd.swindow, ssthresh) / 2;
      if ssthresh < snd.smss {
        ssthresh := snd.smss;
      }
      cwnd := snd.smss;
      ostate := Rexmt;
    }
  }
}
