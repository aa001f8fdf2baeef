/** Segments of one direction of a connection, and the stream they carry. */
module TcpSegment {
  import opened Ring

  datatype Option<T> = None | Some(value: T)

  /** A data segment; its sequence number is not wrapped. */
  datatype Segment = Segment(start: int, data: seq<Byte>, psh: bool)

  function Max(a: int, b: int): int { if a > b then a else b }
  function Min(a: int, b: int): int { if a < b then a else b }

  /** The segment carries bytes of stream w, whose first byte has sequence number isn. */
  ghost predicate Genuine(s: Segment, w: seq<Byte>, isn: int) {
    && isn <= s.start && s.start - isn + |s.data| <= |w|
    && s.data == w[s.start - isn..s.start - isn + |s.data|]
  }

  lemma GenuineLonger(s: Segment, w: seq<Byte>, more: seq<Byte>, isn: int)
    requires Genuine(s, w, isn)
    ensures Genuine(s, w + more, isn)
  {
    var a := s.start - isn;
    SliceOfPrefix(w + more, |w|, a, a + |s.data|);
    assert (w + more)[..|w|] == w;
  }

  // ----- comparing sequence numbers -----

  const HALF := 0x8000_0000

  /** The 32-bit signed word that holds x. */
  function Signed32(x: int): (r: int)
    ensures -HALF <= r < HALF
  {
    (x + HALF) % (2 * HALF) - HALF
  }

  /** The macro SEQCMP on tcpseq words: a signed difference that wraps. */
  function SeqCmp(a: int, b: int): int { Signed32(a - b) }

  lemma SignedTurns(x: int) returns (n: int)
    ensures Signed32(x) == x + n * (2 * HALF)
  {
    n := -((x + HALF) / (2 * HALF));
  }

  lemma SignedSmall(x: int, n: int)
    requires -HALF <= x < HALF
    ensures Signed32(x + n * (2 * HALF)) == x
  {
    var m := SignedTurns(x + n * (2 * HALF));
    assert Signed32(x + n * (2 * HALF)) == x + (n + m) * (2 * HALF);
  }

  /** For two positions of the stream held in wrapped words, the sign of SEQCMP tells their order exactly
      when they are less than half the sequence space apart; the header claims it for any two. */
  lemma SeqCmpOrders(x: int, y: int)
    requires -2 * HALF < x - y < 2 * HALF
    ensures -HALF <= x - y < HALF ==> SeqCmp(Signed32(x), Signed32(y)) == x - y
    ensures -HALF <= x - y < HALF <==>
            (SeqCmp(Signed32(x), Signed32(y)) < 0 <==> x < y) && (SeqCmp(Signed32(x), Signed32(y)) == 0 <==> x == y)
  {
    hide Signed32;
    var m := SignedTurns(x);
    var n := SignedTurns(y);
    var d := x - y;
    var t := if d < -HALF then 1 else if d >= HALF then -1 else 0;
    assert Signed32(x) - Signed32(y) == d + t * (2 * HALF) + (m - n - t) * (2 * HALF);
    SignedSmall(d + t * (2 * HALF), m - n - t);
  }

  /** One word is the greater, yet SEQCMP calls it the less. */
  lemma SeqCmpFails()
    ensures exists a, b :: -HALF <= b < a < HALF && SeqCmp(a, b) < 0
  {
    assert SeqCmp(HALF - 1, -1) == -HALF;
  }
}
