/** The netascii decoder of the TFTP daemon, which works block by block (RFC 1350; CR NUL stands for CR
    and CR LF for LF). */
module Netascii {
  import opened Ring

  const CR: Byte := 13
  const LF: Byte := 10
  const NUL: Byte := 0

  // ----- the whole stream at once -----

  function Decode(s: seq<Byte>): seq<Byte> {
    if s == [] then []
    else if s[0] != CR then [s[0]] + Decode(s[1..])
    else if |s| > 1 && s[1] == NUL then [CR] + Decode(s[2..])
    else if |s| > 1 && s[1] == LF then [LF] + Decode(s[2..])
    else [CR] + Decode(s[1..])
  }

  /** What a sender makes of a text. */
  function Encode(t: seq<Byte>): seq<Byte> {
    if t == [] then []
    else (if t[0] == CR then [CR, NUL] else if t[0] == LF then [CR, LF] else [t[0]]) + Encode(t[1..])
  }

  lemma {:induction false} DecodeEncode(t: seq<Byte>)
    ensures Decode(Encode(t)) == t
  {
    if t != [] {
      var s, rest := Encode(t), Encode(t[1..]);
      DecodeEncode(t[1..]);
      if t[0] == CR || t[0] == LF {
        assert s[2..] == rest;
      } else {
        assert s[1..] == rest;
      }
    }
  }

  // ----- block by block -----

  /** The loop of tftp_write_behind: whether it ends on a CR whose meaning the next block decides, and
      what it has written. */
  function Loop(s: seq<Byte>): (bool, seq<Byte>) {
    if s == [] then (false, [])
    else if s[0] != CR then var (f, out) := Loop(s[1..]); (f, [s[0]] + out)
    else if |s| == 1 then (true, [])
    else if s[1] == NUL then var (f, out) := Loop(s[2..]); (f, [CR] + out)
    else if s[1] == LF then var (f, out) := Loop(s[2..]); (f, [LF] + out)
    else var (f, out) := Loop(s[1..]); (f, [CR] + out)
  }

  /** tftp_write_behind on one block, with the flag that the block before it left. */
  function DecodeBlock(flag: bool, b: seq<Byte>): (bool, seq<Byte>) {
    if b == [] then (flag, [])
    else if !flag then Loop(b)
    else if b[0] == NUL then var (f, out) := Loop(b[1..]); (f, [CR] + out)
    else if b[0] == LF then var (f, out) := Loop(b[1..]); (f, [LF] + out)
    else var (f, out) := Loop(b); (f, [CR] + out)
  }

  function DecodeBlocks(flag: bool, bs: seq<seq<Byte>>): (bool, seq<Byte>)
    decreases |bs|
  {
    if bs == [] then (flag, [])
    else
      var (f, out) := DecodeBlock(flag, bs[0]);
      var (f', out') := DecodeBlocks(f, bs[1..]);
      (f', out + out')
  }

  /** A transfer: all its blocks, and the CR that may be left over in the end. */
  function Transfer(bs: seq<seq<Byte>>): seq<Byte> {
    var (f, out) := DecodeBlocks(false, bs);
    out + Held(f)
  }

  function Held(flag: bool): seq<Byte> { if flag then [CR] else [] }

  function Concat(bs: seq<seq<Byte>>): seq<Byte> { if bs == [] then [] else bs[0] + Concat(bs[1..]) }

  lemma Regroup(a: seq<Byte>, b: seq<Byte>, c: seq<Byte>)
    ensures a + (b + c) == a + b + c
  {
  }

  /** What the loop has not written yet is a CR, if anything. */
  lemma {:induction false} LoopDecodes(s: seq<Byte>, rest: seq<Byte>)
    ensures Decode(s + rest) == Loop(s).1 + Decode(Held(Loop(s).0) + rest)
  {
    var t := s + rest;
    if s == [] {
      assert t == rest && Held(false) + rest == rest;
    } else if s[0] == CR && |s| == 1 {
      assert t == Held(true) + rest;
    } else {
      var k := if s[0] == CR && (s[1] == NUL || s[1] == LF) then 2 else 1;
      var c := if k == 2 && s[1] == LF then LF else s[0];
      LoopDecodes(s[k..], rest);
      assert t[k..] == s[k..] + rest;
      assert Decode(t) == [c] + Decode(t[k..]) && Loop(s) == (Loop(s[k..]).0, [c] + Loop(s[k..]).1);
      hide Decode;
      hide Loop;
      Regroup([c], Loop(s[k..]).1, Decode(Held(Loop(s).0) + rest));
    }
  }

  /** What follows a CR that was held back decides what it stands for. */
  lemma AfterCr(s: seq<Byte>)
    requires s != []
    ensures Decode([CR] + s) ==
            if s[0] == NUL then [CR] + Decode(s[1..]) else if s[0] == LF then [LF] + Decode(s[1..]) else [CR] + Decode(s)
  {
    var t := [CR] + s;
    assert t[1..] == s && t[2..] == s[1..];
  }

  lemma BlockDecodes(flag: bool, b: seq<Byte>, rest: seq<Byte>)
    ensures var (f, out) := DecodeBlock(flag, b);
            Decode(Held(flag) + (b + rest)) == out + Decode(Held(f) + rest)
  {
    hide Loop;
    if b == [] {
      assert b + rest == rest;
      assert [] + Decode(Held(flag) + rest) == Decode(Held(flag) + rest);
    } else if !flag {
      LoopDecodes(b, rest);
      assert Held(flag) + (b + rest) == b + rest;
    } else {
      HeldDecodes(b, rest);
    }
  }

  lemma HeldDecodes(b: seq<Byte>, rest: seq<Byte>)
    requires b != []
    ensures var (f, out) := DecodeBlock(true, b);
            Decode([CR] + (b + rest)) == out + Decode(Held(f) + rest)
  {
    hide Loop;
    var c := if b[0] == LF then LF else CR;
    var b' := if b[0] == NUL || b[0] == LF then b[1..] else b;
    var (f, out) := Loop(b');
    AfterCr(b + rest);
    LoopDecodes(b', rest);
    hide Decode;
    assert (b + rest)[1..] == b[1..] + rest;
    Regroup([c], out, Decode(Held(f) + rest));
  }

  lemma {:induction false} BlocksDecode(flag: bool, bs: seq<seq<Byte>>)
    ensures var (f, out) := DecodeBlocks(flag, bs);
            Decode(Held(flag) + Concat(bs)) == out + Held(f)
    decreases |bs|
  {
    hide DecodeBlock;
    if bs == [] {
      assert Held(flag) + [] == Held(flag);
      assert Decode([CR]) == [CR];
    } else {
      BlockDecodes(flag, bs[0], Concat(bs[1..]));
      BlocksDecode(DecodeBlock(flag, bs[0]).0, bs[1..]);
      var (f, out) := DecodeBlock(flag, bs[0]);
      var (f', out') := DecodeBlocks(f, bs[1..]);
      assert out + (out' + Held(f')) == out + out' + Held(f');
    }
  }

  /** However a stream is cut into blocks, the transfer writes what decoding it at once gives. */
  lemma TransferDecodes(bs: seq<seq<Byte>>)
    ensures Transfer(bs) == Decode(Concat(bs))
  {
    BlocksDecode(false, bs);
    assert Held(false) + Concat(bs) == Concat(bs);
  }

  /** So a text that the other side encodes arrives as it was, whatever the blocks. */
  lemma TextArrives(t: seq<Byte>, bs: seq<seq<Byte>>)
    requires Concat(bs) == Encode(t)
    ensures Transfer(bs) == t
  {
    TransferDecodes(bs);
    DecodeEncode(t);
  }

  // ----- in place -----

  /** tftp_crflag, and what has gone to the spooler. */
  class Writer {
    var crflag: bool
    var spooled: seq<Byte>

    constructor ()
      ensures !crflag && spooled == []
    {
      crflag, spooled := false, [];
    }

    method WriteBehind(buf: seq<Byte>)
      modifies this
      ensures (crflag, spooled) == (DecodeBlock(old(crflag), buf).0, old(spooled) + DecodeBlock(old(crflag), buf).1)
    {
      if buf == [] {
        assert spooled + [] == spooled;
        return;
      }
      ghost var s0 := spooled;
      var p := 0;
      if crflag {
        crflag := false;
        var ch := CR;
        if buf[0] == NUL {
          p := 1;
        } else if buf[0] == LF {
          p, ch := 1, LF;
        }
        spooled := spooled + [ch];
        assert s0 + ([ch] + Loop(buf[p..]).1) == spooled + Loop(buf[p..]).1;
      }
      assert buf[0..] == buf;
      WriteRest(buf, p);
    }

    /** The loop of tftp_write_behind. */
    method WriteRest(buf: seq<Byte>, from: nat)
      requires from <= |buf| && !crflag
      modifies this
      ensures crflag == Loop(buf[from..]).0 && spooled == old(spooled) + Loop(buf[from..]).1
    {
      ghost var before, whole := spooled, Loop(buf[from..]);
      var p := from;
      while p < |buf|
        invariant from <= p <= |buf| && (crflag ==> p == |buf|)
        invariant before + whole.1 == spooled + Loop(buf[p..]).1
        invariant whole.0 == (crflag || Loop(buf[p..]).0)
      {
        ghost var rest := buf[p..];
        var c := buf[p];
        p := p + 1;
        assert rest[1..] == buf[p..];
        if c == CR && p == |buf| {
          crflag := true;
        } else {
          if c == CR && buf[p] == NUL {
            assert rest[2..] == buf[p + 1..];
            p := p + 1;
          } else if c == CR && buf[p] == LF {
            assert rest[2..] == buf[p + 1..];
            p, c := p + 1, LF;
          }
          assert spooled + ([c] + Loop(buf[p..]).1) == spooled + [c] + Loop(buf[p..]).1;
          spooled := spooled + [c];
        }
      }
      assert spooled + [] == spooled;
    }

    /** The end of the transfer in tftp_d. */
    method Flush()
      modifies this`spooled
      ensures spooled == old(spooled) + Held(crflag)
    {
      if crflag {
        spooled := spooled + [CR];
      }
    }
  }

  /** The blocks of a transfer in turn, and the flush. */
  method Receive(w: Writer, blocks: seq<seq<Byte>>)
    requires !w.crflag
    modifies w
    ensures w.spooled == old(w.spooled) + Decode(Concat(blocks))
  {
    hide Decode;
    hide DecodeBlock;
    hide Concat;
    TransferDecodes(blocks);
    ghost var s0, all := w.spooled, DecodeBlocks(false, blocks);
    var i := 0;
    assert blocks[0..] == blocks && s0 + all.1 == w.spooled + DecodeBlocks(false, blocks[0..]).1;
    while i < |blocks|
      invariant 0 <= i <= |blocks|
      invariant s0 + all.1 == w.spooled + DecodeBlocks(w.crflag, blocks[i..]).1
      invariant all.0 == DecodeBlocks(w.crflag, blocks[i..]).0
    {
      assert blocks[i..][1..] == blocks[i + 1..];
      ghost var flag, spooled := w.crflag, w.spooled;
      w.WriteBehind(blocks[i]);
      i := i + 1;
      ghost var a, b := DecodeBlock(flag, blocks[i - 1]).1, DecodeBlocks(w.crflag, blocks[i..]).1;
      assert spooled + (a + b) == spooled + a + b;
    }
    assert w.spooled + [] == w.spooled;
    w.Flush();
    assert s0 + all.1 + Held(all.0) == s0 + (all.1 + Held(all.0));
  }
}
