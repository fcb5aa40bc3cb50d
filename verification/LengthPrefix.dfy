/**
 Length-prefixed framing: a four-byte big-endian length, then that many bytes.
 Both the IBKR socket (codec.rs) and the Python IPC helper (protocol.py) read this
 format with a size cap; they differ in what they do at an oversize header, which is
 modelled where each of them is.
 */
module LengthPrefix {
  import opened Bytes

  /** What the front of a buffer offers under a size cap. */
  datatype Front = Partial | TooBig(claimed: nat) | Ready(size: nat)

  function Peek(cap: nat, buf: Octets): (f: Front)
    ensures f.Ready? ==> 4 + f.size <= |buf| && f.size <= cap
  {
    if |buf| < 4 then Partial
    else
      var size := FromBigEndian(buf[..4]);
      if size > cap then TooBig(size)
      else if |buf| < 4 + size then Partial
      else Ready(size)
  }

  /** One frame on the wire. The length is cut to 32 bits, as the writers cut it. */
  function Frame(body: Octets): (f: Octets)
  {
    BigEndian(|body|, 4) + body
  }

  function Frames(bodies: seq<Octets>): (s: Octets)
  {
    if bodies == [] then [] else Frame(bodies[0]) + Frames(bodies[1..])
  }

  lemma FramesCons(body: Octets, more: seq<Octets>, tail: Octets)
    ensures Frames([body] + more) + tail == Frame(body) + (Frames(more) + tail)
  {
    assert ([body] + more)[1..] == more;
  }

  /** The greedy parse of a buffer: complete bodies, what is left, and whether an oversize header stopped it. */
  datatype Scan = Scan(bodies: seq<Octets>, rest: Octets, tooBig: bool)

  function ScanAll(cap: nat, buf: Octets): (s: Scan)
    decreases |buf|
  {
    match Peek(cap, buf)
    case Partial => Scan([], buf, false)
    case TooBig(_) => Scan([], buf, true)
    case Ready(n) =>
      var t := ScanAll(cap, buf[4 + n..]);
      Scan([buf[4..4 + n]] + t.bodies, t.rest, t.tooBig)
  }

  /** The front of a frame that is not there in full yet (or no bytes at all). */
  predicate IsPartial(cap: nat, tail: Octets)
  {
    Peek(cap, tail).Partial?
  }

  /** Bytes that arrive later never change a frame that is already complete. */
  lemma PeekStable(cap: nat, a: Octets, b: Octets)
    ensures var f := Peek(cap, a);
            && (!f.Partial? ==> Peek(cap, a + b) == f)
            && (f.Ready? ==> (a + b)[4..4 + f.size] == a[4..4 + f.size])
            && (f.Ready? ==> (a + b)[4 + f.size..] == a[4 + f.size..] + b)
  {
    if |a| >= 4 {
      assert (a + b)[..4] == a[..4];
    }
  }

  /** A scan that goes on where another one stopped. */
  function Then(s: Scan, t: Scan): Scan
  {
    Scan(s.bodies + t.bodies, t.rest, t.tooBig)
  }

  /** Parsing in two instalments is parsing once, unless the first instalment already hit an oversize header. */
  lemma {:induction false} ScanAppend(cap: nat, a: Octets, b: Octets)
    ensures var s := ScanAll(cap, a);
            ScanAll(cap, a + b) ==
            if s.tooBig then Scan(s.bodies, s.rest + b, true) else Then(s, ScanAll(cap, s.rest + b))
    decreases |a|
  {
    PeekStable(cap, a, b);
    match Peek(cap, a)
    case Partial =>
      var t := ScanAll(cap, a + b);
      assert [] + t.bodies == t.bodies;
    case TooBig(_) =>
    case Ready(n) =>
      var a' := a[4 + n..];
      ScanAppend(cap, a', b);
      var s' := ScanAll(cap, a');
      AppendAssoc([a[4..4 + n]], s'.bodies, ScanAll(cap, s'.rest + b).bodies);
  }

  /** The remainder of a parse holds no complete frame; it is stuck on a partial or an oversize one. */
  lemma {:induction false} ScanRest(cap: nat, buf: Octets)
    ensures var s := ScanAll(cap, buf);
            if s.tooBig then Peek(cap, s.rest).TooBig? else Peek(cap, s.rest).Partial?
    decreases |buf|
  {
    match Peek(cap, buf)
    case Ready(n) => ScanRest(cap, buf[4 + n..]);
    case _ =>
  }

  /** Every byte string is the encoding of the number it denotes. */
  lemma {:induction false} CanonicalBytes(b: Octets)
    ensures BigEndian(FromBigEndian(b), |b|) == b
  {
    if b != [] {
      CanonicalBytes(b[..|b| - 1]);
      assert b == b[..|b| - 1] + [b[|b| - 1]];
    }
  }

  /** A complete frame at the front of a buffer is the frame of its body. */
  lemma ReadyFrame(cap: nat, buf: Octets)
    requires Peek(cap, buf).Ready?
    ensures var n := Peek(cap, buf).size;
            Frame(buf[4..4 + n]) == buf[..4 + n]
  {
    var n := Peek(cap, buf).size;
    CanonicalBytes(buf[..4]);
    assert BigEndian(n, 4) == buf[..4];
    assert buf[..4] + buf[4..4 + n] == buf[..4 + n];
  }

  /** Nothing is lost: the frames of the parsed bodies, then the remainder, are the buffer again. */
  lemma {:induction false} ScanIsExact(cap: nat, buf: Octets)
    ensures var s := ScanAll(cap, buf);
            Frames(s.bodies) + s.rest == buf
    decreases |buf|
  {
    match Peek(cap, buf)
    case Ready(n) =>
      var t := ScanAll(cap, buf[4 + n..]);
      ScanIsExact(cap, buf[4 + n..]);
      ReadyFrame(cap, buf);
      FramesCons(buf[4..4 + n], t.bodies, t.rest);
    case _ =>
  }

  lemma {:induction false} ScanBodiesBound(cap: nat, buf: Octets)
    ensures forall b :: b in ScanAll(cap, buf).bodies ==> |b| <= cap
    decreases |buf|
  {
    match Peek(cap, buf)
    case Ready(n) => ScanBodiesBound(cap, buf[4 + n..]);
    case _ =>
  }

  /** A frame written under the cap is read back whole. */
  lemma FrameReady(cap: nat, body: Octets, tail: Octets)
    requires |body| <= cap < 0x1_0000_0000
    ensures var buf := Frame(body) + tail;
            && Peek(cap, buf) == Ready(|body|)
            && buf[4..4 + |body|] == body
            && buf[4 + |body|..] == tail
  {
    var n := |body|;
    var buf := Frame(body) + tail;
    assert buf[..4] == BigEndian(n, 4);
    assert FromBigEndian(buf[..4]) == n by {
      Pow256Values();
      BigEndianRoundTrip(n, 4);
    }
  }

  lemma ScanCons(cap: nat, body: Octets, tail: Octets)
    requires |body| <= cap < 0x1_0000_0000
    ensures ScanAll(cap, Frame(body) + tail) == Then(Scan([body], [], false), ScanAll(cap, tail))
  {
    FrameReady(cap, body, tail);
  }

  /** Parsing what was framed gives the bodies back, then goes on with whatever follows. */
  lemma {:induction false} ScanFrames(cap: nat, bodies: seq<Octets>, tail: Octets)
    requires cap < 0x1_0000_0000
    requires forall b :: b in bodies ==> |b| <= cap
    ensures ScanAll(cap, Frames(bodies) + tail) == Then(Scan(bodies, [], false), ScanAll(cap, tail))
  {
    var t := ScanAll(cap, tail);
    if bodies == [] {
      assert Frames(bodies) + tail == tail;
      assert bodies + t.bodies == t.bodies;
    } else {
      var more := bodies[1..];
      calc {
        ScanAll(cap, Frames(bodies) + tail);
        { ConsAppend(bodies, []); FramesCons(bodies[0], more, tail); }
        ScanAll(cap, Frame(bodies[0]) + (Frames(more) + tail));
        { ScanCons(cap, bodies[0], Frames(more) + tail); }
        Then(Scan([bodies[0]], [], false), ScanAll(cap, Frames(more) + tail));
        { ScanFrames(cap, more, tail); }
        Then(Scan([bodies[0]], [], false), Then(Scan(more, [], false), t));
        { AppendAssoc([bodies[0]], more, t.bodies); ConsAppend(bodies, []); }
        Then(Scan(bodies, [], false), t);
      }
    }
  }
}
