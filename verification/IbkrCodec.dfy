/**
 The IBKR socket codec (codec.rs) and the receive loop that drives it (client.rs).

 A message is a list of fields; on the wire each field is followed by a NUL and the whole
 is one length-prefixed frame. Fields are byte strings. The lossy UTF-8 conversion applied
 to each received field is a parameter `utf8`: it is the identity on valid UTF-8.
 */
module IbkrCodec {
  import opened Bytes
  import opened LengthPrefix

  type Field = Octets
  type Message = seq<Field>

  const MAX_MESSAGE_BYTES: nat := 16 * 1024 * 1024

  // ---- writing --------------------------------------------------------------

  predicate NulFree(f: Field)
  {
    0 !in f
  }

  /** Every field followed by its NUL terminator. */
  function Payload(m: Message): (p: Octets)
  {
    if m == [] then [] else m[0] + [0] + Payload(m[1..])
  }

  lemma {:induction false} PayloadSnoc(m: Message, f: Field)
    ensures Payload(m + [f]) == Payload(m) + f + [0]
  {
    if m == [] {
      assert m + [f] == [f];
      assert Payload([f]) == f + [0] + Payload([]);
    } else {
      ConsAppend(m, [f]);
      PayloadSnoc(m[1..], f);
      AppendAssoc(m[0] + [0], Payload(m[1..]), f + [0]);
      AppendAssoc(Payload(m[1..]), f, [0]);
      AppendAssoc(Payload(m), f, [0]);
    }
  }

  method EncodeFields(fields: Message) returns (out: Octets)
    ensures out == Frame(Payload(fields))
  {
    var payload: Octets := [];
    for i := 0 to |fields|
      invariant payload == Payload(fields[..i])
    {
      PayloadSnoc(fields[..i], fields[i]);
      assert fields[..i + 1] == fields[..i] + [fields[i]];
      payload := payload + fields[i];
      payload := payload + [0];
    }
    assert fields[..|fields|] == fields;
    out := BigEndian(|payload|, 4);
    out := out + payload;
  }

  // ---- reading --------------------------------------------------------------

  /** Split on NUL bytes: one piece more than there are NULs. */
  function SplitNul(p: Octets): (pieces: Message)
    ensures |pieces| >= 1
  {
    if p == [] then [[]]
    else
      var more := SplitNul(p[1..]);
      if p[0] == 0 then [[]] + more else [[p[0]] + more[0]] + more[1..]
  }

  lemma {:induction false} SplitFirst(f: Field, rest: Octets)
    requires NulFree(f)
    ensures SplitNul(f + [0] + rest) == [f] + SplitNul(rest)
  {
    var p := f + [0] + rest;
    if f == [] {
      assert p[1..] == rest;
    } else {
      assert p[1..] == f[1..] + [0] + rest;
      SplitFirst(f[1..], rest);
      assert [f[0]] + f[1..] == f;
    }
  }

  /** Splitting a payload gives the fields and one empty piece after the last terminator. */
  lemma {:induction false} SplitPayload(m: Message)
    requires forall f :: f in m ==> NulFree(f)
    ensures SplitNul(Payload(m)) == m + [[]]
  {
    if m != [] {
      SplitPayload(m[1..]);
      SplitFirst(m[0], Payload(m[1..]));
      ConsAppend(m, [[]]);
      AppendAssoc([m[0]], m[1..], [[]]);
    }
  }

  type Utf8 = Field -> Field

  function ConvertAll(utf8: Utf8, pieces: Message): (m: Message)
    ensures |m| == |pieces|
    ensures forall i :: 0 <= i < |m| ==> m[i] == utf8(pieces[i])
  {
    seq(|pieces|, i requires 0 <= i < |pieces| => utf8(pieces[i]))
  }

  /** The fields of one payload: split, convert, and drop a trailing empty field. */
  function FieldsOf(utf8: Utf8, payload: Octets): (m: Message)
  {
    var all := ConvertAll(utf8, SplitNul(payload));
    if all[|all| - 1] == [] then all[..|all| - 1] else all
  }

  function MessagesOf(utf8: Utf8, bodies: seq<Octets>): (ms: seq<Message>)
    ensures |ms| == |bodies|
    ensures forall i :: 0 <= i < |ms| ==> ms[i] == FieldsOf(utf8, bodies[i])
  {
    seq(|bodies|, i requires 0 <= i < |bodies| => FieldsOf(utf8, bodies[i]))
  }

  /** A message the format can carry unchanged. */
  predicate Wellformed(utf8: Utf8, m: Message)
  {
    && (forall f :: f in m ==> NulFree(f) && utf8(f) == f)
    && |Payload(m)| <= MAX_MESSAGE_BYTES
  }

  lemma {:induction false} FieldsRoundTrip(utf8: Utf8, m: Message)
    requires utf8([]) == [] && Wellformed(utf8, m)
    ensures FieldsOf(utf8, Payload(m)) == m
  {
    SplitPayload(m);
    var all := ConvertAll(utf8, m + [[]]);
    assert forall i :: 0 <= i < |m| ==> m[i] in m && all[i] == m[i];
    assert all[..|m|] == m;
  }

  // ---- the receive loop -----------------------------------------------------

  /** The receive task: alive until end of stream or a decode error; `out` is what it forwarded. */
  datatype Recv = Recv(alive: bool, buf: Octets, out: seq<Message>)

  const START: Recv := Recv(true, [], [])

  /** One read. An empty read is end of stream. A decode error drops every frame of the same read. */
  function OnRead(utf8: Utf8, st: Recv, chunk: Octets): (st': Recv)
  {
    if !st.alive then st
    else if chunk == [] then st.(alive := false)
    else
      var s := ScanAll(MAX_MESSAGE_BYTES, st.buf + chunk);
      if s.tooBig then Recv(false, s.rest, st.out)
      else Recv(true, s.rest, st.out + MessagesOf(utf8, s.bodies))
  }

  function Run(utf8: Utf8, chunks: seq<Octets>): (st: Recv)
  {
    if chunks == [] then START else OnRead(utf8, Run(utf8, chunks[..|chunks| - 1]), chunks[|chunks| - 1])
  }

  /** One task owning the buffer, as spawn_recv_task runs it. */
  class RecvTask {
    var alive: bool
    var buf: Octets
    var out: seq<Message>
    const utf8: Utf8

    constructor (utf8: Utf8)
      ensures State() == START && this.utf8 == utf8
    {
      alive, buf, out := true, [], [];
      this.utf8 := utf8;
    }

    function State(): Recv
      reads this
    {
      Recv(alive, buf, out)
    }

    /** try_decode_frame: `None` asks for more bytes, an oversize header is an error, a frame is consumed. */
    method TryDecodeFrame() returns (ok: bool, frame: seq<Message>)
      modifies this`buf
      ensures ok == !Peek(MAX_MESSAGE_BYTES, old(buf)).TooBig?
      ensures match Peek(MAX_MESSAGE_BYTES, old(buf))
              case Ready(n) => frame == [FieldsOf(utf8, old(buf)[4..4 + n])] && buf == old(buf)[4 + n..]
              case _ => frame == [] && buf == old(buf)
    {
      if |buf| < 4 {
        return true, [];
      }
      var size := FromBigEndian(buf[..4]);
      if size > MAX_MESSAGE_BYTES {
        return false, [];
      }
      if |buf| < 4 + size {
        return true, [];
      }
      var pieces := SplitNul(buf[4..4 + size]);
      var fields: Message := [];
      for i := 0 to |pieces|
        invariant fields == ConvertAll(utf8, pieces)[..i]
      {
        fields := fields + [utf8(pieces[i])];
      }
      assert fields == ConvertAll(utf8, pieces);
      if fields[|fields| - 1] == [] {
        fields := fields[..|fields| - 1];
      }
      buf := buf[4 + size..];
      return true, [fields];
    }

    /** try_decode_all: on an error the frames decoded so far are discarded, the buffer stays advanced. */
    method TryDecodeAll() returns (ok: bool, frames: seq<Message>)
      modifies this`buf
      ensures var s := ScanAll(MAX_MESSAGE_BYTES, old(buf));
              && ok == !s.tooBig && buf == s.rest
              && frames == if ok then MessagesOf(utf8, s.bodies) else []
    {
      frames := [];
      var more := true;
      while more
        invariant var s, t := ScanAll(MAX_MESSAGE_BYTES, old(buf)), ScanAll(MAX_MESSAGE_BYTES, buf);
                  && s.rest == t.rest && s.tooBig == t.tooBig
                  && |frames| + |t.bodies| == |s.bodies|
                  && t.bodies == s.bodies[|frames|..]
                  && frames == MessagesOf(utf8, s.bodies)[..|frames|]
        invariant !more ==> Peek(MAX_MESSAGE_BYTES, buf).Partial?
        decreases more, |buf|
      {
        var good, next := TryDecodeFrame();
        if !good {
          return false, [];
        }
        frames := frames + next;
        more := next != [];
      }
      return true, frames;
    }

    method Read(chunk: Octets)
      modifies this
      ensures State() == OnRead(utf8, old(State()), chunk)
    {
      if !alive {
        return;
      }
      if chunk == [] {
        alive := false;
        return;
      }
      buf := buf + chunk;
      var ok, frames := TryDecodeAll();
      if ok {
        out := out + frames;
      } else {
        alive := false;
      }
    }
  }

  // ---- what the loop delivers ----------------------------------------------

  lemma MessagesAppend(utf8: Utf8, a: seq<Octets>, b: seq<Octets>)
    ensures MessagesOf(utf8, a + b) == MessagesOf(utf8, a) + MessagesOf(utf8, b)
  {
  }

  predicate NoEmptyRead(chunks: seq<Octets>)
  {
    [] !in chunks
  }

  /**
   The state after any sequence of reads is a function of the stream alone as long as no oversize
   header was reached; once one is, the task has stopped.
   */
  lemma {:induction false} RunIsScan(utf8: Utf8, chunks: seq<Octets>)
    requires NoEmptyRead(chunks)
    ensures var s := ScanAll(MAX_MESSAGE_BYTES, Concat(chunks));
            if s.tooBig then !Run(utf8, chunks).alive
            else Run(utf8, chunks) == Recv(true, s.rest, MessagesOf(utf8, s.bodies))
  {
    if chunks != [] {
      var before, last := chunks[..|chunks| - 1], chunks[|chunks| - 1];
      RunIsScan(utf8, before);
      ConcatSnoc(chunks);
      ScanAppend(MAX_MESSAGE_BYTES, Concat(before), last);
      var s := ScanAll(MAX_MESSAGE_BYTES, Concat(before));
      if !s.tooBig {
        MessagesAppend(utf8, s.bodies, ScanAll(MAX_MESSAGE_BYTES, s.rest + last).bodies);
      }
    }
  }

  function Payloads(ms: seq<Message>): (ps: seq<Octets>)
    ensures |ps| == |ms|
    ensures forall i :: 0 <= i < |ps| ==> ps[i] == Payload(ms[i])
  {
    seq(|ms|, i requires 0 <= i < |ms| => Payload(ms[i]))
  }

  /**
   Delivery. Whatever the network does to the boundaries, the loop forwards exactly the messages
   that were sent, in order, and keeps exactly the partial frame at the end.
   */
  lemma DeliversEveryMessage(utf8: Utf8, ms: seq<Message>, tail: Octets, chunks: seq<Octets>)
    requires utf8([]) == []
    requires forall m :: m in ms ==> Wellformed(utf8, m)
    requires IsPartial(MAX_MESSAGE_BYTES, tail)
    requires NoEmptyRead(chunks) && Concat(chunks) == Frames(Payloads(ms)) + tail
    ensures Run(utf8, chunks) == Recv(true, tail, ms)
  {
    var ps := Payloads(ms);
    forall b | b in ps ensures |b| <= MAX_MESSAGE_BYTES {
      var i :| 0 <= i < |ps| && ps[i] == b;
      assert ms[i] in ms;
    }
    ScanFrames(MAX_MESSAGE_BYTES, ps, tail);
    RunIsScan(utf8, chunks);
    assert ps + [] == ps;
    var out := MessagesOf(utf8, ps);
    forall i | 0 <= i < |ms| ensures out[i] == ms[i] {
      assert ms[i] in ms;
      FieldsRoundTrip(utf8, ms[i]);
    }
    assert out == ms;
  }

  /** Two ways the network may cut one stream. */
  ghost predicate Cuts(stream: Octets, chunks: seq<Octets>)
  {
    NoEmptyRead(chunks) && Concat(chunks) == stream
  }

  ghost predicate ChunkingIndependent(utf8: Utf8, stream: Octets)
  {
    forall c, d :: Cuts(stream, c) && Cuts(stream, d) ==> Run(utf8, c).out == Run(utf8, d).out
  }

  /** What was forwarded is always an initial part of what the stream holds before any oversize header. */
  lemma {:induction false} OutIsPrefix(utf8: Utf8, chunks: seq<Octets>)
    requires NoEmptyRead(chunks)
    ensures Run(utf8, chunks).out <= MessagesOf(utf8, ScanAll(MAX_MESSAGE_BYTES, Concat(chunks)).bodies)
  {
    RunIsScan(utf8, chunks);
    if chunks != [] {
      var before, last := chunks[..|chunks| - 1], chunks[|chunks| - 1];
      OutIsPrefix(utf8, before);
      RunIsScan(utf8, before);
      ConcatSnoc(chunks);
      ScanAppend(MAX_MESSAGE_BYTES, Concat(before), last);
      var s := ScanAll(MAX_MESSAGE_BYTES, Concat(before));
      if !s.tooBig {
        MessagesAppend(utf8, s.bodies, ScanAll(MAX_MESSAGE_BYTES, s.rest + last).bodies);
      }
    }
  }

  /** A stream that is cut just before its oversize header delivers everything; uncut, it delivers nothing. */
  lemma OversizeLosesFrames(utf8: Utf8, stream: Octets)
    requires ScanAll(MAX_MESSAGE_BYTES, stream).tooBig
    ensures Cuts(stream, [stream]) && Run(utf8, [stream]).out == []
    ensures var s := ScanAll(MAX_MESSAGE_BYTES, stream);
            s.bodies != [] ==>
              var cut := [Frames(s.bodies), s.rest];
              Cuts(stream, cut) && Run(utf8, cut).out == MessagesOf(utf8, s.bodies)
  {
    var s := ScanAll(MAX_MESSAGE_BYTES, stream);
    assert Concat([stream]) == stream;
    assert Run(utf8, [stream]) == OnRead(utf8, Run(utf8, []), stream) by { assert [stream][..0] == []; }
    assert START.buf + stream == stream;
    if s.bodies != [] {
      CutBeforeOversize(utf8, stream);
    }
  }

  lemma CutBeforeOversize(utf8: Utf8, stream: Octets)
    requires var s := ScanAll(MAX_MESSAGE_BYTES, stream); s.tooBig && s.bodies != []
    ensures var s := ScanAll(MAX_MESSAGE_BYTES, stream);
            var cut := [Frames(s.bodies), s.rest];
            Cuts(stream, cut) && Run(utf8, cut).out == MessagesOf(utf8, s.bodies)
  {
    var s := ScanAll(MAX_MESSAGE_BYTES, stream);
    var front := Frames(s.bodies);
    ScanIsExact(MAX_MESSAGE_BYTES, stream);
    ScanRest(MAX_MESSAGE_BYTES, stream);
    RunPair(utf8, front, s.rest);
    assert OnRead(utf8, START, front) == Recv(true, [], MessagesOf(utf8, s.bodies)) by {
      ScanBodiesBound(MAX_MESSAGE_BYTES, stream);
      ScanFrames(MAX_MESSAGE_BYTES, s.bodies, []);
      assert front + [] == front && [] + front == front && s.bodies + [] == s.bodies;
    }
    assert [] + s.rest == s.rest;
  }

  lemma RunPair(utf8: Utf8, a: Octets, b: Octets)
    ensures Concat([a, b]) == a + b
    ensures Run(utf8, [a, b]) == OnRead(utf8, OnRead(utf8, START, a), b)
  {
    assert [a, b][1..] == [b] && [b][1..] == [];
    assert Concat([b]) == b + [];
    assert [a, b][..1] == [a] && [a][..0] == [];
    assert Run(utf8, [a]) == OnRead(utf8, Run(utf8, []), a);
  }

  /** An oversize header. */
  const OVERSIZE: Octets := [255, 255, 255, 255]

  /** A message and an oversize header: read together the message is lost, read apart it is delivered. */
  lemma OversizeLosesMessage(utf8: Utf8, m: Message)
    requires utf8([]) == [] && Wellformed(utf8, m)
    ensures var stream := Frame(Payload(m)) + OVERSIZE;
            && Cuts(stream, [stream]) && Run(utf8, [stream]).out == []
            && Cuts(stream, [Frame(Payload(m)), OVERSIZE]) && Run(utf8, [Frame(Payload(m)), OVERSIZE]).out == [m]
  {
    var p := Payload(m);
    var stream := Frame(p) + OVERSIZE;
    OversizeIsTooBig();
    ScanCons(MAX_MESSAGE_BYTES, p, OVERSIZE);
    assert ScanAll(MAX_MESSAGE_BYTES, stream) == Scan([p], OVERSIZE, true);
    assert Frames([p]) == Frame(p) by {
      assert [p][1..] == [];
      assert Frame(p) + [] == Frame(p);
    }
    OversizeLosesFrames(utf8, stream);
    FieldsRoundTrip(utf8, m);
    assert MessagesOf(utf8, [p]) == [m];
  }

  lemma OversizeIsTooBig()
    ensures ScanAll(MAX_MESSAGE_BYTES, OVERSIZE) == Scan([], OVERSIZE, true)
  {
    assert OVERSIZE[..4] == OVERSIZE;
    assert OVERSIZE[..3] == [255, 255, 255] && [255 as u8, 255, 255][..2] == [255, 255] && [255 as u8, 255][..1] == [255];
    assert [255 as u8][..0] == [];
    assert FromBigEndian([255]) == 255;
    assert FromBigEndian([255, 255]) == 0xFFFF;
    assert FromBigEndian([255, 255, 255]) == 0xFF_FFFF;
    assert FromBigEndian(OVERSIZE) == 0xFFFF_FFFF;
  }

  /**
   Exactly when boundaries do not matter. The code is independent of how the stream is cut if and only
   if the stream has no oversize header, or no complete frame comes before it.
   */
  lemma ChunkingExact(utf8: Utf8, stream: Octets)
    ensures var s := ScanAll(MAX_MESSAGE_BYTES, stream);
            ChunkingIndependent(utf8, stream) <==> (!s.tooBig || s.bodies == [])
  {
    var s := ScanAll(MAX_MESSAGE_BYTES, stream);
    if !s.tooBig || s.bodies == [] {
      forall c | Cuts(stream, c) ensures Run(utf8, c).out == MessagesOf(utf8, s.bodies) {
        RunIsScan(utf8, c);
        OutIsPrefix(utf8, c);
      }
    } else {
      OversizeLosesFrames(utf8, stream);
      assert |MessagesOf(utf8, s.bodies)| == |s.bodies|;
    }
  }
}
