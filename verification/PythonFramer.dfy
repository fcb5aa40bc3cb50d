/**
 The Python side of the IPC framing (src/ipc/protocol.py). Bodies are opaque messages under an
 abstract codec: `unpack` gives nothing for a body msgpack rejects.
 */
module PythonFramer {
  import opened Bytes
  import opened LengthPrefix
  import opened Options

  const MAX_FRAME_BYTES: nat := 4 * 1024 * 1024

  type Unpack<!M> = Octets -> Option<M>
  type Pack<!M> = M -> Octets

  /** pack_frame: refuse a body over the cap, else one frame. */
  function PackFrame<M>(pack: Pack<M>, m: M): (r: Option<Octets>)
    ensures r.Some? <==> |pack(m)| <= MAX_FRAME_BYTES
    ensures r.Some? ==> Peek(MAX_FRAME_BYTES, r.value) == Ready(|pack(m)|) && r.value[4..] == pack(m)
  {
    var body := pack(m);
    if |body| > MAX_FRAME_BYTES then None
    else
      assert Frame(body) + [] == Frame(body);
      FrameReady(MAX_FRAME_BYTES, body, []);
      Some(Frame(body))
  }

  /** The decodable bodies, in order; a body that does not decode is skipped. */
  function Decoded<M>(unpack: Unpack<M>, bodies: seq<Octets>): (ms: seq<M>)
  {
    if bodies == [] then []
    else
      var head := match unpack(bodies[0]) case None => [] case Some(m) => [m];
      head + Decoded(unpack, bodies[1..])
  }

  lemma {:induction false} DecodedAppend<M>(unpack: Unpack<M>, a: seq<Octets>, b: seq<Octets>)
    ensures Decoded(unpack, a + b) == Decoded(unpack, a) + Decoded(unpack, b)
  {
    if a == [] {
      assert a + b == b;
    } else {
      var head := match unpack(a[0]) case None => [] case Some(m) => [m];
      ConsAppend(a, b);
      DecodedAppend(unpack, a[1..], b);
      AppendAssoc(head, Decoded(unpack, a[1..]), Decoded(unpack, b));
    }
  }

  /** The reader's buffer, everything yielded so far, and whether the last call raised. */
  datatype Reader<M> = Reader(buf: Octets, yielded: seq<M>, raised: bool)

  /** Append a chunk and run the generator to its end. A caller that got an exception does not call again. */
  function Feed<M>(unpack: Unpack<M>, r: Reader<M>, chunk: Octets): (r': Reader<M>)
  {
    if r.raised then r
    else
      var s := ScanAll(MAX_FRAME_BYTES, r.buf + chunk);
      Reader(s.rest, r.yielded + Decoded(unpack, s.bodies), s.tooBig)
  }

  function FeedAll<M>(unpack: Unpack<M>, chunks: seq<Octets>): (r: Reader<M>)
  {
    if chunks == [] then Reader([], [], false)
    else Feed(unpack, FeedAll(unpack, chunks[..|chunks| - 1]), chunks[|chunks| - 1])
  }

  /** unpack_frames over the caller's bytearray: each consumed frame is deleted before it is yielded. */
  class FrameBuffer {
    var buffer: Octets

    constructor ()
      ensures buffer == []
    {
      buffer := [];
    }

    method UnpackFrames<M>(unpack: Unpack<M>) returns (yielded: seq<M>, raised: bool)
      modifies this
      ensures var s := ScanAll(MAX_FRAME_BYTES, old(buffer));
              yielded == Decoded(unpack, s.bodies) && buffer == s.rest && raised == s.tooBig
    {
      yielded := [];
      ghost var done: seq<Octets> := [];
      while |buffer| >= 4
        invariant yielded == Decoded(unpack, done)
        invariant ScanAll(MAX_FRAME_BYTES, old(buffer)) ==
                  Then(Scan(done, [], false), ScanAll(MAX_FRAME_BYTES, buffer))
      {
        var size := FromBigEndian(buffer[..4]);
        if size > MAX_FRAME_BYTES {
          assert done + [] == done;
          return yielded, true;
        }
        if |buffer| < 4 + size {
          assert done + [] == done;
          return yielded, false;
        }
        var body := buffer[4..4 + size];
        AppendAssoc(done, [body], ScanAll(MAX_FRAME_BYTES, buffer[4 + size..]).bodies);
        DecodedAppend(unpack, done, [body]);
        assert Decoded(unpack, [body]) == match unpack(body) case None => [] case Some(m) => [m];
        done := done + [body];
        buffer := buffer[4 + size..];
        match unpack(body)
        case None => assert yielded + [] == yielded;
        case Some(m) => yielded := yielded + [m];
      }
      assert done + [] == done;
      raised := false;
    }
  }

  /**
   Independence of chunking, with no side condition: after any reads of any stream, what was yielded is
   the decodable bodies before the first oversize header, and the exception is raised exactly when the
   stream has one.
   */
  lemma {:induction false} YieldsAreChunkingIndependent<M>(unpack: Unpack<M>, chunks: seq<Octets>)
    ensures var s := ScanAll(MAX_FRAME_BYTES, Concat(chunks));
            var r := FeedAll(unpack, chunks);
            && r.yielded == Decoded(unpack, s.bodies)
            && r.raised == s.tooBig
            && (!r.raised ==> r.buf == s.rest)
  {
    if chunks != [] {
      var before, last := chunks[..|chunks| - 1], chunks[|chunks| - 1];
      YieldsAreChunkingIndependent(unpack, before);
      ConcatSnoc(chunks);
      ScanAppend(MAX_FRAME_BYTES, Concat(before), last);
      var s := ScanAll(MAX_FRAME_BYTES, Concat(before));
      if !s.tooBig {
        DecodedAppend(unpack, s.bodies, ScanAll(MAX_FRAME_BYTES, s.rest + last).bodies);
      }
    }
  }

  function PackAll<M>(pack: Pack<M>, ms: seq<M>): (bodies: seq<Octets>)
    ensures |bodies| == |ms|
    ensures forall i :: 0 <= i < |ms| ==> bodies[i] == pack(ms[i])
  {
    seq(|ms|, i requires 0 <= i < |ms| => pack(ms[i]))
  }

  lemma {:induction false} DecodedPacked<M>(pack: Pack<M>, unpack: Unpack<M>, ms: seq<M>)
    requires forall m :: m in ms ==> unpack(pack(m)) == Some(m)
    ensures Decoded(unpack, PackAll(pack, ms)) == ms
  {
    if ms != [] {
      DecodedPacked(pack, unpack, ms[1..]);
      assert PackAll(pack, ms)[1..] == PackAll(pack, ms[1..]);
      assert ms[0] in ms;
      assert [ms[0]] + ms[1..] == ms;
    }
  }

  /**
   Unpacking packed frames is the identity, and an undecodable body between them costs only itself:
   `before` and `after` arrive whole around any list of bad bodies, whatever the chunking.
   */
  lemma {:induction false} BadBodiesCostNothingElse<M>(pack: Pack<M>, unpack: Unpack<M>, before: seq<M>, bad: seq<Octets>,
                                    after: seq<M>, chunks: seq<Octets>)
    requires forall m :: m in before + after ==> PackFrame(pack, m).Some? && unpack(pack(m)) == Some(m)
    requires forall b :: b in bad ==> |b| <= MAX_FRAME_BYTES && unpack(b) == None
    requires Concat(chunks) == Frames(PackAll(pack, before) + bad + PackAll(pack, after))
    ensures FeedAll(unpack, chunks) == Reader([], before + after, false)
  {
    var front, back := PackAll(pack, before), PackAll(pack, after);
    assert forall m :: m in before ==> m in before + after;
    assert forall m :: m in after ==> m in before + after;
    PackedBound(pack, before);
    PackedBound(pack, after);
    WholeFrames(unpack, front + bad + back, chunks);
    DecodedAround(pack, unpack, before, bad, after);
  }

  lemma DecodedAround<M>(pack: Pack<M>, unpack: Unpack<M>, before: seq<M>, bad: seq<Octets>, after: seq<M>)
    requires forall m :: m in before ==> unpack(pack(m)) == Some(m)
    requires forall m :: m in after ==> unpack(pack(m)) == Some(m)
    requires forall b :: b in bad ==> unpack(b) == None
    ensures Decoded(unpack, PackAll(pack, before) + bad + PackAll(pack, after)) == before + after
  {
    var front, back := PackAll(pack, before), PackAll(pack, after);
    calc {
      Decoded(unpack, front + bad + back);
      { DecodedAppend(unpack, front + bad, back); }
      Decoded(unpack, front + bad) + Decoded(unpack, back);
      { DecodedAppend(unpack, front, bad); NothingDecoded(unpack, bad); }
      (Decoded(unpack, front) + []) + Decoded(unpack, back);
      { DecodedPacked(pack, unpack, before); DecodedPacked(pack, unpack, after); }
      (before + []) + after;
      { assert before + [] == before; }
      before + after;
    }
  }

  /** A stream of whole frames leaves nothing in the buffer. */
  lemma WholeFrames<M>(unpack: Unpack<M>, bodies: seq<Octets>, chunks: seq<Octets>)
    requires forall b :: b in bodies ==> |b| <= MAX_FRAME_BYTES
    requires Concat(chunks) == Frames(bodies)
    ensures FeedAll(unpack, chunks) == Reader([], Decoded(unpack, bodies), false)
  {
    ScanFrames(MAX_FRAME_BYTES, bodies, []);
    assert Frames(bodies) + [] == Frames(bodies) && bodies + [] == bodies;
    YieldsAreChunkingIndependent(unpack, chunks);
  }

  lemma PackedBound<M>(pack: Pack<M>, ms: seq<M>)
    requires forall m :: m in ms ==> PackFrame(pack, m).Some?
    ensures forall b :: b in PackAll(pack, ms) ==> |b| <= MAX_FRAME_BYTES
  {
    forall b | b in PackAll(pack, ms) ensures |b| <= MAX_FRAME_BYTES {
      var i :| 0 <= i < |ms| && pack(ms[i]) == b;
      assert ms[i] in ms;
    }
  }

  lemma {:induction false} NothingDecoded<M>(unpack: Unpack<M>, bad: seq<Octets>)
    requires forall b :: b in bad ==> unpack(b) == None
    ensures Decoded(unpack, bad) == []
  {
    if bad != [] {
      NothingDecoded(unpack, bad[1..]);
    }
  }
}
