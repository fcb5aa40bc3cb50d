/**
 The hand-written MessagePack encoder of tick events (ipc.rs), read back by a decoder written from the
 "Formats" section of the MessagePack specification. Doubles are opaque 64-bit patterns.
 */
module TickEncoder {
  import opened Bytes
  import opened Options

  const U16_MAX: nat := 0xFFFF
  const TWO_32: nat := 0x1_0000_0000
  const TWO_64: nat := 0x1_0000_0000_0000_0000

  newtype i32 = x: int | -0x8000_0000 <= x < 0x8000_0000
  newtype u64 = x: int | 0 <= x < 0x1_0000_0000_0000_0000

  type Text = Octets

  datatype TickEvent = TickEvent(
    ty: Text, strike: u64, expiry: Text, right: Text, bid: Option<u64>, ask: Option<u64>,
    bidSize: Option<i32>, askSize: Option<i32>, tsNs: u64, brokerRecvNs: u64,
    depthBid0: Option<u64>, depthBid1: Option<u64>, depthAsk0: Option<u64>, depthAsk1: Option<u64>)

  // ---- what is written ---------------------------------------------------------

  /** Two's complement of an i32. */
  function Unsigned(v: i32): (n: nat)
    ensures n < TWO_32
  {
    if v >= 0 then v as int else v as int + TWO_32
  }

  function StrBytes(s: Text): (b: Octets)
  {
    if |s| <= 31 then [(0xa0 + |s|) as u8] + s
    else if |s| <= 255 then [0xd9, |s| as u8] + s
    else if |s| <= U16_MAX then [0xda] + BigEndian(|s|, 2) + s
    else [0xdb] + BigEndian(|s|, 4) + s
  }

  const NIL: Octets := [0xc0]

  function F64Bytes(v: u64): (b: Octets) { [0xcb] + BigEndian(v as int, 8) }

  function OptF64Bytes(v: Option<u64>): (b: Octets) { if v.Some? then F64Bytes(v.value) else NIL }

  function OptI32Bytes(v: Option<i32>): (b: Octets)
  {
    if v.Some? then [0xd2] + BigEndian(Unsigned(v.value), 4) else NIL
  }

  function U64Bytes(v: u64): (b: Octets) { [0xcf] + BigEndian(v as int, 8) }

  // ---- the values of the format ------------------------------------------------

  /** The MessagePack values the tick path can meet. */
  datatype Value =
    | Nil
    | Int(n: int)
    | F32(bits: nat)
    | F64(bits: nat)
    | Str(text: Text)
    | Map(pairs: seq<(Value, Value)>)

  /** What each kind of field should decode to. */
  function OptF64Value(v: Option<u64>): (x: Value) { if v.Some? then F64(v.value as int) else Nil }

  function OptI32Value(v: Option<i32>): (x: Value) { if v.Some? then Int(v.value as int) else Nil }

  // ---- the decoder, format by format ---------------------------------------------

  type Parsed = Option<(Value, Octets)>

  /** Signed reading of an n-byte big-endian integer. */
  function Signed(b: Octets): (n: int)
  {
    var u, half := FromBigEndian(b), Pow256(|b|);
    if 2 * u >= half then u - half else u
  }

  function TakeInt(b: Octets, width: nat, signed: bool): (r: Parsed)
    ensures r.Some? ==> |r.value.1| <= |b|
  {
    if |b| < width then None
    else Some((Int(if signed then Signed(b[..width]) else FromBigEndian(b[..width])), b[width..]))
  }

  function TakeF64(b: Octets): (r: Parsed)
    ensures r.Some? ==> |r.value.1| <= |b|
  {
    if |b| < 8 then None else Some((F64(FromBigEndian(b[..8])), b[8..]))
  }

  function TakeF32(b: Octets): (r: Parsed)
    ensures r.Some? ==> |r.value.1| <= |b|
  {
    if |b| < 4 then None else Some((F32(FromBigEndian(b[..4])), b[4..]))
  }

  /** A string whose length is given. */
  function TakeText(b: Octets, n: nat): (r: Parsed)
    ensures r.Some? ==> |r.value.1| <= |b|
  {
    if |b| < n then None else Some((Str(b[..n]), b[n..]))
  }

  /** A string whose length is in the next `width` bytes. */
  function TakeStr(b: Octets, width: nat): (r: Parsed)
    ensures r.Some? ==> |r.value.1| <= |b|
  {
    if |b| < width then None else TakeText(b[width..], FromBigEndian(b[..width]))
  }

  /** One value at the front of a buffer: nil, the integer, float, str and map families. */
  function Decode(b: Octets): (r: Parsed)
    ensures r.Some? ==> |r.value.1| < |b|
    decreases |b|, 0
  {
    if b == [] then None
    else
      var tag, rest := b[0] as int, b[1..];
      if tag < 0x80 then Some((Int(tag), rest))
      else if tag < 0x90 then DecodeMap(rest, tag - 0x80)
      else if 0xa0 <= tag < 0xc0 then TakeText(rest, tag - 0xa0)
      else if tag == 0xc0 then Some((Nil, rest))
      else if tag == 0xca then TakeF32(rest)
      else if tag == 0xcb then TakeF64(rest)
      else if tag == 0xcc then TakeInt(rest, 1, false)
      else if tag == 0xcd then TakeInt(rest, 2, false)
      else if tag == 0xce then TakeInt(rest, 4, false)
      else if tag == 0xcf then TakeInt(rest, 8, false)
      else if tag == 0xd0 then TakeInt(rest, 1, true)
      else if tag == 0xd1 then TakeInt(rest, 2, true)
      else if tag == 0xd2 then TakeInt(rest, 4, true)
      else if tag == 0xd3 then TakeInt(rest, 8, true)
      else if tag == 0xd9 then TakeStr(rest, 1)
      else if tag == 0xda then TakeStr(rest, 2)
      else if tag == 0xdb then TakeStr(rest, 4)
      else if tag == 0xde then (if |rest| < 2 then None else DecodeMap(rest[2..], FromBigEndian(rest[..2])))
      else if tag == 0xdf then (if |rest| < 4 then None else DecodeMap(rest[4..], FromBigEndian(rest[..4])))
      else if tag >= 0xe0 then Some((Int(tag - 0x100), rest))
      else None
  }

  function DecodeMap(b: Octets, n: nat): (r: Parsed)
    ensures r.Some? ==> r.value.0.Map? && |r.value.1| <= |b|
    decreases |b|, 2, n
  {
    match DecodePairs(b, n)
    case None => None
    case Some((pairs, rest)) => Some((Map(pairs), rest))
  }

  function DecodePairs(b: Octets, n: nat): (r: Option<(seq<(Value, Value)>, Octets)>)
    ensures r.Some? ==> |r.value.0| == n && |r.value.1| <= |b|
    decreases |b|, 1, n
  {
    if n == 0 then Some(([], b))
    else
      match Decode(b)
      case None => None
      case Some((k, b1)) =>
        match Decode(b1)
        case None => None
        case Some((v, b2)) =>
          match DecodePairs(b2, n - 1)
          case None => None
          case Some((more, b3)) => Some(([(k, v)] + more, b3))
  }

  // ---- each encoding is read back ---------------------------------------------------

  lemma ReadBack(width: nat, n: nat, tail: Octets)
    requires n < Pow256(width)
    ensures FromBigEndian((BigEndian(n, width) + tail)[..width]) == n
    ensures (BigEndian(n, width) + tail)[width..] == tail
  {
    BigEndianRoundTrip(n, width);
    assert (BigEndian(n, width) + tail)[..width] == BigEndian(n, width);
  }

  /** Encoded bytes that decode to a value and leave any suffix. */
  ghost predicate Encodes(b: Octets, v: Value)
  {
    forall tail :: Decode(b + tail) == Some((v, tail))
  }

  lemma StrEncodes(s: Text)
    requires |s| < TWO_32
    ensures Encodes(StrBytes(s), Str(s))
  {
    forall tail ensures Decode(StrBytes(s) + tail) == Some((Str(s), tail)) {
      StrDecodes(s, tail);
    }
  }

  lemma StrDecodes(s: Text, tail: Octets)
    requires |s| < TWO_32
    ensures Decode(StrBytes(s) + tail) == Some((Str(s), tail))
  {
    Pow256Values();
    if |s| <= 31 {
      FixstrDecodes(s, tail);
    } else if |s| <= 255 {
      OneByte(|s|);
      assert [0xd9] + BigEndian(|s|, 1) + s == StrBytes(s);
      LongStrDecodes(0xd9, 1, s, tail);
    } else if |s| <= U16_MAX {
      LongStrDecodes(0xda, 2, s, tail);
    } else {
      LongStrDecodes(0xdb, 4, s, tail);
    }
  }

  lemma FixstrDecodes(s: Text, tail: Octets)
    requires |s| <= 31
    ensures Decode([(0xa0 + |s|) as u8] + s + tail) == Some((Str(s), tail))
  {
    var b := [(0xa0 + |s|) as u8] + s + tail;
    assert b[1..] == s + tail;
    assert (s + tail)[..|s|] == s && (s + tail)[|s|..] == tail;
  }

  lemma OneByte(n: nat)
    requires n < 256
    ensures BigEndian(n, 1) == [n as u8]
  {
    assert BigEndian(n, 1) == BigEndian(n / 256, 0) + [(n % 256) as u8];
  }

  lemma LongStrDecodes(tag: u8, width: nat, s: Text, tail: Octets)
    requires (tag == 0xd9 && width == 1) || (tag == 0xda && width == 2) || (tag == 0xdb && width == 4)
    requires |s| < Pow256(width)
    ensures Decode([tag] + BigEndian(|s|, width) + s + tail) == Some((Str(s), tail))
  {
    var b := [tag] + BigEndian(|s|, width) + s + tail;
    assert b[1..] == BigEndian(|s|, width) + (s + tail);
    ReadBack(width, |s|, s + tail);
    assert (s + tail)[..|s|] == s && (s + tail)[|s|..] == tail;
  }

  lemma F64Encodes(v: u64)
    ensures Encodes(F64Bytes(v), F64(v as int))
  {
    forall tail ensures Decode(F64Bytes(v) + tail) == Some((F64(v as int), tail)) {
      Pow256Values();
      assert (F64Bytes(v) + tail)[1..] == BigEndian(v as int, 8) + tail;
      ReadBack(8, v as int, tail);
    }
  }

  lemma U64Encodes(v: u64)
    ensures Encodes(U64Bytes(v), Int(v as int))
  {
    forall tail ensures Decode(U64Bytes(v) + tail) == Some((Int(v as int), tail)) {
      Pow256Values();
      assert (U64Bytes(v) + tail)[1..] == BigEndian(v as int, 8) + tail;
      ReadBack(8, v as int, tail);
    }
  }

  lemma NilEncodes()
    ensures Encodes(NIL, Nil)
  {
    forall tail ensures Decode(NIL + tail) == Some((Nil, tail)) {
      assert (NIL + tail)[1..] == tail;
    }
  }

  lemma OptF64Encodes(v: Option<u64>)
    ensures Encodes(OptF64Bytes(v), OptF64Value(v))
  {
    match v case None => NilEncodes(); case Some(x) => F64Encodes(x);
  }

  lemma OptI32Encodes(v: Option<i32>)
    ensures Encodes(OptI32Bytes(v), OptI32Value(v))
  {
    match v
    case None => NilEncodes();
    case Some(x) =>
      forall tail ensures Decode(OptI32Bytes(v) + tail) == Some((Int(x as int), tail)) {
        Pow256Values();
        assert (OptI32Bytes(v) + tail)[1..] == BigEndian(Unsigned(x), 4) + tail;
        ReadBack(4, Unsigned(x), tail);
      }
  }

  // ---- the fields of a tick -----------------------------------------------------------

  datatype Key =
    | KType | KStrike | KExpiry | KRight | KBid | KAsk | KBidSize | KAskSize | KTsNs | KBrokerRecvNs
    | KDepthBid0 | KDepthBid1 | KDepthAsk0 | KDepthAsk1

  function Name(k: Key): (s: string)
    ensures 0 < |s| <= 14 && forall c :: c in s ==> c < 128 as char
  {
    match k
    case KType => "type" case KStrike => "strike" case KExpiry => "expiry" case KRight => "right"
    case KBid => "bid" case KAsk => "ask" case KBidSize => "bid_size" case KAskSize => "ask_size"
    case KTsNs => "ts_ns" case KBrokerRecvNs => "broker_recv_ns"
    case KDepthBid0 => "depth_bid_0" case KDepthBid1 => "depth_bid_1"
    case KDepthAsk0 => "depth_ask_0" case KDepthAsk1 => "depth_ask_1"
  }

  function Ascii(s: string): (b: Text)
    requires forall c :: c in s ==> c < 128 as char
    ensures |b| == |s| && forall i :: 0 <= i < |s| ==> b[i] as int == s[i] as int
  {
    seq(|s|, i requires 0 <= i < |s| => assert s[i] in s; s[i] as int as u8)
  }

  function KeyBytes(k: Key): (b: Octets)
    ensures 1 <= |b| <= 15
  {
    [(0xa0 + |Name(k)|) as u8] + Ascii(Name(k))
  }

  lemma NamesDistinct(a: Key, b: Key)
    requires a != b
    ensures Name(a) != Name(b)
  {
    var m, n := Name(a), Name(b);
    if |m| == |n| {
      assert m[|m| - 1] != n[|n| - 1] || m[0] != n[0] || m[|m| - 3] != n[|n| - 3];
    }
  }

  lemma AsciiInjective(s: string, t: string)
    requires forall c :: c in s ==> c < 128 as char
    requires forall c :: c in t ==> c < 128 as char
    requires s != t
    ensures Ascii(s) != Ascii(t)
  {
    if |s| == |t| {
      var i :| 0 <= i < |s| && s[i] != t[i];
      assert Ascii(s)[i] != Ascii(t)[i];
    }
  }

  /** What a field holds, before it is turned into bytes. */
  datatype Content = Chars(s: Text) | Bits(v: u64) | MaybeBits(b: Option<u64>) | MaybeInt(n: Option<i32>) | Nanos(t: u64)

  function ContentBytes(c: Content): (b: Octets)
  {
    match c
    case Chars(s) => StrBytes(s)
    case Bits(v) => F64Bytes(v)
    case MaybeBits(v) => OptF64Bytes(v)
    case MaybeInt(v) => OptI32Bytes(v)
    case Nanos(v) => U64Bytes(v)
  }

  function ContentValue(c: Content): (v: Value)
  {
    match c
    case Chars(s) => Str(s)
    case Bits(v) => F64(v as int)
    case MaybeBits(v) => OptF64Value(v)
    case MaybeInt(v) => OptI32Value(v)
    case Nanos(v) => Int(v as int)
  }

  datatype Field = Field(key: Key, content: Content)

  function Optional(k: Key, v: Option<u64>): (fs: seq<Field>)
  {
    if v.Some? then [Field(k, Bits(v.value))] else []
  }

  function Always(ev: TickEvent): (fs: seq<Field>)
    ensures |fs| == 10
  {
    [Field(KType, Chars(ev.ty)), Field(KStrike, Bits(ev.strike)), Field(KExpiry, Chars(ev.expiry)),
     Field(KRight, Chars(ev.right)), Field(KBid, MaybeBits(ev.bid)), Field(KAsk, MaybeBits(ev.ask)),
     Field(KBidSize, MaybeInt(ev.bidSize)), Field(KAskSize, MaybeInt(ev.askSize)),
     Field(KTsNs, Nanos(ev.tsNs)), Field(KBrokerRecvNs, Nanos(ev.brokerRecvNs))]
  }

  function Depth(ev: TickEvent): (fs: seq<Field>)
  {
    Optional(KDepthBid0, ev.depthBid0) + Optional(KDepthBid1, ev.depthBid1)
    + Optional(KDepthAsk0, ev.depthAsk0) + Optional(KDepthAsk1, ev.depthAsk1)
  }

  function FieldsOf(ev: TickEvent): (fs: seq<Field>)
  {
    Always(ev) + Depth(ev)
  }

  function OneField(f: Field): (b: Octets)
  {
    KeyBytes(f.key) + ContentBytes(f.content)
  }

  function FieldBytes(fs: seq<Field>): (b: Octets)
  {
    if fs == [] then [] else FieldBytes(fs[..|fs| - 1]) + OneField(fs[|fs| - 1])
  }

  /** The frame body of a tick: map header, then key and value of every field in order. */
  function TickBytes(ev: TickEvent): (b: Octets)
  {
    [(0x80 + |FieldsOf(ev)|) as u8] + FieldBytes(FieldsOf(ev))
  }

  // ---- writing ---------------------------------------------------------------------------

  /** The reusable encode buffer. */
  class EncodeBuffer {
    var buf: Octets

    constructor ()
      ensures buf == []
    {
      buf := [];
    }

    method WriteFixstr(k: Key)
      modifies this
      ensures buf == old(buf) + KeyBytes(k)
    {
      var name := Name(k);
      AppendAssoc(buf, [(0xa0 + |name|) as u8], Ascii(name));
      buf := buf + [(0xa0 + |name|) as u8];
      buf := buf + Ascii(name);
    }

    method WriteStr(s: Text)
      modifies this
      ensures buf == old(buf) + StrBytes(s)
    {
      if |s| <= 31 {
        AppendAssoc(buf, [(0xa0 + |s|) as u8], s);
        buf := buf + [(0xa0 + |s|) as u8];
      } else if |s| <= 255 {
        AppendThree(buf, [0xd9], [|s| as u8], s);
        assert [0xd9] + ([|s| as u8] + s) == [0xd9, |s| as u8] + s;
        buf := buf + [0xd9];
        buf := buf + [|s| as u8];
      } else if |s| <= U16_MAX {
        AppendThree(buf, [0xda], BigEndian(|s|, 2), s);
        AppendAssoc([0xda], BigEndian(|s|, 2), s);
        buf := buf + [0xda];
        buf := buf + BigEndian(|s|, 2);
      } else {
        AppendThree(buf, [0xdb], BigEndian(|s|, 4), s);
        AppendAssoc([0xdb], BigEndian(|s|, 4), s);
        buf := buf + [0xdb];
        buf := buf + BigEndian(|s|, 4);
      }
      buf := buf + s;
    }

    method WriteStrKv(k: Key, s: Text)
      modifies this
      ensures buf == old(buf) + OneField(Field(k, Chars(s)))
    {
      AppendAssoc(buf, KeyBytes(k), StrBytes(s));
      WriteFixstr(k);
      WriteStr(s);
    }

    method WriteF64Kv(k: Key, v: u64)
      modifies this
      ensures buf == old(buf) + OneField(Field(k, Bits(v)))
    {
      AppendThree(buf, KeyBytes(k), [0xcb], BigEndian(v as int, 8));
      WriteFixstr(k);
      buf := buf + [0xcb];
      buf := buf + BigEndian(v as int, 8);
    }

    method WriteOptF64Kv(k: Key, v: Option<u64>)
      modifies this
      ensures buf == old(buf) + OneField(Field(k, MaybeBits(v)))
    {
      ghost var start := buf;
      WriteFixstr(k);
      match v
      case Some(x) =>
        AppendThree(start, KeyBytes(k), [0xcb], BigEndian(x as int, 8));
        buf := buf + [0xcb];
        buf := buf + BigEndian(x as int, 8);
      case None =>
        AppendAssoc(start, KeyBytes(k), NIL);
        buf := buf + NIL;
    }

    method WriteOptI32Kv(k: Key, v: Option<i32>)
      modifies this
      ensures buf == old(buf) + OneField(Field(k, MaybeInt(v)))
    {
      ghost var start := buf;
      WriteFixstr(k);
      match v
      case Some(x) =>
        AppendThree(start, KeyBytes(k), [0xd2], BigEndian(Unsigned(x), 4));
        buf := buf + [0xd2];
        buf := buf + BigEndian(Unsigned(x), 4);
      case None =>
        AppendAssoc(start, KeyBytes(k), NIL);
        buf := buf + NIL;
    }

    method WriteU64Kv(k: Key, v: u64)
      modifies this
      ensures buf == old(buf) + OneField(Field(k, Nanos(v)))
    {
      AppendThree(buf, KeyBytes(k), [0xcf], BigEndian(v as int, 8));
      WriteFixstr(k);
      buf := buf + [0xcf];
      buf := buf + BigEndian(v as int, 8);
    }

    /** The ten fields that are always there: what the tick is about, then what it says. */
    method WriteAlways(ev: TickEvent)
      modifies this
      ensures buf == old(buf) + FieldBytes(Always(ev))
    {
      ghost var start := buf;
      WriteIdentity(ev);
      WriteQuote(ev, start);
    }

    method WriteIdentity(ev: TickEvent)
      modifies this
      ensures buf == old(buf) + FieldBytes(Always(ev)[..4])
    {
      ghost var start := buf;
      WriteTypeAndStrike(ev);
      WriteStrKv(KExpiry, ev.expiry);               Snoc(start, Always(ev), 2);
      WriteStrKv(KRight, ev.right);                 Snoc(start, Always(ev), 3);
    }

    method WriteTypeAndStrike(ev: TickEvent)
      modifies this
      ensures buf == old(buf) + FieldBytes(Always(ev)[..2])
    {
      TwoFields(buf, Field(KType, Chars(ev.ty)), Field(KStrike, Bits(ev.strike)));
      assert Always(ev)[..2] == [Field(KType, Chars(ev.ty)), Field(KStrike, Bits(ev.strike))];
      WriteStrKv(KType, ev.ty);
      WriteF64Kv(KStrike, ev.strike);
    }

    method WriteQuote(ev: TickEvent, ghost start: Octets)
      requires buf == start + FieldBytes(Always(ev)[..4])
      modifies this
      ensures buf == start + FieldBytes(Always(ev))
    {
      ghost var fs := Always(ev);
      WriteOptF64Kv(KBid, ev.bid);                  Snoc(start, fs, 4);
      WriteOptF64Kv(KAsk, ev.ask);                  Snoc(start, fs, 5);
      WriteOptI32Kv(KBidSize, ev.bidSize);          Snoc(start, fs, 6);
      WriteSizeAndStamps(ev, start);
    }

    method WriteSizeAndStamps(ev: TickEvent, ghost start: Octets)
      requires buf == start + FieldBytes(Always(ev)[..7])
      modifies this
      ensures buf == start + FieldBytes(Always(ev))
    {
      ghost var fs := Always(ev);
      WriteOptI32Kv(KAskSize, ev.askSize);          Snoc(start, fs, 7);
      WriteU64Kv(KTsNs, ev.tsNs);                   Snoc(start, fs, 8);
      WriteU64Kv(KBrokerRecvNs, ev.brokerRecvNs);   Snoc(start, fs, 9);
      assert fs[..10] == fs;
    }

    /** A depth price goes out only when there is one. */
    method WriteDepth(ghost done: seq<Field>, ghost start: Octets, k: Key, v: Option<u64>)
      requires buf == start + FieldBytes(done)
      modifies this
      ensures buf == start + FieldBytes(done + Optional(k, v))
    {
      if v.Some? {
        WriteF64Kv(k, v.value);
        NextField(start, done, Field(k, Bits(v.value)));
      } else {
        assert done + Optional(k, v) == done;
      }
    }

    method WriteDepths(ev: TickEvent, ghost start: Octets, ghost done: seq<Field>)
      requires buf == start + FieldBytes(done)
      modifies this
      ensures buf == start + FieldBytes(done + Depth(ev))
    {
      ghost var b0, b1 := Optional(KDepthBid0, ev.depthBid0), Optional(KDepthBid1, ev.depthBid1);
      ghost var a0, a1 := Optional(KDepthAsk0, ev.depthAsk0), Optional(KDepthAsk1, ev.depthAsk1);
      WriteDepth(done, start, KDepthBid0, ev.depthBid0);
      WriteDepth(done + b0, start, KDepthBid1, ev.depthBid1);
      AppendAssoc(done, b0, b1);
      WriteDepth(done + (b0 + b1), start, KDepthAsk0, ev.depthAsk0);
      AppendAssoc(done, b0 + b1, a0);
      WriteDepth(done + (b0 + b1 + a0), start, KDepthAsk1, ev.depthAsk1);
      AppendAssoc(done, b0 + b1 + a0, a1);
    }

    /** The map header counts ten fields and the depth prices that are there. */
    method WriteHeader(ev: TickEvent)
      modifies this
      ensures buf == old(buf) + [(0x80 + |FieldsOf(ev)|) as u8]
    {
      var fieldCount := 10;
      if ev.depthBid0.Some? { fieldCount := fieldCount + 1; }
      if ev.depthBid1.Some? { fieldCount := fieldCount + 1; }
      if ev.depthAsk0.Some? { fieldCount := fieldCount + 1; }
      if ev.depthAsk1.Some? { fieldCount := fieldCount + 1; }
      buf := buf + [(0x80 + fieldCount) as u8];
    }

    /** encode_tick_into. */
    method EncodeTickInto(ev: TickEvent)
      modifies this
      ensures buf == old(buf) + TickBytes(ev)
    {
      ghost var before := buf;
      WriteHeader(ev);
      ghost var start := buf;
      WriteAlways(ev);
      WriteDepths(ev, start, Always(ev));
      AppendAssoc(before, [(0x80 + |FieldsOf(ev)|) as u8], FieldBytes(FieldsOf(ev)));
    }
  }

  lemma TwoFields(start: Octets, f: Field, g: Field)
    ensures start + OneField(f) + OneField(g) == start + FieldBytes([f, g])
  {
    FirstField(f);
    NextField(start, [f], g);
    assert [f] + [g] == [f, g];
  }

  lemma FirstField(f: Field)
    ensures FieldBytes([f]) == OneField(f)
  {
    var b := OneField(f);
    assert [f][..0] == [];
    assert [] + b == b;
  }

  /** Writing the next field extends the bytes of the fields written so far. */
  lemma Snoc(start: Octets, fs: seq<Field>, i: nat)
    requires i < |fs|
    ensures start + FieldBytes(fs[..i]) + OneField(fs[i]) == start + FieldBytes(fs[..i + 1])
  {
    assert fs[..i + 1][..i] == fs[..i];
  }

  lemma NextField(start: Octets, done: seq<Field>, f: Field)
    ensures start + FieldBytes(done) + OneField(f) == start + FieldBytes(done + [f])
  {
    var fs := done + [f];
    assert fs[..|done|] == done && fs[..|done| + 1] == fs;
    Snoc(start, fs, |done|);
  }

  // ---- reading the fields back ----------------------------------------------------------

  /** A key and a value as bytes, and what each decodes to. */
  datatype Piece = Piece(keyBytes: Octets, key: Value, bytes: Octets, value: Value)

  function PieceBytes(ps: seq<Piece>): (b: Octets)
  {
    if ps == [] then [] else PieceBytes(ps[..|ps| - 1]) + (ps[|ps| - 1].keyBytes + ps[|ps| - 1].bytes)
  }

  function Pairs(ps: seq<Piece>): (vs: seq<(Value, Value)>)
    ensures |vs| == |ps| && forall i :: 0 <= i < |ps| ==> vs[i] == (ps[i].key, ps[i].value)
  {
    seq(|ps|, i requires 0 <= i < |ps| => (ps[i].key, ps[i].value))
  }

  type Decoder = Octets -> Parsed
  type ParsedPairs = Option<(seq<(Value, Value)>, Octets)>

  /** Reading n pairs with some value decoder; the format's own reading is this with its own decoder. */
  function PairsWith(dec: Decoder, b: Octets, n: nat): (r: ParsedPairs)
    decreases n
  {
    if n == 0 then Some(([], b))
    else
      match dec(b)
      case None => None
      case Some((k, b1)) =>
        match dec(b1)
        case None => None
        case Some((v, b2)) => After([(k, v)], PairsWith(dec, b2, n - 1))
  }

  /** Pairs already read, followed by what the rest of the map reads as. */
  function After(ps: seq<(Value, Value)>, r: ParsedPairs): (r': ParsedPairs)
  {
    match r
    case None => None
    case Some((more, rest)) => Some((ps + more, rest))
  }

  lemma {:induction false} PairsWithDecode(dec: Decoder, b: Octets, n: nat)
    requires forall x :: dec(x) == Decode(x)
    ensures DecodePairs(b, n) == PairsWith(dec, b, n)
    decreases n
  {
    if n > 0 && Decode(b).Some? {
      var b1 := Decode(b).value.1;
      if Decode(b1).Some? {
        PairsWithDecode(dec, Decode(b1).value.1, n - 1);
      }
    }
  }

  lemma AfterAfter(ps: seq<(Value, Value)>, qs: seq<(Value, Value)>, r: ParsedPairs)
    ensures After(ps, After(qs, r)) == After(ps + qs, r)
  {
    match r
    case None =>
    case Some((more, _)) => AppendAssoc(ps, qs, more);
  }

  /** The decoder reads `b` as `v` whatever follows. */
  ghost predicate Reads(dec: Decoder, b: Octets, v: Value)
  {
    forall tail :: dec(b + tail) == Some((v, tail))
  }

  lemma OnePair(dec: Decoder, p: Piece, n: nat, tail: Octets)
    requires Reads(dec, p.keyBytes, p.key) && Reads(dec, p.bytes, p.value)
    ensures PairsWith(dec, p.keyBytes + p.bytes + tail, n + 1) == After([(p.key, p.value)], PairsWith(dec, tail, n))
  {
    AppendAssoc(p.keyBytes, p.bytes, tail);
    assert dec(p.keyBytes + (p.bytes + tail)) == Some((p.key, p.bytes + tail));
    assert dec(p.bytes + tail) == Some((p.value, tail));
  }

  lemma AfterNothing(ps: seq<(Value, Value)>, r: ParsedPairs)
    requires ps == []
    ensures After(ps, r) == r
  {
    match r
    case None =>
    case Some((more, _)) => assert ps + more == more;
  }

  lemma PairsSnoc(ps: seq<Piece>)
    requires ps != []
    ensures var p := ps[|ps| - 1]; Pairs(ps[..|ps| - 1]) + [(p.key, p.value)] == Pairs(ps)
  {
  }

  /** A run of pieces decodes to its pairs, then the rest of the map follows. */
  lemma {:induction false} PiecesDecode(dec: Decoder, ps: seq<Piece>, n: nat, tail: Octets)
    requires forall p :: p in ps ==> Reads(dec, p.keyBytes, p.key) && Reads(dec, p.bytes, p.value)
    ensures PairsWith(dec, PieceBytes(ps) + tail, |ps| + n) == After(Pairs(ps), PairsWith(dec, tail, n))
  {
    if ps == [] {
      assert PieceBytes(ps) + tail == tail;
      AfterNothing(Pairs(ps), PairsWith(dec, tail, n));
    } else {
      var init, p := ps[..|ps| - 1], ps[|ps| - 1];
      var one := p.keyBytes + p.bytes;
      calc {
        PairsWith(dec, PieceBytes(ps) + tail, |ps| + n);
        { AppendAssoc(PieceBytes(init), one, tail); }
        PairsWith(dec, PieceBytes(init) + (one + tail), |init| + (n + 1));
        { PiecesDecode(dec, init, n + 1, one + tail); }
        After(Pairs(init), PairsWith(dec, one + tail, n + 1));
        { OnePair(dec, p, n, tail); }
        After(Pairs(init), After([(p.key, p.value)], PairsWith(dec, tail, n)));
        { AfterAfter(Pairs(init), [(p.key, p.value)], PairsWith(dec, tail, n)); }
        After(Pairs(init) + [(p.key, p.value)], PairsWith(dec, tail, n));
        { PairsSnoc(ps); }
        After(Pairs(ps), PairsWith(dec, tail, n));
      }
    }
  }

  function KeyValue(k: Key): (v: Value)
  {
    Str(Ascii(Name(k)))
  }

  function PieceOf(f: Field): (p: Piece)
  {
    Piece(KeyBytes(f.key), KeyValue(f.key), ContentBytes(f.content), ContentValue(f.content))
  }

  function PiecesOf(fs: seq<Field>): (ps: seq<Piece>)
    ensures |ps| == |fs| && forall i :: 0 <= i < |fs| ==> ps[i] == PieceOf(fs[i])
  {
    seq(|fs|, i requires 0 <= i < |fs| => PieceOf(fs[i]))
  }

  lemma {:induction false} FieldsAsPieces(fs: seq<Field>)
    ensures FieldBytes(fs) == PieceBytes(PiecesOf(fs))
  {
    if fs != [] {
      FieldsAsPieces(fs[..|fs| - 1]);
      assert PiecesOf(fs)[..|fs| - 1] == PiecesOf(fs[..|fs| - 1]);
    }
  }

  lemma KeyReads(dec: Decoder, k: Key)
    requires forall x :: dec(x) == Decode(x)
    ensures Reads(dec, KeyBytes(k), KeyValue(k))
  {
    forall tail ensures dec(KeyBytes(k) + tail) == Some((KeyValue(k), tail)) {
      FixstrDecodes(Ascii(Name(k)), tail);
    }
  }

  lemma ContentReads(dec: Decoder, c: Content)
    requires forall x :: dec(x) == Decode(x)
    requires c.Chars? ==> |c.s| < TWO_32
    ensures Reads(dec, ContentBytes(c), ContentValue(c))
  {
    match c
    case Chars(s) => StrEncodes(s);
    case Bits(v) => F64Encodes(v);
    case MaybeBits(v) => OptF64Encodes(v);
    case MaybeInt(v) => OptI32Encodes(v);
    case Nanos(v) => U64Encodes(v);
  }

  // ---- looking fields up -------------------------------------------------------------------

  /** The value under a name; the first one if the name is repeated. */
  function Lookup(ps: seq<(Value, Value)>, name: Value): (v: Option<Value>)
  {
    if ps == [] then None else if ps[0].0 == name then Some(ps[0].1) else Lookup(ps[1..], name)
  }

  lemma {:induction false} LookupAt(ps: seq<(Value, Value)>, i: nat)
    requires i < |ps| && forall j :: 0 <= j < i ==> ps[j].0 != ps[i].0
    ensures Lookup(ps, ps[i].0) == Some(ps[i].1)
  {
    if i > 0 {
      LookupAt(ps[1..], i - 1);
    }
  }

  lemma {:induction false} LookupMissing(ps: seq<(Value, Value)>, name: Value)
    requires forall i :: 0 <= i < |ps| ==> ps[i].0 != name
    ensures Lookup(ps, name) == None
  {
    if ps != [] {
      LookupMissing(ps[1..], name);
    }
  }

  lemma KeyValuesDistinct(a: Key, b: Key)
    requires a != b
    ensures KeyValue(a) != KeyValue(b)
  {
    NamesDistinct(a, b);
    AsciiInjective(Name(a), Name(b));
  }

  function Rank(k: Key): (n: nat)
    ensures n < 14
  {
    match k
    case KType => 0 case KStrike => 1 case KExpiry => 2 case KRight => 3 case KBid => 4 case KAsk => 5
    case KBidSize => 6 case KAskSize => 7 case KTsNs => 8 case KBrokerRecvNs => 9
    case KDepthBid0 => 10 case KDepthBid1 => 11 case KDepthAsk0 => 12 case KDepthAsk1 => 13
  }

  predicate KeysDistinct(fs: seq<Field>)
  {
    forall i, j :: 0 <= i < j < |fs| ==> fs[i].key != fs[j].key
  }

  /** Fields in the order of their keys, all of rank lo..hi. */
  predicate Ordered(fs: seq<Field>, lo: nat, hi: nat)
  {
    && (forall i :: 0 <= i < |fs| ==> lo <= Rank(fs[i].key) < hi)
    && (forall i, j :: 0 <= i < j < |fs| ==> Rank(fs[i].key) < Rank(fs[j].key))
  }

  lemma OrderedAppend(a: seq<Field>, b: seq<Field>, lo: nat, mid: nat, hi: nat)
    requires Ordered(a, lo, mid) && Ordered(b, mid, hi) && lo <= mid <= hi
    ensures Ordered(a + b, lo, hi)
  {
  }

  lemma AlwaysRanks(ev: TickEvent)
    ensures forall i :: 0 <= i < 10 ==> Rank(Always(ev)[i].key) == i
  {
  }

  lemma AlwaysOrdered(ev: TickEvent)
    ensures Ordered(Always(ev), 0, 10)
  {
    var fs := Always(ev);
    AlwaysRanks(ev);
    assert |fs| == 10;
  }

  lemma OptionalOrdered(k: Key, v: Option<u64>)
    ensures Ordered(Optional(k, v), Rank(k), Rank(k) + 1) && |Optional(k, v)| <= 1
  {
  }

  lemma DepthOrdered(ev: TickEvent)
    ensures Ordered(Depth(ev), 10, 14) && |Depth(ev)| <= 4
  {
    var b0, b1 := Optional(KDepthBid0, ev.depthBid0), Optional(KDepthBid1, ev.depthBid1);
    var a0, a1 := Optional(KDepthAsk0, ev.depthAsk0), Optional(KDepthAsk1, ev.depthAsk1);
    OptionalOrdered(KDepthBid0, ev.depthBid0);
    OptionalOrdered(KDepthBid1, ev.depthBid1);
    OptionalOrdered(KDepthAsk0, ev.depthAsk0);
    OptionalOrdered(KDepthAsk1, ev.depthAsk1);
    OrderedAppend(b0, b1, 10, 11, 12);
    OrderedAppend(b0 + b1, a0, 10, 12, 13);
    OrderedAppend(b0 + b1 + a0, a1, 10, 13, 14);
  }

  lemma OrderedDistinct(fs: seq<Field>)
    requires Ordered(fs, 0, 14)
    ensures KeysDistinct(fs)
  {
  }

  /** The keys of one message are distinct, and the header counts its pairs: ten, and one per depth price. */
  lemma {:induction false} HeaderCountsDistinctKeys(ev: TickEvent)
    ensures KeysDistinct(FieldsOf(ev)) && 10 <= |FieldsOf(ev)| <= 14
  {
    var a, d := Always(ev), Depth(ev);
    AlwaysOrdered(ev);
    DepthOrdered(ev);
    OrderedAppend(a, d, 0, 10, 14);
    OrderedDistinct(a + d);
  }

  /** The content a reader should find under each key. */
  function Expected(ev: TickEvent, k: Key): (c: Option<Content>)
  {
    match k
    case KType => Some(Chars(ev.ty))
    case KStrike => Some(Bits(ev.strike))
    case KExpiry => Some(Chars(ev.expiry))
    case KRight => Some(Chars(ev.right))
    case KBid => Some(MaybeBits(ev.bid))
    case KAsk => Some(MaybeBits(ev.ask))
    case KBidSize => Some(MaybeInt(ev.bidSize))
    case KAskSize => Some(MaybeInt(ev.askSize))
    case KTsNs => Some(Nanos(ev.tsNs))
    case KBrokerRecvNs => Some(Nanos(ev.brokerRecvNs))
    case KDepthBid0 => Present(ev.depthBid0)
    case KDepthBid1 => Present(ev.depthBid1)
    case KDepthAsk0 => Present(ev.depthAsk0)
    case KDepthAsk1 => Present(ev.depthAsk1)
  }

  function Present(v: Option<u64>): (c: Option<Content>)
  {
    if v.Some? then Some(Bits(v.value)) else None
  }

  lemma OptionalExpected(ev: TickEvent, k: Key, v: Option<u64>)
    requires Expected(ev, k) == Present(v)
    ensures forall f :: f in Optional(k, v) ==> f.key == k && Expected(ev, f.key) == Some(f.content)
    ensures v.Some? ==> Field(k, Bits(v.value)) in Optional(k, v)
  {
  }

  lemma DepthMember(ev: TickEvent, f: Field)
    ensures f in FieldsOf(ev) <==>
            f in Always(ev) || f in Optional(KDepthBid0, ev.depthBid0) || f in Optional(KDepthBid1, ev.depthBid1)
            || f in Optional(KDepthAsk0, ev.depthAsk0) || f in Optional(KDepthAsk1, ev.depthAsk1)
  {
  }

  /** The fields carry exactly the expected contents. */
  lemma FieldExpected(ev: TickEvent, f: Field)
    ensures f in FieldsOf(ev) <==> Expected(ev, f.key) == Some(f.content)
  {
    DepthMember(ev, f);
    OptionalExpected(ev, KDepthBid0, ev.depthBid0);
    OptionalExpected(ev, KDepthBid1, ev.depthBid1);
    OptionalExpected(ev, KDepthAsk0, ev.depthAsk0);
    OptionalExpected(ev, KDepthAsk1, ev.depthAsk1);
    AlwaysExpected(ev, f);
  }

  lemma AlwaysExpected(ev: TickEvent, f: Field)
    ensures f in Always(ev) <==> Rank(f.key) < 10 && Expected(ev, f.key) == Some(f.content)
  {
    if Rank(f.key) < 10 {
      assert Always(ev)[Rank(f.key)].key == f.key;
    }
    AlwaysRanks(ev);
  }

  /** What a reader finds under a key in the decoded map of a tick. */
  lemma LookupExpected(ev: TickEvent, k: Key)
    ensures var ps := Pairs(PiecesOf(FieldsOf(ev)));
            Lookup(ps, KeyValue(k)) == match Expected(ev, k) case None => None case Some(c) => Some(ContentValue(c))
  {
    var fs := FieldsOf(ev);
    var ps := Pairs(PiecesOf(fs));
    HeaderCountsDistinctKeys(ev);
    forall i | 0 <= i < |fs| ensures ps[i] == (KeyValue(fs[i].key), ContentValue(fs[i].content)) {
    }
    match Expected(ev, k)
    case Some(c) =>
      FieldExpected(ev, Field(k, c));
      var i :| 0 <= i < |fs| && fs[i] == Field(k, c);
      forall j | 0 <= j < i ensures ps[j].0 != ps[i].0 {
        KeyValuesDistinct(fs[j].key, k);
      }
      LookupAt(ps, i);
    case None =>
      forall i | 0 <= i < |fs| ensures ps[i].0 != KeyValue(k) {
        FieldExpected(ev, fs[i]);
        KeyValuesDistinct(fs[i].key, k);
      }
      LookupMissing(ps, KeyValue(k));
  }

  function AsText(v: Option<Value>): (t: Text)
  {
    if v.Some? && v.value.Str? then v.value.text else []
  }

  function AsBits(v: Option<Value>): (b: Option<u64>)
  {
    if v.Some? && v.value.F64? && v.value.bits < TWO_64 then Some(v.value.bits as u64) else None
  }

  function AsInt32(v: Option<Value>): (n: Option<i32>)
  {
    if v.Some? && v.value.Int? && -0x8000_0000 <= v.value.n < 0x8000_0000 then Some(v.value.n as i32) else None
  }

  function AsU64(v: Option<Value>): (n: u64)
  {
    if v.Some? && v.value.Int? && 0 <= v.value.n < TWO_64 then v.value.n as u64 else 0
  }

  /** The tick a decoded map describes; a nil or missing optional field is absent. */
  function ReadTick(look: Key -> Option<Value>): (ev: TickEvent)
  {
    TickEvent(AsText(look(KType)), AsBits(look(KStrike)).Or(Some(0)).value, AsText(look(KExpiry)), AsText(look(KRight)),
              AsBits(look(KBid)), AsBits(look(KAsk)), AsInt32(look(KBidSize)), AsInt32(look(KAskSize)),
              AsU64(look(KTsNs)), AsU64(look(KBrokerRecvNs)),
              AsBits(look(KDepthBid0)), AsBits(look(KDepthBid1)), AsBits(look(KDepthAsk0)), AsBits(look(KDepthAsk1)))
  }

  /** A reader that finds what it should. */
  ghost predicate Finds(ev: TickEvent, look: Key -> Option<Value>)
  {
    forall k :: look(k) == match Expected(ev, k) case None => None case Some(c) => Some(ContentValue(c))
  }

  lemma ReadsTexts(ev: TickEvent, look: Key -> Option<Value>)
    requires Finds(ev, look)
    ensures AsText(look(KType)) == ev.ty && AsText(look(KExpiry)) == ev.expiry && AsText(look(KRight)) == ev.right
    ensures AsU64(look(KTsNs)) == ev.tsNs && AsU64(look(KBrokerRecvNs)) == ev.brokerRecvNs
  {
  }

  lemma ReadsQuotes(ev: TickEvent, look: Key -> Option<Value>)
    requires Finds(ev, look)
    ensures AsBits(look(KStrike)) == Some(ev.strike) && AsBits(look(KBid)) == ev.bid && AsBits(look(KAsk)) == ev.ask
    ensures AsInt32(look(KBidSize)) == ev.bidSize && AsInt32(look(KAskSize)) == ev.askSize
  {
  }

  lemma ReadsDepth(ev: TickEvent, look: Key -> Option<Value>)
    requires Finds(ev, look)
    ensures AsBits(look(KDepthBid0)) == ev.depthBid0 && AsBits(look(KDepthBid1)) == ev.depthBid1
    ensures AsBits(look(KDepthAsk0)) == ev.depthAsk0 && AsBits(look(KDepthAsk1)) == ev.depthAsk1
  {
  }

  lemma ReadsExpected(ev: TickEvent, look: Key -> Option<Value>)
    requires Finds(ev, look)
    ensures ReadTick(look) == ev
  {
    ReadsTexts(ev, look);
    ReadsQuotes(ev, look);
    ReadsDepth(ev, look);
  }

  /** Decode one value and read it as a tick. */
  function DecodeTick(b: Octets): (r: Option<(TickEvent, Octets)>)
  {
    match Decode(b)
    case Some((Map(ps), rest)) => Some((ReadTick(k => Lookup(ps, KeyValue(k))), rest))
    case _ => None
  }

  ghost predicate ShortTexts(ev: TickEvent)
  {
    |ev.ty| < TWO_32 && |ev.expiry| < TWO_32 && |ev.right| < TWO_32
  }

  lemma MapDecodes(n: nat, b: Octets)
    requires n < 16
    ensures Decode([(0x80 + n) as u8] + b) == DecodeMap(b, n)
  {
    assert ([(0x80 + n) as u8] + b)[1..] == b;
  }

  predicate TextsFit(fs: seq<Field>)
  {
    forall i :: 0 <= i < |fs| ==> TextFits(fs[i])
  }

  predicate TextFits(f: Field)
  {
    f.content.Chars? ==> |f.content.s| < TWO_32
  }

  lemma TextShort(ev: TickEvent, f: Field)
    requires ShortTexts(ev) && f in FieldsOf(ev)
    ensures TextFits(f)
  {
    FieldExpected(ev, f);
  }

  lemma TextsShort(ev: TickEvent)
    requires ShortTexts(ev)
    ensures TextsFit(FieldsOf(ev))
  {
    forall i | 0 <= i < |FieldsOf(ev)| ensures TextFits(FieldsOf(ev)[i]) {
      TextShort(ev, FieldsOf(ev)[i]);
    }
  }

  lemma FieldsRead(fs: seq<Field>, dec: Decoder)
    requires TextsFit(fs) && forall x :: dec(x) == Decode(x)
    ensures forall p :: p in PiecesOf(fs) ==> Reads(dec, p.keyBytes, p.key) && Reads(dec, p.bytes, p.value)
  {
    forall p | p in PiecesOf(fs) ensures Reads(dec, p.keyBytes, p.key) && Reads(dec, p.bytes, p.value) {
      var i :| 0 <= i < |fs| && p == PieceOf(fs[i]);
      assert TextFits(fs[i]);
      KeyReads(dec, fs[i].key);
      ContentReads(dec, fs[i].content);
    }
  }

  /** The bytes of any fields decode to their pairs, whatever follows. */
  lemma FieldsDecode(fs: seq<Field>, suffix: Octets)
    requires TextsFit(fs)
    ensures DecodePairs(FieldBytes(fs) + suffix, |fs|) == Some((Pairs(PiecesOf(fs)), suffix))
  {
    var dec := (x: Octets) => Decode(x);
    var ps := PiecesOf(fs);
    PairsWithDecode(dec, FieldBytes(fs) + suffix, |fs|);
    FieldsAsPieces(fs);
    FieldsRead(fs, dec);
    PiecesDecode(dec, ps, 0, suffix);
    assert Pairs(ps) + [] == Pairs(ps);
  }

  lemma TickDecodes(ev: TickEvent, suffix: Octets)
    requires ShortTexts(ev)
    ensures Decode(TickBytes(ev) + suffix) == Some((Map(Pairs(PiecesOf(FieldsOf(ev)))), suffix))
  {
    var n := |FieldsOf(ev)|;
    HeaderCountsDistinctKeys(ev);
    AppendAssoc([(0x80 + n) as u8], FieldBytes(FieldsOf(ev)), suffix);
    MapDecodes(n, FieldBytes(FieldsOf(ev)) + suffix);
    TextsShort(ev);
    FieldsDecode(FieldsOf(ev), suffix);
  }

  /**
   Round trip: whatever follows an encoded tick in the buffer, a reader of the format gets every field of the
   tick back, for every combination of present and absent fields, and is left with exactly the suffix.
   */
  lemma {:induction false} TickRoundTrip(ev: TickEvent, suffix: Octets)
    requires ShortTexts(ev)
    ensures DecodeTick(TickBytes(ev) + suffix) == Some((ev, suffix))
  {
    var ps := Pairs(PiecesOf(FieldsOf(ev)));
    var look := (k: Key) => Lookup(ps, KeyValue(k));
    forall k ensures look(k) == match Expected(ev, k) case None => None case Some(c) => Some(ContentValue(c)) {
      LookupExpected(ev, k);
    }
    ReadsExpected(ev, look);
    TickDecodes(ev, suffix);
  }
}
