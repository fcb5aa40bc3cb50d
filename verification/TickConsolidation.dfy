/**
 Consolidation of per-kind ticks into full quotes (ipc.rs): the fast path inside the dispatcher, seeded
 from market data, and the broadcast pump that replaces it when the broker has no fast path.
 */
module TickConsolidation {
  import opened Options

  datatype TickKind = Bid | Ask | Last | BidSize | AskSize | OptionVolume | OpenInterest

  /** A price, or a size after its cast to i32. */
  datatype Num = Price(p: real) | Size(n: int)

  datatype Tick = Tick(iid: int, kind: TickKind, price: Option<real>, size: Option<nat>, ts: nat)

  datatype Identity = Identity(strike: real, expiry: int, isCall: bool)

  datatype Depth = Depth(bid0: Option<real>, bid1: Option<real>, ask0: Option<real>, ask1: Option<real>)

  /** What market data says about the tick's instrument at that moment. */
  datatype View =
    | Underlying
    | Leg(id: Identity, bid: real, ask: real, bidSize: nat, askSize: nat, depth: Depth)
    | Unknown

  /** The cached quote of one instrument. */
  datatype Entry = Entry(id: Identity, bid: Option<Num>, ask: Option<Num>, bidSize: Option<Num>, askSize: Option<Num>)

  datatype Frame =
    | UnderlyingTick(price: real, ts: nat)
    | OptionTick(quote: Entry, depth: Depth, ts: nat)

  /** `u64 as i32`. */
  function WrapI32(n: nat): (w: int)
    ensures -0x8000_0000 <= w < 0x8000_0000
  {
    var low := n % 0x1_0000_0000;
    if low < 0x8000_0000 then low else low - 0x1_0000_0000
  }

  predicate Consumable(k: TickKind)
  {
    k == Bid || k == Ask || k == BidSize || k == AskSize
  }

  function Value(t: Tick): (v: Option<Num>)
  {
    if t.kind == Bid || t.kind == Ask then (match t.price case Some(p) => Some(Price(p)) case None => None)
    else (match t.size case Some(n) => Some(Size(WrapI32(n))) case None => None)
  }

  function Part(e: Entry, k: TickKind): (v: Option<Num>)
  {
    match k case Bid => e.bid case Ask => e.ask case BidSize => e.bidSize case AskSize => e.askSize case _ => None
  }

  function Update(e: Entry, k: TickKind, v: Option<Num>): (e': Entry)
    ensures forall j :: Consumable(j) && Consumable(k) ==> Part(e', j) == if j == k then v else Part(e, j)
    ensures e'.id == e.id
  {
    match k
    case Bid => e.(bid := v)
    case Ask => e.(ask := v)
    case BidSize => e.(bidSize := v)
    case AskSize => e.(askSize := v)
    case _ => e
  }

  function PositivePrice(x: real): (v: Option<Num>) { if x > 0.0 then Some(Price(x)) else None }

  function PositiveSize(n: nat): (v: Option<Num>) { if n > 0 then Some(Size(WrapI32(n))) else None }

  /** The fast path's starting entry: whatever market data already holds. */
  function Seeded(v: View): (e: Entry)
    requires v.Leg?
  {
    Entry(v.id, PositivePrice(v.bid), PositivePrice(v.ask), PositiveSize(v.bidSize), PositiveSize(v.askSize))
  }

  /** The pump's starting entry. */
  function Blank(v: View): (e: Entry)
    requires v.Leg?
  {
    Entry(v.id, None, None, None, None)
  }

  type Cache = map<int, Entry>

  /** Both paths publish underlying prices alike. */
  function UnderlyingFrame(t: Tick): (f: Option<Frame>)
  {
    if (t.kind == Bid || t.kind == Ask || t.kind == Last) && t.price.Some? && t.price.value > 0.0
    then Some(UnderlyingTick(t.price.value, t.ts)) else None
  }

  /** An event the caches see. */
  predicate Quotes(t: Tick, v: View)
  {
    Consumable(t.kind) && v.Leg?
  }

  /** The entry after a tick: the fast path refreshes a changed identity and keeps the prices. */
  function FastEntry(c: Cache, t: Tick, v: View): (e: Entry)
    requires Quotes(t, v)
  {
    Update((if t.iid in c then c[t.iid] else Seeded(v)).(id := v.id), t.kind, Value(t))
  }

  function PumpEntry(c: Cache, t: Tick, v: View): (e: Entry)
    requires Quotes(t, v)
  {
    Update(if t.iid in c then c[t.iid] else Blank(v), t.kind, Value(t))
  }

  /** What the publisher closure publishes: the kind is tested first, then the instrument, then the kind again. */
  function FastFrame(c: Cache, t: Tick, v: View): (f: Option<Frame>)
  {
    if !(Consumable(t.kind) || t.kind == Last) then None
    else
      match v
      case Underlying => UnderlyingFrame(t)
      case Unknown => None
      case Leg(_, _, _, _, _, depth) =>
        if t.kind == Last then None else Some(OptionTick(FastEntry(c, t, v), depth, t.ts))
  }

  /** What the pump publishes: the underlying is tested first, then the kind, then the instrument. */
  function PumpFrame(c: Cache, t: Tick, v: View): (f: Option<Frame>)
  {
    if v.Underlying? then UnderlyingFrame(t)
    else if !Consumable(t.kind) || v.Unknown? then None
    else Some(OptionTick(PumpEntry(c, t, v), v.depth, t.ts))
  }

  class Consolidator {
    var cache: Cache

    constructor ()
      ensures cache == map[]
    {
      cache := map[];
    }

    /** The publisher closure the dispatcher calls. */
    method FastPath(t: Tick, v: View) returns (frame: Option<Frame>)
      modifies this
      ensures cache == if Quotes(t, v) then old(cache)[t.iid := FastEntry(old(cache), t, v)] else old(cache)
      ensures frame == FastFrame(old(cache), t, v)
    {
      if !(Consumable(t.kind) || t.kind == Last) {
        return None;
      }
      if v.Underlying? {
        if t.kind == Bid || t.kind == Ask || t.kind == Last {
          match t.price
          case Some(price) =>
            if price > 0.0 {
              return Some(UnderlyingTick(price, t.ts));
            }
          case None =>
        }
        return None;
      }
      if !Consumable(t.kind) || v.Unknown? {
        return None;
      }
      if t.iid !in cache {
        cache := cache[t.iid := Seeded(v)];
      }
      var entry := cache[t.iid];
      if entry.id != v.id {
        entry := entry.(id := v.id);
      }
      entry := Update(entry, t.kind, Value(t));
      cache := cache[t.iid := entry];
      frame := Some(OptionTick(entry, v.depth, t.ts));
    }

    /** One turn of forward_ticks. */
    method Pump(t: Tick, v: View) returns (frame: Option<Frame>)
      modifies this
      ensures cache == if Quotes(t, v) then old(cache)[t.iid := PumpEntry(old(cache), t, v)] else old(cache)
      ensures frame == PumpFrame(old(cache), t, v)
    {
      if v.Underlying? {
        if t.kind == Bid || t.kind == Ask || t.kind == Last {
          match t.price
          case Some(price) =>
            if price > 0.0 {
              return Some(UnderlyingTick(price, t.ts));
            }
          case None =>
        }
        return None;
      }
      if !Consumable(t.kind) || v.Unknown? {
        return None;
      }
      if t.iid !in cache {
        cache := cache[t.iid := Blank(v)];
      }
      var entry := Update(cache[t.iid], t.kind, Value(t));
      cache := cache[t.iid := entry];
      frame := Some(OptionTick(entry, v.depth, t.ts));
    }
  }

  // ---- every tick history --------------------------------------------------------

  /** A tick and the market-data view it was published under. */
  datatype Event = Event(t: Tick, v: View)

  type History = seq<Event>

  function Caches(es: History, n: nat, fast: bool): (c: Cache)
    requires n <= |es|
  {
    if n == 0 then map[]
    else
      var c, e := Caches(es, n - 1, fast), es[n - 1];
      if !Quotes(e.t, e.v) then c
      else c[e.t.iid := if fast then FastEntry(c, e.t, e.v) else PumpEntry(c, e.t, e.v)]
  }

  /** What the path publishes for event `n`. */
  function Published(es: History, n: nat, fast: bool): (f: Option<Frame>)
    requires n < |es|
  {
    var c, e := Caches(es, n, fast), es[n];
    if fast then FastFrame(c, e.t, e.v) else PumpFrame(c, e.t, e.v)
  }

  predicate QuotesAt(es: History, n: nat, iid: int)
  {
    n < |es| && Quotes(es[n].t, es[n].v) && es[n].t.iid == iid
  }

  /** The value of the last tick of kind `k` on the instrument among the first `n` events. */
  function Latest(es: History, n: nat, iid: int, k: TickKind): (r: Option<Option<Num>>)
    requires n <= |es|
  {
    if n == 0 then None
    else if QuotesAt(es, n - 1, iid) && es[n - 1].t.kind == k then Some(Value(es[n - 1].t))
    else Latest(es, n - 1, iid, k)
  }

  /** The first event that made an entry for the instrument. */
  predicate IsFirst(es: History, f: nat, iid: int)
  {
    QuotesAt(es, f, iid) && forall i :: 0 <= i < f ==> !QuotesAt(es, i, iid)
  }

  /** What the entry starts with: the seed on the fast path, nothing on the pump. */
  function Start(v: View, fast: bool): (e: Entry)
    requires v.Leg?
  {
    if fast then Seeded(v) else Blank(v)
  }

  /** The cache refines "last value per kind": every part is the last value of its kind, or what the entry began with. */
  lemma {:induction false} EntryIsLatest(es: History, n: nat, fast: bool, f: nat, iid: int)
    requires n <= |es| && IsFirst(es, f, iid)
    ensures iid in Caches(es, n, fast) <==> f < n
    ensures f < n ==> forall k :: Consumable(k) ==>
              Part(Caches(es, n, fast)[iid], k) ==
              match Latest(es, n, iid, k) case Some(v) => v case None => Part(Start(es[f].v, fast), k)
    ensures f < n && !fast ==> Caches(es, n, fast)[iid].id == es[f].v.id
    ensures n <= f ==> forall k :: Latest(es, n, iid, k).None?
  {
    if n > 0 {
      EntryIsLatest(es, n - 1, fast, f, iid);
      if QuotesAt(es, n - 1, iid) {
        assert n - 1 >= f;
      }
    }
  }

  /**
   Every frame published for an option carries, for each kind, the latest value (or the seed, on the fast
   path, if there was none yet), its own event's depth and time, and - on the fast path - the identity
   market data gives now; on the pump the identity of the instrument's first event.
   */
  lemma FramesCarryLatest(es: History, n: nat, fast: bool, f: nat, iid: int)
    requires QuotesAt(es, n, iid) && IsFirst(es, f, iid)
    ensures Published(es, n, fast).Some? && Published(es, n, fast).value.OptionTick?
    ensures var o := Published(es, n, fast).value;
            && o.depth == es[n].v.depth && o.ts == es[n].t.ts
            && o.quote.id == (if fast then es[n].v.id else es[f].v.id)
            && forall k :: Consumable(k) ==>
                 Part(o.quote, k) == match Latest(es, n + 1, iid, k) case Some(v) => v case None => Part(Start(es[f].v, fast), k)
  {
    EntryIsLatest(es, n, fast, f, iid);
    EntryIsLatest(es, n + 1, fast, f, iid);
    assert n >= f;
  }

  lemma {:induction false} FirstExists(es: History, n: nat, iid: int) returns (f: nat)
    requires QuotesAt(es, n, iid)
    ensures f <= n && IsFirst(es, f, iid)
    decreases n
  {
    if i: nat :| i < n && QuotesAt(es, i, iid) {
      f := FirstExists(es, i, iid);
    } else {
      f := n;
    }
  }

  lemma {:induction false} LatestKept(es: History, a: nat, b: nat, iid: int, k: TickKind)
    requires a <= b <= |es| && Latest(es, a, iid, k).Some?
    ensures Latest(es, b, iid, k).Some?
    decreases b
  {
    if a < b {
      LatestKept(es, a, b - 1, iid, k);
    }
  }

  /** Market data held nothing of the other kinds when the instrument's first tick came. */
  predicate SeedEmpty(e: Event)
    requires e.v.Leg?
  {
    forall k :: Consumable(k) && k != e.t.kind ==> Part(Seeded(e.v), k).None?
  }

  /**
   When the two paths agree on one instrument: they publish the same frames for all its ticks if and only if
   the seed was empty of the other three kinds at its first tick and its identity never changed since.
   */
  lemma PathsAgreeExactly(es: History, f: nat, iid: int)
    requires IsFirst(es, f, iid)
    ensures (forall n: nat :: QuotesAt(es, n, iid) ==> Published(es, n, true) == Published(es, n, false)) <==>
            (SeedEmpty(es[f]) && forall n: nat :: QuotesAt(es, n, iid) ==> es[n].v.id == es[f].v.id)
  {
    forall n: nat | QuotesAt(es, n, iid)
      ensures Published(es, n, true) == Published(es, n, false) <==>
              es[n].v.id == es[f].v.id && forall k :: Consumable(k) && Latest(es, n + 1, iid, k).None? ==> Part(Seeded(es[f].v), k).None?
    {
      FramesAgree(es, n, f, iid);
    }
    forall n: nat, k | QuotesAt(es, n, iid) && Latest(es, n + 1, iid, k).None? && Consumable(k) ensures k != es[f].t.kind {
      if k == es[f].t.kind {
        assert f <= n;
        LatestKept(es, f + 1, n + 1, iid, k);
      }
    }
    forall k | Consumable(k) && k != es[f].t.kind ensures Latest(es, f + 1, iid, k).None? {
      EntryIsLatest(es, f, true, f, iid);
    }
  }

  lemma FramesAgree(es: History, n: nat, f: nat, iid: int)
    requires QuotesAt(es, n, iid) && IsFirst(es, f, iid)
    ensures Published(es, n, true) == Published(es, n, false) <==>
            es[n].v.id == es[f].v.id && forall k :: Consumable(k) && Latest(es, n + 1, iid, k).None? ==> Part(Seeded(es[f].v), k).None?
  {
    FramesCarryLatest(es, n, true, f, iid);
    FramesCarryLatest(es, n, false, f, iid);
    var a, b := Published(es, n, true).value.quote, Published(es, n, false).value.quote;
    assert forall k :: Part(Blank(es[f].v), k).None?;
    assert a == b <==> a.id == b.id && Part(a, Bid) == Part(b, Bid) && Part(a, Ask) == Part(b, Ask)
                       && Part(a, BidSize) == Part(b, BidSize) && Part(a, AskSize) == Part(b, AskSize);
  }

  /**
   Ticks that make no option quote are published alike by both paths, although they test kind and instrument in
   different orders: an underlying's positive prices, and nothing else.
   */
  lemma OthersAgree(es: History, n: nat)
    requires n < |es| && !Quotes(es[n].t, es[n].v)
    ensures Published(es, n, true) == Published(es, n, false)
    ensures Published(es, n, true) == if es[n].v.Underlying? then UnderlyingFrame(es[n].t) else None
  {
  }
}
