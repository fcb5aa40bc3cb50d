/**
 The part of BrokerState that place_order, modify_order and the dispatcher share: pending acks, the
 wire-timing stamps and the amend-price expectations (broker.rs). Each function below is one critical
 section of the state lock; a waiter's one-shot channel is named by a number.
 */
module AckState {
  import opened Options
  import opened Inbound

  /** What a waiter can find on its channel. A sender that is dropped unused closes the channel. */
  datatype Verdict = Acked | OrderRejected(reason: string) | ConnectionLost | ChannelDropped

  /** The sends (or drops of the sender) one critical section performs, by waiter. */
  type Sends = map<nat, Verdict>

  datatype Acks = Acks(
    pending: map<int, nat>,      // pending_place_acks: order id -> waiter
    wireSend: map<int, nat>,     // wire_send_ns
    wireAck: map<int, nat>,      // wire_ack_ns
    strictAck: map<int, nat>,    // strict_ack_ns
    expected: map<int, real>)    // expected_amend_prices

  const NO_ACKS: Acks := Acks(map[], map[], map[], map[], map[])

  const AMEND_PRICE_EPS: real := 0.000001

  predicate AcceptStatus(st: Status)
  {
    st == Submitted || st == PendingSubmit || st == Filled || st == Cancelled || st == PendingCancel
  }

  predicate IsOrderError(code: int)
  {
    code == 201 || code == 203 || code == 434 || code == 436 || code == 10148 || code == 10197
  }

  /** The message acknowledges this order id: any OpenOrder, or an OrderStatus in the accept set. */
  predicate Accepts(m: InboundMsg, oid: int)
  {
    match m
    case OpenOrder(o) => o.orderId == oid
    case OrderStatus(id, status, _, _) => id == oid && AcceptStatus(status)
    case _ => false
  }

  /** The message rejects this order id: an order-class error carrying it. */
  predicate Rejects(m: InboundMsg, oid: int)
  {
    m.Error? && m.reqId == oid && m.reqId > 0 && IsOrderError(m.code)
  }

  /** An OpenOrder at the price an amend asked for. */
  predicate Confirms(m: InboundMsg, oid: int, price: real)
  {
    && m.OpenOrder? && m.o.orderId == oid && m.o.lmtPrice.Fin?
    && -AMEND_PRICE_EPS < m.o.lmtPrice.r - price < AMEND_PRICE_EPS
  }

  function Close(pending: map<int, nat>, oid: int, v: Verdict): (s: Sends)
  {
    if oid in pending then map[pending[oid] := v] else map[]
  }

  function Waiters(pending: map<int, nat>): (ws: set<nat>)
    ensures forall oid :: oid in pending ==> pending[oid] in ws
    ensures forall w :: w in ws ==> exists oid :: oid in pending && pending[oid] == w
  {
    set oid | oid in pending :: pending[oid]
  }

  /** `entry(k).or_insert(v)`: the first stamp wins. */
  function Stamp(m: map<int, nat>, k: int, v: nat): (m': map<int, nat>)
    ensures m'.Keys == m.Keys + {k}
    ensures m'[k] == if k in m then m[k] else v
    ensures forall j :: j in m ==> m'[j] == m[j]
  {
    if k in m then m else m[k := v]
  }

  /**
   The code, and two repairs of its strict amend timing. KeepPrice makes a drain keep the expected price until a
   stamp has been taken; KeepAndClear also forgets an older stamp when an amend is installed.
   */
  datatype Fix = AsWritten | KeepPrice | KeepAndClear

  /** place_order (no amend price) and modify_order install a waiter; an older waiter's sender is dropped. */
  function Install(a: Acks, oid: int, w: nat, amend: Option<real>, now: nat, fix: Fix): (r: (Acks, Sends))
  {
    (a.(pending := a.pending[oid := w],
        wireSend := a.wireSend[oid := now],
        strictAck := if fix.KeepAndClear? && amend.Some? then a.strictAck - {oid} else a.strictAck,
        expected := if amend.Some? then a.expected[oid := amend.value] else a.expected),
     Close(a.pending, oid, ChannelDropped))
  }

  /** The dispatcher's handling of one inbound message, for this part of the state. */
  function Route(a: Acks, m: InboundMsg, now: nat): (r: (Acks, Sends))
  {
    match m
    case OpenOrder(o) =>
      var oid := o.orderId;
      (a.(wireAck := Stamp(a.wireAck, oid, now),
          strictAck := if oid in a.expected && Confirms(m, oid, a.expected[oid])
                       then Stamp(a.strictAck, oid, now) else a.strictAck,
          pending := a.pending - {oid}),
       Close(a.pending, oid, Acked))
    case OrderStatus(oid, status, _, _) =>
      if AcceptStatus(status) then
        (a.(wireAck := Stamp(a.wireAck, oid, now), pending := a.pending - {oid}), Close(a.pending, oid, Acked))
      else (a, map[])
    case Error(oid, code, text) =>
      if oid > 0 && IsOrderError(code) then
        (a.(pending := a.pending - {oid}), Close(a.pending, oid, OrderRejected(text)))
      else (a, map[])
    case _ => (a, map[])
  }

  /** Cleanup after send_raw failed. The amend expectation is left behind. */
  function SendCleanup(a: Acks, oid: int): (r: (Acks, Sends))
  {
    (a.(pending := a.pending - {oid}, wireSend := a.wireSend - {oid}), Close(a.pending, oid, ChannelDropped))
  }

  /** Cleanup after the 500 ms wait elapsed. */
  function TimeoutCleanup(a: Acks, oid: int): (r: (Acks, Sends))
  {
    (Acks(a.pending - {oid}, a.wireSend - {oid}, a.wireAck - {oid}, a.strictAck - {oid}, a.expected - {oid}),
     Close(a.pending, oid, ChannelDropped))
  }

  function Disconnect(a: Acks): (r: (Acks, Sends))
  {
    (a.(pending := map[]), map w | w in Waiters(a.pending) :: ConnectionLost)
  }

  /** drain_wire_timing: a missing send leaves the ack alone; a present send is removed either way. */
  function DrainWire(a: Acks, oid: int): (r: (Acks, Option<(nat, nat)>))
  {
    if oid !in a.wireSend then (a, None)
    else if oid !in a.wireAck then (a.(wireSend := a.wireSend - {oid}), None)
    else (a.(wireSend := a.wireSend - {oid}, wireAck := a.wireAck - {oid}), Some((a.wireSend[oid], a.wireAck[oid])))
  }

  /**
   drain_strict_amend_ack_ns. As written it forgets the expected price on every call; repaired, it keeps it
   until a stamp has been taken.
   */
  function DrainStrict(a: Acks, oid: int, fix: Fix): (r: (Acks, Option<nat>))
  {
    var stamp := Get(a.strictAck, oid);
    var keep := !fix.AsWritten? && stamp.None?;
    (a.(strictAck := a.strictAck - {oid}, expected := if keep then a.expected else a.expected - {oid}), stamp)
  }
}
