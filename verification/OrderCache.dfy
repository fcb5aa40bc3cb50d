/**
 The open-order cache (broker.rs), what the kill path can see in it (tasks.rs), and what an amend
 built from it puts on the wire.
 */
module OrderCache {
  import opened Options
  import opened Inbound

  datatype OpenOrder = Order(
    orderId: int, contract: Contract, side: Side, qty: nat, orderType: OrderType, price: Option<real>,
    tif: TimeInForce, gtdUntil: Option<int>, clientRef: string, status: Status, filledQty: nat, remainingQty: nat)

  type Cache = map<int, OpenOrder>

  /** native_to_open_order: an unknown security type or side is not cached. */
  function NativeToOpenOrder(h: Host, o: OpenOrderMsg): (r: Option<OpenOrder>)
    ensures r.Some? <==> ParseKind(o.contract.secType).Some? && ParseSide(o.action).Some?
    ensures r.Some? ==> r.value.gtdUntil == None && r.value.remainingQty == AsU32(o.remaining)
  {
    match (NativeToContract(h, o.contract), ParseSide(o.action))
    case (Some(contract), Some(side)) =>
      Some(Order(o.orderId, contract.(expiry := h.parseDay(o.contract.lastTradeDate)), side, AsU32(o.totalQuantity), ParseOrderType(o.orderType, 0.0),
                 PositiveReal(o.lmtPrice), ParseTif(o.tif), None, o.orderRef, PendingSubmit, 0,
                 AsU32(o.remaining)))
    case _ => None
  }

  /** The dispatcher's effect on the cache: OpenOrder replaces, OrderStatus updates status and filled only. */
  function CacheStep(h: Host, c: Cache, m: InboundMsg): (c': Cache)
  {
    match m
    case OpenOrder(o) =>
      (match NativeToOpenOrder(h, o) case None => c case Some(open) => c[o.orderId := open])
    case OrderStatus(id, status, filled, _) =>
      if id in c then c[id := c[id].(status := status, filledQty := AsU32(filled))] else c
    case _ => c
  }

  function CacheOf(h: Host, ms: seq<InboundMsg>): (c: Cache)
  {
    if ms == [] then map[] else CacheStep(h, CacheOf(h, ms[..|ms| - 1]), ms[|ms| - 1])
  }

  /** The message caches (or replaces) the order. */
  predicate Opens(h: Host, m: InboundMsg, id: int)
  {
    m.OpenOrder? && m.o.orderId == id && NativeToOpenOrder(h, m.o).Some?
  }

  predicate IsLastOpen(h: Host, ms: seq<InboundMsg>, p: nat, id: int)
  {
    p < |ms| && Opens(h, ms[p], id) && forall q :: p < q < |ms| ==> !Opens(h, ms[q], id)
  }

  /** An order as cached, updated by every OrderStatus on it from `a` on: only the last one shows. */
  function Updated(e: OpenOrder, ms: seq<InboundMsg>, a: nat, id: int): (e': OpenOrder)
    ensures e' == e.(status := e'.status, filledQty := e'.filledQty)
    decreases |ms|
  {
    if |ms| <= a then e
    else
      match ms[|ms| - 1]
      case OrderStatus(oid, status, filled, _) =>
        if oid == id then e.(status := status, filledQty := AsU32(filled)) else Updated(e, ms[..|ms| - 1], a, id)
      case _ => Updated(e, ms[..|ms| - 1], a, id)
  }

  lemma {:induction false} OpenedIsCached(h: Host, ms: seq<InboundMsg>, p: nat, id: int)
    requires IsLastOpen(h, ms, p, id)
    ensures Get(CacheOf(h, ms), id) == Some(Updated(NativeToOpenOrder(h, ms[p].o).value, ms, p + 1, id))
    decreases |ms|
  {
    var n := |ms| - 1;
    if p < n {
      OpenedIsCached(h, ms[..n], p, id);
      assert !Opens(h, ms[n], id);
    }
  }

  lemma {:induction false} CachedWasOpened(h: Host, ms: seq<InboundMsg>, id: int) returns (p: nat)
    requires id in CacheOf(h, ms)
    ensures IsLastOpen(h, ms, p, id)
  {
    var n := |ms| - 1;
    if Opens(h, ms[n], id) {
      p := n;
    } else {
      p := CachedWasOpened(h, ms[..n], id);
    }
  }

  /** The cache holds, for each order, its last OpenOrder with the status and fill of the last OrderStatus after it. */
  lemma {:induction false} CacheIsLastOrder(h: Host, ms: seq<InboundMsg>, id: int)
    ensures id in CacheOf(h, ms) <==> exists p: nat :: IsLastOpen(h, ms, p, id)
    ensures forall p: nat :: IsLastOpen(h, ms, p, id) ==>
              Get(CacheOf(h, ms), id) == Some(Updated(NativeToOpenOrder(h, ms[p].o).value, ms, p + 1, id))
  {
    forall p: nat | IsLastOpen(h, ms, p, id)
      ensures Get(CacheOf(h, ms), id) == Some(Updated(NativeToOpenOrder(h, ms[p].o).value, ms, p + 1, id))
    {
      OpenedIsCached(h, ms, p, id);
    }
    if id in CacheOf(h, ms) {
      var p := CachedWasOpened(h, ms, id);
    }
  }

  // ---- the kill path ---------------------------------------------------------

  /** The order ids cancel_all_resting cancels. */
  function Actionable(c: Cache): (ids: set<int>)
  {
    set id | id in c && c[id].remainingQty > 0
  }

  /** Its selection loop over the orders the broker handed back, in whatever order the map is walked. */
  method SelectForCancel(opens: Cache) returns (ids: seq<int>)
    ensures forall id :: id in ids <==> id in Actionable(opens)
    ensures forall i, j :: 0 <= i < j < |ids| ==> ids[i] != ids[j]
  {
    ids := [];
    var left := opens.Keys;
    while exists id :: id in left
      invariant left <= opens.Keys
      invariant forall id :: id in ids <==> id in opens && id !in left && opens[id].remainingQty > 0
      invariant forall i, j :: 0 <= i < j < |ids| ==> ids[i] != ids[j]
      decreases left
    {
      var id :| id in left;
      left := left - {id};
      if opens[id].remainingQty > 0 {
        ids := ids + [id];
      }
    }
  }

  /** The first message that caches the order. */
  function FirstOpen(h: Host, ms: seq<InboundMsg>, id: int): (f: Option<nat>)
    ensures f.Some? ==> f.value < |ms| && Opens(h, ms[f.value], id) && forall q :: 0 <= q < f.value ==> !Opens(h, ms[q], id)
    ensures f.None? ==> forall q :: 0 <= q < |ms| ==> !Opens(h, ms[q], id)
  {
    if ms == [] then None
    else
      var n := |ms| - 1;
      var f := FirstOpen(h, ms[..n], id);
      assert forall q :: 0 <= q < n ==> ms[..n][q] == ms[q];
      if f.Some? then f else if Opens(h, ms[n], id) then Some(n) else None
  }

  predicate IsStatus(m: InboundMsg, id: int)
  {
    m.OrderStatus? && m.orderId == id
  }

  /** The last OrderStatus on the order. */
  function LastStatus(ms: seq<InboundMsg>, id: int): (s: Option<nat>)
    ensures s.Some? ==> s.value < |ms| && IsStatus(ms[s.value], id) && forall q :: s.value < q < |ms| ==> !IsStatus(ms[q], id)
    ensures s.None? ==> forall q :: 0 <= q < |ms| ==> !IsStatus(ms[q], id)
  {
    if ms == [] then None
    else
      var n := |ms| - 1;
      assert forall q :: 0 <= q < n ==> ms[..n][q] == ms[q];
      if IsStatus(ms[n], id) then Some(n) else LastStatus(ms[..n], id)
  }

  /**
   The quantity left on an order, read off the messages: what its last OrderStatus says, or the total it was
   first seen with if there was no OrderStatus since.
   */
  function Reported(h: Host, ms: seq<InboundMsg>, id: int): (n: nat)
  {
    match FirstOpen(h, ms, id)
    case None => 0
    case Some(f) =>
      match LastStatus(ms, id)
      case Some(s) => if s > f then AsU32(ms[s].remaining) else AsU32(ms[f].o.totalQuantity)
      case None => AsU32(ms[f].o.totalQuantity)
  }

  /** An order with something left on it. */
  predicate Unfilled(h: Host, ms: seq<InboundMsg>, id: int)
  {
    Reported(h, ms, id) > 0
  }

  /** A live order: something is left on it and its status is not terminal. */
  predicate Live(h: Host, ms: seq<InboundMsg>, id: int)
  {
    Unfilled(h, ms, id) && id in CacheOf(h, ms) && !Terminal(CacheOf(h, ms)[id].status)
  }

  /** Nothing the decoder produces gives a cached order a remaining quantity or a GTD expiry. */
  lemma {:induction false} CachedOrdersAreBlank(h: Host, ms: seq<InboundMsg>)
    requires forall m :: m in ms && m.OpenOrder? ==> m.o.remaining == Fin(0.0)
    ensures forall id :: id in CacheOf(h, ms) ==>
              CacheOf(h, ms)[id].remainingQty == 0 && CacheOf(h, ms)[id].gtdUntil == None
    ensures forall id :: id in CacheOf(h, ms) && CacheOf(h, ms)[id].orderType.StopLimit? ==>
              CacheOf(h, ms)[id].orderType.stopPrice == 0.0
  {
    if ms != [] {
      CachedOrdersAreBlank(h, ms[..|ms| - 1]);
      assert ms[|ms| - 1] in ms;
    }
  }

  /**
   The kill path as written, after any frames at all: it selects nothing, so it cancels every live order
   exactly when there is none.
   */
  lemma {:induction false} KillPathSelectsNothing(h: Host, frames: seq<seq<string>>)
    ensures var ms := Decode(h, frames);
            && (forall id :: id !in Actionable(CacheOf(h, ms)))
            && ((forall id :: Live(h, ms, id) ==> id in Actionable(CacheOf(h, ms))) <==>
                !exists id :: Live(h, ms, id))
  {
    CachedOrdersAreBlank(h, Decode(h, frames));
  }

  /** One openOrder frame, with every number given as "1". */
  const ONE_ORDER: seq<string> := ["5", "1", "1", "HG", "FUT", "", "1", "", "", "", "", "", "", "BUY", "1", "LMT", "1"]

  const ONE_ORDER_MSG: OpenOrderMsg := OpenOrderMsg(
    1, ContractDecoded(1, "HG", "FUT", "", Fin(1.0), "", ""), "BUY", Fin(1.0), "LMT", Fin(1.0), "", "", Fin(0.0))

  lemma ParseOneOrder(h: Host)
    requires h.parseF64("1") == Some(Fin(1.0))
    ensures ParseInbound(h, ONE_ORDER) == Some(OpenOrder(ONE_ORDER_MSG))
  {
    assert Digits("1") == Digits("") * 10 + 1 && Digits("5") == Digits("") * 10 + 5;
    assert ParseInt("1") == Some(1) && ParseInt64("1") == Some(1) && ParseInt("5") == Some(5);
    assert ParseF64(h, "1") == Some(Fin(1.0));
  }

  /** And that loses orders: after one well-formed openOrder there is a live order the kill path does not select. */
  lemma KillPathMissesLiveOrder(h: Host)
    requires h.parseF64("1") == Some(Fin(1.0))
    ensures Live(h, Decode(h, [ONE_ORDER]), 1) && 1 !in Actionable(CacheOf(h, Decode(h, [ONE_ORDER])))
  {
    ParseOneOrder(h);
    KillPathSelectsNothing(h, [ONE_ORDER]);
    var ms := [OpenOrder(ONE_ORDER_MSG)];
    assert Decode(h, [ONE_ORDER]) == ms by {
      assert [ONE_ORDER][..0] == [];
    }
    assert ms[..0] == [];
    assert NativeToOpenOrder(h, ONE_ORDER_MSG).Some? && AsU32(ONE_ORDER_MSG.totalQuantity) == 1;
  }

  /** A repair: OpenOrder seeds the remaining quantity of a new entry, OrderStatus updates it. */
  function RepairedStep(h: Host, c: Cache, m: InboundMsg): (c': Cache)
  {
    match m
    case OpenOrder(o) =>
      (match NativeToOpenOrder(h, o)
       case None => c
       case Some(open) =>
         c[o.orderId := open.(remainingQty := if o.orderId in c then c[o.orderId].remainingQty else AsU32(o.totalQuantity))])
    case OrderStatus(id, status, filled, remaining) =>
      if id in c then c[id := c[id].(status := status, filledQty := AsU32(filled), remainingQty := AsU32(remaining))]
      else c
    case _ => c
  }

  function RepairedCache(h: Host, ms: seq<InboundMsg>): (c: Cache)
  {
    if ms == [] then map[] else RepairedStep(h, RepairedCache(h, ms[..|ms| - 1]), ms[|ms| - 1])
  }

  lemma {:induction false} CachedOnceOpened(h: Host, ms: seq<InboundMsg>, id: int)
    ensures id in CacheOf(h, ms) <==> FirstOpen(h, ms, id).Some?
  {
    if ms != [] {
      CachedOnceOpened(h, ms[..|ms| - 1], id);
    }
  }

  /** The repair changes nothing but the remaining quantity. */
  lemma {:induction false} RepairedOtherwiseSame(h: Host, ms: seq<InboundMsg>, id: int)
    ensures id in RepairedCache(h, ms) <==> id in CacheOf(h, ms)
    ensures id in CacheOf(h, ms) ==>
              RepairedCache(h, ms)[id] == CacheOf(h, ms)[id].(remainingQty := RepairedCache(h, ms)[id].remainingQty)
  {
    if ms != [] {
      RepairedOtherwiseSame(h, ms[..|ms| - 1], id);
    }
  }

  lemma {:induction false} RepairedRemaining(h: Host, ms: seq<InboundMsg>, id: int)
    requires id in RepairedCache(h, ms)
    ensures RepairedCache(h, ms)[id].remainingQty == Reported(h, ms, id)
  {
    var n := |ms| - 1;
    CachedOnceOpened(h, ms[..n], id);
    RepairedOtherwiseSame(h, ms[..n], id);
    if id in RepairedCache(h, ms[..n]) {
      RepairedRemaining(h, ms[..n], id);
    }
  }

  /**
   With the repair the kill path selects exactly the orders with something left on them, whatever was received.
   So it covers every live order; it selects no other if and only if no order ended, cancelled or rejected, with
   something left on it. Leaving those out too takes a test of the status.
   */
  lemma RepairedKillPath(h: Host, ms: seq<InboundMsg>)
    ensures forall id :: id in Actionable(RepairedCache(h, ms)) <==> Unfilled(h, ms, id)
    ensures forall id :: Live(h, ms, id) ==> id in Actionable(RepairedCache(h, ms))
    ensures (forall id :: id in Actionable(RepairedCache(h, ms)) ==> Live(h, ms, id)) <==>
            (forall id :: id in CacheOf(h, ms) && Terminal(CacheOf(h, ms)[id].status) ==> !Unfilled(h, ms, id))
    ensures forall id :: Live(h, ms, id) <==>
              id in Actionable(RepairedCache(h, ms)) && !Terminal(RepairedCache(h, ms)[id].status)
  {
    forall id ensures id in Actionable(RepairedCache(h, ms)) <==> Unfilled(h, ms, id)
      ensures id in CacheOf(h, ms) <==> id in RepairedCache(h, ms)
      ensures id in CacheOf(h, ms) ==> RepairedCache(h, ms)[id].status == CacheOf(h, ms)[id].status
      ensures Unfilled(h, ms, id) ==> id in CacheOf(h, ms)
    {
      CachedOnceOpened(h, ms, id);
      RepairedOtherwiseSame(h, ms, id);
      if id in RepairedCache(h, ms) {
        RepairedRemaining(h, ms, id);
      }
    }
  }

  // ---- amends ----------------------------------------------------------------

  datatype BrokerError = InvalidRequest | NotInCache

  datatype PlaceRequest = PlaceRequest(
    contract: Contract, side: Side, qty: nat, orderType: OrderType, price: Option<real>, tif: TimeInForce,
    gtdUntil: Option<int>, clientRef: string, account: Option<string>)

  /** What goes on the wire for a place or an amend (the instrument part is the contract's template). */
  datatype PlaceParams = PlaceParams(
    action: string, totalQuantity: nat, orderType: string, lmtPrice: real, auxPrice: real, tif: string,
    goodTill: Option<int>, account: string, orderRef: string)

  datatype ModifyRequest = ModifyRequest(price: Option<real>, qty: Option<nat>, gtdUntil: Option<int>)

  function TifName(t: TimeInForce): (s: string)
    ensures ParseTif(s) == t
  {
    match t case Gtc => "GTC" case Day => "DAY" case Gtd => "GTD" case Ioc => "IOC" case Fok => "FOK"
  }

  function BuildPlaceParams(req: PlaceRequest, fallback: string): (r: Result<PlaceParams, BrokerError>)
    ensures r.Err? <==> (!req.orderType.Market? && req.price.None?) || (req.tif.Gtd? && req.gtdUntil.None?)
    ensures r.Ok? ==> ParseSide(r.value.action) == Some(req.side)
                      && ParseOrderType(r.value.orderType, r.value.auxPrice) == req.orderType
                      && ParseTif(r.value.tif) == req.tif
  {
    if !req.orderType.Market? && req.price.None? then Err(InvalidRequest)
    else if req.tif.Gtd? && req.gtdUntil.None? then Err(InvalidRequest)
    else
      Ok(PlaceParams(
        match req.side { case Buy => "BUY" case Sell => "SELL" },
        req.qty,
        match req.orderType { case Limit => "LMT" case Market => "MKT" case StopLimit(_) => "STP LMT" },
        if req.orderType.Market? then 0.0 else req.price.value,
        match req.orderType { case StopLimit(stop) => stop case _ => 0.0 },
        TifName(req.tif),
        if req.tif.Gtd? then req.gtdUntil else None,
        match req.account { case Some(a) => a case None => fallback },
        req.clientRef))
  }

  /** modify_order up to the send: look the order up, override, and build the frame's parameters. */
  function BuildModify(c: Cache, id: int, req: ModifyRequest, account: string): (r: Result<PlaceParams, BrokerError>)
  {
    if id !in c then Err(NotInCache)
    else
      var e := c[id];
      BuildPlaceParams(
        PlaceRequest(e.contract, e.side, if req.qty.Some? then req.qty.value else e.qty, e.orderType,
                     req.price.Or(e.price), e.tif, req.gtdUntil.Or(e.gtdUntil), e.clientRef, Some(account)),
        account)
  }

  /** A frame read back as an order: what the server is told the order now is. */
  ghost predicate Tells(p: PlaceParams, e: OpenOrder, qty: nat, price: real, expiry: Option<int>, account: string)
  {
    && ParseSide(p.action) == Some(e.side) && ParseOrderType(p.orderType, p.auxPrice) == e.orderType
    && ParseTif(p.tif) == e.tif && p.orderRef == e.clientRef
    && p.totalQuantity == qty && p.lmtPrice == price && p.goodTill == expiry && p.account == account
  }

  /**
   A limit amend in every reachable cache state: it succeeds exactly when it has a price (its own or the
   cached one) and, for a GTD order, its own new expiry - the cached order never holds one. What it sends is
   the cached order with only price, quantity, expiry and account replaced.
   */
  lemma {:induction false} ModifyOverrides(h: Host, frames: seq<seq<string>>, id: int, req: ModifyRequest, account: string)
    requires var c := CacheOf(h, Decode(h, frames)); id in c && c[id].orderType == Limit
    ensures var e, r := CacheOf(h, Decode(h, frames))[id], BuildModify(CacheOf(h, Decode(h, frames)), id, req, account);
            && (r.Ok? <==> req.price.Or(e.price).Some? && (e.tif == Gtd ==> req.gtdUntil.Some?))
            && (r.Ok? ==> Tells(r.value, e, if req.qty.Some? then req.qty.value else e.qty,
                                req.price.Or(e.price).value, if e.tif == Gtd then req.gtdUntil else None, account))
  {
    CachedOrdersAreBlank(h, Decode(h, frames));
  }

  /** Whatever its type, a GTD order cannot be amended without a new expiry. */
  lemma {:induction false} GtdNeedsNewExpiry(h: Host, frames: seq<seq<string>>, id: int, req: ModifyRequest, account: string)
    requires var c := CacheOf(h, Decode(h, frames)); id in c && c[id].tif == Gtd
    requires req.gtdUntil == None
    ensures BuildModify(CacheOf(h, Decode(h, frames)), id, req, account) == Err(InvalidRequest)
  {
    CachedOrdersAreBlank(h, Decode(h, frames));
  }

  /** An amend of a stop-limit order that goes out always resets the trigger: the cache never knew it. */
  lemma {:induction false} StopLimitLosesTrigger(h: Host, frames: seq<seq<string>>, id: int, req: ModifyRequest, account: string)
    requires var c := CacheOf(h, Decode(h, frames)); id in c && c[id].orderType.StopLimit?
    requires BuildModify(CacheOf(h, Decode(h, frames)), id, req, account).Ok?
    ensures var p := BuildModify(CacheOf(h, Decode(h, frames)), id, req, account).value;
            p.orderType == "STP LMT" && p.auxPrice == 0.0
  {
    CachedOrdersAreBlank(h, Decode(h, frames));
  }

  /** The gateway's echo of a frame: an openOrder with the parameters that were sent. */
  predicate Echoes(o: OpenOrderMsg, p: PlaceParams)
  {
    && o.action == p.action && o.totalQuantity == Fin(p.totalQuantity as real) && o.orderType == p.orderType
    && o.lmtPrice == Fin(p.lmtPrice) && o.tif == p.tif && o.orderRef == p.orderRef
  }

  /**
   Placing an order and caching its echo gives the order back, side, quantity, limit price, time in force and
   reference, except for what the echo's decoding loses: the GTD expiry always, and a stop-limit's trigger
   unless it is zero.
   */
  lemma {:induction false} EchoRestoresOrder(h: Host, req: PlaceRequest, fallback: string, o: OpenOrderMsg)
    requires BuildPlaceParams(req, fallback).Ok? && Echoes(o, BuildPlaceParams(req, fallback).value)
    requires 0 < req.qty <= U32_MAX && ParseKind(o.contract.secType).Some?
    requires !req.orderType.Market? ==> req.price.value > 0.0
    ensures NativeToOpenOrder(h, o).Some?
    ensures var e := NativeToOpenOrder(h, o).value;
            && e.side == req.side && e.qty == req.qty && e.tif == req.tif && e.clientRef == req.clientRef
            && e.price == (if req.orderType.Market? then None else req.price)
            && e.gtdUntil == None && e.remainingQty == AsU32(o.remaining)
            && (e.orderType == req.orderType <==> !(req.orderType.StopLimit? && req.orderType.stopPrice != 0.0))
  {
    var p := BuildPlaceParams(req, fallback).value;
    assert Trunc(p.totalQuantity as real) == p.totalQuantity;
  }

  // ---- place, echo, amend ------------------------------------------------------

  /**
   The trigger of a placed order through the whole way: placed, echoed at `e`, cached whatever came before and
   whatever statuses came after, and amended. The amend states the type the order was placed with, trigger
   included, if and only if it is not a stop-limit with a trigger other than zero.
   */
  lemma {:induction false} AmendKeepsTypeExactly(h: Host, ms: seq<InboundMsg>, e: nat, placed: PlaceRequest, id: int, req: ModifyRequest, account: string)
    requires IsLastOpen(h, ms, e, id)
    requires BuildPlaceParams(placed, account).Ok? && Echoes(ms[e].o, BuildPlaceParams(placed, account).value)
    requires BuildModify(CacheOf(h, ms), id, req, account).Ok?
    ensures var p := BuildModify(CacheOf(h, ms), id, req, account).value;
            ParseOrderType(p.orderType, p.auxPrice) == placed.orderType <==>
            !(placed.orderType.StopLimit? && placed.orderType.stopPrice != 0.0)
  {
    OpenedIsCached(h, ms, e, id);
    EchoedType(h, ms[e].o, placed, account);
  }

  lemma EchoedType(h: Host, o: OpenOrderMsg, placed: PlaceRequest, account: string)
    requires BuildPlaceParams(placed, account).Ok? && Echoes(o, BuildPlaceParams(placed, account).value)
    requires ParseKind(o.contract.secType).Some?
    ensures NativeToOpenOrder(h, o).Some? && NativeToOpenOrder(h, o).value.orderType ==
            if placed.orderType.StopLimit? then StopLimit(0.0) else placed.orderType
  {
  }

  /** A stop-limit openOrder frame for order 1, with every number given as "1". */
  const ONE_STOP: seq<string> :=
    ["5", "1", "1", "HG", "FUT", "", "1", "", "", "", "", "", "", "BUY", "1", "STP LMT", "1", "", "DAY", "", "", "", "", ""]

  const ONE_STOP_MSG: OpenOrderMsg := OpenOrderMsg(
    1, ContractDecoded(1, "HG", "FUT", "", Fin(1.0), "", ""), "BUY", Fin(1.0), "STP LMT", Fin(1.0), "DAY", "", Fin(0.0))

  lemma ParseOneStop(h: Host)
    requires h.parseF64("1") == Some(Fin(1.0))
    ensures ParseInbound(h, ONE_STOP) == Some(OpenOrder(ONE_STOP_MSG))
  {
    assert Digits("1") == Digits("") * 10 + 1 && Digits("5") == Digits("") * 10 + 5;
    assert ParseInt("1") == Some(1) && ParseInt64("1") == Some(1) && ParseInt("5") == Some(5);
    assert ParseF64(h, "1") == Some(Fin(1.0));
  }

  /** That order was placed with any trigger; its frame is received, the order amended to 2: the trigger goes out as zero. */
  lemma LostTriggerRun(h: Host, contract: Contract, trigger: real, account: string)
    requires h.parseF64("1") == Some(Fin(1.0))
    ensures var placed := PlaceRequest(contract, Buy, 1, StopLimit(trigger), Some(1.0), Day, None, "", None);
            && BuildPlaceParams(placed, account).Ok?
            && BuildPlaceParams(placed, account).value.auxPrice == trigger
            && Echoes(ONE_STOP_MSG, BuildPlaceParams(placed, account).value)
    ensures var r := BuildModify(CacheOf(h, Decode(h, [ONE_STOP])), 1, ModifyRequest(Some(2.0), None, None), account);
            r.Ok? && r.value.orderType == "STP LMT" && r.value.lmtPrice == 2.0 && r.value.auxPrice == 0.0
  {
    ParseOneStop(h);
    assert Decode(h, [ONE_STOP]) == [OpenOrder(ONE_STOP_MSG)] by {
      assert [ONE_STOP][..0] == [];
    }
    OneCached(h, ONE_STOP_MSG);
  }

  lemma OneCached(h: Host, o: OpenOrderMsg)
    ensures Get(CacheOf(h, [OpenOrder(o)]), o.orderId) == NativeToOpenOrder(h, o)
  {
    assert [OpenOrder(o)][..0] == [];
    assert CacheOf(h, []) == map[];
  }
}
