/**
 The broker adapter itself (broker.rs): one object whose maps the dispatcher and the callers update in
 place, one method per critical section of the state lock. Every method is proved to do what the
 corresponding transition of the protocol modules does, and to leave the rest of the state alone.
 */
module NativeBroker {
  import Clock
  import opened Options
  import opened Inbound
  import opened AckState
  import opened RequestState
  import opened OrderCache
  import opened Reconcile
  import Requests
  import A = AckState
  import R = RequestState

  class Broker {
    const host: Host
    const account: string

    var positionCache: map<PositionId, BrokerPosition>
    var openOrders: map<int, OpenOrder>
    var pendingContracts: map<int, seq<ContractDecoded>>
    var pendingExecutions: map<int, seq<Fill>>
    var pendingPlaceAcks: map<int, nat>
    var wireSendNs: map<int, nat>
    var wireAckNs: map<int, nat>
    var strictAckNs: map<int, nat>
    var expectedAmendPrices: map<int, real>
    var tickRoutes: map<int, int>
    var tickRouteRight: map<int, Right>
    var depthRoutes: map<int, int>
    var handleToReqId: map<int, int>
    var handleToDepthReqId: map<int, int>

    constructor (host: Host, account: string)
      ensures this.host == host && this.account == account
      ensures AckMaps() == NO_ACKS && PendingMaps() == NO_PENDINGS && StreamMaps() == NO_STREAMS
      ensures openOrders == map[] && positionCache == map[]
    {
      this.host, this.account := host, account;
      positionCache, openOrders, pendingContracts, pendingExecutions := map[], map[], map[], map[];
      pendingPlaceAcks, wireSendNs, wireAckNs, strictAckNs, expectedAmendPrices := map[], map[], map[], map[], map[];
      tickRoutes, tickRouteRight, depthRoutes, handleToReqId, handleToDepthReqId := map[], map[], map[], map[], map[];
    }

    function AckMaps(): Acks
      reads this
    {
      Acks(pendingPlaceAcks, wireSendNs, wireAckNs, strictAckNs, expectedAmendPrices)
    }

    function PendingMaps(): Pendings
      reads this
    {
      Pendings(pendingContracts, pendingExecutions)
    }

    function StreamMaps(): Streams
      reads this
    {
      Streams(tickRoutes, tickRouteRight, depthRoutes, handleToReqId, handleToDepthReqId)
    }

    // ---- the dispatcher ------------------------------------------------------

    /** route: the effect of one parsed message, the channel sends it makes, and the fills it broadcasts. */
    method Route(m: InboundMsg, now: nat) returns (sends: Sends, out: Out)
      modifies this`positionCache, this`openOrders, this`pendingContracts, this`pendingExecutions
      modifies this`pendingPlaceAcks, this`wireAckNs, this`strictAckNs
      ensures (AckMaps(), sends) == A.Route(old(AckMaps()), m, now)
      ensures (PendingMaps(), out) == R.Route(old(PendingMaps()), m, now)
      ensures openOrders == CacheStep(host, old(openOrders), m)
      ensures positionCache == PositionStep(host, old(positionCache), m)
    {
      sends, out := map[], QUIET;
      match m
      case Position(_, _, _, _) => RoutePosition(m);
      case OpenOrder(o) => sends := RouteOpenOrder(o, now);
      case OrderStatus(id, status, filled, remaining) => sends := RouteOrderStatus(id, status, filled, remaining, now);
      case Error(reqId, code, text) => sends, out := RouteError(reqId, code, text, now);
      case Execution(_, _, _, _, _, _, _) => out := RouteRow(m, now);
      case ExecutionEnd(_) => out := RouteRow(m, now);
      case ContractDetails(_, _) => out := RouteRow(m, now);
      case ContractDetailsEnd(_) => out := RouteRow(m, now);
      case _ =>
    }

    /** OrderStatus arm: update the cached order; an accept-set status stamps and resolves. */
    method RouteOrderStatus(id: int, status: Status, filled: F64, remaining: F64, now: nat) returns (sends: Sends)
      modifies this`openOrders, this`wireAckNs, this`pendingPlaceAcks
      ensures (AckMaps(), sends) == A.Route(old(AckMaps()), OrderStatus(id, status, filled, remaining), now)
      ensures openOrders == CacheStep(host, old(openOrders), OrderStatus(id, status, filled, remaining))
    {
      sends := map[];
      if id in openOrders {
        openOrders := openOrders[id := openOrders[id].(status := status, filledQty := AsU32(filled))];
      }
      if AcceptStatus(status) {
        StampAck(id, now);
        sends := Settle(id, Acked);
      }
    }

    /** Error arm: a contract-class code fails the contract request, an order-class code the order's waiter. */
    method RouteError(reqId: int, code: int, text: string, now: nat) returns (sends: Sends, out: Out)
      modifies this`pendingContracts, this`pendingPlaceAcks
      ensures (AckMaps(), sends) == A.Route(old(AckMaps()), Error(reqId, code, text), now)
      ensures (PendingMaps(), out) == R.Route(old(PendingMaps()), Error(reqId, code, text), now)
    {
      sends, out := map[], QUIET;
      if reqId > 0 {
        if IsContractError(code) && reqId in pendingContracts {
          out := QUIET.(replies := map[reqId := NotFound(text)]);
          pendingContracts := pendingContracts - {reqId};
        }
        if IsOrderError(code) {
          sends := Settle(reqId, OrderRejected(text));
        }
      }
    }

    /** The rows of outstanding requests and their end markers. */
    method RouteRow(m: InboundMsg, now: nat) returns (out: Out)
      requires m.Execution? || m.ExecutionEnd? || m.ContractDetails? || m.ContractDetailsEnd?
      modifies this`pendingContracts, this`pendingExecutions
      ensures (PendingMaps(), out) == R.Route(old(PendingMaps()), m, now)
    {
      out := QUIET;
      match m
      case Execution(reqId, _, _, _, _, _, _) =>
        var fill := ExecutionToFill(m, now);
        if fill.Some? {
          if reqId > 0 && reqId in pendingExecutions {
            pendingExecutions := pendingExecutions[reqId := pendingExecutions[reqId] + [fill.value]];
          } else {
            out := QUIET.(broadcast := [fill.value]);
          }
        }
      case ExecutionEnd(reqId) =>
        if reqId in pendingExecutions {
          out := QUIET.(replies := map[reqId := Fills(pendingExecutions[reqId])]);
          pendingExecutions := pendingExecutions - {reqId};
        }
      case ContractDetails(reqId, details) =>
        if reqId in pendingContracts {
          pendingContracts := pendingContracts[reqId := pendingContracts[reqId] + [details]];
        }
      case ContractDetailsEnd(reqId) =>
        if reqId in pendingContracts {
          out := QUIET.(replies := map[reqId := Rows(pendingContracts[reqId])]);
          pendingContracts := pendingContracts - {reqId};
        }
    }

    /** Position arm: quantity zero closes the entry. */
    method RoutePosition(m: InboundMsg)
      requires m.Position?
      modifies this`positionCache
      ensures positionCache == PositionStep(host, old(positionCache), m)
    {
      var id := (m.account, m.contract.conId);
      if m.position == Fin(0.0) {
        positionCache := positionCache - {id};
      } else {
        var p := NativeToPosition(host, m);
        if p.Some? {
          positionCache := positionCache[id := p.value];
        }
      }
    }

    /** OpenOrder arm: cache, stamp, compare with the expected amend price, resolve the waiter. */
    method RouteOpenOrder(o: OpenOrderMsg, now: nat) returns (sends: Sends)
      modifies this`openOrders, this`wireAckNs, this`strictAckNs, this`pendingPlaceAcks
      ensures (AckMaps(), sends) == A.Route(old(AckMaps()), OpenOrder(o), now)
      ensures openOrders == CacheStep(host, old(openOrders), OpenOrder(o))
    {
      var open := NativeToOpenOrder(host, o);
      if open.Some? {
        openOrders := openOrders[o.orderId := open.value];
      }
      StampAck(o.orderId, now);
      if o.orderId in expectedAmendPrices && Confirms(OpenOrder(o), o.orderId, expectedAmendPrices[o.orderId]) {
        if o.orderId !in strictAckNs {
          strictAckNs := strictAckNs[o.orderId := now];
        }
      }
      sends := Settle(o.orderId, Acked);
    }

    method StampAck(oid: int, now: nat)
      modifies this`wireAckNs
      ensures wireAckNs == Stamp(old(wireAckNs), oid, now)
    {
      if oid !in wireAckNs {
        wireAckNs := wireAckNs[oid := now];
      }
    }

    /** Take the waiter out of the table and send on its channel. */
    method Settle(oid: int, v: Verdict) returns (sends: Sends)
      modifies this`pendingPlaceAcks
      ensures pendingPlaceAcks == old(pendingPlaceAcks) - {oid}
      ensures sends == Close(old(pendingPlaceAcks), oid, v)
    {
      sends := Close(pendingPlaceAcks, oid, v);
      pendingPlaceAcks := pendingPlaceAcks - {oid};
    }

    // ---- callers -------------------------------------------------------------

    /** place_order before the send: waiter `w` in, send stamp set; an older sender on the id is dropped. */
    method BeginPlace(oid: int, w: nat, now: nat) returns (dropped: Sends)
      modifies this`pendingPlaceAcks, this`wireSendNs
      ensures (AckMaps(), dropped) == A.Install(old(AckMaps()), oid, w, None, now, AsWritten)
    {
      dropped := Close(pendingPlaceAcks, oid, ChannelDropped);
      pendingPlaceAcks := pendingPlaceAcks[oid := w];
      wireSendNs := wireSendNs[oid := now];
    }

    /**
     modify_order before it touches any waiter or stamp: look the order up, override, build. Returns the frame's
     parameters and the price to expect; an order that is not cached or cannot be built ends the call here.
     */
    method PrepareModify(oid: int, req: ModifyRequest) returns (r: Result<(PlaceParams, real), BrokerError>)
      ensures r.Ok? <==> BuildModify(openOrders, oid, req, account).Ok?
      ensures r.Err? ==> BuildModify(openOrders, oid, req, account) == Err(r.error)
      ensures r.Ok? ==> BuildModify(openOrders, oid, req, account) == Ok(r.value.0)
      ensures r.Ok? && !openOrders[oid].orderType.Market? ==> r.value.1 == r.value.0.lmtPrice
    {
      if oid !in openOrders {
        return Err(NotInCache);
      }
      var existing := openOrders[oid];
      var price := req.price.Or(existing.price);
      var params := BuildPlaceParams(
        PlaceRequest(existing.contract, existing.side, if req.qty.Some? then req.qty.value else existing.qty,
                     existing.orderType, price, existing.tif, req.gtdUntil.Or(existing.gtdUntil),
                     existing.clientRef, Some(account)),
        account);
      match params
      case Err(e) => r := Err(e);
      case Ok(p) => r := Ok((p, if price.Some? then price.value else 0.0));
    }

    /** The waiter, the send stamp and the expected price go in together. */
    method BeginModify(oid: int, expectedPrice: real, w: nat, now: nat) returns (dropped: Sends)
      modifies this`pendingPlaceAcks, this`wireSendNs, this`expectedAmendPrices
      ensures (AckMaps(), dropped) == A.Install(old(AckMaps()), oid, w, Some(expectedPrice), now, AsWritten)
    {
      dropped := Close(pendingPlaceAcks, oid, ChannelDropped);
      pendingPlaceAcks := pendingPlaceAcks[oid := w];
      wireSendNs := wireSendNs[oid := now];
      expectedAmendPrices := expectedAmendPrices[oid := expectedPrice];
    }

    method AfterSendFailed(oid: int) returns (dropped: Sends)
      modifies this`pendingPlaceAcks, this`wireSendNs
      ensures (AckMaps(), dropped) == A.SendCleanup(old(AckMaps()), oid)
    {
      dropped := Settle(oid, ChannelDropped);
      wireSendNs := wireSendNs - {oid};
    }

    method AfterTimeout(oid: int) returns (dropped: Sends)
      modifies this`pendingPlaceAcks, this`wireSendNs, this`wireAckNs, this`strictAckNs, this`expectedAmendPrices
      ensures (AckMaps(), dropped) == A.TimeoutCleanup(old(AckMaps()), oid)
    {
      dropped := Settle(oid, ChannelDropped);
      wireSendNs := wireSendNs - {oid};
      wireAckNs := wireAckNs - {oid};
      expectedAmendPrices := expectedAmendPrices - {oid};
      strictAckNs := strictAckNs - {oid};
    }

    method DrainWireTiming(oid: int) returns (pair: Option<(nat, nat)>)
      modifies this`wireSendNs, this`wireAckNs
      ensures (AckMaps(), pair) == A.DrainWire(old(AckMaps()), oid)
    {
      if oid !in wireSendNs {
        return None;
      }
      var send := wireSendNs[oid];
      wireSendNs := wireSendNs - {oid};
      if oid !in wireAckNs {
        return None;
      }
      var ack := wireAckNs[oid];
      wireAckNs := wireAckNs - {oid};
      return Some((send, ack));
    }

    method DrainStrictAmendAckNs(oid: int) returns (stamp: Option<nat>)
      modifies this`expectedAmendPrices, this`strictAckNs
      ensures (AckMaps(), stamp) == A.DrainStrict(old(AckMaps()), oid, AsWritten)
    {
      expectedAmendPrices := expectedAmendPrices - {oid};
      stamp := Get(strictAckNs, oid);
      strictAckNs := strictAckNs - {oid};
    }

    /** disconnect: every pending waiter of every kind hears that the connection is gone. */
    method Disconnect() returns (sends: Sends, out: Out)
      modifies this`pendingContracts, this`pendingExecutions, this`pendingPlaceAcks
      ensures (AckMaps(), sends) == A.Disconnect(old(AckMaps()))
      ensures (PendingMaps(), out) == R.Disconnect(old(PendingMaps()))
    {
      out := QUIET.(replies := map r | r in pendingContracts.Keys + pendingExecutions.Keys :: Lost);
      sends := map w | w in Waiters(pendingPlaceAcks) :: ConnectionLost;
      pendingContracts, pendingExecutions, pendingPlaceAcks := map[], map[], map[];
    }

    // ---- requests for rows -----------------------------------------------------

    /** qualify_future, qualify_option and list_chain before the send; recent_fills likewise. */
    method AskContracts(reqId: int)
      modifies this`pendingContracts
      ensures forall now: nat :: (PendingMaps(), QUIET) == Requests.PendStep(old(PendingMaps()), Clock.At(now, Requests.ContractsAsked(reqId)))
    {
      pendingContracts := pendingContracts[reqId := []];
    }

    method AskFills(reqId: int)
      modifies this`pendingExecutions
      ensures forall now: nat :: (PendingMaps(), QUIET) == Requests.PendStep(old(PendingMaps()), Clock.At(now, Requests.FillsAsked(reqId)))
    {
      pendingExecutions := pendingExecutions[reqId := []];
    }

    /** After the caller's timer: rows that arrive later find no request. */
    method ForgetContracts(reqId: int)
      modifies this`pendingContracts
      ensures forall now: nat :: (PendingMaps(), QUIET) == Requests.PendStep(old(PendingMaps()), Clock.At(now, Requests.ContractsTimedOut(reqId)))
    {
      pendingContracts := pendingContracts - {reqId};
    }

    method ForgetFills(reqId: int)
      modifies this`pendingExecutions
      ensures forall now: nat :: (PendingMaps(), QUIET) == Requests.PendStep(old(PendingMaps()), Clock.At(now, Requests.FillsTimedOut(reqId)))
    {
      pendingExecutions := pendingExecutions - {reqId};
    }

    // ---- subscriptions ---------------------------------------------------------

    /** subscribe_ticks: routing goes in before the send. */
    method BeginSubscribeTicks(reqId: int, handle: int, iid: int, right: Option<Right>)
      modifies this`tickRoutes, this`tickRouteRight, this`handleToReqId
      ensures StreamMaps() == R.SubscribeTicks(old(StreamMaps()), reqId, handle, iid, right)
    {
      tickRoutes := tickRoutes[reqId := iid];
      if right.Some? {
        tickRouteRight := tickRouteRight[reqId := right.value];
      }
      handleToReqId := handleToReqId[handle := reqId];
    }

    /** Unwinding after the subscription's send failed. */
    method UndoSubscribeTicks(reqId: int, handle: int)
      modifies this`tickRoutes, this`tickRouteRight, this`handleToReqId
      ensures StreamMaps() == R.UndoTicks(old(StreamMaps()), reqId, handle)
    {
      tickRoutes := tickRoutes - {reqId};
      tickRouteRight := tickRouteRight - {reqId};
      handleToReqId := handleToReqId - {handle};
    }

    /** unsubscribe_ticks: nothing is sent for an unknown handle. */
    method UnsubscribeTicks(handle: int) returns (cancelled: Option<int>)
      modifies this`tickRoutes, this`tickRouteRight, this`handleToReqId
      ensures StreamMaps() == R.UnsubscribeTicks(old(StreamMaps()), handle)
      ensures cancelled == Get(old(handleToReqId), handle)
    {
      cancelled := Get(handleToReqId, handle);
      if cancelled.Some? {
        handleToReqId := handleToReqId - {handle};
        tickRoutes := tickRoutes - {cancelled.value};
        tickRouteRight := tickRouteRight - {cancelled.value};
      }
    }

    method BeginSubscribeMarketDepth(reqId: int, handle: int, iid: int)
      modifies this`depthRoutes, this`handleToDepthReqId
      ensures StreamMaps() == R.SubscribeDepth(old(StreamMaps()), reqId, handle, iid)
    {
      depthRoutes := depthRoutes[reqId := iid];
      handleToDepthReqId := handleToDepthReqId[handle := reqId];
    }

    method UndoSubscribeMarketDepth(reqId: int, handle: int)
      modifies this`depthRoutes, this`handleToDepthReqId
      ensures StreamMaps() == R.UndoDepth(old(StreamMaps()), reqId, handle)
    {
      depthRoutes := depthRoutes - {reqId};
      handleToDepthReqId := handleToDepthReqId - {handle};
    }

    method UnsubscribeMarketDepth(handle: int) returns (cancelled: Option<int>)
      modifies this`depthRoutes, this`handleToDepthReqId
      ensures StreamMaps() == R.UnsubscribeDepth(old(StreamMaps()), handle)
      ensures cancelled == Get(old(handleToDepthReqId), handle)
    {
      cancelled := Get(handleToDepthReqId, handle);
      if cancelled.Some? {
        handleToDepthReqId := handleToDepthReqId - {handle};
        depthRoutes := depthRoutes - {cancelled.value};
      }
    }
  }
}
