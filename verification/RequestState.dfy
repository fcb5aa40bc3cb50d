/**
 The parts of BrokerState keyed by request id: the replies being accumulated for contract and execution
 requests, and the tick and depth routing tables (broker.rs). Each function is one critical section.
 */
module RequestState {
  import opened Options
  import opened Inbound

  datatype Fill = Fill(instrumentId: int, orderId: int, execId: string, side: Side, qty: nat, price: F64, timestampNs: nat)

  /** execution_to_fill: an execution that is neither BOT nor SLD is no fill. */
  function ExecutionToFill(m: InboundMsg, now: nat): (f: Option<Fill>)
    requires m.Execution?
    ensures f.Some? <==> m.side.Some?
    ensures f.Some? ==> f.value.orderId == m.execOrderId && f.value.instrumentId == m.conId && f.value.timestampNs == now
  {
    match m.side
    case None => None
    case Some(side) => Some(Fill(m.conId, m.execOrderId, m.execId, side, AsU32(m.shares), m.price, now))
  }

  predicate IsContractError(code: int)
  {
    code == 200 || code == 321 || code == 322
  }

  /** Replies being accumulated, by request id: pending_contract_details and pending_executions. */
  datatype Pendings = Pendings(contracts: map<int, seq<ContractDecoded>>, execs: map<int, seq<Fill>>)

  const NO_PENDINGS: Pendings := Pendings(map[], map[])

  /** Routing of live subscriptions: request id -> instrument, and handle -> request id. */
  datatype Streams = Streams(
    tickRoutes: map<int, int>,
    tickRight: map<int, Right>,
    depthRoutes: map<int, int>,
    handleTick: map<int, int>,
    handleDepth: map<int, int>)

  const NO_STREAMS: Streams := Streams(map[], map[], map[], map[], map[])

  /** What a requester can find on its channel. */
  datatype Reply = Rows(rows: seq<ContractDecoded>) | Fills(fills: seq<Fill>) | NotFound(text: string) | Lost

  /** Replies sent by one critical section, and fills it leaves to the broadcast channel. */
  datatype Out = Out(replies: map<int, Reply>, broadcast: seq<Fill>)

  const QUIET: Out := Out(map[], [])

  function SubscribeTicks(t: Streams, r: int, h: int, iid: int, right: Option<Right>): Streams
  {
    t.(tickRoutes := t.tickRoutes[r := iid],
       tickRight := if right.Some? then t.tickRight[r := right.value] else t.tickRight,
       handleTick := t.handleTick[h := r])
  }

  /** Unwinding after the subscription's send failed. */
  function UndoTicks(t: Streams, r: int, h: int): Streams
  {
    t.(tickRoutes := t.tickRoutes - {r}, tickRight := t.tickRight - {r}, handleTick := t.handleTick - {h})
  }

  function UnsubscribeTicks(t: Streams, h: int): Streams
  {
    if h in t.handleTick then UndoTicks(t, t.handleTick[h], h) else t
  }

  function SubscribeDepth(t: Streams, r: int, h: int, iid: int): Streams
  {
    t.(depthRoutes := t.depthRoutes[r := iid], handleDepth := t.handleDepth[h := r])
  }

  function UndoDepth(t: Streams, r: int, h: int): Streams
  {
    t.(depthRoutes := t.depthRoutes - {r}, handleDepth := t.handleDepth - {h})
  }

  function UnsubscribeDepth(t: Streams, h: int): Streams
  {
    if h in t.handleDepth then UndoDepth(t, t.handleDepth[h], h) else t
  }

  function Route(t: Pendings, m: InboundMsg, now: nat): (r: (Pendings, Out))
  {
    match m
    case Execution(req, _, _, _, _, _, _) =>
      var fill := ExecutionToFill(m, now);
      if fill.None? then (t, QUIET)
      else if req > 0 && req in t.execs then (t.(execs := t.execs[req := t.execs[req] + [fill.value]]), QUIET)
      else (t, QUIET.(broadcast := [fill.value]))
    case ExecutionEnd(req) =>
      if req in t.execs
      then (t.(execs := t.execs - {req}), QUIET.(replies := map[req := Fills(t.execs[req])]))
      else (t, QUIET)
    case ContractDetails(req, cd) =>
      if req in t.contracts then (t.(contracts := t.contracts[req := t.contracts[req] + [cd]]), QUIET) else (t, QUIET)
    case ContractDetailsEnd(req) =>
      if req in t.contracts
      then (t.(contracts := t.contracts - {req}), QUIET.(replies := map[req := Rows(t.contracts[req])]))
      else (t, QUIET)
    case Error(req, code, text) =>
      if req > 0 && IsContractError(code) && req in t.contracts
      then (t.(contracts := t.contracts - {req}), QUIET.(replies := map[req := NotFound(text)]))
      else (t, QUIET)
    case _ => (t, QUIET)
  }

  function Disconnect(t: Pendings): (r: (Pendings, Out))
  {
    (NO_PENDINGS, QUIET.(replies := map r | r in t.contracts.Keys + t.execs.Keys :: Lost))
  }

  /** The rows a contract waiter is handed: those that convert, in order. */
  function Converted(h: Host, rows: seq<ContractDecoded>): (cs: seq<Contract>)
    ensures |cs| <= |rows|
  {
    if rows == [] then []
    else
      var init := Converted(h, rows[..|rows| - 1]);
      match NativeToContract(h, rows[|rows| - 1])
      case None => init
      case Some(c) => init + [c]
  }
}
