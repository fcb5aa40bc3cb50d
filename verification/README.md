# Order handling and wire protocols of the Corsair trading daemon, verified

A Dafny model of the half of the daemon that talks to the broker gateway and to the trader process, and
proofs about all of its inputs and all of its runs. One module per component:

- **Framing** (`Bytes`, `LengthPrefix`, `IbkrCodec`, `PythonFramer`): the length-prefixed NUL-separated IBKR
  stream, its receive loop, and the Python framer with the same header and another error behaviour.
- **Dispatcher** (`Inbound`, `AckState`, `AckProtocol`, `AckTiming`, `StrictTiming`, `AckRuns`, `RequestState`,
  `Requests`, `Demux`, `OrderCache`, `NativeBroker`): the lock-protected broker state. Every critical section is a
  function on the part of the state it touches; `NativeBroker.Broker` holds the maps and its methods are proved to be those functions;
  the protocol modules interleave them with callers, timers, send failures and disconnects in arbitrary order and
  prove what holds in every run against references read off the trace alone.
- **Order ids** (`OrderIds`), the **depth rotator** (`DepthRotator`), **broker to trader IPC** (`TickEncoder`,
  `TickConsolidation`, `StaleFilter`), **reconciliation** (`Reconcile`, `Convergence`) and the **vol surface**
  (`VolSurface`).

`Options`, `Sets` and `Clock` are shared vocabulary. `dafny verify dfyconfig.toml` checks the whole project.

Conventions: prices are exact reals (opaque 64-bit patterns in the encoder), strings on the wire are byte
sequences, clocks are inputs, and a clock that does not go back is an explicit hypothesis where it is needed. A
one-shot channel is named by the position of its install in the trace, and dropping its sender counts as a verdict.
Hash-map iteration order is arbitrary in every loop over a map.

## Where the code and its comments part

The model follows the code. These are consequences, each with the lemma that states it exactly and a
concrete run or input where it happens.

- The deferred poll after an amend is meant to pick up a late matching OpenOrder; the first drain forgets the
  expected price, so it never can (`StrictTiming.DeferredPollIsBlind`, `AckRuns.DeferredPollRun`).
- A strict sample is meant to time the amend it is drained for; a stamp left over when the amend is installed is
  drained instead (`StrictTiming.StrictPairing`; after a failed send, `AckRuns.FailedSendSampleRun`). Keeping the
  price until a stamp is taken repairs the poll but leaves late confirmations over (`AckRuns.LeftoverSampleRun`).
  Keeping the price and clearing an old stamp at the install together make a drain return the amend's own first
  matching OpenOrder, provided no other amend or timeout of the id comes first (`StrictTiming.StrictSampleExact`).
- A drained (send, ack) pair is meant to belong to one request; an accept message that comes after the drain is
  paired with the next amend (`AckTiming.PairingExact`, `AckRuns.StalePairRun`).
- The kill path is meant to cancel every live order; the decoder never sets a remaining quantity, so it selects none
  (`OrderCache.KillPathSelectsNothing`, `OrderCache.KillPathMissesLiveOrder`, repair in `OrderCache.RepairedKillPath`).
- A comment in the OrderStatus arm says amends are acknowledged by OpenOrder only; any accept-set status
  acknowledges them (`AckProtocol.SectionDecides`; the amend in `AckRuns.StalePairRun` is acknowledged so).
- Cleanup removes whatever waiter is pending on the id, so one call's timeout or failed send can drop the channel of
  another call on the same id (`AckProtocol.SectionDecides`, `AckRuns.DroppedByOtherRun`).
- The stale-command filter is meant to keep commands for terminated orders from the broker; its lookup and the call
  are two steps, and a status recorded between them is missed (`StaleFilter.StaleExactly`, `StaleFilter.RacingRun`).
- `try_decode_all` is meant to drain all complete frames; with an oversize header behind them in the same read it
  returns none (`IbkrCodec.ChunkingExact`, `IbkrCodec.OversizeLosesMessage`).
- An amend of a stop-limit order resets its trigger (`OrderCache.AmendKeepsTypeExactly`, `OrderCache.LostTriggerRun`).
- A reconcile compares one quantity per leg, so a leg held twice can pass for the reported one and stay
  (`Convergence.ConvergesToReports`, `Convergence.DoubledLegSurvives`), and its count misses a leg newly reported with
  quantity zero (`Reconcile.CountExact`, `Convergence.ZeroLegIsNotCounted`).
- Order ids are meant never to be reused; they are not reused as long as the largest i32 is not handed out, after
  which the counter has wrapped (`OrderIds.IdsIncrease`, `OrderIds.ExhaustedCounterRepeats`).

## Model

| member | source | states |
|---|---|---|
| `Bytes.BigEndianRoundTrip` | rust/corsair_broker_ibkr_native/src/codec.rs:38 | Reading the big-endian bytes of a number back gives the number, whenever it fits the width. |
| `LengthPrefix.Peek` | rust/corsair_broker_ibkr_native/src/codec.rs:62-75 | What the front of a buffer offers: a frame reported ready lies wholly inside the buffer and under the cap. |
| `LengthPrefix.PeekStable` | rust/corsair_broker_ibkr_native/src/codec.rs:61-94 | Bytes that arrive later never change a verdict that is not "incomplete", nor the body it points at. |
| `LengthPrefix.ScanAppend` | rust/corsair_broker_ibkr_native/src/codec.rs:96-104 | Parsing in two instalments is parsing once, for every cut of every byte string, unless the first part already hit an oversize header. |
| `LengthPrefix.ScanIsExact` | rust/corsair_broker_ibkr_native/src/codec.rs:96-104 | No byte is lost: re-framing the parsed bodies and appending the remainder gives the buffer back. |
| `LengthPrefix.ScanRest` | rust/corsair_broker_ibkr_native/src/codec.rs:96-104 | What is left after a parse holds no complete frame: it is a partial one, or starts with the oversize header. |
| `LengthPrefix.ScanFrames` | rust/corsair_broker_ibkr_native/src/codec.rs:31-104 | Parsing any list of framed bodies under the cap followed by anything gives those bodies, then the parse of what follows. |
| `IbkrCodec.EncodeFields` | rust/corsair_broker_ibkr_native/src/codec.rs:31-41 | The loop writes one frame whose payload is every field followed by its NUL. |
| `IbkrCodec.SplitPayload` | rust/corsair_broker_ibkr_native/src/codec.rs:80-91 | Splitting a payload of NUL-free fields on NUL gives exactly the fields and one empty piece. |
| `IbkrCodec.FieldsRoundTrip` | rust/corsair_broker_ibkr_native/src/codec.rs:76-91 | Decoding the payload of a message with NUL-free fields gives the message back, empty fields included. |
| `IbkrCodec.RecvTask.TryDecodeFrame` | rust/corsair_broker_ibkr_native/src/codec.rs:61-94 | Consumes exactly one complete frame, or leaves the buffer alone and asks for more, or reports the oversize header. |
| `IbkrCodec.RecvTask.TryDecodeAll` | rust/corsair_broker_ibkr_native/src/codec.rs:98-104 | Returns the messages of all complete frames; on an oversize header it returns none of them although the buffer has moved past them. |
| `IbkrCodec.RecvTask.Read` | rust/corsair_broker_ibkr_native/src/client.rs:494-575 | One read: the new state of the receive task is a function of the old one and the chunk; end of stream and decode errors stop it. |
| `IbkrCodec.RunIsScan` | rust/corsair_broker_ibkr_native/src/client.rs:485-575 | After any reads whatever, what was forwarded and what is buffered are those of one parse of the whole stream, if it has no oversize header; if it has one, the task has stopped. |
| `IbkrCodec.DeliversEveryMessage` | rust/corsair_broker_ibkr_native/src/client.rs:485-575 | For every list of well-formed messages, every partial frame after them and every way of cutting the bytes, exactly those messages are forwarded, in order, and exactly the partial frame is kept. |
| `IbkrCodec.OutIsPrefix` | rust/corsair_broker_ibkr_native/src/client.rs:485-575 | On arbitrary bytes, what was forwarded is an initial part of the messages before the first oversize header. |
| `IbkrCodec.OversizeLosesFrames` | rust/corsair_broker_ibkr_native/src/codec.rs:98-104 | A stream with an oversize header delivered in one read forwards nothing; cut before that header it forwards everything before it. |
| `IbkrCodec.OversizeLosesMessage` | rust/corsair_broker_ibkr_native/src/codec.rs:98-104 | For every well-formed message followed by four bytes 255: in one read nothing is forwarded, in two reads the message is. |
| `IbkrCodec.ChunkingExact` | rust/corsair_broker_ibkr_native/src/codec.rs:98-104 | What is forwarded is independent of the cutting if and only if the stream has no oversize header or no complete frame before it. |
| `PythonFramer.PackFrame` | src/ipc/protocol.py:61-72 | A body over the cap is refused, any other gives a frame that reads back as complete with that body. |
| `PythonFramer.FrameBuffer.UnpackFrames` | src/ipc/protocol.py:75-96 | The generator run to its end: it yields the decodable bodies before any oversize header, deletes what it consumed, and raises exactly on such a header. |
| `PythonFramer.YieldsAreChunkingIndependent` | src/ipc/protocol.py:75-96 | For every stream and every cutting, with no side condition: the yielded messages, and whether it raises, are those of the stream read at once. |
| `PythonFramer.WholeFrames` | src/ipc/protocol.py:75-96 | A stream of whole frames is consumed to the last byte. |
| `PythonFramer.BadBodiesCostNothingElse` | src/ipc/protocol.py:61-96 | Unpacking packed messages is the identity whatever undecodable bodies stand between them, and however it is cut. |
| `Inbound.ParseOrderStatus` | rust/corsair_broker_ibkr_native/src/decoder.rs:194-213 | Parses exactly the frames of at least twelve fields whose nine numeric fields all parse, the unused ones included; order id, status, filled and remaining come from fields 1 to 4. |
| `Inbound.ParseOpenOrder` | rust/corsair_broker_ibkr_native/src/decoder.rs:397-448 | Only an OpenOrder comes out, and its remaining quantity is always zero. |
| `Inbound.ParsePosition` | rust/corsair_broker_ibkr_native/src/decoder.rs:253-278 | Parses exactly the frames of at least sixteen fields whose contract id, strike, quantity and cost parse, and takes them and the account from their places. |
| `Inbound.ParseInbound` | rust/corsair_broker_ibkr_native/src/decoder.rs:18-82 | Whatever the frame, an OpenOrder it decodes to has remaining quantity zero. |
| `Inbound.Decode` | rust/corsair_broker_ibkr_native/src/broker.rs:375-392 | The messages the dispatcher routes for any frames; none of its OpenOrders has a remaining quantity. |
| `Inbound.AsU32` | rust/corsair_broker_ibkr_native/src/broker.rs:925 | The cast of a double to u32: truncation inside the range, saturation outside, NaN to zero. |
| `Inbound.AsI32` | rust/corsair_broker_ibkr_native/src/broker.rs:894 | The cast of a double to i32: truncation toward zero inside the range, saturation outside, NaN to zero. |
| `Inbound.NativeToContract` | rust/corsair_broker_ibkr_native/src/broker.rs:837-866 | A row converts if and only if its security type is a future or an option; id, symbol, right and a positive strike are kept, any other strike is dropped. |
| `AckState.Stamp` | rust/corsair_broker_ibkr_native/src/broker.rs:466-478 | The first stamp of an id wins and other ids are untouched. |
| `AckProtocol.SectionDecides` | rust/corsair_broker_ibkr_native/src/broker.rs:451-566 | For every critical section and every pending waiter: it is sent a verdict, and removed, exactly when the event decides its order id, and then exactly that verdict; otherwise it is left as it was. Rejected and Inactive statuses decide nothing. |
| `AckProtocol.Fate` | rust/corsair_broker_ibkr_native/src/broker.rs:1303-1405 | A waiter's fate read off the trace alone: the verdict of the first later event that decides its order id, or none if there is no such event. |
| `AckProtocol.RunsFollowFate` | rust/corsair_broker_ibkr_native/src/broker.rs:451-566 | Refinement: in every run of places, amends, send failures, inbound messages, timeouts, drains and disconnects, every waiter's channel holds exactly its fate, and it is pending exactly while it has none. |
| `AckProtocol.StepKeeps` | rust/corsair_broker_ibkr_native/src/broker.rs:1303-1405 | No step changes what a channel already holds or what a call already returned. |
| `AckProtocol.SettledOnce` | rust/corsair_broker_ibkr_native/src/broker.rs:1303-1405 | Between any two moments of any run a written channel and a returned call stay as they are: each waiter settles at most once. |
| `AckProtocol.ReturnsMail` | rust/corsair_broker_ibkr_native/src/broker.rs:1368-1374 | A call that returned from its channel returned what is in it. |
| `AckProtocol.AckSafety` | rust/corsair_broker_ibkr_native/src/broker.rs:1303-1567 | Safety over all runs: Ok means the first deciding event after the install was an OpenOrder or accept-set OrderStatus with this id; OrderRejected that it was an order-class error with this id and this text; ConnectionLost a disconnect; a dropped channel another call on the same id. |
| `AckProtocol.OwnCleanupIsNotTheChannel` | rust/corsair_broker_ibkr_native/src/broker.rs:1350-1403 | A call that reached its own cleanup returns the send error or the timeout, never a channel verdict. |
| `AckProtocol.NextDecisionSettles` | rust/corsair_broker_ibkr_native/src/broker.rs:481-548 | Completeness: a waiter that has heard nothing hears exactly what the next event decides for its id. |
| `AckTiming.SlotsAreIndependent` | rust/corsair_broker_ibkr_native/src/broker.rs:460-480 | In every run the four stamp maps read at one order id evolve by that id's events alone. |
| `AckTiming.OutstandingExact` | rust/corsair_broker_ibkr_native/src/broker.rs:1347-1354 | A send stamp is present exactly when a request on the id has been neither drained, timed out nor unwound. |
| `AckTiming.LeftoverExact` | rust/corsair_broker_ibkr_native/src/broker.rs:1420-1425 | An ack stamp is present exactly when an accept message came after the last timeout and the last drain that found a request outstanding. |
| `AckTiming.PairingExact` | rust/corsair_broker_ibkr_native/src/broker.rs:1420-1425 | For every run and every drain that returns a pair: the send is that of the last request on the id, and the ack is that request's own first accept message (so send <= ack) if and only if no accept message was left over when it was installed; otherwise the ack is older. |
| `AckTiming.LateAcceptSurvives` | rust/corsair_broker_ibkr_native/src/broker.rs:536 | The failing family: an accept message that comes when no request is outstanding is left over for the next request, however many drains follow. |
| `AckTiming.QuietGapLeavesNothing` | rust/corsair_broker/src/ipc.rs:776-788 | The intended case: a drain that takes the previous request's pair, and no accept message until the next send, leave nothing over. |
| `AckRuns.StalePairRun` | rust/corsair_broker_ibkr_native/src/broker.rs:1522-1527 | A concrete run of place, drain, late OrderStatus and amend whose drained pair is (50, 30): the ack precedes the send. |
| `StrictTiming.Drained` | rust/corsair_broker_ibkr_native/src/broker.rs:1435-1439 | What a strict drain returns at any point of any run. |
| `StrictTiming.StrictExact` | rust/corsair_broker_ibkr_native/src/broker.rs:476-480 | In every run, of the code and of both repairs, the expected price is that of the amend the trace expects, and the strict stamp is that of the OpenOrder the trace says it was taken at. |
| `StrictTiming.StrictPairing` | rust/corsair_broker_ibkr_native/src/broker.rs:1435-1439 | For every run and every strict drain that returns a stamp: it is that of an OpenOrder at the price of the amend last installed before it. It is the first matching OpenOrder of the amend the drain is counted for if and only if no stamp was left over when that amend was installed, or the repair clears it there; otherwise it is older than that amend. |
| `StrictTiming.DeferredPollIsBlind` | rust/corsair_broker/src/ipc.rs:1095-1124 | As written, after a strict drain of an id every later drain returns nothing until the id is amended again, so the deferred poll never sees its own OpenOrder. |
| `StrictTiming.StrictSampleExact` | rust/corsair_broker_ibkr_native/src/broker.rs:476-480 | The first drain after an amend's first matching OpenOrder returns that confirmation if and only if no older stamp was left over at the amend (or the repair clears it) and no drain came in between (or the repair keeps the price): with both repairs always, with either half not. |
| `StrictTiming.StrictSampleOnce` | rust/corsair_broker_ibkr_native/src/broker.rs:1435-1439 | With or without the repairs a sample is delivered once. |
| `AckRuns.DeferredPollRun` | rust/corsair_broker/src/ipc.rs:1095-1124 | A concrete run of amend, acknowledgement, drain and late matching OpenOrder: the code as written then drains nothing, both repairs drain it. |
| `AckRuns.LeftoverSampleRun` | rust/corsair_broker_ibkr_native/src/broker.rs:1517-1528 | That run followed by a second, promptly confirmed amend: keeping the price alone drains the first amend's confirmation (30) for a request sent at 50; clearing at the install as well drains its own (60). |
| `AckRuns.FailedSendSampleRun` | rust/corsair_broker_ibkr_native/src/broker.rs:1529-1534 | A concrete run of the code as written: the price an amend leaves behind when its send fails is matched by a later report, and the next amend drains that stamp, 30, for a request sent at 50. |
| `AckRuns.DroppedByOtherRun` | rust/corsair_broker_ibkr_native/src/broker.rs:1549-1565 | A concrete run in which one amend's timeout cleanup drops the channel of a second amend of the same order, which then returns an error although it was sent. |
| `Requests.StreamsKept` | rust/corsair_broker_ibkr_native/src/broker.rs:1828-1944 | Every subscribe, failed send and unsubscribe keeps routes, rights and handles linked to the allocation that made them. |
| `Requests.LinkedRemove` | rust/corsair_broker_ibkr_native/src/broker.rs:1867-1873 | Unwinding removes both halves of a route even if one or both are already gone. |
| `Requests.PendingsKept` | rust/corsair_broker_ibkr_native/src/broker.rs:567-611 | Every event keeps each pending request tied to the one use its id was allocated for. |
| `Requests.RoutingInvariant` | rust/corsair_broker_ibkr_native/src/broker.rs:1828-1944 | In every reachable state: both handle maps are injective, their ranges are exactly the route tables' keys, rights lie inside tick routes, and no request id is live in two of the four tables. |
| `Requests.TickRoutesExact` | rust/corsair_broker_ibkr_native/src/broker.rs:1828-1898 | In every run the tick routes are exactly the subscriptions neither unwound nor cancelled, each with the instrument, right and handle it was made with. |
| `Requests.DepthRoutesExact` | rust/corsair_broker_ibkr_native/src/broker.rs:1900-1944 | Likewise the depth routes, with their instruments and handles. |
| `RequestState.ExecutionToFill` | rust/corsair_broker_ibkr_native/src/broker.rs:1005-1022 | An execution becomes a fill if and only if its side is BOT or SLD, and the fill is about its order and instrument. |
| `Demux.ExecsStep` | rust/corsair_broker_ibkr_native/src/broker.rs:567-595 | What each event does to one request's accumulated fills. |
| `Demux.ContractsStep` | rust/corsair_broker_ibkr_native/src/broker.rs:596-611 | What each event does to one request's accumulated contract rows. |
| `Demux.ReplyStep` | rust/corsair_broker_ibkr_native/src/broker.rs:588-611 | When a request is answered, and with what. |
| `Demux.AwaitedExact` | rust/corsair_broker_ibkr_native/src/broker.rs:1619-1665 | In every run an accumulator exists exactly for the fills requests that were made and have not ended, timed out or been lost. |
| `Demux.OnePlaceEach` | rust/corsair_broker_ibkr_native/src/broker.rs:567-587 | Every execution that converts goes to exactly one place: appended to its open request, or broadcast, never both or neither. |
| `Demux.BroadcastExact` | rust/corsair_broker_ibkr_native/src/broker.rs:582-585 | The broadcast channel of any run carries exactly the fills that answered no open request, in order. |
| `Demux.AnsweredOnce` | rust/corsair_broker_ibkr_native/src/broker.rs:588-611 | An answered request is not pending any more and its answer never changes. |
| `Demux.FillsDemultiplexed` | rust/corsair_broker_ibkr_native/src/broker.rs:1619-1665 | Under every interleaving, a fills request that completes normally gets exactly the fills that carried its id between its making and its end marker, in arrival order. |
| `Demux.ContractsDemultiplexed` | rust/corsair_broker_ibkr_native/src/broker.rs:1667-1826 | Likewise a contract request gets exactly the contracts of the convertible rows that carried its id while it was open, in order. |
| `Demux.LateFillsAreBroadcast` | rust/corsair_broker_ibkr_native/src/broker.rs:1659-1663 | Once a fills request has timed out, ended or been lost, every later execution with its id is broadcast. |
| `OrderCache.NativeToOpenOrder` | rust/corsair_broker_ibkr_native/src/broker.rs:901-939 | An order is cached if and only if its security type and side are known; it never carries a GTD expiry. |
| `OrderCache.CacheIsLastOrder` | rust/corsair_broker_ibkr_native/src/broker.rs:451-543 | After any messages the cache holds, per order id, exactly its last convertible OpenOrder with the status and filled quantity of the last OrderStatus after it. |
| `OrderCache.SelectForCancel` | rust/corsair_broker/src/tasks.rs:804-808 | The selection loop returns each cached order with a positive remaining quantity, once, and no other. |
| `OrderCache.CachedOrdersAreBlank` | rust/corsair_broker_ibkr_native/src/broker.rs:517-520 | After any decoded messages no cached order has a remaining quantity, a GTD expiry or a stop trigger. |
| `OrderCache.KillPathSelectsNothing` | rust/corsair_broker/src/tasks.rs:795-829 | As written, after any frames at all the kill path selects nothing, so it covers the live orders if and only if there are none. |
| `OrderCache.KillPathMissesLiveOrder` | rust/corsair_broker_ibkr_native/src/decoder.rs:444-446 | One well-formed openOrder frame after which a live order exists and is not selected. |
| `OrderCache.RepairedKillPath` | rust/corsair_broker_ibkr_native/src/broker.rs:540-543 | If OpenOrder seeded and OrderStatus updated the remaining quantity, the selection would be exactly the orders whose last reported remaining is positive, after any messages; it covers every live order, and selects no other if and only if no order ended with something left on it. |
| `OrderCache.TifName` | rust/corsair_broker_ibkr_native/src/broker.rs:1099-1106 | The wire name of a time in force parses back to it. |
| `OrderCache.BuildPlaceParams` | rust/corsair_broker_ibkr_native/src/broker.rs:1076-1138 | Fails exactly on a missing limit price or a GTD without expiry; otherwise side, type (with trigger) and time in force read back from the frame are those asked for. |
| `OrderCache.ModifyOverrides` | rust/corsair_broker_ibkr_native/src/broker.rs:1447-1467 | In every reachable cache a limit amend goes out if and only if it has a price and, for GTD, its own new expiry; what goes out is the cached order with only price, quantity, expiry and account replaced. |
| `OrderCache.GtdNeedsNewExpiry` | rust/corsair_broker_ibkr_native/src/broker.rs:1107-1121 | In every reachable cache a GTD order of any type cannot be amended without a new expiry. |
| `OrderCache.StopLimitLosesTrigger` | rust/corsair_broker_ibkr_native/src/broker.rs:926 | Every stop-limit amend that goes out resets the trigger to zero. |
| `OrderCache.EchoRestoresOrder` | rust/corsair_broker_ibkr_native/src/broker.rs:901-939 | Caching the gateway's echo of a placed order gives the order back, except its GTD expiry always and its stop trigger unless zero. |
| `OrderCache.AmendKeepsTypeExactly` | rust/corsair_broker_ibkr_native/src/broker.rs:1447-1467 | Placed, echoed, cached whatever else was received, and amended: the amend states the type the order was placed with, trigger included, if and only if it is not a stop-limit with a nonzero trigger. |
| `OrderCache.LostTriggerRun` | rust/corsair_broker_ibkr_native/src/decoder.rs:439-440 | One stop-limit openOrder frame that echoes an order placed with any trigger, and an amend built from it that sends trigger zero. |
| `Reconcile.CacheIsLastReports` | rust/corsair_broker_ibkr_native/src/broker.rs:420-433 | After any Position messages the cache holds, per account and contract, exactly the last report, or nothing if that was zero. |
| `Reconcile.Portfolio.QuantityMap` | rust/corsair_broker/src/runtime.rs:676-695 | Quantity by leg key, later entries winning. |
| `Reconcile.Portfolio.Same` | rust/corsair_broker/src/runtime.rs:699-702 | The size-and-subset test is equality of the two maps. |
| `Reconcile.Portfolio.CountDrift` | rust/corsair_broker/src/runtime.rs:709-728 | The two loops count exactly the drifted legs, none twice. |
| `Reconcile.Portfolio.CountGone` | rust/corsair_broker/src/runtime.rs:720-728 | The second loop counts exactly the legs no longer reported. |
| `Reconcile.Portfolio.Reconcile` | rust/corsair_broker/src/runtime.rs:620-731 | The book is replaced exactly when the quantity maps differ, and the count is that of the drifted legs. |
| `Reconcile.SecondReconcileIsQuiet` | rust/corsair_broker/src/runtime.rs:697-705 | Whatever the drift, one reconcile makes the code's two quantity maps equal and a second one returns 0 and changes nothing. |
| `Reconcile.CountExact` | rust/corsair_broker/src/runtime.rs:709-730 | The returned count is the number of legs whose entry changed if and only if no leg is newly reported with quantity zero. |
| `Convergence.FingerprintIsLast` | rust/corsair_broker/src/runtime.rs:676-695 | The code's quantity map shows, per leg, the last of the positions held on it and no other. |
| `Convergence.FingerprintExact` | rust/corsair_broker/src/runtime.rs:676-695 | A book holds what its quantity map says if and only if no leg is held twice. |
| `Convergence.FingerprintConverges` | rust/corsair_broker/src/runtime.rs:620-731 | After any Position messages and any local drift, the quantity map after one reconcile has every registered option leg at its last reported quantity, absent if that is zero, in whatever order the cache is walked. |
| `Convergence.ConvergesToReports` | rust/corsair_broker/src/runtime.rs:620-731 | About the positions held: one reconcile leaves every leg held exactly once at its last reported quantity, and nothing else, if and only if the two quantity maps differed or no leg was held twice before. |
| `Convergence.DoubledLegStays` | rust/corsair_broker/src/runtime.rs:699-705 | The failing family: a leg held twice, the second time at the reported quantity, is left as it is and counted as no change. |
| `Convergence.DoubledLegSurvives` | rust/corsair_broker/src/runtime.rs:699-705 | From one Position message of 3: a leg held as 5 and 3 stays held as 5 and 3, and the reconcile returns 0. |
| `Convergence.ZeroLegIsNotCounted` | rust/corsair_broker/src/runtime.rs:709-730 | From one Position message of 0.5: a leg of quantity zero enters the book and the reconcile returns 0. |
| `Convergence.NothingElseIsHeld` | rust/corsair_broker/src/runtime.rs:629-665 | Every leg held at all after a reconcile is one whose last report is not zero. |
| `NativeBroker.Broker.constructor` | rust/corsair_broker_ibkr_native/src/broker.rs:282-296 | A new broker starts every protocol at its initial state. |
| `NativeBroker.Broker.Route` | rust/corsair_broker_ibkr_native/src/broker.rs:412-611 | One routed message: acknowledgement, request, order-cache and position-cache state all make their protocol's transition, and nothing else changes. |
| `NativeBroker.Broker.RoutePosition` | rust/corsair_broker_ibkr_native/src/broker.rs:420-433 | The Position arm makes the position cache's transition. |
| `NativeBroker.Broker.RouteOpenOrder` | rust/corsair_broker_ibkr_native/src/broker.rs:451-490 | The OpenOrder arm: cache, wire stamp, strict stamp and waiter together. |
| `NativeBroker.Broker.RouteOrderStatus` | rust/corsair_broker_ibkr_native/src/broker.rs:491-548 | The OrderStatus arm, for accepting and other statuses. |
| `NativeBroker.Broker.RouteError` | rust/corsair_broker_ibkr_native/src/broker.rs:734-768 | The Error arm, both classes of code. |
| `NativeBroker.Broker.RouteRow` | rust/corsair_broker_ibkr_native/src/broker.rs:567-611 | The arms for rows and end markers. |
| `NativeBroker.Broker.BeginPlace` | rust/corsair_broker_ibkr_native/src/broker.rs:1330-1349 | The critical section of a place is the install transition without an amend price. |
| `NativeBroker.Broker.PrepareModify` | rust/corsair_broker_ibkr_native/src/broker.rs:1448-1467 | An amend up to its critical section changes no state: it fails with the build's error, or yields the overridden parameters and the price to expect. |
| `NativeBroker.Broker.BeginModify` | rust/corsair_broker_ibkr_native/src/broker.rs:1517-1528 | The critical section of an amend is the install transition with its price. |
| `NativeBroker.Broker.AfterSendFailed` | rust/corsair_broker_ibkr_native/src/broker.rs:1350-1356 | Cleanup after a failed send; the expected price stays. |
| `NativeBroker.Broker.AfterTimeout` | rust/corsair_broker_ibkr_native/src/broker.rs:1392-1397 | Cleanup after the wait elapsed removes every trace of the id. |
| `NativeBroker.Broker.DrainWireTiming` | rust/corsair_broker_ibkr_native/src/broker.rs:1420-1425 | The drain, including the send stamp it removes when there is no ack. |
| `NativeBroker.Broker.DrainStrictAmendAckNs` | rust/corsair_broker_ibkr_native/src/broker.rs:1435-1439 | The drain as written, which forgets the expected price on every call. |
| `NativeBroker.Broker.Disconnect` | rust/corsair_broker_ibkr_native/src/broker.rs:1261-1286 | Every pending waiter of every kind, and nobody else, hears that the connection is lost. |
| `NativeBroker.Broker.AskContracts` | rust/corsair_broker_ibkr_native/src/broker.rs:1670-1679 | Making a contract request is the request protocol's own transition, with no reply and no broadcast: it is the event from which the demultiplexing theorems collect its rows. |
| `NativeBroker.Broker.AskFills` | rust/corsair_broker_ibkr_native/src/broker.rs:1621-1631 | Making a fills request is the request protocol's own transition, with no reply and no broadcast: it is the event from which the demultiplexing theorems collect its fills. |
| `NativeBroker.Broker.ForgetContracts` | rust/corsair_broker_ibkr_native/src/broker.rs:1702-1706 | A contract request's timeout is the request protocol's own transition: rows that arrive later find no request and no reply is sent. |
| `NativeBroker.Broker.ForgetFills` | rust/corsair_broker_ibkr_native/src/broker.rs:1659-1663 | A fills request's timeout is the request protocol's own transition: by the late-fills theorem every later execution with its id is broadcast. |
| `NativeBroker.Broker.BeginSubscribeTicks` | rust/corsair_broker_ibkr_native/src/broker.rs:1836-1849 | Route, right and handle go in together. |
| `NativeBroker.Broker.UndoSubscribeTicks` | rust/corsair_broker_ibkr_native/src/broker.rs:1867-1873 | A failed send takes all three out. |
| `NativeBroker.Broker.UnsubscribeTicks` | rust/corsair_broker_ibkr_native/src/broker.rs:1877-1898 | All three go out together; an unknown handle changes and cancels nothing. |
| `NativeBroker.Broker.BeginSubscribeMarketDepth` | rust/corsair_broker_ibkr_native/src/broker.rs:1905-1911 | Depth route and handle go in together. |
| `NativeBroker.Broker.UndoSubscribeMarketDepth` | rust/corsair_broker_ibkr_native/src/broker.rs:1918-1923 | A failed send takes both out. |
| `NativeBroker.Broker.UnsubscribeMarketDepth` | rust/corsair_broker_ibkr_native/src/broker.rs:1927-1944 | Both go out together; an unknown handle changes and cancels nothing. |
| `OrderIds.OrderIdAllocator.Poll` | rust/corsair_broker_ibkr_native/src/client.rs:192-199 | One look at the counter: a positive value is handed out and passed. |
| `OrderIds.OrderIdAllocator.OnNextValidId` | rust/corsair_broker_ibkr_native/src/client.rs:517-527 | The counter becomes the larger of itself and the broadcast. |
| `OrderIds.OrderIdAllocator.AllocOrderId` | rust/corsair_broker_ibkr_native/src/client.rs:190-214 | Returns 0 if and only if the counter never became positive during the 51 polls; any other id is at least the counter the call found. |
| `OrderIds.CounterGrows` | rust/corsair_broker_ibkr_native/src/client.rs:190-214 | Until the largest i32 is handed out, the counter never falls, passes every id it issues and is at least every broadcast. |
| `OrderIds.IdsIncrease` | rust/corsair_broker_ibkr_native/src/client.rs:515-527 | Over every interleaving of polls and broadcasts, ids strictly increase, so none is reused, if and only if the largest i32 is handed out by none but the last of the polls that hand out; then each is also at least every nextValidId before it. |
| `OrderIds.ExhaustedCounterRepeats` | rust/corsair_broker_ibkr_native/src/client.rs:194-197 | Any run that handed out the largest i32 goes on, by one broadcast of 1 and one poll, to a run whose ids do not increase (the counter has wrapped). |
| `DepthRotator.Ranked` | rust/corsair_broker/src/subscriptions.rs:414 | The ranking is a permutation of the candidates. |
| `DepthRotator.RankedSorted` | rust/corsair_broker/src/subscriptions.rs:414 | The ranking is in order of distance. |
| `DepthRotator.Rotator.Select` | rust/corsair_broker/src/subscriptions.rs:418-441 | The selection loop picks the pinned candidates and the cursor's window, and moves the cursor on by its width. |
| `DepthRotator.Rotator.Cadence` | rust/corsair_broker/src/subscriptions.rs:380-487 | After a cadence the active set is exactly the wanted instruments that were active or whose subscribe succeeded, with old handles kept, at most five. |
| `DepthRotator.Rotator.CancelUnwanted` | rust/corsair_broker/src/subscriptions.rs:447-460 | Exactly the unwanted instruments leave, whatever becomes of their cancels. |
| `DepthRotator.Rotator.AddWanted` | rust/corsair_broker/src/subscriptions.rs:462-487 | The cap holds after every single subscribe. |
| `DepthRotator.CapHolds` | rust/corsair_broker/src/subscriptions.rs:346-487 | In every run, whichever subscribes fail: never more than five active, and always inside the wanted set. |
| `DepthRotator.ChosenDistinct` | rust/corsair_broker/src/subscriptions.rs:416-441 | The chosen instruments are distinct, and as many as the slots or the candidates allow. |
| `DepthRotator.PinnedAreNearest` | rust/corsair_broker/src/subscriptions.rs:416-426 | The pinned instruments are always chosen and no candidate outside them is nearer. |
| `DepthRotator.CursorMoves` | rust/corsair_broker/src/subscriptions.rs:430-439 | After k cadences on one pool the cursor has moved k windows, modulo the pool. |
| `DepthRotator.EveryPoolMemberIsChosen` | rust/corsair_broker/src/subscriptions.rs:427-440 | From any cursor value, every pool member is in the window of one of the next ceil(n / min(3, n)) cadences. |
| `DepthRotator.CoverageInRuns` | rust/corsair_broker/src/subscriptions.rs:380-487 | In any run whose ranking stays the same for that many cadences, every pool member is wanted in one of them and active after it if its subscribe succeeds. |
| `TickEncoder.Decode` | rust/corsair_broker/src/ipc.rs:1538-1563 | The reference decoder of the MessagePack "Formats" section: nil, integer, float 32 and 64, str and map families; it consumes at least one byte. |
| `TickEncoder.EncodeBuffer.WriteFixstr` | rust/corsair_broker/src/ipc.rs:1566-1571 | Appends the fixstr encoding of a key. |
| `TickEncoder.EncodeBuffer.WriteStr` | rust/corsair_broker/src/ipc.rs:1574-1589 | Appends a string in the shortest of the four str formats. |
| `TickEncoder.EncodeBuffer.WriteStrKv` | rust/corsair_broker/src/ipc.rs:1592-1595 | Appends a string field. |
| `TickEncoder.EncodeBuffer.WriteF64Kv` | rust/corsair_broker/src/ipc.rs:1598-1602 | Appends a double field. |
| `TickEncoder.EncodeBuffer.WriteOptF64Kv` | rust/corsair_broker/src/ipc.rs:1605-1614 | Appends an optional double field, nil when absent. |
| `TickEncoder.EncodeBuffer.WriteOptI32Kv` | rust/corsair_broker/src/ipc.rs:1617-1626 | Appends an optional i32 field in two's complement, nil when absent. |
| `TickEncoder.EncodeBuffer.WriteU64Kv` | rust/corsair_broker/src/ipc.rs:1629-1633 | Appends a u64 field. |
| `TickEncoder.EncodeBuffer.WriteHeader` | rust/corsair_broker/src/ipc.rs:1540-1547 | The header counts the fields that follow. |
| `TickEncoder.EncodeBuffer.EncodeTickInto` | rust/corsair_broker/src/ipc.rs:1538-1563 | Appends exactly the bytes of the tick to whatever the buffer holds. |
| `TickEncoder.StrDecodes` | rust/corsair_broker/src/ipc.rs:1574-1589 | Every string below 2^32 bytes reads back, with any suffix left over. |
| `TickEncoder.HeaderCountsDistinctKeys` | rust/corsair_broker/src/ipc.rs:1538-1563 | The keys of one tick are distinct and number 10 to 14, so the header fits a fixmap. |
| `TickEncoder.FieldsDecode` | rust/corsair_broker/src/ipc.rs:1549-1562 | Any list of fields decodes to its pairs, whatever follows. |
| `TickEncoder.LookupExpected` | rust/corsair_broker/src/ipc.rs:1549-1562 | Under each key a reader finds the field of that name, and nothing under the key of an absent depth price. |
| `TickEncoder.TickDecodes` | rust/corsair_broker/src/ipc.rs:1538-1563 | An encoded tick followed by anything decodes as one map of its fields and leaves what follows. |
| `TickEncoder.TickRoundTrip` | rust/corsair_broker/src/ipc.rs:1538-1633 | Decoding an encoded tick followed by any suffix returns every field of the tick, for all combinations of optional fields, and exactly the suffix. |
| `TickConsolidation.Consolidator.FastPath` | rust/corsair_broker/src/ipc.rs:115-304 | One call of the publisher closure: new cache and frame. |
| `TickConsolidation.Consolidator.Pump` | rust/corsair_broker/src/ipc.rs:1679-1778 | One turn of the broadcast pump: new cache and frame. |
| `TickConsolidation.EntryIsLatest` | rust/corsair_broker/src/ipc.rs:246-278 | Refinement of "last value per kind": in every history each cached part is the last value of its kind on the instrument, or what the entry began with. |
| `TickConsolidation.FramesCarryLatest` | rust/corsair_broker/src/ipc.rs:284-299 | Every option frame carries the latest value of each kind (or the seed), its own tick's depth and time; the fast path the current identity, the pump the first. |
| `TickConsolidation.FramesAgree` | rust/corsair_broker/src/ipc.rs:1755-1773 | Exactly when one tick's frame is the same on both paths. |
| `TickConsolidation.PathsAgreeExactly` | rust/corsair_broker/src/ipc.rs:1669-1783 | Both paths publish the same frames for an instrument if and only if market data held nothing of the other kinds at its first tick and its identity never changed. |
| `TickConsolidation.OthersAgree` | rust/corsair_broker/src/ipc.rs:174-200 | Both paths publish the same for ticks that make no option quote, although they test kind and instrument in different orders: an underlying's positive prices and nothing else. |
| `StaleFilter.Filter.OnStatus` | rust/corsair_broker/src/tasks.rs:377-404 | One status: terminal ids are recorded and leave the seen set, others join it. |
| `StaleFilter.Filter.Evict` | rust/corsair_broker/src/tasks.rs:71-77 | Exactly the records at least 60 s old go. |
| `StaleFilter.Filter.Handle` | rust/corsair_broker/src/ipc.rs:914-1009 | A command's lookup finds it malformed, shadowed, dropped or let through, and only a drop moves its own kind's counter. |
| `StaleFilter.TerminatedExact` | rust/corsair_broker/src/tasks.rs:392-404 | In every run an id is remembered exactly if its latest terminal record was found expired by no evictor turn. |
| `StaleFilter.DroppedExactly` | rust/corsair_broker/src/ipc.rs:926-947 | At its lookup a live command is dropped if and only if its id is so remembered, and let through otherwise, whatever clock and schedule. |
| `StaleFilter.NothingPassesWithinTtl` | rust/corsair_broker/src/tasks.rs:56-77 | With a clock that does not go back, no lookup lets a command through within 60 s after a terminal status of its id was recorded, whatever the eviction schedule. |
| `StaleFilter.StaleExactly` | rust/corsair_broker/src/ipc.rs:926-951 | The call to the broker is a later step of the command's own task. A command reaches the broker within 60 s after a terminal status of its id if and only if that status was recorded between its lookup and its call. |
| `StaleFilter.NothingStaleWithinTtl` | rust/corsair_broker/src/ipc.rs:976-1026 | If no terminal status of its id is recorded between lookup and call, no command reaches the broker within 60 s after one. |
| `StaleFilter.AnyFlightCanBeOvertaken` | rust/corsair_broker/src/ipc.rs:926-951 | That hypothesis cannot be dropped: in any run, any command between lookup and call can still be overtaken by a terminal status and reach the broker inside the window. |
| `StaleFilter.RacingRun` | rust/corsair_broker/src/ipc.rs:933-951 | A concrete run: a cancel is looked up, its order fills, and the cancel goes out 10 ns later. |
| `StaleFilter.CommandsConserved` | rust/corsair_broker/src/ipc.rs:976-1026 | Per kind, well-formed live commands received are those that called the broker, those dropped, and those still between lookup and call. |
| `VolSurface.ForwardFrom` | rust/corsair_broker/src/vol_surface.rs:343-388 | The chosen forward is always within 0.20 of the spot. |
| `VolSurface.Forward` | rust/corsair_broker/src/vol_surface.rs:313-389 | The pairing, sampling and averaging loops compute one forward, that of the usable pairs' samples taken once each in any order at all. |
| `VolSurface.Average` | rust/corsair_broker/src/vol_surface.rs:343-388 | The averaging loop is the mean of the samples, checked against the spot. |
| `VolSurface.OrderDoesNotMatter` | rust/corsair_broker/src/vol_surface.rs:334-344 | Two walks of the map in different orders give the same forward. |
| `VolSurface.SidesAreLatestMids` | rust/corsair_broker/src/vol_surface.rs:317-329 | After any quotes the pairing map holds, per expiry, rounded strike and side, the last two-sided mid. |
| `VolSurface.CollectSamples` | rust/corsair_broker/src/vol_surface.rs:333-342 | Exactly one sample per pair that is near the spot and has both mids. |
| `VolSurface.SampleCount` | rust/corsair_broker/src/vol_surface.rs:343 | The samples number the usable pairs. |
| `VolSurface.ForwardIsParity` | rust/corsair_broker/src/vol_surface.rs:343-388 | If all usable pairs obey parity with one F, the forward is F if and only if there are two of them and F is within 0.20 of the spot, or F is the spot; otherwise it is the spot. |
| `VolSurface.FitPoints` | rust/corsair_broker/src/vol_surface.rs:391-456 | The loop collects the fit points by expiry. |
| `VolSurface.PointHasQuote` | rust/corsair_broker/src/vol_surface.rs:393-456 | Every fit point comes from a quote of its expiry that the filter took. |
| `VolSurface.QuoteHasPoint` | rust/corsair_broker/src/vol_surface.rs:393-456 | Every quote the filter takes gives its point. |
| `VolSurface.OnePointPerStrike` | rust/corsair_broker/src/vol_surface.rs:394-404 | Each (expiry, strike) contributes at most one fit point. |
| `VolSurface.SurfaceCache.Store` | rust/corsair_broker/src/vol_surface.rs:212-224 | A new table is published with the fit under both side keys; the table a reader holds is never written. |
| `VolSurface.SidesEqualLatest` | rust/corsair_broker/src/vol_surface.rs:212-224 | In every reachable cache the call and put entries of an expiry are both its latest fit. |

## Left out

- Handshake, TCP options, the 64 KiB read size, and the bounded dispatch channel that drops frames when full: only the reads and the messages they complete are modelled.
- Lossy UTF-8 conversion of a received field: a function parameter, the identity on the fields a round trip is claimed for.
- Float, date and multiplier parsing: function parameters; an infinite strike counts as none.
- Decoder layouts of tick, depth, error, contract, execution and account messages: those messages enter the dispatcher already decoded; seeding flags, account values and managed accounts are not modelled.
- Routing of tick and depth messages to their channels, including the wrong-side open-interest filter: only the tables they are routed by.
- The broadcast of status updates and errors to other tasks: one send per message with copied fields.
- place_template.rs and requests.rs: the parameters of a place or amend are modelled, not the bytes of its frame; the checks of place_order for zero quantity and an unseeded id are not modelled.
- Request ids and stream handles: counters assumed not to wrap within a run, so ids are fresh and at least 1000; order ids are one integer, not a u64 cast to i32.
- A contract or fills request whose send fails leaves its entry behind in the code; in the model that is a request nobody times out.
- The caller-side selection after a contract reply (first row, multiplier fallback, minimum expiry).
- Retry timing: the 500 ms, 1 s, 10 s, 15 s and 60 s timers are events that may fire at any time.
- Convergence.ConvergesToReports: assumes one account, whole-number positions, contracts that convert and keep their description, and no two contracts on one leg; formatting the strike to four decimals is any rounding function.
- Average price, fill time and Greeks of a reconciled position.
- Implied volatility, time to expiry, the SABR fit, its minimum number of points and the published events: parameters or outside the model; IEEE-754 rounding is not modelled.
- TickConsolidation.Pump: the market-data view is one value per tick, although the pump reads it in up to three lock sections.
- TickEncoder.TickRoundTrip: strings of 2^32 bytes or more, whose length field would be cut, are excluded.
- Shared-memory rings, JSON lines, latency histograms, logging, the network outcome of the kill path's cancels, and the rotator's timer.
- Python generator protocol: exceptions thrown into the generator at a yield.
- Chain, fill-notification and risk payload assembly, hedging, notifications, configuration and the scripts: display, plumbing or easy members.
