/**
 Requests over whole runs: no request id is ever live in two tables, subscriptions and their handles
 stay in step, and rows are demultiplexed to the request that asked for them.
 */
module Requests {
  import opened Clock
  import opened Options
  import opened Inbound
  import R = RequestState
  import opened RequestState

  datatype Event =
    | ContractsAsked(r: int) | FillsAsked(r: int)
    | ContractsTimedOut(r: int) | FillsTimedOut(r: int)
    | TicksSubscribed(r: int, h: int, iid: int, right: Option<Right>)
    | DepthSubscribed(r: int, h: int, iid: int)
    | TicksSendFailed(r: int, h: int) | DepthSendFailed(r: int, h: int)
    | TicksUnsubscribed(h: int) | DepthUnsubscribed(h: int)
    | Routed(m: InboundMsg)
    | Disconnected

  type Timed = TimedEvent<Event>

  type Trace = seq<Timed>

  // The state is three parts that no critical section mixes, each a fold over the same trace.

  /** What a request id was allocated for. */
  datatype Use = ForRows | ForStream(depth: bool, h: int)

  /** The two counters never repeat a number, whatever order allocations reach the lock in. */
  datatype Ids = Ids(uses: map<int, Use>, handles: set<int>)

  const FIRST_REQ_ID := 1000

  predicate Fresh(s: Ids, r: int)
  {
    r >= FIRST_REQ_ID && r !in s.uses
  }

  predicate Enabled(s: Ids, e: Event)
  {
    match e
    case ContractsAsked(r) => Fresh(s, r)
    case FillsAsked(r) => Fresh(s, r)
    case TicksSubscribed(r, h, _, _) => Fresh(s, r) && h !in s.handles
    case DepthSubscribed(r, h, _) => Fresh(s, r) && h !in s.handles
    case TicksSendFailed(r, h) => r in s.uses && s.uses[r] == ForStream(false, h)
    case DepthSendFailed(r, h) => r in s.uses && s.uses[r] == ForStream(true, h)
    case _ => true
  }

  function Allocate(s: Ids, e: Event): (s': Ids)
  {
    match e
    case ContractsAsked(r) => s.(uses := s.uses[r := ForRows])
    case FillsAsked(r) => s.(uses := s.uses[r := ForRows])
    case TicksSubscribed(r, h, _, _) => Ids(s.uses[r := ForStream(false, h)], s.handles + {h})
    case DepthSubscribed(r, h, _) => Ids(s.uses[r := ForStream(true, h)], s.handles + {h})
    case _ => s
  }

  function StreamStep(t: Streams, e: Event): (t': Streams)
  {
    match e
    case TicksSubscribed(r, h, iid, right) => SubscribeTicks(t, r, h, iid, right)
    case DepthSubscribed(r, h, iid) => SubscribeDepth(t, r, h, iid)
    case TicksSendFailed(r, h) => UndoTicks(t, r, h)
    case DepthSendFailed(r, h) => UndoDepth(t, r, h)
    case TicksUnsubscribed(h) => UnsubscribeTicks(t, h)
    case DepthUnsubscribed(h) => UnsubscribeDepth(t, h)
    case _ => t
  }

  function PendStep(t: Pendings, x: Timed): (r: (Pendings, Out))
  {
    match x.ev
    case ContractsAsked(r) => (t.(contracts := t.contracts[r := []]), QUIET)
    case FillsAsked(r) => (t.(execs := t.execs[r := []]), QUIET)
    case ContractsTimedOut(r) => (t.(contracts := t.contracts - {r}), QUIET)
    case FillsTimedOut(r) => (t.(execs := t.execs - {r}), QUIET)
    case Routed(m) => R.Route(t, m, x.now)
    case Disconnected => R.Disconnect(t)
    case _ => (t, QUIET)
  }

  function IdsAt(es: Trace, n: nat): (s: Ids)
    requires n <= |es|
  {
    if n == 0 then Ids(map[], {}) else Allocate(IdsAt(es, n - 1), es[n - 1].ev)
  }

  function StreamsAt(es: Trace, n: nat): (t: Streams)
    requires n <= |es|
  {
    if n == 0 then NO_STREAMS else StreamStep(StreamsAt(es, n - 1), es[n - 1].ev)
  }

  function PendingsAt(es: Trace, n: nat): (t: Pendings)
    requires n <= |es|
  {
    if n == 0 then NO_PENDINGS else PendStep(PendingsAt(es, n - 1), es[n - 1]).0
  }

  /** Everything sent so far: at most one reply per request id is kept, the latest. */
  function SentAt(es: Trace, n: nat): (o: Out)
    requires n <= |es|
  {
    if n == 0 then QUIET
    else
      var o, x := SentAt(es, n - 1), PendStep(PendingsAt(es, n - 1), es[n - 1]).1;
      Out(o.replies + x.replies, o.broadcast + x.broadcast)
  }

  predicate EnabledAt(es: Trace, n: nat)
    requires n < |es|
  {
    Enabled(IdsAt(es, n), es[n].ev)
  }

  ghost predicate Valid(es: Trace)
  {
    forall n: nat {:trigger EnabledAt(es, n)} :: n < |es| ==> EnabledAt(es, n)
  }

  // ---- routing tables --------------------------------------------------------

  ghost predicate Injective(m: map<int, int>)
  {
    forall a, b :: a in m && b in m && m[a] == m[b] ==> a == b
  }

  /** Handles and routes name each other: every handle leads to a live route, every live route has its handle. */
  ghost predicate Paired(handles: map<int, int>, routes: map<int, int>)
  {
    && (forall h :: h in handles ==> handles[h] in routes)
    && (forall r :: r in routes ==> exists h :: h in handles && handles[h] == r)
  }

  ghost predicate RoutesConsistent(t: Streams)
  {
    && Injective(t.handleTick) && Paired(t.handleTick, t.tickRoutes)
    && Injective(t.handleDepth) && Paired(t.handleDepth, t.depthRoutes)
    && t.tickRight.Keys <= t.tickRoutes.Keys
  }

  /** No request id is live in two of the four tables. */
  ghost predicate OneUse(t: Streams, p: Pendings)
  {
    t.tickRoutes.Keys !! t.depthRoutes.Keys !! p.contracts.Keys !! p.execs.Keys
  }

  /** Every live stream of one kind goes back to the allocation that made it, and so does its handle. */
  ghost predicate Linked(ids: Ids, routes: map<int, int>, byHandle: map<int, int>, depth: bool)
  {
    && (forall r :: r in routes ==>
         r in ids.uses && ids.uses[r].ForStream? && ids.uses[r].depth == depth
         && ids.uses[r].h in byHandle && byHandle[ids.uses[r].h] == r)
    && (forall h :: h in byHandle ==>
         h in ids.handles && byHandle[h] in routes && byHandle[h] in ids.uses && ids.uses[byHandle[h]] == ForStream(depth, h))
  }

  /** No two allocations share a handle. */
  ghost predicate HandlesUnique(ids: Ids)
  {
    && (forall r :: r in ids.uses && ids.uses[r].ForStream? ==> ids.uses[r].h in ids.handles)
    && (forall r, q | r in ids.uses && q in ids.uses && ids.uses[r].ForStream? && ids.uses[q].ForStream? ::
         ids.uses[r].h == ids.uses[q].h ==> r == q)
  }

  ghost predicate StreamsAccounted(ids: Ids, t: Streams)
  {
    && HandlesUnique(ids)
    && Linked(ids, t.tickRoutes, t.handleTick, false)
    && Linked(ids, t.depthRoutes, t.handleDepth, true)
    && t.tickRight.Keys <= t.tickRoutes.Keys
  }

  ghost predicate PendingsAccounted(ids: Ids, p: Pendings)
  {
    && (forall r :: r in p.contracts || r in p.execs ==> r in ids.uses && ids.uses[r] == ForRows)
    && p.contracts.Keys !! p.execs.Keys
  }

  lemma StreamAdded(ids: Ids, t: Streams, e: Event)
    requires StreamsAccounted(ids, t) && Enabled(ids, e) && (e.TicksSubscribed? || e.DepthSubscribed?)
    ensures StreamsAccounted(Allocate(ids, e), StreamStep(t, e))
  {
    if e.TicksSubscribed? {
      LinkedAdd(ids, t.tickRoutes, t.handleTick, false, e.r, e.h, e.iid);
      LinkedFrame(ids, t.depthRoutes, t.handleDepth, true, e.r, ForStream(false, e.h), e.h);
    } else {
      LinkedAdd(ids, t.depthRoutes, t.handleDepth, true, e.r, e.h, e.iid);
      LinkedFrame(ids, t.tickRoutes, t.handleTick, false, e.r, ForStream(true, e.h), e.h);
    }
  }

  lemma LinkedAdd(ids: Ids, routes: map<int, int>, byHandle: map<int, int>, depth: bool, r: int, h: int, iid: int)
    requires Linked(ids, routes, byHandle, depth) && HandlesUnique(ids) && r !in ids.uses && h !in ids.handles
    ensures var ids' := Ids(ids.uses[r := ForStream(depth, h)], ids.handles + {h});
            Linked(ids', routes[r := iid], byHandle[h := r], depth) && HandlesUnique(ids')
  {
  }

  lemma LinkedFrame(ids: Ids, routes: map<int, int>, byHandle: map<int, int>, depth: bool, r: int, use: Use, h: int)
    requires Linked(ids, routes, byHandle, depth) && r !in ids.uses
    ensures Linked(Ids(ids.uses[r := use], ids.handles + {h}), routes, byHandle, depth)
  {
  }

  /** Undoing a stream removes both halves, even if one or both were already gone. */
  lemma LinkedRemove(ids: Ids, routes: map<int, int>, byHandle: map<int, int>, depth: bool, r: int, h: int)
    requires Linked(ids, routes, byHandle, depth) && HandlesUnique(ids) && r in ids.uses && ids.uses[r] == ForStream(depth, h)
    ensures Linked(ids, routes - {r}, byHandle - {h}, depth)
  {
  }

  lemma StreamsKept(ids: Ids, t: Streams, e: Event)
    requires StreamsAccounted(ids, t) && Enabled(ids, e)
    ensures StreamsAccounted(Allocate(ids, e), StreamStep(t, e))
  {
    match e
    case TicksSubscribed(_, _, _, _) => StreamAdded(ids, t, e);
    case DepthSubscribed(_, _, _) => StreamAdded(ids, t, e);
    case TicksSendFailed(r, h) => LinkedRemove(ids, t.tickRoutes, t.handleTick, false, r, h);
    case DepthSendFailed(r, h) => LinkedRemove(ids, t.depthRoutes, t.handleDepth, true, r, h);
    case TicksUnsubscribed(h) =>
      if h in t.handleTick {
        LinkedRemove(ids, t.tickRoutes, t.handleTick, false, t.handleTick[h], h);
      }
    case DepthUnsubscribed(h) =>
      if h in t.handleDepth {
        LinkedRemove(ids, t.depthRoutes, t.handleDepth, true, t.handleDepth[h], h);
      }
    case _ =>
  }

  /** Only asking adds a pending request. */
  lemma PendingsShrink(p: Pendings, x: Timed)
    requires !x.ev.ContractsAsked? && !x.ev.FillsAsked?
    ensures var p' := PendStep(p, x).0;
            p'.contracts.Keys <= p.contracts.Keys && p'.execs.Keys <= p.execs.Keys
  {
  }

  lemma PendingsKept(ids: Ids, p: Pendings, x: Timed)
    requires PendingsAccounted(ids, p) && Enabled(ids, x.ev)
    ensures PendingsAccounted(Allocate(ids, x.ev), PendStep(p, x).0)
  {
    match x.ev
    case ContractsAsked(_) =>
    case FillsAsked(_) =>
    case _ => PendingsShrink(p, x);
  }

  lemma {:induction false} AllAccounted(es: Trace, n: nat)
    requires Valid(es) && n <= |es|
    ensures StreamsAccounted(IdsAt(es, n), StreamsAt(es, n)) && PendingsAccounted(IdsAt(es, n), PendingsAt(es, n))
  {
    if n > 0 {
      AllAccounted(es, n - 1);
      assert EnabledAt(es, n - 1);
      StreamsKept(IdsAt(es, n - 1), StreamsAt(es, n - 1), es[n - 1].ev);
      PendingsKept(IdsAt(es, n - 1), PendingsAt(es, n - 1), es[n - 1]);
    }
  }

  /** In every reachable state, whatever was subscribed, unsubscribed, unwound or lost on the way. */
  lemma RoutingInvariant(es: Trace, n: nat)
    requires Valid(es) && n <= |es|
    ensures RoutesConsistent(StreamsAt(es, n)) && OneUse(StreamsAt(es, n), PendingsAt(es, n))
  {
    AllAccounted(es, n);
    AccountedMeans(IdsAt(es, n), StreamsAt(es, n), PendingsAt(es, n));
  }

  lemma LinkedMeans(ids: Ids, routes: map<int, int>, byHandle: map<int, int>, depth: bool)
    requires Linked(ids, routes, byHandle, depth)
    ensures Injective(byHandle) && Paired(byHandle, routes)
  {
    forall a, b | a in byHandle && b in byHandle && byHandle[a] == byHandle[b] ensures a == b {
      assert ForStream(depth, a) == ids.uses[byHandle[a]] == ForStream(depth, b);
    }
    forall r | r in routes ensures exists h :: h in byHandle && byHandle[h] == r {
      assert ids.uses[r].h in byHandle;
    }
  }

  lemma AccountedMeans(ids: Ids, t: Streams, p: Pendings)
    requires StreamsAccounted(ids, t) && PendingsAccounted(ids, p)
    ensures RoutesConsistent(t) && OneUse(t, p)
  {
    LinkedMeans(ids, t.tickRoutes, t.handleTick, false);
    LinkedMeans(ids, t.depthRoutes, t.handleDepth, true);
    assert forall r :: r in t.tickRoutes.Keys ==> ids.uses[r].ForStream? && !ids.uses[r].depth;
    assert forall r :: r in t.depthRoutes.Keys ==> ids.uses[r].ForStream? && ids.uses[r].depth;
    assert forall r :: r in p.contracts.Keys + p.execs.Keys ==> ids.uses[r].ForRows?;
  }

  // ---- exactly the live subscriptions ------------------------------------------

  /** The tick subscription made at `i` under request id `r` is neither unwound nor cancelled before `n`. */
  ghost predicate TicksLive(es: Trace, i: nat, n: nat, r: int)
    requires n <= |es|
  {
    && i < n && es[i].ev.TicksSubscribed? && es[i].ev.r == r
    && forall k :: i < k < n ==> !EndsTicks(es[k].ev, r, es[i].ev.h)
  }

  predicate EndsTicks(e: Event, r: int, h: int)
  {
    e == TicksUnsubscribed(h) || e == TicksSendFailed(r, h)
  }

  /** The three maps say of request id `r` what the subscription said. */
  ghost predicate TicksRouted(t: Streams, r: int, e: Event)
    requires e.TicksSubscribed?
  {
    && Get(t.tickRoutes, r) == Some(e.iid) && Get(t.tickRight, r) == e.right && Get(t.handleTick, e.h) == Some(r)
  }

  lemma {:induction false} LiveTicksAreRouted(es: Trace, i: nat, n: nat, r: int)
    requires Valid(es) && n <= |es| && TicksLive(es, i, n, r)
    ensures TicksRouted(StreamsAt(es, n), r, es[i].ev)
    decreases n
  {
    assert EnabledAt(es, n - 1);
    AllAccounted(es, n - 1);
    if i < n - 1 {
      LiveTicksAreRouted(es, i, n - 1, r);
      assert !EndsTicks(es[n - 1].ev, r, es[i].ev.h);
    }
  }

  lemma {:induction false} RoutedTicksAreLive(es: Trace, n: nat, r: int) returns (i: nat)
    requires Valid(es) && n <= |es| && r in StreamsAt(es, n).tickRoutes
    ensures TicksLive(es, i, n, r)
  {
    assert EnabledAt(es, n - 1);
    AllAccounted(es, n - 1);
    if es[n - 1].ev.TicksSubscribed? && es[n - 1].ev.r == r {
      i := n - 1;
    } else {
      i := RoutedTicksAreLive(es, n - 1, r);
      LiveTicksAreRouted(es, i, n - 1, r);
    }
  }

  /**
   In every run the tick routes are exactly the live subscriptions, and each leads to the instrument, right
   and handle it was made with.
   */
  lemma TickRoutesExact(es: Trace, n: nat, r: int)
    requires Valid(es) && n <= |es|
    ensures r in StreamsAt(es, n).tickRoutes <==> exists i: nat :: TicksLive(es, i, n, r)
    ensures forall i: nat :: TicksLive(es, i, n, r) ==> TicksRouted(StreamsAt(es, n), r, es[i].ev)
  {
    forall i: nat | TicksLive(es, i, n, r) ensures TicksRouted(StreamsAt(es, n), r, es[i].ev) {
      LiveTicksAreRouted(es, i, n, r);
    }
    if r in StreamsAt(es, n).tickRoutes {
      var i := RoutedTicksAreLive(es, n, r);
    }
  }

  ghost predicate DepthLive(es: Trace, i: nat, n: nat, r: int)
    requires n <= |es|
  {
    && i < n && es[i].ev.DepthSubscribed? && es[i].ev.r == r
    && forall k :: i < k < n ==> !EndsDepth(es[k].ev, r, es[i].ev.h)
  }

  predicate EndsDepth(e: Event, r: int, h: int)
  {
    e == DepthUnsubscribed(h) || e == DepthSendFailed(r, h)
  }

  ghost predicate DepthRouted(t: Streams, r: int, e: Event)
    requires e.DepthSubscribed?
  {
    Get(t.depthRoutes, r) == Some(e.iid) && Get(t.handleDepth, e.h) == Some(r)
  }

  lemma {:induction false} LiveDepthIsRouted(es: Trace, i: nat, n: nat, r: int)
    requires Valid(es) && n <= |es| && DepthLive(es, i, n, r)
    ensures DepthRouted(StreamsAt(es, n), r, es[i].ev)
    decreases n
  {
    assert EnabledAt(es, n - 1);
    AllAccounted(es, n - 1);
    if i < n - 1 {
      LiveDepthIsRouted(es, i, n - 1, r);
      assert !EndsDepth(es[n - 1].ev, r, es[i].ev.h);
    }
  }

  lemma {:induction false} RoutedDepthIsLive(es: Trace, n: nat, r: int) returns (i: nat)
    requires Valid(es) && n <= |es| && r in StreamsAt(es, n).depthRoutes
    ensures DepthLive(es, i, n, r)
  {
    assert EnabledAt(es, n - 1);
    AllAccounted(es, n - 1);
    if es[n - 1].ev.DepthSubscribed? && es[n - 1].ev.r == r {
      i := n - 1;
    } else {
      i := RoutedDepthIsLive(es, n - 1, r);
      LiveDepthIsRouted(es, i, n - 1, r);
    }
  }

  /** Likewise the depth routes. */
  lemma DepthRoutesExact(es: Trace, n: nat, r: int)
    requires Valid(es) && n <= |es|
    ensures r in StreamsAt(es, n).depthRoutes <==> exists i: nat :: DepthLive(es, i, n, r)
    ensures forall i: nat :: DepthLive(es, i, n, r) ==> DepthRouted(StreamsAt(es, n), r, es[i].ev)
  {
    forall i: nat | DepthLive(es, i, n, r) ensures DepthRouted(StreamsAt(es, n), r, es[i].ev) {
      LiveDepthIsRouted(es, i, n, r);
    }
    if r in StreamsAt(es, n).depthRoutes {
      var i := RoutedDepthIsLive(es, n, r);
    }
  }
}
