/**
 Demultiplexing over whole runs: under every interleaving, a request that completes normally receives
 exactly the rows that carried its id while it was open, in arrival order, and every fill goes to exactly
 one place - the request waiting for it, or the broadcast channel.
 */
module Demux {
  import opened Clock
  import opened Options
  import opened Inbound
  import R = RequestState
  import opened RequestState
  import opened Requests

  // ---- the reference, read off the trace -------------------------------------

  predicate ClosesFills(e: Event, r: int)
  {
    e == Routed(ExecutionEnd(r)) || e == FillsTimedOut(r) || e == Disconnected
  }

  predicate ClosesRows(e: Event, r: int)
  {
    || e == Routed(ContractDetailsEnd(r)) || e == ContractsTimedOut(r) || e == Disconnected
    || (e.Routed? && e.m.Error? && e.m.reqId == r && r > 0 && IsContractError(e.m.code))
  }

  /** The request for fills made at `i` is still open just before event `n`. */
  ghost predicate FillsOpen(es: Trace, i: nat, n: nat, r: int)
    requires n <= |es|
  {
    i < n && es[i].ev == FillsAsked(r) && forall k :: i < k < n ==> !ClosesFills(es[k].ev, r)
  }

  ghost predicate RowsOpen(es: Trace, i: nat, n: nat, r: int)
    requires n <= |es|
  {
    i < n && es[i].ev == ContractsAsked(r) && forall k :: i < k < n ==> !ClosesRows(es[k].ev, r)
  }

  ghost predicate Awaited(es: Trace, n: nat, r: int)
    requires n <= |es|
  {
    exists i: nat :: FillsOpen(es, i, n, r)
  }

  function FillOf(x: Timed): (f: Option<Fill>)
  {
    if x.ev.Routed? && x.ev.m.Execution? then ExecutionToFill(x.ev.m, x.now) else None
  }

  /** The fills of request `r` among events a..b, in arrival order. */
  function FillsFor(es: Trace, a: nat, b: nat, r: int): (fs: seq<Fill>)
    requires b <= |es|
  {
    if b <= a then []
    else
      var init := FillsFor(es, a, b - 1, r);
      var f := FillOf(es[b - 1]);
      if f.Some? && es[b - 1].ev.m.reqId == r then init + [f.value] else init
  }

  /** The contract rows of request `r` among events a..b, in arrival order. */
  function RowsFor(es: Trace, a: nat, b: nat, r: int): (rows: seq<ContractDecoded>)
    requires b <= |es|
  {
    if b <= a then []
    else
      var init := RowsFor(es, a, b - 1, r);
      match es[b - 1].ev
      case Routed(ContractDetails(req, cd)) => if req == r then init + [cd] else init
      case _ => init
  }

  /** A fill that answers an open request for fills; otherwise it is real-time and belongs on the broadcast. */
  ghost predicate Claimed(es: Trace, p: nat)
    requires p < |es| && FillOf(es[p]).Some?
  {
    es[p].ev.m.reqId > 0 && Awaited(es, p, es[p].ev.m.reqId)
  }

  /** The unclaimed fills among the first `n` events, in order. */
  ghost function Unclaimed(es: Trace, n: nat): (fs: seq<Fill>)
    requires n <= |es|
  {
    if n == 0 then []
    else
      var init := Unclaimed(es, n - 1);
      if FillOf(es[n - 1]).Some? && !Claimed(es, n - 1) then init + [FillOf(es[n - 1]).value] else init
  }

  // ---- one step, one request id ----------------------------------------------

  /** What an event does to one request's accumulated fills. */
  lemma ExecsStep(t: Pendings, x: Timed, r: int)
    requires r > 0
    ensures Get(PendStep(t, x).0.execs, r) ==
            if x.ev == FillsAsked(r) then Some([])
            else if r !in t.execs || ClosesFills(x.ev, r) then None
            else if FillOf(x).Some? && x.ev.m.reqId == r then Some(t.execs[r] + [FillOf(x).value])
            else Some(t.execs[r])
  {
  }

  lemma ContractsStep(t: Pendings, x: Timed, r: int)
    requires r > 0
    ensures Get(PendStep(t, x).0.contracts, r) ==
            if x.ev == ContractsAsked(r) then Some([])
            else if r !in t.contracts || ClosesRows(x.ev, r) then None
            else if x.ev.Routed? && x.ev.m.ContractDetails? && x.ev.m.reqId == r
                 then Some(t.contracts[r] + [x.ev.m.details])
            else Some(t.contracts[r])
  {
  }

  /** When and with what a request is answered. */
  lemma ReplyStep(t: Pendings, x: Timed, r: int)
    requires r > 0 && !(r in t.contracts && r in t.execs)
    ensures Get(PendStep(t, x).1.replies, r) ==
            if x.ev == Disconnected && (r in t.contracts || r in t.execs) then Some(Lost)
            else if x.ev == Routed(ExecutionEnd(r)) && r in t.execs then Some(Fills(t.execs[r]))
            else if x.ev == Routed(ContractDetailsEnd(r)) && r in t.contracts then Some(Rows(t.contracts[r]))
            else if x.ev.Routed? && x.ev.m.Error? && ClosesRows(x.ev, r) && r in t.contracts
                 then Some(NotFound(x.ev.m.text))
            else None
  {
  }

  /** Pending request ids are positive and pending for one thing. */
  lemma PendingSane(es: Trace, n: nat, r: int)
    requires Valid(es) && n <= |es|
    ensures r in IdsAt(es, n).uses ==> r >= FIRST_REQ_ID
    ensures var p := PendingsAt(es, n);
            && !(r in p.contracts && r in p.execs)
            && (r in p.contracts || r in p.execs ==> r in IdsAt(es, n).uses)
  {
    AllAccounted(es, n);
    Positive(es, n);
  }

  lemma {:induction false} Positive(es: Trace, n: nat)
    requires Valid(es) && n <= |es|
    ensures forall r :: r in IdsAt(es, n).uses ==> r >= FIRST_REQ_ID
  {
    if n > 0 {
      Positive(es, n - 1);
      assert EnabledAt(es, n - 1);
    }
  }

  lemma {:induction false} UsesGrow(es: Trace, a: nat, b: nat, r: int)
    requires a <= b <= |es| && r in IdsAt(es, a).uses
    ensures r in IdsAt(es, b).uses
    decreases b
  {
    if a < b {
      UsesGrow(es, a, b - 1, r);
    }
  }

  // ---- fills ------------------------------------------------------------------

  /** An accumulator exists only for an open request, and holds exactly the fills that carried its id since. */
  lemma {:induction false} FillsWitness(es: Trace, n: nat, r: int) returns (i: nat)
    requires Valid(es) && n <= |es| && r in PendingsAt(es, n).execs
    ensures FillsOpen(es, i, n, r) && PendingsAt(es, n).execs[r] == FillsFor(es, i + 1, n, r)
  {
    PendingSane(es, n, r);
    var t, x := PendingsAt(es, n - 1), es[n - 1];
    ExecsStep(t, x, r);
    if x.ev == FillsAsked(r) {
      i := n - 1;
    } else {
      i := FillsWitness(es, n - 1, r);
    }
  }

  /** An open request has its accumulator. */
  lemma {:induction false} FillsKept(es: Trace, i: nat, n: nat, r: int)
    requires Valid(es) && n <= |es| && FillsOpen(es, i, n, r)
    ensures r in PendingsAt(es, n).execs
    decreases n
  {
    assert EnabledAt(es, i);
    if i < n - 1 {
      FillsKept(es, i, n - 1, r);
      assert !ClosesFills(es[n - 1].ev, r);
    }
    ExecsStep(PendingsAt(es, n - 1), es[n - 1], r);
  }

  lemma AwaitedExact(es: Trace, n: nat, r: int)
    requires Valid(es) && n <= |es|
    ensures Awaited(es, n, r) <==> r in PendingsAt(es, n).execs
  {
    if r in PendingsAt(es, n).execs {
      var i := FillsWitness(es, n, r);
    }
    if Awaited(es, n, r) {
      var i: nat :| FillsOpen(es, i, n, r);
      FillsKept(es, i, n, r);
    }
  }

  /**
   Every execution that converts to a fill goes to exactly one place, decided by whether its request is open:
   that request's accumulator, or the broadcast.
   */
  lemma OnePlaceEach(es: Trace, p: nat)
    requires Valid(es) && p < |es| && FillOf(es[p]).Some?
    ensures var s, s', f, r := PendingsAt(es, p), PendingsAt(es, p + 1), FillOf(es[p]).value, es[p].ev.m.reqId;
            var b, b' := SentAt(es, p).broadcast, SentAt(es, p + 1).broadcast;
            if Claimed(es, p)
            then r in s.execs && s'.execs == s.execs[r := s.execs[r] + [f]] && b' == b
            else s'.execs == s.execs && b' == b + [f]
  {
    AwaitedExact(es, p, es[p].ev.m.reqId);
    assert SentAt(es, p).broadcast + [] == SentAt(es, p).broadcast;
  }

  /** The broadcast channel carries exactly the unclaimed fills, in order. */
  lemma {:induction false} BroadcastExact(es: Trace, n: nat)
    requires Valid(es) && n <= |es|
    ensures SentAt(es, n).broadcast == Unclaimed(es, n)
  {
    if n > 0 {
      BroadcastExact(es, n - 1);
      BroadcastStep(es, n - 1);
    }
  }

  lemma BroadcastStep(es: Trace, p: nat)
    requires Valid(es) && p < |es|
    ensures SentAt(es, p + 1).broadcast ==
            SentAt(es, p).broadcast + if FillOf(es[p]).Some? && !Claimed(es, p) then [FillOf(es[p]).value] else []
  {
    if FillOf(es[p]).Some? {
      OnePlaceEach(es, p);
    } else {
      NoBroadcast(PendingsAt(es, p), es[p]);
    }
  }

  lemma NoBroadcast(t: Pendings, x: Timed)
    requires FillOf(x).None?
    ensures PendStep(t, x).1.broadcast == []
  {
  }

  // ---- replies ------------------------------------------------------------------

  /** An answered request is no longer pending, so it is never answered again. */
  lemma {:induction false} AnsweredOnce(es: Trace, n: nat, r: int)
    requires Valid(es) && n <= |es| && r in SentAt(es, n).replies
    ensures r in IdsAt(es, n).uses && r !in PendingsAt(es, n).execs && r !in PendingsAt(es, n).contracts
    ensures r in SentAt(es, n - 1).replies ==> SentAt(es, n).replies[r] == SentAt(es, n - 1).replies[r]
  {
    var t, x := PendingsAt(es, n - 1), es[n - 1];
    assert EnabledAt(es, n - 1);
    PendingSane(es, n - 1, r);
    if r in SentAt(es, n - 1).replies {
      AnsweredOnce(es, n - 1, r);
      StaysAnswered(IdsAt(es, n - 1), t, x, r);
    } else {
      RepliesArePending(t, x, r);
      AnswerCloses(t, x, r);
    }
    UsesGrow(es, n - 1, n, r);
  }

  /** A request that is not pending any more hears nothing more and does not come back. */
  lemma StaysAnswered(ids: Ids, t: Pendings, x: Timed, r: int)
    requires Enabled(ids, x.ev) && r in ids.uses && r >= FIRST_REQ_ID && r !in t.contracts && r !in t.execs
    ensures r !in PendStep(t, x).1.replies && r !in PendStep(t, x).0.contracts && r !in PendStep(t, x).0.execs
  {
    ReplyStep(t, x, r);
    ExecsStep(t, x, r);
    ContractsStep(t, x, r);
  }

  /** A reply closes its request. */
  lemma AnswerCloses(t: Pendings, x: Timed, r: int)
    requires r > 0 && !(r in t.contracts && r in t.execs) && r in PendStep(t, x).1.replies
    ensures r !in PendStep(t, x).0.contracts && r !in PendStep(t, x).0.execs
  {
    ReplyStep(t, x, r);
    ExecsStep(t, x, r);
    ContractsStep(t, x, r);
  }

  lemma RepliesArePending(t: Pendings, x: Timed, r: int)
    requires r in PendStep(t, x).1.replies
    ensures r in t.contracts || r in t.execs
  {
  }

  /** The event that sent a reply, which has not changed since. */
  lemma AnswerPosition(es: Trace, n: nat, r: int) returns (p: nat)
    requires Valid(es) && n <= |es| && r in SentAt(es, n).replies
    ensures p < n && r !in SentAt(es, p).replies && r in SentAt(es, p + 1).replies
    ensures SentAt(es, p + 1).replies[r] == SentAt(es, n).replies[r]
  {
    p := FirstAnswer(es, n, r, SentAt(es, n).replies[r]);
  }

  ghost predicate Answered(es: Trace, n: nat, r: int, v: Reply)
  {
    n <= |es| && r in SentAt(es, n).replies && SentAt(es, n).replies[r] == v
  }

  lemma NothingYet(es: Trace, r: int, v: Reply)
    ensures !Answered(es, 0, r, v)
  {
  }

  lemma AnsweredBefore(es: Trace, n: nat, r: int, v: Reply)
    requires Valid(es) && n > 0 && Answered(es, n, r, v)
    ensures Answered(es, n - 1, r, v) || r !in SentAt(es, n - 1).replies
  {
    AnsweredOnce(es, n, r);
  }

  lemma {:induction false} FirstAnswer(es: Trace, n: nat, r: int, v: Reply) returns (p: nat)
    requires Valid(es) && Answered(es, n, r, v)
    ensures p < n && r !in SentAt(es, p).replies && Answered(es, p + 1, r, v)
    decreases n
  {
    NothingYet(es, r, v);
    AnsweredBefore(es, n, r, v);
    if Answered(es, n - 1, r, v) {
      p := FirstAnswer(es, n - 1, r, v);
    } else {
      p := n - 1;
    }
  }

  /** A new reply is made of what was pending for the request. */
  lemma AnsweredNow(es: Trace, p: nat, r: int)
    requires Valid(es) && p < |es| && r in SentAt(es, p + 1).replies && r !in SentAt(es, p).replies
    ensures match SentAt(es, p + 1).replies[r]
            case Fills(fs) =>
              es[p].ev == Routed(ExecutionEnd(r)) && r in PendingsAt(es, p).execs && fs == PendingsAt(es, p).execs[r]
            case Rows(rows) =>
              es[p].ev == Routed(ContractDetailsEnd(r)) && r in PendingsAt(es, p).contracts
              && rows == PendingsAt(es, p).contracts[r]
            case _ => true
  {
    var t, x := PendingsAt(es, p), es[p];
    RepliesArePending(t, x, r);
    PendingSane(es, p, r);
    ReplyStep(t, x, r);
  }

  /**
   A fills request that completes normally receives exactly the fills that carried its id from the moment it
   was made until its end marker, in arrival order.
   */
  lemma FillsDemultiplexed(es: Trace, n: nat, r: int) returns (i: nat, p: nat)
    requires Valid(es) && n <= |es| && r in SentAt(es, n).replies && SentAt(es, n).replies[r].Fills?
    ensures p < n && FillsOpen(es, i, p, r) && es[p].ev == Routed(ExecutionEnd(r))
    ensures SentAt(es, n).replies[r].fills == FillsFor(es, i + 1, p, r)
  {
    p := AnswerPosition(es, n, r);
    AnsweredNow(es, p, r);
    i := FillsWitness(es, p, r);
  }

  // ---- contract rows -------------------------------------------------------------

  lemma {:induction false} RowsWitness(es: Trace, n: nat, r: int) returns (i: nat)
    requires Valid(es) && n <= |es| && r in PendingsAt(es, n).contracts
    ensures RowsOpen(es, i, n, r) && PendingsAt(es, n).contracts[r] == RowsFor(es, i + 1, n, r)
  {
    PendingSane(es, n, r);
    ContractsStep(PendingsAt(es, n - 1), es[n - 1], r);
    if es[n - 1].ev == ContractsAsked(r) {
      i := n - 1;
    } else {
      i := RowsWitness(es, n - 1, r);
    }
  }

  /** The contracts of the convertible rows of request `r` among events a..b, in arrival order. */
  function ContractsFor(h: Host, es: Trace, a: nat, b: nat, r: int): (cs: seq<Contract>)
    requires b <= |es|
  {
    if b <= a then []
    else
      var init := ContractsFor(h, es, a, b - 1, r);
      match es[b - 1].ev
      case Routed(ContractDetails(req, cd)) =>
        if req == r && NativeToContract(h, cd).Some? then init + [NativeToContract(h, cd).value] else init
      case _ => init
  }

  lemma {:induction false} ConvertedRows(h: Host, es: Trace, a: nat, b: nat, r: int)
    requires b <= |es|
    ensures Converted(h, RowsFor(es, a, b, r)) == ContractsFor(h, es, a, b, r)
  {
    if a < b {
      ConvertedRows(h, es, a, b - 1, r);
      var init := RowsFor(es, a, b - 1, r);
      var rows := RowsFor(es, a, b, r);
      assert rows != init ==> rows[..|rows| - 1] == init;
    }
  }

  /**
   A contract request that completes normally is handed exactly the contracts of the convertible rows that
   carried its id while it was open, in arrival order.
   */
  lemma ContractsDemultiplexed(es: Trace, n: nat, r: int, h: Host) returns (i: nat, p: nat)
    requires Valid(es) && n <= |es| && r in SentAt(es, n).replies && SentAt(es, n).replies[r].Rows?
    ensures p < n && RowsOpen(es, i, p, r) && es[p].ev == Routed(ContractDetailsEnd(r))
    ensures Converted(h, SentAt(es, n).replies[r].rows) == ContractsFor(h, es, i + 1, p, r)
  {
    p := AnswerPosition(es, n, r);
    AnsweredNow(es, p, r);
    i := RowsWitness(es, p, r);
    ConvertedRows(h, es, i + 1, p, r);
  }

  // ---- late rows ------------------------------------------------------------------

  /** Once a fills request has timed out, ended or been lost, every later execution with its id is broadcast. */
  lemma LateFillsAreBroadcast(es: Trace, k: nat, p: nat)
    requires Valid(es) && k < p < |es| && FillOf(es[p]).Some?
    requires var r := es[p].ev.m.reqId; r in IdsAt(es, k).uses && ClosesFills(es[k].ev, r)
    ensures !Claimed(es, p)
    ensures SentAt(es, p + 1).broadcast == SentAt(es, p).broadcast + [FillOf(es[p]).value]
  {
    var r := es[p].ev.m.reqId;
    if Awaited(es, p, r) {
      var i: nat :| FillsOpen(es, i, p, r);
      assert k < i ==> EnabledAt(es, i);
      if k < i {
        UsesGrow(es, k, i, r);
        assert false;
      }
    }
    OnePlaceEach(es, p);
  }
}
