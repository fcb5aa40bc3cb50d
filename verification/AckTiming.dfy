/**
 Timing stamps over whole runs of the acknowledgement protocol, and which request a drained (send, ack) pair
 belongs to.
 */
module AckTiming {
  import opened Clock
  import opened Options
  import opened Inbound
  import A = AckState
  import opened AckState
  import opened AckProtocol

  /** Everything the four stamp maps hold for one order id. */
  datatype Slot = Slot(send: Option<nat>, ack: Option<nat>, strict: Option<nat>, expected: Option<real>)

  const EMPTY: Slot := Slot(None, None, None, None)

  function SlotOf(a: Acks, oid: int): (s: Slot)
  {
    Slot(Get(a.wireSend, oid), Get(a.wireAck, oid), Get(a.strictAck, oid), Get(a.expected, oid))
  }

  /** The effect of one event on one order id. */
  function SlotStep(s: Slot, t: Timed, oid: int, fix: Fix): (s': Slot)
  {
    match t.ev
    case Installed(id, amend) =>
      if id != oid then s
      else s.(send := Some(t.now), expected := if amend.Some? then amend else s.expected,
              strict := if fix.KeepAndClear? && amend.Some? then None else s.strict)
    case Routed(m) =>
      if !Accepts(m, oid) then s
      else
        var confirmed := s.expected.Some? && Confirms(m, oid, s.expected.value);
        s.(ack := s.ack.Or(Some(t.now)), strict := if confirmed then s.strict.Or(Some(t.now)) else s.strict)
    case CleanedUp(_, id) => if id == oid then s.(send := None) else s
    case TimedOut(_, id) => if id == oid then EMPTY else s
    case DrainedWire(id) =>
      if id != oid || s.send.None? then s else s.(send := None, ack := None)
    case DrainedStrict(id) =>
      if id != oid then s
      else s.(strict := None, expected := if !fix.AsWritten? && s.strict.None? then s.expected else None)
    case _ => s
  }

  /** One order id's stamps after the first `n` events. */
  function SlotAt(es: Trace, n: nat, oid: int, fix: Fix): (s: Slot)
    requires n <= |es|
  {
    if n == 0 then EMPTY else SlotStep(SlotAt(es, n - 1, oid, fix), es[n - 1], oid, fix)
  }

  lemma SectionIsSlotStep(s: Sys, t: Timed, oid: int)
    requires Enabled(s, t.ev)
    ensures SlotOf(Section(s, t).0, oid) == SlotStep(SlotOf(s.acks, oid), t, oid, s.fix)
  {
    match t.ev
    case Routed(m) => RouteIsSlotStep(s, t, m, oid);
    case Installed(id, amend) =>
    case CleanedUp(_, id) =>
    case TimedOut(_, id) =>
    case DrainedWire(id) =>
    case DrainedStrict(id) =>
    case _ =>
  }

  lemma RouteIsSlotStep(s: Sys, t: Timed, m: InboundMsg, oid: int)
    requires t.ev == Routed(m)
    ensures SlotOf(A.Route(s.acks, m, t.now).0, oid) == SlotStep(SlotOf(s.acks, oid), t, oid, s.fix)
  {
    match m
    case OpenOrder(o) =>
    case OrderStatus(id, status, _, _) =>
    case _ =>
  }

  /** Order ids do not interfere: the maps of the running system, read at one id, follow that id's events alone. */
  lemma {:induction false} SlotsAreIndependent(es: Trace, oid: int, fix: Fix)
    requires Valid(es, fix)
    ensures Exec(es, fix).fix == fix
    ensures SlotOf(Exec(es, fix).acks, oid) == SlotAt(es, |es|, oid, fix)
  {
    if es != [] {
      var init := es[..|es| - 1];
      SlotsAreIndependent(init, oid, fix);
      SectionIsSlotStep(Exec(init, fix), es[|es| - 1], oid);
      SlotAtPrefix(es, |init|, |init|, oid, fix);
    }
  }

  lemma {:induction false} SlotAtPrefix(es: Trace, n: nat, m: nat, oid: int, fix: Fix)
    requires m <= n <= |es|
    ensures SlotAt(es[..n], m, oid, fix) == SlotAt(es, m, oid, fix)
  {
    if m > 0 {
      SlotAtPrefix(es, n, m - 1, oid, fix);
    }
  }

  predicate AcceptAt(es: Trace, p: nat, oid: int)
  {
    p < |es| && es[p].ev.Routed? && Accepts(es[p].ev.m, oid)
  }

  predicate InstallAt(es: Trace, i: nat, oid: int)
  {
    i < |es| && es[i].ev.Installed? && es[i].ev.oid == oid
  }

  predicate TimeoutAt(es: Trace, q: nat, oid: int)
  {
    q < |es| && es[q].ev.TimedOut? && es[q].ev.oid == oid
  }

  // ---- wire timing ----------------------------------------------------------

  /** The events that remove a send stamp: a drain, a timeout, or the cleanup after a failed send. */
  predicate ClearsSend(e: Event, oid: int)
  {
    (e.DrainedWire? || e.TimedOut? || e.CleanedUp?) && e.oid == oid
  }

  ghost predicate SentSince(es: Trace, i: nat, n: nat, oid: int)
    requires n <= |es|
  {
    i < n && InstallAt(es, i, oid) && forall q :: i < q < n ==> !ClearsSend(es[q].ev, oid)
  }

  /** Just before event `n` there is a request on the id that nothing has drained, timed out or unwound. */
  ghost predicate Outstanding(es: Trace, n: nat, oid: int)
    requires n <= |es|
  {
    exists i: nat :: SentSince(es, i, n, oid)
  }

  /** The events that remove an ack stamp: a timeout, or a drain that finds a request outstanding. */
  ghost predicate ClearsAck(es: Trace, q: nat, oid: int)
    requires q < |es|
  {
    TimeoutAt(es, q, oid) || (es[q].ev == DrainedWire(oid) && Outstanding(es, q, oid))
  }

  ghost predicate AckedSince(es: Trace, p: nat, n: nat, oid: int)
    requires n <= |es|
  {
    p < n && AcceptAt(es, p, oid) && forall q :: p < q < n ==> !ClearsAck(es, q, oid)
  }

  /** Just before event `n` there is an accept message whose stamp nothing has removed. */
  ghost predicate Leftover(es: Trace, n: nat, oid: int)
    requires n <= |es|
  {
    exists p: nat :: AckedSince(es, p, n, oid)
  }

  lemma {:induction false} OutstandingExact(es: Trace, n: nat, fix: Fix, oid: int)
    requires n <= |es|
    ensures SlotAt(es, n, oid, fix).send.Some? <==> Outstanding(es, n, oid)
  {
    if n > 0 {
      OutstandingExact(es, n - 1, fix, oid);
      OutstandingStep(es, n, oid);
    }
  }

  lemma OutstandingStep(es: Trace, n: nat, oid: int)
    requires 0 < n <= |es|
    ensures Outstanding(es, n, oid) <==>
            InstallAt(es, n - 1, oid) || (Outstanding(es, n - 1, oid) && !ClearsSend(es[n - 1].ev, oid))
  {
    if InstallAt(es, n - 1, oid) {
      assert SentSince(es, n - 1, n, oid);
    }
    if i: nat :| SentSince(es, i, n, oid) && i < n - 1 {
      assert SentSince(es, i, n - 1, oid);
    }
    var m := n - 1;
    if i: nat :| SentSince(es, i, m, oid) && !ClearsSend(es[m].ev, oid) {
      assert SentSince(es, i, n, oid);
    }
  }

  lemma {:induction false} LeftoverExact(es: Trace, n: nat, fix: Fix, oid: int)
    requires n <= |es|
    ensures SlotAt(es, n, oid, fix).ack.Some? <==> Leftover(es, n, oid)
  {
    if n > 0 {
      LeftoverExact(es, n - 1, fix, oid);
      OutstandingExact(es, n - 1, fix, oid);
      LeftoverStep(es, n, oid);
    }
  }

  lemma LeftoverStep(es: Trace, n: nat, oid: int)
    requires 0 < n <= |es|
    ensures Leftover(es, n, oid) <==>
            AcceptAt(es, n - 1, oid) || (Leftover(es, n - 1, oid) && !ClearsAck(es, n - 1, oid))
  {
    if AcceptAt(es, n - 1, oid) {
      assert AckedSince(es, n - 1, n, oid);
    }
    if p: nat :| AckedSince(es, p, n, oid) && p < n - 1 {
      assert AckedSince(es, p, n - 1, oid);
    }
    var m := n - 1;
    if p: nat :| AckedSince(es, p, m, oid) && !ClearsAck(es, m, oid) {
      assert AckedSince(es, p, n, oid);
    }
  }

  /** A send stamp present now was set by the last install on the id and has been there since. */
  lemma {:induction false} SendWitness(es: Trace, n: nat, fix: Fix, oid: int) returns (i: nat)
    requires n <= |es| && SlotAt(es, n, oid, fix).send.Some?
    ensures i < n && InstallAt(es, i, oid) && SlotAt(es, n, oid, fix).send == Some(es[i].now)
    ensures forall q :: i < q < n ==> !InstallAt(es, q, oid)
    ensures forall q :: i < q <= n ==> SlotAt(es, q, oid, fix).send.Some?
  {
    if InstallAt(es, n - 1, oid) {
      i := n - 1;
    } else {
      i := SendWitness(es, n - 1, fix, oid);
    }
  }

  /** An ack stamp present now was set by an accept message and has been there since, and not before. */
  lemma {:induction false} AckWitness(es: Trace, n: nat, fix: Fix, oid: int) returns (p: nat)
    requires n <= |es| && SlotAt(es, n, oid, fix).ack.Some?
    ensures p < n && AcceptAt(es, p, oid) && SlotAt(es, n, oid, fix).ack == Some(es[p].now)
    ensures SlotAt(es, p, oid, fix).ack.None?
    ensures forall q :: p < q <= n ==> SlotAt(es, q, oid, fix).ack.Some?
  {
    if SlotAt(es, n - 1, oid, fix).ack.Some? {
      p := AckWitness(es, n - 1, fix, oid);
    } else {
      p := n - 1;
    }
  }

  /** Whatever removes an ack stamp removes the send stamp with it. */
  lemma {:induction false} AckOutlivesSend(es: Trace, a: nat, b: nat, fix: Fix, oid: int)
    requires a <= b <= |es| && SlotAt(es, a, oid, fix).ack.Some?
    requires forall q :: a < q <= b ==> SlotAt(es, q, oid, fix).send.Some?
    ensures SlotAt(es, b, oid, fix).ack.Some?
    decreases b
  {
    if a < b {
      AckOutlivesSend(es, a, b - 1, fix, oid);
      assert SlotAt(es, b, oid, fix).send.Some?;
    }
  }

  /**
   Whose pair a drain returns, in every run. The send stamp is that of the last install on the id. The ack
   stamp belongs to the same request - it is the first accept message after that install, and send <= ack -
   if and only if no accept message was left over when the request was installed: none since the last timeout
   of the id, or the last drain that found a request outstanding. Otherwise the ack is an older message and
   precedes the send.
   */
  lemma PairingExact(es: Trace, fix: Fix, oid: int) returns (i: nat, p: nat)
    requires Valid(es, fix) && ClockMonotone(es)
    requires A.DrainWire(Exec(es, fix).acks, oid).1.Some?
    ensures InstallAt(es, i, oid) && AcceptAt(es, p, oid)
    ensures A.DrainWire(Exec(es, fix).acks, oid).1 == Some((es[i].now, es[p].now))
    ensures forall q :: i < q < |es| ==> !InstallAt(es, q, oid)
    ensures p > i <==> !Leftover(es, i, oid)
    ensures p > i ==> es[i].now <= es[p].now && forall q :: i < q < p ==> !AcceptAt(es, q, oid)
    ensures p < i ==> es[p].now <= es[i].now
  {
    SlotsAreIndependent(es, oid, fix);
    assert SlotOf(Exec(es, fix).acks, oid).send.Some? && SlotOf(Exec(es, fix).acks, oid).ack.Some?;
    i := SendWitness(es, |es|, fix, oid);
    p := AckWitness(es, |es|, fix, oid);
    LeftoverExact(es, i, fix, oid);
    if p > i {
      if SlotAt(es, i, oid, fix).ack.Some? {
        AckOutlivesSend(es, i, p, fix, oid);
      }
      forall q | i < q < p ensures !AcceptAt(es, q, oid) {
        if AcceptAt(es, q, oid) {
          assert SlotAt(es, q + 1, oid, fix).ack.Some?;
          AckOutlivesSend(es, q + 1, p, fix, oid);
        }
      }
    }
  }

  /**
   The failing family: an accept message that arrives when no request is outstanding any more is still left
   over when the next request on the id is installed, however many drains came in between.
   */
  lemma LateAcceptSurvives(es: Trace, p: nat, i: nat, oid: int)
    requires p < i < |es| && AcceptAt(es, p, oid) && InstallAt(es, i, oid)
    requires !Outstanding(es, p, oid)
    requires forall q :: p < q < i ==> !InstallAt(es, q, oid) && !TimeoutAt(es, q, oid)
    ensures Leftover(es, i, oid)
  {
    OutstandingExact(es, p, AsWritten, oid);
    assert SlotAt(es, p + 1, oid, AsWritten).ack.Some?;
    StaleStampStays(es, p + 1, i, AsWritten, oid);
    LeftoverExact(es, i, AsWritten, oid);
  }

  /** The intended case: a drain takes the previous request's pair and no accept message comes before the next send. */
  lemma QuietGapLeavesNothing(es: Trace, d: nat, i: nat, oid: int)
    requires d < i <= |es| && es[d].ev == DrainedWire(oid) && Outstanding(es, d, oid)
    requires forall p :: d < p < i ==> !AcceptAt(es, p, oid)
    ensures !Leftover(es, i, oid)
  {
    assert ClearsAck(es, d, oid);
    forall p: nat ensures !AckedSince(es, p, i, oid) {
      assert p > d || p == d || p < d;
    }
  }

  lemma {:induction false} StaleStampStays(es: Trace, a: nat, b: nat, fix: Fix, oid: int)
    requires a <= b <= |es|
    requires SlotAt(es, a, oid, fix).ack.Some? && SlotAt(es, a, oid, fix).send.None?
    requires forall q :: a <= q < b ==> !InstallAt(es, q, oid) && !TimeoutAt(es, q, oid)
    ensures SlotAt(es, b, oid, fix).ack.Some? && SlotAt(es, b, oid, fix).send.None?
    decreases b
  {
    if a < b {
      StaleStampStays(es, a, b - 1, fix, oid);
      assert !InstallAt(es, b - 1, oid) && !TimeoutAt(es, b - 1, oid);
    }
  }
}
