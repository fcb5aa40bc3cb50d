/**
 The place/modify acknowledgement protocol as a transition system. Callers, the dispatcher and the
 timers interleave at critical-section granularity; every theorem is about every run.
 */
module AckProtocol {
  import opened Clock
  import opened Options
  import opened Inbound
  import A = AckState
  import opened AckState

  datatype Event =
    | Installed(oid: int, amend: Option<real>)       // critical section of place_order / modify_order
    | SendOk(w: nat) | SendFailed(w: nat)            // send_raw returned
    | CleanedUp(w: nat, oid: int)                    // critical section after a failed send
    | Received(w: nat)                               // the waiter's channel was ready
    | Elapsed(w: nat)                                // the 500 ms timer fired first
    | TimedOut(w: nat, oid: int)                     // critical section after the timer
    | Routed(m: InboundMsg)                          // dispatcher
    | Disconnected
    | DrainedWire(oid: int) | DrainedStrict(oid: int)

  type Timed = TimedEvent<Event>

  type Trace = seq<Timed>

  /** What a place_order or modify_order call returns. */
  datatype Return = FromChannel(v: Verdict) | SendError | AckTimeout

  datatype Phase = Sending | Waiting | Failing | TimingOut | Returned(r: Return)

  datatype Task = Task(oid: int, phase: Phase)

  /** `fix` selects the code as written or a repair of its strict timing. */
  datatype Sys = Sys(acks: Acks, mail: Sends, calls: map<nat, Task>, count: nat, fix: Fix)

  function Init(fix: Fix): Sys
  {
    Sys(NO_ACKS, map[], map[], 0, fix)
  }

  predicate InPhase(s: Sys, w: nat, p: Phase)
  {
    w in s.calls && s.calls[w].phase == p
  }

  predicate Enabled(s: Sys, e: Event)
  {
    match e
    case SendOk(w) => InPhase(s, w, Sending)
    case SendFailed(w) => InPhase(s, w, Sending)
    case CleanedUp(w, oid) => InPhase(s, w, Failing) && s.calls[w].oid == oid
    case Received(w) => InPhase(s, w, Waiting) && w in s.mail
    case Elapsed(w) => InPhase(s, w, Waiting) && w !in s.mail
    case TimedOut(w, oid) => InPhase(s, w, TimingOut) && s.calls[w].oid == oid
    case _ => true
  }

  /** The critical section of an event, if it has one. */
  function Section(s: Sys, t: Timed): (r: (Acks, Sends))
  {
    match t.ev
    case Installed(oid, amend) => A.Install(s.acks, oid, s.count, amend, t.now, s.fix)
    case CleanedUp(_, oid) => A.SendCleanup(s.acks, oid)
    case TimedOut(_, oid) => A.TimeoutCleanup(s.acks, oid)
    case Routed(m) => A.Route(s.acks, m, t.now)
    case Disconnected => A.Disconnect(s.acks)
    case DrainedWire(oid) => (A.DrainWire(s.acks, oid).0, map[])
    case DrainedStrict(oid) => (A.DrainStrict(s.acks, oid, s.fix).0, map[])
    case _ => (s.acks, map[])
  }

  /** Progress of the calling tasks. */
  function Calls(s: Sys, e: Event): (c: map<nat, Task>)
    requires Enabled(s, e)
  {
    match e
    case Installed(oid, _) => s.calls[s.count := Task(oid, Sending)]
    case SendOk(w) => s.calls[w := s.calls[w].(phase := Waiting)]
    case SendFailed(w) => s.calls[w := s.calls[w].(phase := Failing)]
    case CleanedUp(w, _) => s.calls[w := s.calls[w].(phase := Returned(SendError))]
    case Received(w) => s.calls[w := s.calls[w].(phase := Returned(FromChannel(s.mail[w])))]
    case Elapsed(w) => s.calls[w := s.calls[w].(phase := TimingOut)]
    case TimedOut(w, _) => s.calls[w := s.calls[w].(phase := Returned(AckTimeout))]
    case _ => s.calls
  }

  function Step(s: Sys, t: Timed): (s': Sys)
    requires Enabled(s, t.ev)
  {
    var (acks, sends) := Section(s, t);
    Sys(acks, s.mail + sends, Calls(s, t.ev), s.count + 1, s.fix)
  }

  ghost predicate Valid(es: Trace, fix: Fix)
    decreases es, 0
  {
    es == [] || (Valid(es[..|es| - 1], fix) && Enabled(Exec(es[..|es| - 1], fix), es[|es| - 1].ev))
  }

  ghost function Exec(es: Trace, fix: Fix): (s: Sys)
    requires Valid(es, fix)
    decreases es, 1
  {
    if es == [] then Init(fix) else Step(Exec(es[..|es| - 1], fix), es[|es| - 1])
  }

  lemma {:induction false} PrefixValid(es: Trace, n: nat, fix: Fix)
    requires Valid(es, fix) && n <= |es|
    ensures Valid(es[..n], fix)
    decreases |es| - n
  {
    if n < |es| {
      PrefixValid(es, n + 1, fix);
      assert es[..n + 1][..n] == es[..n];
    } else {
      assert es[..n] == es;
    }
  }

  // ---- the reference: a waiter's fate read off the trace ---------------------

  predicate IsInstall(es: Trace, w: nat)
  {
    w < |es| && es[w].ev.Installed?
  }

  /** What one event does to a waiter that is pending on `oid`. */
  function Decides(e: Event, oid: int): (v: Option<Verdict>)
  {
    match e
    case Routed(m) =>
      if Accepts(m, oid) then Some(Acked)
      else if Rejects(m, oid) then Some(OrderRejected(m.text))
      else None
    case Disconnected => Some(ConnectionLost)
    case Installed(other, _) => if other == oid then Some(ChannelDropped) else None
    case CleanedUp(_, other) => if other == oid then Some(ChannelDropped) else None
    case TimedOut(_, other) => if other == oid then Some(ChannelDropped) else None
    case _ => None
  }

  /** The first later event that decides the waiter's order id settles it, and nothing after matters. */
  ghost function Fate(es: Trace, w: nat): (v: Option<Verdict>)
    requires IsInstall(es, w)
    ensures v.Some? ==> exists p :: w < p < |es| && Settles(es, w, p) && Decides(es[p].ev, es[w].ev.oid) == v
    ensures v.None? ==> forall p :: w < p < |es| ==> Decides(es[p].ev, es[w].ev.oid).None?
  {
    if |es| == w + 1 then None
    else
      var init := es[..|es| - 1];
      var before := Fate(init, w);
      if before.Some? then
        var p :| w < p < |init| && Settles(init, w, p) && Decides(init[p].ev, init[w].ev.oid) == before;
        assert Settles(es, w, p) && Decides(es[p].ev, es[w].ev.oid) == before;
        before
      else
        assert Decides(es[|es| - 1].ev, es[w].ev.oid).Some? ==> Settles(es, w, |es| - 1);
        Decides(es[|es| - 1].ev, es[w].ev.oid)
  }

  /** `p` is the first event after `w` to decide its order id. */
  ghost predicate Settles(es: Trace, w: nat, p: nat)
    requires IsInstall(es, w)
  {
    && w < p < |es| && Decides(es[p].ev, es[w].ev.oid).Some?
    && forall q :: w < q < p ==> Decides(es[q].ev, es[w].ev.oid).None?
  }

  // ---- the code follows the reference ---------------------------------------

  ghost predicate CallsMatch(es: Trace, s: Sys)
  {
    && s.count == |es|
    && (forall w :: w in s.calls <==> IsInstall(es, w))
    && (forall w :: w in s.calls ==> s.calls[w].oid == es[w].ev.oid)
  }

  /** A pending entry belongs to a call on that order id, so no waiter is pending twice. */
  ghost predicate PendingOwned(s: Sys)
  {
    && (forall oid :: oid in s.acks.pending ==>
         var w := s.acks.pending[oid]; w in s.calls && s.calls[w].oid == oid && w !in s.mail)
    && (forall w :: w in s.mail ==> w in s.calls)
  }

  ghost predicate Pending(s: Sys, w: nat)
    requires w in s.calls
  {
    var oid := s.calls[w].oid;
    oid in s.acks.pending && s.acks.pending[oid] == w
  }

  ghost predicate FollowsFate(es: Trace, s: Sys)
    requires CallsMatch(es, s)
  {
    forall w :: w in s.calls ==> Get(s.mail, w) == Fate(es, w) && (Fate(es, w).None? <==> Pending(s, w))
  }

  /** Critical sections only remove pending waiters, except that an install adds its own, and send to those removed. */
  lemma SectionFrame(s: Sys, t: Timed)
    requires Enabled(s, t.ev)
    ensures var (acks, sends) := Section(s, t);
            && (forall oid :: oid in acks.pending ==>
                 || (oid in s.acks.pending && acks.pending[oid] == s.acks.pending[oid])
                 || (t.ev.Installed? && oid == t.ev.oid && acks.pending[oid] == s.count))
            && (forall w :: w in sends ==> w in Waiters(s.acks.pending))
  {
  }

  /** What a critical section sends is exactly what the reference says it decides. */
  lemma SectionDecides(s: Sys, t: Timed, w: nat)
    requires Enabled(s, t.ev) && PendingOwned(s) && w in s.calls && s.count !in s.calls
    ensures var (acks, sends) := Section(s, t);
            var oid := s.calls[w].oid;
            if Pending(s, w) && Decides(t.ev, oid).Some?
            then Get(sends, w) == Decides(t.ev, oid) && !(oid in acks.pending && acks.pending[oid] == w)
            else w !in sends && (Pending(s, w) <==> (oid in acks.pending && acks.pending[oid] == w))
  {
    var oid := s.calls[w].oid;
    match t.ev
    case Routed(m) =>
      match m {
        case OpenOrder(o) =>
        case OrderStatus(id, status, _, _) =>
        case Error(id, code, text) =>
        case _ =>
      }
    case Disconnected =>
      assert Pending(s, w) <==> w in Waiters(s.acks.pending);
    case _ =>
  }

  lemma {:induction false} RunsFollowFate(es: Trace, fix: Fix)
    requires Valid(es, fix)
    ensures var s := Exec(es, fix); CallsMatch(es, s) && PendingOwned(s) && FollowsFate(es, s)
  {
    if es != [] {
      var init, t := es[..|es| - 1], es[|es| - 1];
      RunsFollowFate(init, fix);
      var s, s' := Exec(init, fix), Exec(es, fix);
      assert s' == Step(s, t);
      CallsStep(es, s);
      forall w | w in s'.calls
        ensures Get(s'.mail, w) == Fate(es, w) && (Fate(es, w).None? <==> Pending(s', w))
      {
        FateStep(es, s, w);
      }
    }
  }

  /** One step of one waiter: what it hears and whether it is still pending, code against reference. */
  lemma FateStep(es: Trace, s: Sys, w: nat)
    requires es != [] && var init := es[..|es| - 1]; CallsMatch(init, s) && PendingOwned(s) && FollowsFate(init, s)
    requires Enabled(s, es[|es| - 1].ev) && IsInstall(es, w) && w in Step(s, es[|es| - 1]).calls
    ensures var s' := Step(s, es[|es| - 1]);
            Get(s'.mail, w) == Fate(es, w) && (Fate(es, w).None? <==> Pending(s', w))
  {
    if w < |es| - 1 {
      assert IsInstall(es[..|es| - 1], w);
      SectionDecides(s, es[|es| - 1], w);
    } else {
      NewWaiter(s, es[|es| - 1]);
    }
  }

  /** A call that has just installed its waiter is pending and has heard nothing. */
  lemma NewWaiter(s: Sys, t: Timed)
    requires t.ev.Installed? && PendingOwned(s) && s.count !in s.calls
    ensures var s' := Step(s, t); s.count !in s'.mail && Pending(s', s.count)
  {
  }

  lemma CallsStep(es: Trace, s: Sys)
    requires es != [] && var init := es[..|es| - 1]; CallsMatch(init, s) && PendingOwned(s)
    requires Enabled(s, es[|es| - 1].ev)
    ensures var s' := Step(s, es[|es| - 1]); CallsMatch(es, s') && PendingOwned(s')
  {
    var t := es[|es| - 1];
    var s' := Step(s, t);
    SectionFrame(s, t);
    forall oid | oid in s'.acks.pending
      ensures var w := s'.acks.pending[oid]; w in s'.calls && s'.calls[w].oid == oid && w !in s'.mail
    {
      var w := s'.acks.pending[oid];
      if w in s.calls {
        SectionDecides(s, t, w);
      }
    }
  }

  // ---- what a caller may conclude --------------------------------------------

  /** What a call has heard, and what it has returned. */
  ghost predicate Keeps(s: Sys, s': Sys, w: nat)
  {
    && (w in s.mail ==> w in s'.mail && s'.mail[w] == s.mail[w])
    && (w in s.calls && s.calls[w].phase.Returned? ==> w in s'.calls && s'.calls[w] == s.calls[w])
  }

  lemma StepKeeps(s: Sys, t: Timed, w: nat)
    requires Enabled(s, t.ev) && PendingOwned(s) && s.count !in s.calls
    ensures Keeps(s, Step(s, t), w)
  {
    if w in s.mail {
      assert !Pending(s, w);
      SectionDecides(s, t, w);
    }
  }

  /** A call that has returned never returns again, and a channel is written at most once. */
  lemma {:induction false} SettledOnce(es: Trace, n: nat, fix: Fix, w: nat)
    requires Valid(es, fix) && n <= |es| && Valid(es[..n], fix)
    ensures Keeps(Exec(es[..n], fix), Exec(es, fix), w)
  {
    if n == |es| {
      assert es[..n] == es;
    } else {
      var init := es[..|es| - 1];
      assert init[..n] == es[..n];
      SettledOnce(init, n, fix, w);
      RunsFollowFate(init, fix);
      StepKeeps(Exec(init, fix), es[|es| - 1], w);
    }
  }

  /** What came back from the channel is what is in the channel. */
  ghost predicate ReturnedMail(s: Sys, w: nat)
  {
    w in s.calls && s.calls[w].phase.Returned? && s.calls[w].phase.r.FromChannel? ==>
      w in s.mail && s.mail[w] == s.calls[w].phase.r.v
  }

  lemma ReturnStep(s: Sys, t: Timed, w: nat)
    requires Enabled(s, t.ev) && ReturnedMail(s, w) && Keeps(s, Step(s, t), w)
    ensures ReturnedMail(Step(s, t), w)
  {
  }

  lemma {:induction false} ReturnsMail(es: Trace, fix: Fix, w: nat)
    requires Valid(es, fix)
    ensures ReturnedMail(Exec(es, fix), w)
  {
    if es != [] {
      var init := es[..|es| - 1];
      ReturnsMail(init, fix, w);
      RunsFollowFate(init, fix);
      StepKeeps(Exec(init, fix), es[|es| - 1], w);
      ReturnStep(Exec(init, fix), es[|es| - 1], w);
    }
  }

  /**
   Safety of the acknowledgement protocol in every run. Ok means the first message to decide this order id
   after the waiter was installed was an OpenOrder or an accept-set OrderStatus for it; OrderRejected means
   it was an order-class error with that id and that text; ConnectionLost means it was a disconnect.
   */
  lemma {:induction false} AckSafety(es: Trace, fix: Fix, w: nat)
    requires Valid(es, fix) && w in Exec(es, fix).calls
    requires var p := Exec(es, fix).calls[w].phase; p.Returned? && p.r.FromChannel?
    ensures IsInstall(es, w)
    ensures exists p: nat :: Settles(es, w, p) &&
              Justifies(es[p].ev, w, es[w].ev.oid, Exec(es, fix).calls[w].phase.r.v)
  {
    var v := Exec(es, fix).calls[w].phase.r.v;
    ReturnIsFate(es, fix, w);
    var p: nat :| w < p < |es| && Settles(es, w, p) && Decides(es[p].ev, es[w].ev.oid) == Some(v);
    if OwnCleanup(es[p].ev, w) {
      OwnCleanupIsNotTheChannel(es, p, fix, w);
    }
    DecisionJustifies(es[p].ev, w, es[w].ev.oid, v);
  }

  /** What a call returns from its channel is its fate. */
  lemma ReturnIsFate(es: Trace, fix: Fix, w: nat)
    requires Valid(es, fix) && w in Exec(es, fix).calls
    requires var p := Exec(es, fix).calls[w].phase; p.Returned? && p.r.FromChannel?
    ensures IsInstall(es, w) && Fate(es, w) == Some(Exec(es, fix).calls[w].phase.r.v)
  {
    RunsFollowFate(es, fix);
    ReturnsMail(es, fix, w);
  }

  predicate OwnCleanup(e: Event, w: nat)
  {
    (e.CleanedUp? || e.TimedOut?) && e.w == w
  }

  lemma DecisionJustifies(e: Event, w: nat, oid: int, v: Verdict)
    requires Decides(e, oid) == Some(v) && !OwnCleanup(e, w)
    ensures Justifies(e, w, oid, v)
  {
  }

  /** The event entitles waiter `w` on `oid` to the verdict. A dropped channel is always another call's doing. */
  predicate Justifies(e: Event, w: nat, oid: int, v: Verdict)
  {
    match v
    case Acked => e.Routed? && Accepts(e.m, oid)
    case OrderRejected(reason) => e.Routed? && Rejects(e.m, oid) && e.m.text == reason
    case ConnectionLost => e.Disconnected?
    case ChannelDropped =>
      || (e.Installed? && e.oid == oid)
      || ((e.CleanedUp? || e.TimedOut?) && e.oid == oid && e.w != w)
  }

  lemma OwnCleanupIsNotTheChannel(es: Trace, p: nat, fix: Fix, w: nat)
    requires Valid(es, fix) && p < |es|
    requires OwnCleanup(es[p].ev, w)
    ensures var s := Exec(es, fix);
            w in s.calls && s.calls[w].phase.Returned? && !s.calls[w].phase.r.FromChannel?
  {
    PrefixValid(es, p + 1, fix);
    assert es[..p + 1][..p] == es[..p];
    SettledOnce(es, p + 1, fix, w);
  }

  /** Completeness: while a waiter is pending, the next message that decides its order id settles it at once. */
  lemma {:induction false} NextDecisionSettles(es: Trace, t: Timed, fix: Fix, w: nat)
    requires Valid(es + [t], fix) && Valid(es, fix) && w in Exec(es, fix).calls
    requires w !in Exec(es, fix).mail
    ensures Get(Exec(es + [t], fix).mail, w) == Decides(t.ev, Exec(es, fix).calls[w].oid)
  {
    RunsFollowFate(es, fix);
    assert (es + [t])[..|es|] == es;
    SectionDecides(Exec(es, fix), t, w);
  }
}
