/**
 The stale-command filter (tasks.rs, ipc.rs): order ids that reached a terminal status are remembered for a
 while, and amends and cancels aimed at them are dropped before they reach the broker. Every command runs in a
 task of its own: the lookup is one lock section and the call to the broker a later step, so statuses may be
 recorded in between.
 */
module StaleFilter {
  import opened Sets
  import opened Clock
  import opened Options
  import opened Inbound

  const TTL_NS: nat := 60_000_000_000

  /** The command channels, each with its own counter. */
  datatype Kind = Modify | Cancel

  datatype Event =
    | StatusSeen(id: int, status: Status)                 // pump_status
    | Evicted                                             // periodic_terminated_evict
    | Checked(kind: Kind, target: Option<int>, live: bool)    // a modify or cancel up to its lookup; no id if it does not parse
    | Sent(check: nat)                                    // the broker call of the command looked up at that event

  type Timed = TimedEvent<Event>

  type Trace = seq<Timed>

  /** `u64::saturating_sub`. */
  function SaturatingSub(a: nat, b: nat): (d: nat)
    ensures d == 0 || d + b == a
  {
    if a >= b then a - b else 0
  }

  datatype Outcome = Malformed | Shadowed | Dropped | Dispatched

  class Filter {
    var recentlyTerminated: map<int, nat>
    var seenOrders: set<int>
    var staleModifyDropped: nat
    var staleCancelDropped: nat

    constructor ()
      ensures recentlyTerminated == map[] && staleModifyDropped == 0 && staleCancelDropped == 0
    {
      recentlyTerminated, seenOrders, staleModifyDropped, staleCancelDropped := map[], {}, 0, 0;
    }

    /** One turn of pump_status; `alreadySeen` is false for an update about an unknown order. */
    method OnStatus(id: int, status: Status, now: nat) returns (alreadySeen: bool)
      modifies this`recentlyTerminated, this`seenOrders
      ensures recentlyTerminated == Recorded(old(recentlyTerminated), id, status, now)
      ensures alreadySeen <==> id in old(seenOrders)
      ensures forall o :: o in seenOrders <==> if o == id then !Terminal(status) else o in old(seenOrders)
    {
      alreadySeen := id in seenOrders;
      if Terminal(status) {
        seenOrders := seenOrders - {id};
        recentlyTerminated := recentlyTerminated[id := now];
      } else {
        seenOrders := seenOrders + {id};
      }
    }

    /** One turn of the evictor: `retain` in place. */
    method Evict(now: nat)
      modifies this`recentlyTerminated
      ensures forall id :: Get(recentlyTerminated, id) == Get(Retained(old(recentlyTerminated), now), id)
    {
      var before := recentlyTerminated;
      var left := before.Keys;
      while exists id :: id in left
        invariant forall id :: id in left ==> id in before
        invariant forall id :: id in recentlyTerminated <==>
                    id in before && (id in left || SaturatingSub(now, before[id]) < TTL_NS)
        invariant forall id :: id in recentlyTerminated ==> recentlyTerminated[id] == before[id]
        decreases left
      {
        var id :| id in left;
        left := left - {id};
        if SaturatingSub(now, before[id]) >= TTL_NS {
          recentlyTerminated := recentlyTerminated - {id};
        }
      }
    }

    /** handle_modify and handle_cancel up to the lookup; a dispatched command calls the broker after that. */
    method Handle(kind: Kind, id: Option<int>, live: bool) returns (outcome: Outcome)
      modifies this`staleModifyDropped, this`staleCancelDropped
      ensures outcome == Judge(recentlyTerminated, id, live)
      ensures staleModifyDropped == old(staleModifyDropped) + (if kind == Modify && outcome == Dropped then 1 else 0)
      ensures staleCancelDropped == old(staleCancelDropped) + (if kind == Cancel && outcome == Dropped then 1 else 0)
    {
      if id.None? {
        return Malformed;
      }
      if !live {
        return Shadowed;
      }
      if id.value in recentlyTerminated {
        if kind == Modify {
          staleModifyDropped := staleModifyDropped + 1;
        } else {
          staleCancelDropped := staleCancelDropped + 1;
        }
        return Dropped;
      }
      outcome := Dispatched;
    }
  }

  function Recorded(m: map<int, nat>, id: int, status: Status, now: nat): (m': map<int, nat>)
  {
    if Terminal(status) then m[id := now] else m
  }

  function Retained(m: map<int, nat>, now: nat): (m': map<int, nat>)
  {
    map id | id in m && SaturatingSub(now, m[id]) < TTL_NS :: m[id]
  }

  function Judge(m: map<int, nat>, id: Option<int>, live: bool): (o: Outcome)
  {
    if id.None? then Malformed else if !live then Shadowed else if id.value in m then Dropped else Dispatched
  }

  // ---- every run ---------------------------------------------------------------------

  function TerminatedAt(es: Trace, n: nat): (m: map<int, nat>)
    requires n <= |es|
  {
    if n == 0 then map[]
    else
      var m, x := TerminatedAt(es, n - 1), es[n - 1];
      match x.ev
      case StatusSeen(id, status) => Recorded(m, id, status, x.now)
      case Evicted => Retained(m, x.now)
      case _ => m
  }

  predicate IsCheck(es: Trace, q: nat)
  {
    q < |es| && es[q].ev.Checked?
  }

  function OutcomeAt(es: Trace, q: nat): (o: Outcome)
    requires IsCheck(es, q)
  {
    Judge(TerminatedAt(es, q), es[q].ev.target, es[q].ev.live)
  }

  /** A terminal status for the id was recorded at `p`. */
  predicate TerminalAt(es: Trace, p: nat, id: int)
  {
    p < |es| && es[p].ev.StatusSeen? && es[p].ev.id == id && Terminal(es[p].ev.status)
  }

  /** The record made at `p` is old enough for the evictor's turn at `e` to remove it. */
  predicate Expires(es: Trace, p: nat, e: nat)
  {
    e < |es| && p < |es| && es[e].ev.Evicted? && SaturatingSub(es[e].now, es[p].now) >= TTL_NS
  }

  /** The record made at `p` is the id's latest and no evictor turn before `n` found it expired. */
  ghost predicate Remembered(es: Trace, p: nat, n: nat, id: int)
    requires n <= |es|
  {
    && p < n && TerminalAt(es, p, id)
    && (forall q :: p < q < n ==> !TerminalAt(es, q, id))
    && (forall e :: p < e < n ==> !Expires(es, p, e))
  }

  lemma {:induction false} TerminatedExact(es: Trace, n: nat, id: int)
    requires n <= |es|
    ensures id in TerminatedAt(es, n) <==> exists p: nat :: Remembered(es, p, n, id)
    ensures forall p: nat :: Remembered(es, p, n, id) ==> id in TerminatedAt(es, n) && TerminatedAt(es, n)[id] == es[p].now
  {
    if n > 0 {
      TerminatedExact(es, n - 1, id);
      var m, m' := TerminatedAt(es, n - 1), TerminatedAt(es, n);
      if TerminalAt(es, n - 1, id) {
        assert Remembered(es, n - 1, n, id);
      } else {
        forall p: nat ensures Remembered(es, p, n, id) <==> Remembered(es, p, n - 1, id) && !Expires(es, p, n - 1) {
        }
        if id in m' {
          var p: nat :| Remembered(es, p, n - 1, id);
          assert Remembered(es, p, n, id);
        }
      }
    }
  }

  /**
   Exactly which live commands are dropped, whatever the clock and the eviction schedule do: those aimed at
   an id whose latest terminal record no evictor turn has found expired. All others are dispatched.
   */
  lemma DroppedExactly(es: Trace, q: nat)
    requires IsCheck(es, q) && es[q].ev.target.Some? && es[q].ev.live
    ensures OutcomeAt(es, q) == Dropped <==> exists p: nat :: Remembered(es, p, q, es[q].ev.target.value)
    ensures OutcomeAt(es, q) == Dropped || OutcomeAt(es, q) == Dispatched
  {
    TerminatedExact(es, q, es[q].ev.target.value);
  }

  lemma {:induction false} LastTerminal(es: Trace, p: nat, n: nat, id: int) returns (l: nat)
    requires p < n <= |es| && TerminalAt(es, p, id)
    ensures p <= l < n && TerminalAt(es, l, id) && forall q :: l < q < n ==> !TerminalAt(es, q, id)
    decreases n
  {
    if TerminalAt(es, n - 1, id) {
      l := n - 1;
    } else {
      l := LastTerminal(es, p, n - 1, id);
    }
  }

  /** At the lookup the promise holds: within 60 s of a terminal status no live command for its id passes. */
  lemma NothingPassesWithinTtl(es: Trace, p: nat, q: nat)
    requires ClockMonotone(es) && IsCheck(es, q) && es[q].ev.target.Some?
    requires p < q && TerminalAt(es, p, es[q].ev.target.value) && es[q].now < es[p].now + TTL_NS
    ensures OutcomeAt(es, q) != Dispatched
  {
    var id := es[q].ev.target.value;
    var l := LastTerminal(es, p, q, id);
    assert Remembered(es, l, q, id);
    TerminatedExact(es, q, id);
  }

  // ---- what reaches the broker ----------------------------------------------------------

  predicate Sends(es: Trace, s: nat, c: nat)
  {
    s < |es| && es[s].ev == Sent(c)
  }

  /** The command looked up at `c` was let through and has not called the broker before event `n`. */
  ghost predicate InFlight(es: Trace, c: nat, n: nat)
    requires n <= |es|
  {
    c < n && IsCheck(es, c) && OutcomeAt(es, c) == Dispatched && forall k: nat :: k < n ==> !Sends(es, k, c)
  }

  ghost predicate EnabledAt(es: Trace, n: nat)
    requires n < |es|
  {
    es[n].ev.Sent? ==> InFlight(es, es[n].ev.check, n)
  }

  /** Each command calls the broker at most once, and only after its lookup let it through. */
  ghost predicate Valid(es: Trace)
  {
    forall n: nat {:trigger EnabledAt(es, n)} :: n < |es| ==> EnabledAt(es, n)
  }

  /** The order id of the command sent at `s`. */
  function SentId(es: Trace, s: nat): (id: int)
    requires s < |es| && es[s].ev.Sent?
    requires var c := es[s].ev.check; IsCheck(es, c) && es[c].ev.target.Some?
  {
    es[es[s].ev.check].ev.target.value
  }

  /** At `s` a command reaches the broker within 60 s after the terminal status recorded at `p` for its id. */
  ghost predicate Stale(es: Trace, p: nat, s: nat)
  {
    && p < s < |es| && es[s].ev.Sent? && InFlight(es, es[s].ev.check, s)
    && TerminalAt(es, p, SentId(es, s)) && es[s].now < es[p].now + TTL_NS
  }

  /**
   Exactly when a command reaches the broker inside the window of a terminal status: if and only if the status
   was recorded between the command's lookup and its call. Whatever the eviction schedule.
   */
  lemma StaleExactly(es: Trace, p: nat, s: nat)
    requires Valid(es) && ClockMonotone(es) && s < |es| && es[s].ev.Sent?
    ensures InFlight(es, es[s].ev.check, s)
    ensures Stale(es, p, s) <==>
            && es[s].ev.check < p < s
            && TerminalAt(es, p, SentId(es, s)) && es[s].now < es[p].now + TTL_NS
  {
    assert EnabledAt(es, s);
    var c := es[s].ev.check;
    if Stale(es, p, s) && p <= c {
      assert es[c].now <= es[s].now;
      NothingPassesWithinTtl(es, p, c);
    }
  }

  /**
   The intended guarantee, under the hypothesis it needs: if no terminal status for the id is recorded between
   its lookup and its call, no command reaches the broker within 60 s after one.
   */
  lemma NothingStaleWithinTtl(es: Trace, s: nat)
    requires Valid(es) && ClockMonotone(es) && s < |es| && es[s].ev.Sent?
    ensures InFlight(es, es[s].ev.check, s)
    ensures (forall k :: es[s].ev.check < k < s ==> !TerminalAt(es, k, SentId(es, s))) ==>
            forall p: nat :: !Stale(es, p, s)
  {
    assert EnabledAt(es, s);
    forall p: nat | Stale(es, p, s) ensures es[s].ev.check < p < s {
      StaleExactly(es, p, s);
    }
  }

  lemma {:induction false} TerminatedPrefix(es: Trace, more: Trace, n: nat)
    requires n <= |es| <= |more| && more[..|es|] == es
    ensures TerminatedAt(more, n) == TerminatedAt(es, n)
  {
    if n > 0 {
      TerminatedPrefix(es, more, n - 1);
      assert more[n - 1] == more[..|es|][n - 1];
    }
  }

  lemma FlightPrefix(es: Trace, more: Trace, c: nat, n: nat)
    requires n <= |es| <= |more| && more[..|es|] == es
    ensures InFlight(more, c, n) <==> InFlight(es, c, n)
  {
    assert forall k :: 0 <= k < |es| ==> more[k] == more[..|es|][k];
    assert forall k: nat :: k < n ==> (Sends(more, k, c) <==> Sends(es, k, c));
    if c < n {
      TerminatedPrefix(es, more, c);
    }
  }

  /** The hypothesis cannot be dropped: any command in flight, in any run, can still be overtaken by a terminal status. */
  lemma AnyFlightCanBeOvertaken(es: Trace, c: nat, now: nat)
    requires Valid(es) && InFlight(es, c, |es|)
    ensures var more := es + [At(now, StatusSeen(es[c].ev.target.value, Filled)), At(now, Sent(c))];
            Valid(more) && Stale(more, |es|, |es| + 1)
  {
    var more := es + [At(now, StatusSeen(es[c].ev.target.value, Filled)), At(now, Sent(c))];
    assert more[..|es|] == es;
    forall n: nat | n < |more| ensures EnabledAt(more, n) {
      if n < |es| {
        assert more[n] == es[n] && EnabledAt(es, n);
        if es[n].ev.Sent? {
          FlightPrefix(es, more, es[n].ev.check, n);
        }
      } else {
        FlightPrefix(es, more, c, |es|);
      }
    }
    assert EnabledAt(more, |es| + 1);
  }

  /** The race itself: a cancel is looked up, its order fills, and the cancel goes out 10 ns later. */
  const RACE: Trace := [At(10, Checked(Cancel, Some(7), true)), At(20, StatusSeen(7, Filled)), At(30, Sent(0))]

  lemma RacingRun()
    ensures Valid(RACE) && ClockMonotone(RACE) && Stale(RACE, 1, 2)
  {
    assert TerminatedAt(RACE, 0) == map[];
    assert OutcomeAt(RACE, 0) == Dispatched;
    assert InFlight(RACE, 0, 2);
  }

  // ---- counting -----------------------------------------------------------------------

  predicate IsLive(x: Timed, kind: Kind)
  {
    x.ev.Checked? && x.ev.kind == kind && x.ev.target.Some? && x.ev.live
  }

  /** Well-formed live commands of one kind received in the first `n` events. */
  function Received(es: Trace, n: nat, kind: Kind): (c: nat)
    requires n <= |es|
  {
    if n == 0 then 0 else Received(es, n - 1, kind) + if IsLive(es[n - 1], kind) then 1 else 0
  }

  /** Lookups of one kind with a given outcome among the first `n` events. */
  function Counted(es: Trace, n: nat, kind: Kind, o: Outcome): (c: nat)
    requires n <= |es|
  {
    if n == 0 then 0
    else Counted(es, n - 1, kind, o)
         + if IsCheck(es, n - 1) && es[n - 1].ev.kind == kind && OutcomeAt(es, n - 1) == o then 1 else 0
  }

  predicate IsSent(es: Trace, n: nat, kind: Kind)
    requires n < |es|
  {
    es[n].ev.Sent? && es[n].ev.check < n && IsCheck(es, es[n].ev.check) && es[es[n].ev.check].ev.kind == kind
  }

  /** Commands of one kind that called the broker among the first `n` events. */
  function SentCount(es: Trace, n: nat, kind: Kind): (c: nat)
    requires n <= |es|
  {
    if n == 0 then 0 else SentCount(es, n - 1, kind) + if IsSent(es, n - 1, kind) then 1 else 0
  }

  /** The commands of one kind that are between lookup and call just before event `n`. */
  ghost function Flying(es: Trace, n: nat, kind: Kind): (cs: set<nat>)
    requires n <= |es|
    ensures forall c: nat :: c in cs <==> InFlight(es, c, n) && es[c].ev.kind == kind
  {
    set c: nat | c < n && InFlight(es, c, n) && es[c].ev.kind == kind
  }

  lemma FlyingStep(es: Trace, n: nat, kind: Kind)
    requires Valid(es) && 0 < n <= |es|
    ensures var before, x := Flying(es, n - 1, kind), es[n - 1];
            var passed := IsCheck(es, n - 1) && x.ev.kind == kind && OutcomeAt(es, n - 1) == Dispatched;
            |Flying(es, n, kind)| == |before| + (if passed then 1 else 0) - (if IsSent(es, n - 1, kind) then 1 else 0)
  {
    var m := n - 1;
    var before := Flying(es, m, kind);
    assert EnabledAt(es, m);
    forall c: nat ensures InFlight(es, c, n) <==>
                     || (c == m && IsCheck(es, m) && OutcomeAt(es, m) == Dispatched)
                     || (InFlight(es, c, m) && es[m].ev != Sent(c))
    {
      FlightStep(es, c, n);
    }
    if IsSent(es, m, kind) {
      OneMore(Flying(es, n, kind), before, es[m].ev.check);
    } else if IsCheck(es, m) && es[m].ev.kind == kind && OutcomeAt(es, m) == Dispatched {
      OneMore(before, Flying(es, n, kind), m);
    } else {
      SameSize(before, Flying(es, n, kind));
    }
  }

  lemma FlightStep(es: Trace, c: nat, n: nat)
    requires Valid(es) && 0 < n <= |es|
    ensures InFlight(es, c, n) <==>
            || (c == n - 1 && IsCheck(es, n - 1) && OutcomeAt(es, n - 1) == Dispatched)
            || (InFlight(es, c, n - 1) && es[n - 1].ev != Sent(c))
  {
    assert Sends(es, n - 1, c) <==> es[n - 1].ev == Sent(c);
    if c == n - 1 {
      forall k: nat | k < n ensures !Sends(es, k, c) {
        assert EnabledAt(es, k);
      }
    }
  }

  /**
   Nothing is lost: per kind, the live well-formed commands received are those that called the broker, those
   dropped, and those still between lookup and call.
   */
  lemma {:induction false} CommandsConserved(es: Trace, n: nat, kind: Kind)
    requires Valid(es) && n <= |es|
    ensures Received(es, n, kind) == SentCount(es, n, kind) + Counted(es, n, kind, Dropped) + |Flying(es, n, kind)|
  {
    if n > 0 {
      CommandsConserved(es, n - 1, kind);
      FlyingStep(es, n, kind);
    } else {
      assert Flying(es, 0, kind) == {};
    }
  }
}
