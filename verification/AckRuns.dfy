/**
 Concrete runs of the acknowledgement protocol, event by event, in which its timing or its waiters go wrong.
 */
module AckRuns {
  import opened Clock
  import opened Options
  import opened Inbound
  import A = AckState
  import opened AckState
  import opened AckProtocol

  lemma Extend(es: Trace, t: Timed, fix: Fix)
    requires Valid(es, fix) && Enabled(Exec(es, fix), t.ev)
    ensures Valid(es + [t], fix) && Exec(es + [t], fix) == Step(Exec(es, fix), t)
  {
    assert (es + [t])[..|es|] == es;
  }

  /** Run a script of events from a state; nothing if one of them is not enabled. */
  function Play(s: Sys, ts: Trace): (r: Option<Sys>)
    decreases |ts|
  {
    if ts == [] then Some(s)
    else if !Enabled(s, ts[0].ev) then None
    else Play(Step(s, ts[0]), ts[1..])
  }

  /** A script that plays from the start is a run. */
  lemma {:induction false} PlayIsRun(es: Trace, ts: Trace, fix: Fix)
    requires Valid(es, fix) && Play(Exec(es, fix), ts).Some?
    ensures Valid(es + ts, fix) && Play(Exec(es, fix), ts) == Some(Exec(es + ts, fix))
    decreases |ts|
  {
    if ts == [] {
      assert es + ts == es;
    } else {
      Extend(es, ts[0], fix);
      PlayIsRun(es + [ts[0]], ts[1..], fix);
      MoveOne(es, ts);
    }
  }

  lemma MoveOne(es: Trace, ts: Trace)
    requires ts != []
    ensures es + [ts[0]] + ts[1..] == es + ts
  {
  }

  lemma PlayOne(s: Sys, t: Timed, ts: Trace)
    requires Enabled(s, t.ev)
    ensures Play(s, [t] + ts) == Play(Step(s, t), ts)
  {
    assert ([t] + ts)[1..] == ts;
  }

  lemma PlayThree(s: Sys, t: Timed, u: Timed, v: Timed, s1: Sys, s2: Sys, s3: Sys, ts: Trace)
    requires Enabled(s, t.ev) && Step(s, t) == s1 && Enabled(s1, u.ev) && Step(s1, u) == s2
    requires Enabled(s2, v.ev) && Step(s2, v) == s3
    ensures Play(s, [t, u, v] + ts) == Play(s3, ts)
  {
    PlayOne(s, t, [u, v] + ts);
    PlayOne(s1, u, [v] + ts);
    PlayOne(s2, v, ts);
    assert [t] + ([u, v] + ts) == [t, u, v] + ts;
    assert [u] + ([v] + ts) == [u, v] + ts;
  }

  // ---- a stale pair ---------------------------------------------------------

  const EARLY: Event := Routed(OrderStatus(7, PendingSubmit, Fin(0.0), Fin(1.0)))
  const LATE: Event := Routed(OrderStatus(7, Submitted, Fin(0.0), Fin(1.0)))
  const DONE: Task := Task(7, Returned(FromChannel(Acked)))

  /** A place is acknowledged by PreSubmitted and its pair drained; then Submitted arrives. */
  const PLACED: Trace := [At(10, Installed(7, None)), At(10, SendOk(0)), At(20, EARLY)]
  const DRAINED: Trace := [At(20, Received(0)), At(20, DrainedWire(7)), At(30, LATE)]
  const AMENDED: Trace := [At(50, Installed(7, Some(1.0))), At(50, SendOk(6)), At(60, LATE)]

  const AT_3: Sys := Sys(NO_ACKS.(wireSend := map[7 := 10], wireAck := map[7 := 20]), map[0 := Acked],
                         map[0 := Task(7, Waiting)], 3, AsWritten)
  const AT_6: Sys := Sys(NO_ACKS.(wireAck := map[7 := 30]), map[0 := Acked], map[0 := DONE], 6, AsWritten)
  const AT_9: Sys := Sys(Acks(map[], map[7 := 50], map[7 := 30], map[], map[7 := 1.0]),
                         map[0 := Acked, 6 := Acked], map[0 := DONE, 6 := Task(7, Waiting)], 9, AsWritten)

  lemma PlayPlaced(ts: Trace)
    ensures Play(Init(AsWritten), PLACED + ts) == Play(AT_3, ts)
  {
    var s1 := Sys(NO_ACKS.(pending := map[7 := 0], wireSend := map[7 := 10]), map[], map[0 := Task(7, Sending)], 1, AsWritten);
    var s2 := s1.(calls := map[0 := Task(7, Waiting)], count := 2);
    PlayThree(Init(AsWritten), PLACED[0], PLACED[1], PLACED[2], s1, s2, AT_3, ts);
  }

  lemma PlayDrained(ts: Trace)
    ensures Play(AT_3, DRAINED + ts) == Play(AT_6, ts)
  {
    var s4 := AT_3.(calls := map[0 := DONE], count := 4);
    var s5 := s4.(acks := NO_ACKS, count := 5);
    PlayThree(AT_3, DRAINED[0], DRAINED[1], DRAINED[2], s4, s5, AT_6, ts);
  }

  lemma PlayAmended(ts: Trace)
    ensures Play(AT_6, AMENDED + ts) == Play(AT_9, ts)
  {
    var s7 := AT_6.(acks := Acks(map[7 := 6], map[7 := 50], map[7 := 30], map[], map[7 := 1.0]),
                    calls := map[0 := DONE, 6 := Task(7, Sending)], count := 7);
    var s8 := s7.(calls := map[0 := DONE, 6 := Task(7, Waiting)], count := 8);
    PlayThree(AT_6, AMENDED[0], AMENDED[1], AMENDED[2], s7, s8, AT_9, ts);
  }

  /**
   A run where it happens with nothing unusual: the place is done, the order is amended and the amend's
   waiter acknowledged. The pair about to be drained for the amend carries an ack older than its send.
   */
  lemma StalePairRun()
    ensures var es := PLACED + (DRAINED + (AMENDED + []));
            && Valid(es, AsWritten)
            && Exec(es, AsWritten).mail == map[0 := Acked, 6 := Acked]
            && A.DrainWire(Exec(es, AsWritten).acks, 7).1 == Some((50, 30))
  {
    var es := PLACED + (DRAINED + (AMENDED + []));
    PlayPlaced(DRAINED + (AMENDED + []));
    PlayDrained(AMENDED + []);
    PlayAmended([]);
    assert Play(Init(AsWritten), es) == Some(AT_9);
    assert Exec([], AsWritten) == Init(AsWritten);
    PlayIsRun([], es, AsWritten);
    assert [] + es == es;
  }

  // ---- late confirmations -----------------------------------------------------

  /** The gateway's OpenOrder for order 7 at a price. */
  function Confirmed(price: real): (e: Event)
  {
    Routed(OpenOrder(OpenOrderMsg(7, ContractDecoded(0, "HG", "FUT", "", Fin(0.0), "", ""), "BUY", Fin(1.0), "LMT",
                                  Fin(price), "GTC", "", Fin(0.0))))
  }

  lemma ConfirmedStep(s: Sys, now: nat, price: real)
    ensures var t := At(now, Confirmed(price));
            && Enabled(s, t.ev)
            && Step(s, t) == s.(
                 acks := s.acks.(
                   wireAck := Stamp(s.acks.wireAck, 7, now),
                   strictAck := if 7 in s.acks.expected && -AMEND_PRICE_EPS < price - s.acks.expected[7] < AMEND_PRICE_EPS
                                then Stamp(s.acks.strictAck, 7, now) else s.acks.strictAck,
                   pending := s.acks.pending - {7}),
                 mail := s.mail + Close(s.acks.pending, 7, Acked),
                 count := s.count + 1)
  {
  }

  /** An amend to 1.0 is acknowledged by a status, drained without a sample, and then confirmed. */
  const AMEND_1: Trace := [At(10, Installed(7, Some(1.0))), At(10, SendOk(0)), At(20, EARLY)]
  const LATE_1: Trace := [At(20, Received(0)), At(20, DrainedStrict(7)), At(30, Confirmed(1.0))]
  /** The next amend, to 2.0, is confirmed at once. */
  const AMEND_2: Trace := [At(50, Installed(7, Some(2.0))), At(50, SendOk(6)), At(60, Confirmed(2.0))]

  function Amended1(fix: Fix): (s: Sys)
  {
    Sys(Acks(map[], map[7 := 10], map[7 := 20], map[], map[7 := 1.0]), map[0 := Acked], map[0 := Task(7, Waiting)], 3, fix)
  }

  function Late1(fix: Fix): (s: Sys)
  {
    Sys(Acks(map[], map[7 := 10], map[7 := 20], if fix.AsWritten? then map[] else map[7 := 30],
             if fix.AsWritten? then map[] else map[7 := 1.0]),
        map[0 := Acked], map[0 := DONE], 6, fix)
  }

  function Amended2(fix: Fix): (s: Sys)
  {
    Sys(Acks(map[], map[7 := 50], map[7 := 20], map[7 := if fix.KeepPrice? then 30 else 60], map[7 := 2.0]),
        map[0 := Acked, 6 := Acked], map[0 := DONE, 6 := Task(7, Waiting)], 9, fix)
  }

  lemma PlayAmend1(fix: Fix, ts: Trace)
    ensures Play(Init(fix), AMEND_1 + ts) == Play(Amended1(fix), ts)
  {
    var s1 := Sys(NO_ACKS.(pending := map[7 := 0], wireSend := map[7 := 10], expected := map[7 := 1.0]),
                  map[], map[0 := Task(7, Sending)], 1, fix);
    var s2 := s1.(calls := map[0 := Task(7, Waiting)], count := 2);
    PlayThree(Init(fix), AMEND_1[0], AMEND_1[1], AMEND_1[2], s1, s2, Amended1(fix), ts);
  }

  lemma PlayLate1(fix: Fix, ts: Trace)
    ensures Play(Amended1(fix), LATE_1 + ts) == Play(Late1(fix), ts)
  {
    var s := Amended1(fix);
    var s4 := s.(calls := map[0 := DONE], count := 4);
    var s5 := s4.(acks := s.acks.(expected := if fix.AsWritten? then map[] else map[7 := 1.0]), count := 5);
    ConfirmedStep(s5, 30, 1.0);
    PlayThree(s, LATE_1[0], LATE_1[1], LATE_1[2], s4, s5, Late1(fix), ts);
  }

  function Installing2(fix: Fix): (s: Sys)
  {
    Sys(Acks(map[7 := 6], map[7 := 50], map[7 := 20], if fix.KeepPrice? then map[7 := 30] else map[], map[7 := 2.0]),
        map[0 := Acked], map[0 := DONE, 6 := Task(7, Sending)], 7, fix)
  }

  lemma PlayInstall2(fix: Fix)
    ensures Step(Late1(fix), AMEND_2[0]) == Installing2(fix)
  {
    assert Section(Late1(fix), AMEND_2[0]).1 == map[];
  }

  lemma PlayConfirm2(fix: Fix, s: Sys)
    requires s == Installing2(fix).(calls := map[0 := DONE, 6 := Task(7, Waiting)], count := 8)
    ensures Step(s, AMEND_2[2]) == Amended2(fix)
  {
    ConfirmedStep(s, 60, 2.0);
  }

  lemma PlayAmend2(fix: Fix, ts: Trace)
    ensures Play(Late1(fix), AMEND_2 + ts) == Play(Amended2(fix), ts)
  {
    var s7 := Installing2(fix);
    var s8 := s7.(calls := map[0 := DONE, 6 := Task(7, Waiting)], count := 8);
    PlayInstall2(fix);
    PlayConfirm2(fix, s8);
    PlayThree(Late1(fix), AMEND_2[0], AMEND_2[1], AMEND_2[2], s7, s8, Amended2(fix), ts);
  }

  lemma PlayedFromStart(es: Trace, s: Sys, fix: Fix)
    requires Play(Init(fix), es) == Some(s)
    ensures Valid(es, fix) && Exec(es, fix) == s
  {
    assert Exec([], fix) == Init(fix);
    PlayIsRun([], es, fix);
    assert [] + es == es;
  }

  /** The deferred poll of the first amend: the code as written loses its late confirmation, both repairs return it. */
  lemma DeferredPollRun(fix: Fix)
    ensures var es := AMEND_1 + (LATE_1 + []);
            && Valid(es, fix)
            && A.DrainStrict(Exec(es, fix).acks, 7, fix).1 == if fix.AsWritten? then None else Some(30)
  {
    PlayAmend1(fix, LATE_1 + []);
    PlayLate1(fix, []);
    PlayedFromStart(AMEND_1 + (LATE_1 + []), Late1(fix), fix);
  }

  /**
   Keeping the price is not enough. If the first amend is confirmed after its poll has given up, the drain of the
   second one returns the first one's confirmation, older than the second send; clearing at the install returns
   its own.
   */
  lemma LeftoverSampleRun(fix: Fix)
    requires !fix.AsWritten?
    ensures var es := AMEND_1 + (LATE_1 + (AMEND_2 + []));
            && Valid(es, fix)
            && A.DrainStrict(Exec(es, fix).acks, 7, fix).1 == Some(if fix.KeepPrice? then 30 else 60)
  {
    PlayAmend1(fix, LATE_1 + (AMEND_2 + []));
    PlayLate1(fix, AMEND_2 + []);
    PlayAmend2(fix, []);
    PlayedFromStart(AMEND_1 + (LATE_1 + (AMEND_2 + [])), Amended2(fix), fix);
  }

  /** An amend whose send fails leaves its price behind; a report at that price is then taken for the next amend. */
  const FAILED: Trace := [At(10, Installed(7, Some(1.0))), At(10, SendFailed(0)), At(10, CleanedUp(0, 7))]
  const RETRIED: Trace := [At(30, Confirmed(1.0)), At(50, Installed(7, Some(2.0))), At(50, SendOk(4))]
  const ACKED: Trace := [At(60, Confirmed(2.0)), At(60, Received(4)), At(60, DrainedWire(7))]

  const GAVE_UP: Task := Task(7, Returned(SendError))
  const AFTER_FAILED: Sys :=
    Sys(NO_ACKS.(expected := map[7 := 1.0]), map[0 := ChannelDropped], map[0 := GAVE_UP], 3, AsWritten)
  const AFTER_RETRIED: Sys :=
    Sys(Acks(map[7 := 4], map[7 := 50], map[7 := 30], map[7 := 30], map[7 := 2.0]), map[0 := ChannelDropped],
        map[0 := GAVE_UP, 4 := Task(7, Waiting)], 6, AsWritten)
  const AFTER_ACKED: Sys :=
    Sys(NO_ACKS.(strictAck := map[7 := 30], expected := map[7 := 2.0]), map[0 := ChannelDropped, 4 := Acked],
        map[0 := GAVE_UP, 4 := DONE], 9, AsWritten)

  lemma PlayFailed(ts: Trace)
    ensures Play(Init(AsWritten), FAILED + ts) == Play(AFTER_FAILED, ts)
  {
    var s1 := Sys(NO_ACKS.(pending := map[7 := 0], wireSend := map[7 := 10], expected := map[7 := 1.0]),
                  map[], map[0 := Task(7, Sending)], 1, AsWritten);
    var s2 := s1.(calls := map[0 := Task(7, Failing)], count := 2);
    PlayThree(Init(AsWritten), FAILED[0], FAILED[1], FAILED[2], s1, s2, AFTER_FAILED, ts);
  }

  lemma PlayRetried(ts: Trace)
    ensures Play(AFTER_FAILED, RETRIED + ts) == Play(AFTER_RETRIED, ts)
  {
    var s4 := AFTER_FAILED.(acks := Acks(map[], map[], map[7 := 30], map[7 := 30], map[7 := 1.0]), count := 4);
    var s5 := s4.(acks := AFTER_RETRIED.acks, calls := map[0 := GAVE_UP, 4 := Task(7, Sending)], count := 5);
    ConfirmedStep(AFTER_FAILED, 30, 1.0);
    PlayThree(AFTER_FAILED, RETRIED[0], RETRIED[1], RETRIED[2], s4, s5, AFTER_RETRIED, ts);
  }

  const CONFIRMED_2: Sys :=
    AFTER_RETRIED.(acks := AFTER_RETRIED.acks.(pending := map[]), mail := AFTER_ACKED.mail, count := 7)

  lemma PlayConfirmed2()
    ensures Step(AFTER_RETRIED, ACKED[0]) == CONFIRMED_2
  {
    ConfirmedStep(AFTER_RETRIED, 60, 2.0);
  }

  lemma PlayAcked(ts: Trace)
    ensures Play(AFTER_RETRIED, ACKED + ts) == Play(AFTER_ACKED, ts)
  {
    var s7 := CONFIRMED_2;
    var s8 := s7.(calls := AFTER_ACKED.calls, count := 8);
    PlayConfirmed2();
    PlayThree(AFTER_RETRIED, ACKED[0], ACKED[1], ACKED[2], s7, s8, AFTER_ACKED, ts);
  }

  lemma FailedSendSampleRun()
    ensures var es := FAILED + (RETRIED + (ACKED + []));
            && Valid(es, AsWritten)
            && A.DrainStrict(Exec(es, AsWritten).acks, 7, AsWritten).1 == Some(30)
  {
    PlayFailed(RETRIED + (ACKED + []));
    PlayRetried(ACKED + []);
    PlayAcked([]);
    PlayedFromStart(FAILED + (RETRIED + (ACKED + [])), AFTER_ACKED, AsWritten);
  }

  // ---- one call drops another's channel -----------------------------------------

  /** The first amend's timer fires; before its cleanup a second amend of the same order is installed and sent. */
  const EXPIRED: Trace := [At(1, Installed(7, Some(1.0))), At(1, SendOk(0)), At(500, Elapsed(0))]
  const DROPPED: Trace := [At(500, Installed(7, Some(2.0))), At(500, SendOk(3)), At(501, TimedOut(0, 7))]

  const AFTER_EXPIRED: Sys :=
    Sys(Acks(map[7 := 0], map[7 := 1], map[], map[], map[7 := 1.0]), map[], map[0 := Task(7, TimingOut)], 3, AsWritten)
  const AFTER_DROPPED: Sys :=
    Sys(NO_ACKS, map[0 := ChannelDropped, 3 := ChannelDropped],
        map[0 := Task(7, Returned(AckTimeout)), 3 := Task(7, Waiting)], 6, AsWritten)

  lemma PlayExpired(ts: Trace)
    ensures Play(Init(AsWritten), EXPIRED + ts) == Play(AFTER_EXPIRED, ts)
  {
    var s1 := AFTER_EXPIRED.(calls := map[0 := Task(7, Sending)], count := 1);
    var s2 := s1.(calls := map[0 := Task(7, Waiting)], count := 2);
    PlayThree(Init(AsWritten), EXPIRED[0], EXPIRED[1], EXPIRED[2], s1, s2, AFTER_EXPIRED, ts);
  }

  const INSTALLING: Sys :=
    Sys(Acks(map[7 := 3], map[7 := 500], map[], map[], map[7 := 2.0]), map[0 := ChannelDropped],
        map[0 := Task(7, TimingOut), 3 := Task(7, Sending)], 4, AsWritten)

  lemma PlayInstalling()
    ensures Step(AFTER_EXPIRED, DROPPED[0]) == INSTALLING
  {
    assert Section(AFTER_EXPIRED, DROPPED[0]).1 == map[0 := ChannelDropped];
  }

  lemma PlayTimedOut(s: Sys)
    requires s == INSTALLING.(calls := map[0 := Task(7, TimingOut), 3 := Task(7, Waiting)], count := 5)
    ensures Step(s, DROPPED[2]) == AFTER_DROPPED
  {
    assert Section(s, DROPPED[2]).1 == map[3 := ChannelDropped];
  }

  lemma PlayDropped(ts: Trace)
    ensures Play(AFTER_EXPIRED, DROPPED + ts) == Play(AFTER_DROPPED, ts)
  {
    var s4 := INSTALLING;
    var s5 := s4.(calls := map[0 := Task(7, TimingOut), 3 := Task(7, Waiting)], count := 5);
    PlayInstalling();
    PlayTimedOut(s5);
    PlayThree(AFTER_EXPIRED, DROPPED[0], DROPPED[1], DROPPED[2], s4, s5, AFTER_DROPPED, ts);
  }

  const HEARD: Timed := At(501, Received(3))
  const AFTER_HEARD: Sys :=
    AFTER_DROPPED.(calls := map[0 := Task(7, Returned(AckTimeout)), 3 := Task(7, Returned(FromChannel(ChannelDropped)))],
                   count := 7)

  lemma PlayHeard()
    ensures Play(AFTER_DROPPED, [HEARD]) == Some(AFTER_HEARD)
  {
    assert Enabled(AFTER_DROPPED, HEARD.ev) && Step(AFTER_DROPPED, HEARD) == AFTER_HEARD;
    PlayOne(AFTER_DROPPED, HEARD, []);
    assert [HEARD] + [] == [HEARD];
  }

  /** The first amend's cleanup drops the second one's waiter: it returns an error although it was sent. */
  lemma DroppedByOtherRun()
    ensures var es := EXPIRED + (DROPPED + [HEARD]);
            && Valid(es, AsWritten)
            && Exec(es, AsWritten).calls == map[0 := Task(7, Returned(AckTimeout)),
                                                3 := Task(7, Returned(FromChannel(ChannelDropped)))]
  {
    PlayExpired(DROPPED + [HEARD]);
    PlayDropped([HEARD]);
    PlayHeard();
    PlayedFromStart(EXPIRED + (DROPPED + [HEARD]), AFTER_HEARD, AsWritten);
  }
}
