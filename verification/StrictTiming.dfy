/**
 Strict amend timing over whole runs: which amend a drained strict stamp confirms, and which amends yield a
 sample, for the code as written and for its two repairs.
 */
module StrictTiming {
  import opened Clock
  import opened Options
  import opened Inbound
  import A = AckState
  import opened AckState
  import opened AckProtocol
  import opened AckTiming

  predicate AmendAt(es: Trace, i: nat, oid: int)
  {
    InstallAt(es, i, oid) && es[i].ev.amend.Some?
  }

  predicate DrainAt(es: Trace, q: nat, oid: int)
  {
    q < |es| && es[q].ev == DrainedStrict(oid)
  }

  predicate ConfirmAt(es: Trace, p: nat, oid: int, price: real)
  {
    p < |es| && es[p].ev.Routed? && Confirms(es[p].ev.m, oid, price)
  }

  /** What the strict drain at event `q` of a run returns. */
  ghost function Drained(es: Trace, q: nat, fix: Fix): (r: Option<nat>)
    requires Valid(es, fix) && q < |es| && es[q].ev.DrainedStrict?
    ensures r == SlotAt(es, q, es[q].ev.oid, fix).strict
  {
    PrefixValid(es, q, fix);
    SlotsAreIndependent(es[..q], es[q].ev.oid, fix);
    SlotAtPrefix(es, q, q, es[q].ev.oid, fix);
    A.DrainStrict(Exec(es[..q], fix).acks, es[q].ev.oid, fix).1
  }

  // ---- the reference, read off the trace -------------------------------------

  /** The event ends the wait for a confirmation: an amend, a timeout, or a drain that forgets the price. */
  ghost predicate Forgets(es: Trace, k: nat, oid: int, fix: Fix)
    requires k < |es|
    decreases k, 4
  {
    || AmendAt(es, k, oid) || TimeoutAt(es, k, oid)
    || (DrainAt(es, k, oid) && (fix.AsWritten? || Stamped(es, k, oid, fix)))
  }

  /** Just before event `n` the amend at `i` is the one whose price is expected. */
  ghost predicate Expecting(es: Trace, i: nat, n: nat, oid: int, fix: Fix)
    requires n <= |es|
    decreases n, 1
  {
    i < n && AmendAt(es, i, oid) && forall k: nat :: i < k < n ==> !Forgets(es, k, oid, fix)
  }

  /** The event is an OpenOrder at the price expected just then. */
  ghost predicate Confirming(es: Trace, p: nat, oid: int, fix: Fix)
    requires p < |es|
    decreases p, 2
  {
    exists i: nat :: Expecting(es, i, p, oid, fix) && ConfirmAt(es, p, oid, es[i].ev.amend.value)
  }

  predicate ClearsStamp(es: Trace, k: nat, oid: int, fix: Fix)
    requires k < |es|
  {
    DrainAt(es, k, oid) || TimeoutAt(es, k, oid) || (fix.KeepAndClear? && AmendAt(es, k, oid))
  }

  /** The stamp present just before event `n` was taken at `p`. */
  ghost predicate Taken(es: Trace, p: nat, n: nat, oid: int, fix: Fix)
    requires n <= |es|
    decreases n, 2
  {
    && p < n && Confirming(es, p, oid, fix) && !Stamped(es, p, oid, fix)
    && forall k: nat :: p < k < n ==> !ClearsStamp(es, k, oid, fix)
  }

  ghost predicate Stamped(es: Trace, n: nat, oid: int, fix: Fix)
    requires n <= |es|
    decreases n, 3
  {
    exists p: nat :: Taken(es, p, n, oid, fix)
  }

  // ---- the code follows the reference ---------------------------------------

  ghost predicate PriceAgrees(es: Trace, n: nat, oid: int, fix: Fix)
    requires n <= |es|
  {
    var expected := SlotAt(es, n, oid, fix).expected;
    && (expected.Some? ==> exists i: nat :: Expecting(es, i, n, oid, fix))
    && (forall i: nat :: Expecting(es, i, n, oid, fix) ==> expected == es[i].ev.amend)
  }

  ghost predicate StampAgrees(es: Trace, n: nat, oid: int, fix: Fix)
    requires n <= |es|
  {
    var strict := SlotAt(es, n, oid, fix).strict;
    && (strict.Some? <==> Stamped(es, n, oid, fix))
    && (forall p: nat :: Taken(es, p, n, oid, fix) ==> strict == Some(es[p].now))
  }

  lemma ExpectingStep(es: Trace, i: nat, n: nat, oid: int, fix: Fix)
    requires 0 < n <= |es|
    ensures Expecting(es, i, n, oid, fix) <==>
            (i == n - 1 && AmendAt(es, n - 1, oid)) || (Expecting(es, i, n - 1, oid, fix) && !Forgets(es, n - 1, oid, fix))
  {
  }

  lemma TakenStep(es: Trace, p: nat, n: nat, oid: int, fix: Fix)
    requires 0 < n <= |es|
    ensures Taken(es, p, n, oid, fix) <==>
            || (p == n - 1 && Confirming(es, n - 1, oid, fix) && !Stamped(es, n - 1, oid, fix))
            || (Taken(es, p, n - 1, oid, fix) && !ClearsStamp(es, n - 1, oid, fix))
  {
  }

  lemma PriceStep(es: Trace, n: nat, oid: int, fix: Fix)
    requires 0 < n <= |es| && PriceAgrees(es, n - 1, oid, fix) && StampAgrees(es, n - 1, oid, fix)
    ensures PriceAgrees(es, n, oid, fix)
  {
    var m := n - 1;
    var expected := SlotAt(es, n, oid, fix).expected;
    forall i: nat | Expecting(es, i, n, oid, fix) ensures expected == es[i].ev.amend {
      ExpectingStep(es, i, n, oid, fix);
    }
    if expected.Some? {
      if AmendAt(es, m, oid) {
        ExpectingStep(es, m, n, oid, fix);
      } else {
        var i: nat :| Expecting(es, i, m, oid, fix);
        ExpectingStep(es, i, n, oid, fix);
      }
    }
  }

  lemma ConfirmingMeans(es: Trace, n: nat, oid: int, fix: Fix)
    requires n < |es| && PriceAgrees(es, n, oid, fix)
    ensures var expected := SlotAt(es, n, oid, fix).expected;
            Confirming(es, n, oid, fix) <==> expected.Some? && ConfirmAt(es, n, oid, expected.value)
  {
    if SlotAt(es, n, oid, fix).expected.Some? {
      var i: nat :| Expecting(es, i, n, oid, fix);
    }
  }

  lemma StampStep(es: Trace, n: nat, oid: int, fix: Fix)
    requires 0 < n <= |es| && PriceAgrees(es, n - 1, oid, fix) && StampAgrees(es, n - 1, oid, fix)
    ensures StampAgrees(es, n, oid, fix)
  {
    var m := n - 1;
    var strict := SlotAt(es, n, oid, fix).strict;
    ConfirmingMeans(es, m, oid, fix);
    forall p: nat | Taken(es, p, n, oid, fix) ensures strict == Some(es[p].now) {
      TakenStep(es, p, n, oid, fix);
    }
    if strict.Some? {
      if SlotAt(es, m, oid, fix).strict.Some? {
        assert Stamped(es, m, oid, fix);
        var p: nat :| Taken(es, p, m, oid, fix);
        TakenStep(es, p, n, oid, fix);
      } else {
        TakenStep(es, m, n, oid, fix);
      }
    }
  }

  /** In every run the expected price and the strict stamp of an order id are those of the reference. */
  lemma {:induction false} StrictExact(es: Trace, n: nat, oid: int, fix: Fix)
    requires n <= |es|
    ensures PriceAgrees(es, n, oid, fix) && StampAgrees(es, n, oid, fix)
  {
    if n > 0 {
      StrictExact(es, n - 1, oid, fix);
      PriceStep(es, n, oid, fix);
      StampStep(es, n, oid, fix);
    }
  }

  // ---- whose sample it is -----------------------------------------------------

  /** A stamp outlives every event that does not end the wait for the amend it came under. */
  lemma {:induction false} StampLasts(es: Trace, p: nat, a: nat, b: nat, oid: int, fix: Fix)
    requires a <= b <= |es| && Taken(es, p, a, oid, fix)
    requires forall k: nat :: a <= k < b ==> !Forgets(es, k, oid, fix)
    ensures Taken(es, p, b, oid, fix)
    decreases b
  {
    if a < b {
      StampLasts(es, p, a, b - 1, oid, fix);
      assert Stamped(es, b - 1, oid, fix) && !Forgets(es, b - 1, oid, fix);
      TakenStep(es, p, b, oid, fix);
    }
  }

  /** While an amend's price is expected, a stamp left over from before it rules out a new one. */
  lemma OldStampBlocks(es: Trace, i: nat, n: nat, oid: int, fix: Fix)
    requires n <= |es| && Expecting(es, i, n, oid, fix) && Stamped(es, i, oid, fix) && !fix.KeepAndClear?
    ensures Stamped(es, n, oid, fix)
  {
    var p: nat :| Taken(es, p, i, oid, fix);
    TakenStep(es, p, i + 1, oid, fix);
    StampLasts(es, p, i + 1, n, oid, fix);
  }

  /** The first confirmation of an expected price leaves a stamp, its own or an older one. */
  lemma ConfirmationStamps(es: Trace, i: nat, k: nat, n: nat, oid: int, fix: Fix)
    requires i < k < n <= |es| && Expecting(es, i, n, oid, fix) && ConfirmAt(es, k, oid, es[i].ev.amend.value)
    ensures Stamped(es, n, oid, fix)
  {
    assert Expecting(es, i, k, oid, fix);
    assert Confirming(es, k, oid, fix);
    if p: nat :| Taken(es, p, k, oid, fix) {
      TakenStep(es, p, k + 1, oid, fix);
      StampLasts(es, p, k + 1, n, oid, fix);
    } else {
      TakenStep(es, k, k + 1, oid, fix);
      StampLasts(es, k, k + 1, n, oid, fix);
    }
  }

  lemma {:induction false} LastAmend(es: Trace, i: nat, n: nat, oid: int) returns (l: nat)
    requires i < n <= |es| && AmendAt(es, i, oid)
    ensures i <= l < n && AmendAt(es, l, oid) && forall k :: l < k < n ==> !AmendAt(es, k, oid)
    decreases n
  {
    if AmendAt(es, n - 1, oid) {
      l := n - 1;
    } else {
      l := LastAmend(es, i, n - 1, oid);
    }
  }

  /**
   Whose sample a drain returns, in every run of the code and of both repairs. The stamp was taken at an
   OpenOrder `p` at the price of the amend `i` last installed before it. It belongs to the amend `l` last
   installed before the drain - it is that amend's first matching OpenOrder - if and only if no stamp was left
   over when `l` was installed, or the code clears one there. Otherwise it is older than the amend it is
   counted for.
   */
  lemma StrictPairing(es: Trace, q: nat, oid: int, fix: Fix) returns (i: nat, p: nat, l: nat)
    requires Valid(es, fix) && ClockMonotone(es) && DrainAt(es, q, oid) && Drained(es, q, fix).Some?
    ensures i < p < q && AmendAt(es, i, oid) && ConfirmAt(es, p, oid, es[i].ev.amend.value)
    ensures forall k :: i < k < p ==> !AmendAt(es, k, oid)
    ensures Drained(es, q, fix) == Some(es[p].now)
    ensures i <= l < q && AmendAt(es, l, oid) && forall k :: l < k < q ==> !AmendAt(es, k, oid)
    ensures i == l <==> fix.KeepAndClear? || !Stamped(es, l, oid, fix)
    ensures i == l ==> forall k :: l < k < p ==> !ConfirmAt(es, k, oid, es[l].ev.amend.value)
    ensures i < l ==> p < l && es[p].now <= es[l].now
  {
    p, i := StampWitness(es, q, oid, fix);
    l := LastAmend(es, i, q, oid);
    StampOrigin(es, l, p, q, oid, fix);
    if l < p {
      OwnStampMeans(es, l, p, oid, fix);
    }
  }

  lemma StampWitness(es: Trace, q: nat, oid: int, fix: Fix) returns (p: nat, i: nat)
    requires Valid(es, fix) && DrainAt(es, q, oid) && Drained(es, q, fix).Some?
    ensures Taken(es, p, q, oid, fix) && Drained(es, q, fix) == Some(es[p].now)
    ensures Expecting(es, i, p, oid, fix) && ConfirmAt(es, p, oid, es[i].ev.amend.value)
    ensures forall k :: i < k < p ==> !AmendAt(es, k, oid)
    ensures Taken(es, p, p + 1, oid, fix)
  {
    StrictExact(es, q, oid, fix);
    assert Stamped(es, q, oid, fix);
    p :| Taken(es, p, q, oid, fix);
    assert Confirming(es, p, oid, fix);
    i :| Expecting(es, i, p, oid, fix) && ConfirmAt(es, p, oid, es[i].ev.amend.value);
    forall k | i < k < p ensures !AmendAt(es, k, oid) {
      assert !Forgets(es, k, oid, fix);
    }
  }

  /** A stamp present after an amend is the amend's own confirmation or was there when it was installed. */
  lemma StampOrigin(es: Trace, i: nat, p: nat, n: nat, oid: int, fix: Fix)
    requires i < n <= |es| && AmendAt(es, i, oid) && Taken(es, p, n, oid, fix)
    requires forall k: nat :: i < k < n ==> !AmendAt(es, k, oid)
    ensures p != i
    ensures p < i ==> !fix.KeepAndClear? && Stamped(es, i, oid, fix)
    ensures p > i ==> Expecting(es, i, p, oid, fix) && ConfirmAt(es, p, oid, es[i].ev.amend.value)
  {
    assert Confirming(es, p, oid, fix);
    var j: nat :| Expecting(es, j, p, oid, fix) && ConfirmAt(es, p, oid, es[j].ev.amend.value);
    if p < i {
      assert !ClearsStamp(es, i, oid, fix);
      assert Taken(es, p, i, oid, fix);
    } else if j < i && i < p {
      assert Forgets(es, i, oid, fix);
    }
  }

  lemma OwnStampMeans(es: Trace, l: nat, p: nat, oid: int, fix: Fix)
    requires p < |es| && Expecting(es, l, p, oid, fix) && !Stamped(es, p, oid, fix)
    ensures fix.KeepAndClear? || !Stamped(es, l, oid, fix)
    ensures forall k :: l < k < p ==> !ConfirmAt(es, k, oid, es[l].ev.amend.value)
  {
    if Stamped(es, l, oid, fix) && !fix.KeepAndClear? {
      OldStampBlocks(es, l, p, oid, fix);
    }
    forall k | l < k < p ensures !ConfirmAt(es, k, oid, es[l].ev.amend.value) {
      if ConfirmAt(es, k, oid, es[l].ev.amend.value) {
        ConfirmationStamps(es, l, k, p, oid, fix);
      }
    }
  }

  // ---- which amends yield one --------------------------------------------------

  /** Until its first matching OpenOrder an amend that starts without a stamp has none. */
  lemma NoStampYet(es: Trace, i: nat, n: nat, oid: int, fix: Fix)
    requires i < n <= |es| && AmendAt(es, i, oid) && (fix.KeepAndClear? || !Stamped(es, i, oid, fix))
    requires forall k: nat :: i < k < n ==> !AmendAt(es, k, oid) && !ConfirmAt(es, k, oid, es[i].ev.amend.value)
    ensures !Stamped(es, n, oid, fix)
  {
    if p: nat :| Taken(es, p, n, oid, fix) {
      StampOrigin(es, i, p, n, oid, fix);
    }
  }

  /**
   Exactly which amends yield a sample. Take an amend at `i`, its first matching OpenOrder at `p`, and the first
   drain after that at `q`, with no other amend or timeout of the id on the way. The drain returns this
   confirmation if and only if no older stamp was left over at the amend (or the code clears it), and no drain
   came between the amend and its confirmation (or the code keeps the price). So the code with both repairs
   yields every such sample, and neither half alone does.
   */
  lemma StrictSampleExact(es: Trace, i: nat, p: nat, q: nat, oid: int, fix: Fix)
    requires Valid(es, fix) && i < p < q && AmendAt(es, i, oid) && DrainAt(es, q, oid)
    requires ConfirmAt(es, p, oid, es[i].ev.amend.value)
    requires forall k: nat :: i < k < p ==> !ConfirmAt(es, k, oid, es[i].ev.amend.value)
    requires forall k: nat :: i < k < q ==> !AmendAt(es, k, oid) && !TimeoutAt(es, k, oid)
    requires forall k: nat :: p < k < q ==> !DrainAt(es, k, oid)
    ensures Taken(es, p, q, oid, fix) <==>
            && (fix.KeepAndClear? || !Stamped(es, i, oid, fix))
            && (fix.AsWritten? ==> forall k: nat :: i < k < p ==> !DrainAt(es, k, oid))
    ensures Taken(es, p, q, oid, fix) ==> Drained(es, q, fix) == Some(es[p].now)
  {
    StrictExact(es, q, oid, fix);
    if Taken(es, p, q, oid, fix) {
      TakenNeeds(es, i, p, q, oid, fix);
    }
    if (fix.KeepAndClear? || !Stamped(es, i, oid, fix)) && (fix.AsWritten? ==> forall k: nat :: i < k < p ==> !DrainAt(es, k, oid)) {
      forall k: nat | i < k < p ensures !Forgets(es, k, oid, fix) {
        NoStampYet(es, i, k, oid, fix);
      }
      assert Expecting(es, i, p, oid, fix);
      NoStampYet(es, i, p, oid, fix);
    }
  }

  lemma TakenNeeds(es: Trace, i: nat, p: nat, q: nat, oid: int, fix: Fix)
    requires i < p < q <= |es| && AmendAt(es, i, oid) && Taken(es, p, q, oid, fix)
    requires forall k: nat :: i < k < q ==> !AmendAt(es, k, oid)
    ensures fix.KeepAndClear? || !Stamped(es, i, oid, fix)
    ensures fix.AsWritten? ==> forall k: nat :: i < k < p ==> !DrainAt(es, k, oid)
  {
    StampOrigin(es, i, p, q, oid, fix);
    OwnStampMeans(es, i, p, oid, fix);
    forall k: nat | fix.AsWritten? && i < k < p ensures !DrainAt(es, k, oid) {
      assert !Forgets(es, k, oid, fix);
    }
  }

  // ---- after a drain -----------------------------------------------------------

  /** Without an expected price there is no stamp to come. */
  lemma {:induction false} NothingExpected(es: Trace, a: nat, b: nat, fix: Fix, oid: int)
    requires a <= b <= |es|
    requires SlotAt(es, a, oid, fix).expected.None? && SlotAt(es, a, oid, fix).strict.None?
    requires forall q :: a <= q < b ==> !AmendAt(es, q, oid)
    ensures SlotAt(es, b, oid, fix).expected.None? && SlotAt(es, b, oid, fix).strict.None?
    decreases b
  {
    if a < b {
      NothingExpected(es, a, b - 1, fix, oid);
      assert !AmendAt(es, b - 1, oid);
    }
  }

  /**
   As written, once a drain for an order id has returned, no later drain returns a timestamp until another
   amend of that id is installed: the deferred poll after a modify can never see its own late OpenOrder.
   */
  lemma DeferredPollIsBlind(es: Trace, d: nat, q: nat, oid: int)
    requires Valid(es, AsWritten) && d < q && DrainAt(es, d, oid) && DrainAt(es, q, oid)
    requires forall k :: d < k < q ==> !AmendAt(es, k, oid)
    ensures Drained(es, q, AsWritten) == None
  {
    NothingExpected(es, d + 1, q, AsWritten, oid);
  }

  /** In the repaired code too, a sample is delivered once: the drains after it come back empty. */
  lemma StrictSampleOnce(es: Trace, q: nat, r: nat, fix: Fix, oid: int)
    requires Valid(es, fix) && q < r && DrainAt(es, q, oid) && DrainAt(es, r, oid)
    requires Drained(es, q, fix).Some?
    requires forall k :: q < k < r ==> !AmendAt(es, k, oid)
    ensures Drained(es, r, fix) == None
  {
    NothingExpected(es, q + 1, r, fix, oid);
  }
}
