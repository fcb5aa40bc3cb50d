/**
 What a reconcile (runtime.rs) achieves for the positions actually held, leg by leg, against the Position messages
 the broker sent.
 */
module Convergence {
  import opened Options
  import opened Inbound
  import opened Reconcile

  // ---- the book and its fingerprint -------------------------------------------

  /** The quantities held on one leg, one for each position on it. */
  function QuantitiesOn(round: Rounding, hs: seq<Held>, k: LegKey): (qs: seq<int>)
  {
    if hs == [] then []
    else
      var init, q := QuantitiesOn(round, hs[..|hs| - 1], k), hs[|hs| - 1];
      if KeyOf(round, q) == k then init + [q.quantity] else init
  }

  predicate DistinctLegs(round: Rounding, hs: seq<Held>)
  {
    forall i, j :: 0 <= i < j < |hs| ==> KeyOf(round, hs[i]) != KeyOf(round, hs[j])
  }

  /** The code's quantity map shows the last position on each leg, and hides the others. */
  lemma {:induction false} FingerprintIsLast(round: Rounding, hs: seq<Held>, k: LegKey)
    ensures var qs := QuantitiesOn(round, hs, k);
            Get(Quantities(round, hs), k) == if qs == [] then None else Some(qs[|qs| - 1])
  {
    if hs != [] {
      FingerprintIsLast(round, hs[..|hs| - 1], k);
    }
  }

  lemma {:induction false} HeldOn(round: Rounding, hs: seq<Held>, k: LegKey)
    ensures QuantitiesOn(round, hs, k) == [] <==> forall i :: 0 <= i < |hs| ==> KeyOf(round, hs[i]) != k
  {
    if hs != [] {
      var n := |hs| - 1;
      HeldOn(round, hs[..n], k);
      assert forall i :: 0 <= i < n ==> hs[..n][i] == hs[i];
    }
  }

  lemma {:induction false} OnePerLeg(round: Rounding, hs: seq<Held>, k: LegKey)
    requires DistinctLegs(round, hs)
    ensures |QuantitiesOn(round, hs, k)| <= 1
  {
    if hs != [] {
      OnePerLeg(round, hs[..|hs| - 1], k);
      HeldOn(round, hs[..|hs| - 1], k);
    }
  }

  lemma {:induction false} TwoOnLeg(round: Rounding, hs: seq<Held>, i: nat, j: nat)
    requires i < j < |hs| && KeyOf(round, hs[i]) == KeyOf(round, hs[j])
    ensures |QuantitiesOn(round, hs, KeyOf(round, hs[i]))| >= 2
  {
    var n := |hs| - 1;
    if j < n {
      TwoOnLeg(round, hs[..n], i, j);
    } else {
      HeldOn(round, hs[..n], KeyOf(round, hs[i]));
      assert hs[..n][i] == hs[i];
    }
  }

  /** What a quantity map says is held on a leg. */
  function Listed(m: map<LegKey, int>, k: LegKey): (qs: seq<int>)
  {
    if k in m then [m[k]] else []
  }

  ghost predicate AsListed(round: Rounding, hs: seq<Held>)
  {
    forall k :: QuantitiesOn(round, hs, k) == Listed(Quantities(round, hs), k)
  }

  /** A book holds what its fingerprint says if and only if no leg is held twice. */
  lemma FingerprintExact(round: Rounding, hs: seq<Held>)
    ensures AsListed(round, hs) <==> DistinctLegs(round, hs)
  {
    if DistinctLegs(round, hs) {
      forall k ensures QuantitiesOn(round, hs, k) == Listed(Quantities(round, hs), k) {
        OnePerLeg(round, hs, k);
        FingerprintIsLast(round, hs, k);
      }
    } else {
      var i, j :| 0 <= i < j < |hs| && KeyOf(round, hs[i]) == KeyOf(round, hs[j]);
      TwoOnLeg(round, hs, i, j);
      assert |Listed(Quantities(round, hs), KeyOf(round, hs[i]))| <= 1;
    }
  }

  // ---- convergence to the reports --------------------------------------------

  /** `order` lists the ids of the cache, each once, and `ps` their positions, in whatever order the map is walked. */
  ghost predicate Lists(cache: map<PositionId, BrokerPosition>, order: seq<PositionId>, ps: seq<BrokerPosition>)
  {
    && |order| == |ps|
    && (forall i :: 0 <= i < |order| ==> order[i] in cache && ps[i] == cache[order[i]])
    && (forall i, j :: 0 <= i < j < |order| ==> order[i] != order[j])
    && (forall id :: id in cache ==> id in order)
  }

  /** The leg of a reported contract, if it is one the local book keeps. */
  function LegOf(h: Host, round: Rounding, registered: seq<string>, m: InboundMsg): (k: Option<LegKey>)
    requires m.Position?
  {
    match NativeToPosition(h, m)
    case None => None
    case Some(p) => match ToHeld(registered, p) case None => None case Some(q) => Some(KeyOf(round, q))
  }

  /** One account, contracts that convert and keep their description, whole quantities, no two contracts on one leg. */
  ghost predicate CleanReports(h: Host, round: Rounding, registered: seq<string>, account: string, ms: seq<InboundMsg>)
  {
    && (forall m :: m in ms && m.Position? ==>
         && m.account == account && NativeToContract(h, m.contract).Some?
         && m.position.Fin? && m.position.r == AsI32(m.position) as real)
    && (forall m, n :: m in ms && n in ms && m.Position? && n.Position?
         && LegOf(h, round, registered, m).Some? && LegOf(h, round, registered, m) == LegOf(h, round, registered, n)
         ==> m.contract.conId == n.contract.conId)
    && (forall m, n :: m in ms && n in ms && m.Position? && n.Position? && m.contract.conId == n.contract.conId
         ==> m.contract == n.contract)
  }

  /** The quantity map of the inserted book is the map of the legs themselves. */
  lemma {:induction false} InsertedQuantity(round: Rounding, registered: seq<string>, ps: seq<BrokerPosition>, i: nat)
    requires i < |ps| && ToHeld(registered, ps[i]).Some?
    requires forall j :: 0 <= j < |ps| && ToHeld(registered, ps[j]).Some?
               && KeyOf(round, ToHeld(registered, ps[j]).value) == KeyOf(round, ToHeld(registered, ps[i]).value)
               ==> ps[j].quantity == ps[i].quantity
    ensures Get(Quantities(round, ToInsert(registered, ps)), KeyOf(round, ToHeld(registered, ps[i]).value))
            == Some(ps[i].quantity)
  {
    var n := |ps| - 1;
    SnocQuantities(round, registered, ps);
    if i < n {
      InsertedQuantity(round, registered, ps[..n], i);
    }
  }

  lemma SnocQuantities(round: Rounding, registered: seq<string>, ps: seq<BrokerPosition>)
    requires ps != []
    ensures var init, q := ToInsert(registered, ps[..|ps| - 1]), ToHeld(registered, ps[|ps| - 1]);
            Quantities(round, ToInsert(registered, ps)) ==
            if q.None? then Quantities(round, init) else Quantities(round, init)[KeyOf(round, q.value) := q.value.quantity]
  {
    var init, q := ToInsert(registered, ps[..|ps| - 1]), ToHeld(registered, ps[|ps| - 1]);
    if q.Some? {
      assert (init + [q.value])[..|init|] == init;
    }
  }

  lemma {:induction false} InsertedFrom(round: Rounding, registered: seq<string>, ps: seq<BrokerPosition>, k: LegKey) returns (i: nat)
    requires k in Quantities(round, ToInsert(registered, ps))
    ensures i < |ps| && ToHeld(registered, ps[i]).Some? && KeyOf(round, ToHeld(registered, ps[i]).value) == k
  {
    var n := |ps| - 1;
    SnocQuantities(round, registered, ps);
    var q := ToHeld(registered, ps[n]);
    if q.Some? && KeyOf(round, q.value) == k {
      i := n;
    } else {
      i := InsertedFrom(round, registered, ps[..n], k);
    }
  }

  /** The fingerprint after a reconcile has, for every reported leg, the last reported quantity, or nothing if it is zero. */
  lemma {:induction false} FingerprintConverges(h: Host, round: Rounding, registered: seq<string>, account: string, ms: seq<InboundMsg>,
                             order: seq<PositionId>, ps: seq<BrokerPosition>, local: seq<Held>, m: InboundMsg)
    requires CleanReports(h, round, registered, account, ms) && Lists(PositionsOf(h, ms), order, ps)
    requires m in ms && m.Position? && LegOf(h, round, registered, m).Some?
    ensures LastReport(ms, (account, m.contract.conId)).Some?
    ensures var reported := AsI32(LastReport(ms, (account, m.contract.conId)).value.position);
            Get(Quantities(round, Reconciled(round, registered, local, ps).0), LegOf(h, round, registered, m).value)
            == if reported == 0 then None else Some(reported)
  {
    var id := (account, m.contract.conId);
    Reported(ms, m);
    SecondReconcileIsQuiet(round, registered, local, ps);
    var last, k := LastReport(ms, id).value, LegOf(h, round, registered, m).value;
    assert last.contract == m.contract && LegOf(h, round, registered, last) == Some(k);
    CacheIsLastReports(h, ms, id);
    OneLegOneContract(h, round, registered, account, ms, order, ps, k, id);
    if AsI32(last.position) != 0 {
      var i :| 0 <= i < |order| && order[i] == id;
      InsertedQuantity(round, registered, ps, i);
    } else if k in Quantities(round, ToInsert(registered, ps)) {
      var i := InsertedFrom(round, registered, ps, k);
      assert false;
    }
  }

  /** Nothing else is in the book: every leg held after a reconcile is one whose last report is not zero. */
  lemma {:induction false} NothingElseIsHeld(h: Host, round: Rounding, registered: seq<string>, account: string, ms: seq<InboundMsg>,
                          order: seq<PositionId>, ps: seq<BrokerPosition>, local: seq<Held>, k: LegKey)
    requires CleanReports(h, round, registered, account, ms) && Lists(PositionsOf(h, ms), order, ps)
    ensures QuantitiesOn(round, Reconciled(round, registered, local, ps).0, k) != [] ==>
              exists m :: (m in ms && m.Position? && LegOf(h, round, registered, m) == Some(k)
                           && LastReport(ms, (account, m.contract.conId)) == Some(m) && AsI32(m.position) != 0)
  {
    FingerprintIsLast(round, Reconciled(round, registered, local, ps).0, k);
    SecondReconcileIsQuiet(round, registered, local, ps);
    if k in Quantities(round, ToInsert(registered, ps)) {
      var i := InsertedFrom(round, registered, ps, k);
      CacheIsLastReports(h, ms, order[i]);
      var m := LastReport(ms, order[i]).value;
      assert LegOf(h, round, registered, m) == Some(k);
    }
  }

  lemma {:induction false} Reported(ms: seq<InboundMsg>, m: InboundMsg)
    requires m in ms && m.Position?
    ensures LastReport(ms, (m.account, m.contract.conId)).Some?
  {
    if m != ms[|ms| - 1] {
      assert ms == ms[..|ms| - 1] + [ms[|ms| - 1]];
      Reported(ms[..|ms| - 1], m);
    }
  }

  /** Every listed position on the leg `k` is the one contract that was ever reported on it. */
  lemma OneLegOneContract(h: Host, round: Rounding, registered: seq<string>, account: string, ms: seq<InboundMsg>,
                          order: seq<PositionId>, ps: seq<BrokerPosition>, k: LegKey, id: PositionId)
    requires CleanReports(h, round, registered, account, ms) && Lists(PositionsOf(h, ms), order, ps)
    requires id.0 == account && exists m :: m in ms && m.Position? && m.contract.conId == id.1 && LegOf(h, round, registered, m) == Some(k)
    ensures forall j :: 0 <= j < |ps| && ToHeld(registered, ps[j]).Some? && KeyOf(round, ToHeld(registered, ps[j]).value) == k
              ==> order[j] == id
  {
    forall j | 0 <= j < |ps| && ToHeld(registered, ps[j]).Some? && KeyOf(round, ToHeld(registered, ps[j]).value) == k
      ensures order[j] == id
    {
      CacheIsLastReports(h, ms, order[j]);
      var n := LastReport(ms, order[j]).value;
      assert LegOf(h, round, registered, n) == Some(k);
    }
  }

  // ---- what is held afterwards -------------------------------------------------

  lemma {:induction false} InsertedElement(registered: seq<string>, ps: seq<BrokerPosition>, n: nat) returns (i: nat)
    requires n < |ToInsert(registered, ps)|
    ensures i < |ps| && ToHeld(registered, ps[i]) == Some(ToInsert(registered, ps)[n])
  {
    var last := |ps| - 1;
    if n < |ToInsert(registered, ps[..last])| {
      i := InsertedElement(registered, ps[..last], n);
    } else {
      i := last;
    }
  }

  /** Two reported positions on one leg. */
  predicate Collide(round: Rounding, registered: seq<string>, p: BrokerPosition, q: BrokerPosition)
  {
    var a, b := ToHeld(registered, p), ToHeld(registered, q);
    a.Some? && b.Some? && KeyOf(round, a.value) == KeyOf(round, b.value)
  }

  lemma {:induction false} InsertedDistinct(round: Rounding, registered: seq<string>, ps: seq<BrokerPosition>)
    requires forall i, j :: 0 <= i < j < |ps| ==> !Collide(round, registered, ps[i], ps[j])
    ensures DistinctLegs(round, ToInsert(registered, ps))
  {
    if ps != [] {
      var last := |ps| - 1;
      var init := ToInsert(registered, ps[..last]);
      InsertedDistinct(round, registered, ps[..last]);
      forall n | 0 <= n < |init| && ToHeld(registered, ps[last]).Some?
        ensures KeyOf(round, init[n]) != KeyOf(round, ToHeld(registered, ps[last]).value)
      {
        var i := InsertedElement(registered, ps[..last], n);
        assert !Collide(round, registered, ps[i], ps[last]);
      }
    }
  }

  lemma OneLegOneId(h: Host, round: Rounding, registered: seq<string>, account: string, ms: seq<InboundMsg>,
                    order: seq<PositionId>, ps: seq<BrokerPosition>, i: nat, j: nat)
    requires CleanReports(h, round, registered, account, ms) && Lists(PositionsOf(h, ms), order, ps)
    requires i < |ps| && j < |ps| && Collide(round, registered, ps[i], ps[j])
    ensures order[i] == order[j]
  {
    CacheIsLastReports(h, ms, order[i]);
    CacheIsLastReports(h, ms, order[j]);
    var m, n := LastReport(ms, order[i]).value, LastReport(ms, order[j]).value;
    assert LegOf(h, round, registered, m).Some? && LegOf(h, round, registered, m) == LegOf(h, round, registered, n);
  }

  lemma ReportsDistinct(h: Host, round: Rounding, registered: seq<string>, account: string, ms: seq<InboundMsg>,
                        order: seq<PositionId>, ps: seq<BrokerPosition>)
    requires CleanReports(h, round, registered, account, ms) && Lists(PositionsOf(h, ms), order, ps)
    ensures DistinctLegs(round, ToInsert(registered, ps))
  {
    forall i, j | 0 <= i < j < |ps| ensures !Collide(round, registered, ps[i], ps[j]) {
      if Collide(round, registered, ps[i], ps[j]) {
        OneLegOneId(h, round, registered, account, ms, order, ps, i, j);
      }
    }
    InsertedDistinct(round, registered, ps);
  }

  /** The one quantity a reported contract should be held at, or none. */
  function Due(ms: seq<InboundMsg>, account: string, m: InboundMsg): (qs: seq<int>)
    requires m.Position?
  {
    match LastReport(ms, (account, m.contract.conId))
    case None => []
    case Some(last) => if AsI32(last.position) == 0 then [] else [AsI32(last.position)]
  }

  /** The leg is held exactly once at its last reported quantity, and not at all if that is zero or it was never reported. */
  ghost predicate AsReported(h: Host, round: Rounding, registered: seq<string>, account: string, ms: seq<InboundMsg>,
                             hs: seq<Held>, k: LegKey)
  {
    && (forall m :: m in ms && m.Position? && LegOf(h, round, registered, m) == Some(k) ==>
         QuantitiesOn(round, hs, k) == Due(ms, account, m))
    && ((forall m :: m in ms && m.Position? ==> LegOf(h, round, registered, m) != Some(k)) ==> QuantitiesOn(round, hs, k) == [])
  }

  lemma AsReportedMeans(h: Host, round: Rounding, registered: seq<string>, account: string, ms: seq<InboundMsg>,
                        order: seq<PositionId>, ps: seq<BrokerPosition>, local: seq<Held>, k: LegKey)
    requires CleanReports(h, round, registered, account, ms) && Lists(PositionsOf(h, ms), order, ps)
    ensures var book := Reconciled(round, registered, local, ps).0;
            AsReported(h, round, registered, account, ms, book, k) <==>
            QuantitiesOn(round, book, k) == Listed(Quantities(round, book), k)
  {
    var book := Reconciled(round, registered, local, ps).0;
    FingerprintIsLast(round, book, k);
    forall m | m in ms && m.Position? && LegOf(h, round, registered, m) == Some(k)
      ensures Due(ms, account, m) == Listed(Quantities(round, book), k)
    {
      FingerprintConverges(h, round, registered, account, ms, order, ps, local, m);
    }
    NothingElseIsHeld(h, round, registered, account, ms, order, ps, local, k);
  }

  lemma AllAsReported(h: Host, round: Rounding, registered: seq<string>, account: string, ms: seq<InboundMsg>,
                      order: seq<PositionId>, ps: seq<BrokerPosition>, local: seq<Held>)
    requires CleanReports(h, round, registered, account, ms) && Lists(PositionsOf(h, ms), order, ps)
    ensures var book := Reconciled(round, registered, local, ps).0;
            (forall k :: AsReported(h, round, registered, account, ms, book, k)) <==> AsListed(round, book)
  {
    var book := Reconciled(round, registered, local, ps).0;
    forall k ensures AsReported(h, round, registered, account, ms, book, k) <==>
                     QuantitiesOn(round, book, k) == Listed(Quantities(round, book), k)
    {
      AsReportedMeans(h, round, registered, account, ms, order, ps, local, k);
    }
  }

  /**
   Convergence of the positions held. After any Position messages and any local drift, one reconcile leaves every
   leg held exactly once at its last reported quantity, and nothing else, if and only if the two fingerprints
   differed or no leg was held twice before. In the remaining case the code takes the doubled book for the
   reported one and leaves it.
   */
  lemma {:induction false} ConvergesToReports(h: Host, round: Rounding, registered: seq<string>, account: string, ms: seq<InboundMsg>,
                           order: seq<PositionId>, ps: seq<BrokerPosition>, local: seq<Held>)
    requires CleanReports(h, round, registered, account, ms) && Lists(PositionsOf(h, ms), order, ps)
    ensures (forall k :: AsReported(h, round, registered, account, ms, Reconciled(round, registered, local, ps).0, k)) <==>
            Quantities(round, local) != Quantities(round, ToInsert(registered, ps)) || DistinctLegs(round, local)
  {
    var book := Reconciled(round, registered, local, ps).0;
    AllAsReported(h, round, registered, account, ms, order, ps, local);
    FingerprintExact(round, book);
    ReportsDistinct(h, round, registered, account, ms, order, ps);
    assert book == local || book == ToInsert(registered, ps);
  }

  // ---- where it goes wrong -------------------------------------------------------

  const LEG: ContractDecoded := ContractDecoded(1, "HG", "FOP", "20260527", Fin(6.0), "C", "25000")

  function Report(quantity: real): (m: InboundMsg)
  {
    InboundMsg.Position("A", LEG, Fin(quantity), Fin(0.0))
  }

  function LegHeld(h: Host, quantity: int): (q: Held)
  {
    Held("HG", 6.0, h.parseDate("20260527"), Call, quantity, h.parseMultiplier("25000"))
  }

  /** One report of the leg, through the cache to the positions the reconcile is given. */
  lemma OneReport(h: Host, quantity: real) returns (p: BrokerPosition)
    requires h.parseMultiplier("25000") > 0.0 && quantity != 0.0
    ensures PositionsOf(h, [Report(quantity)]) == map[("A", 1) := p]
    ensures ToInsert(["HG"], [p]) == [LegHeld(h, AsI32(Fin(quantity)))]
  {
    var ms := [Report(quantity)];
    p := NativeToPosition(h, ms[0]).value;
    assert ms[..0] == [];
    assert PositionsOf(h, ms[..0]) == map[];
    assert [p][..0] == [];
    assert ToInsert(["HG"], [p][..0]) == [];
    assert "HG" in ["HG"];
  }

  lemma OneHeld(round: Rounding, q: Held)
    ensures Quantities(round, [q]) == map[KeyOf(round, q) := q.quantity]
    ensures QuantitiesOn(round, [q], KeyOf(round, q)) == [q.quantity]
  {
    assert [q][..0] == [];
    assert Quantities(round, []) == map[] && QuantitiesOn(round, [], KeyOf(round, q)) == [];
  }

  /** The failing family: a leg held twice, the second time at the quantity reported. */
  lemma DoubledLegStays(round: Rounding, registered: seq<string>, ps: seq<BrokerPosition>, a: Held, b: Held)
    requires KeyOf(round, a) == KeyOf(round, b) && ToInsert(registered, ps) == [b]
    ensures Reconciled(round, registered, [a, b], ps) == ([a, b], 0)
    ensures QuantitiesOn(round, [a, b], KeyOf(round, a)) == [a.quantity, b.quantity]
  {
    OneHeld(round, a);
    OneHeld(round, b);
    assert [a, b][..1] == [a];
    assert Quantities(round, [a, b]) == Quantities(round, [a])[KeyOf(round, b) := b.quantity];
  }

  /** The leg is held twice, 5 and then 3; the broker reports 3; the reconcile finds nothing to do and 8 stay held. */
  lemma DoubledLegSurvives(h: Host, round: Rounding)
    requires h.parseMultiplier("25000") > 0.0
    ensures exists p :: (PositionsOf(h, [Report(3.0)]) == map[("A", 1) := p]
              && Reconciled(round, ["HG"], [LegHeld(h, 5), LegHeld(h, 3)], [p]) == ([LegHeld(h, 5), LegHeld(h, 3)], 0))
    ensures QuantitiesOn(round, [LegHeld(h, 5), LegHeld(h, 3)], KeyOf(round, LegHeld(h, 5))) == [5, 3]
  {
    var p := OneReport(h, 3.0);
    DoubledLegStays(round, ["HG"], [p], LegHeld(h, 5), LegHeld(h, 3));
  }

  /** A zero leg newly reported to an empty book goes in and is not counted. */
  lemma ZeroLegGoesIn(round: Rounding, registered: seq<string>, ps: seq<BrokerPosition>, a: Held)
    requires ToInsert(registered, ps) == [a] && a.quantity == 0
    ensures Reconciled(round, registered, [], ps) == ([a], 0)
  {
    OneHeld(round, a);
    var after := Quantities(round, [a]);
    assert KeyOf(round, a) in after && KeyOf(round, a) !in Quantities(round, []);
    forall k ensures !Differs(map[], after, k) && k !in Gone(map[], after) {
    }
    Nobody(Drifted(map[], after));
  }

  lemma Nobody(ks: set<LegKey>)
    requires forall k :: k !in ks
    ensures |ks| == 0
  {
    assert ks == {};
  }

  /** Half a contract is reported: the reconcile puts a leg of quantity zero into the book and counts no change. */
  lemma ZeroLegIsNotCounted(h: Host, round: Rounding)
    requires h.parseMultiplier("25000") > 0.0
    ensures exists p :: (PositionsOf(h, [Report(0.5)]) == map[("A", 1) := p]
              && Reconciled(round, ["HG"], [], [p]) == ([LegHeld(h, 0)], 0))
  {
    var p := OneReport(h, 0.5);
    ZeroLegGoesIn(round, ["HG"], [p], LegHeld(h, 0));
  }
}
