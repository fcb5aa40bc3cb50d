/**
 The broker's position cache (broker.rs) and the reconcile that makes the local option book equal to it
 (runtime.rs).
 */
module Reconcile {
  import opened Options
  import opened Sets
  import opened Inbound

  // ---- the position cache ----------------------------------------------------

  datatype BrokerPosition = BrokerPosition(contract: Contract, quantity: int, avgCost: F64)

  /** Account and contract id. */
  type PositionId = (string, int)

  function NativeToPosition(h: Host, m: InboundMsg): (r: Option<BrokerPosition>)
    requires m.Position?
    ensures r.Some? ==> r.value.quantity == AsI32(m.position)
  {
    match NativeToContract(h, m.contract)
    case None => None
    case Some(c) => Some(BrokerPosition(c, AsI32(m.position), m.avgCost))
  }

  /** A zero closes the entry; a position whose contract does not convert leaves the cache as it was. */
  function PositionStep(h: Host, ps: map<PositionId, BrokerPosition>, m: InboundMsg): (ps': map<PositionId, BrokerPosition>)
  {
    if !m.Position? then ps
    else
      var id := (m.account, m.contract.conId);
      if m.position == Fin(0.0) then ps - {id}
      else match NativeToPosition(h, m) case None => ps case Some(p) => ps[id := p]
  }

  function PositionsOf(h: Host, ms: seq<InboundMsg>): (ps: map<PositionId, BrokerPosition>)
  {
    if ms == [] then map[] else PositionStep(h, PositionsOf(h, ms[..|ms| - 1]), ms[|ms| - 1])
  }

  /** The last Position message about one account and contract. */
  function LastReport(ms: seq<InboundMsg>, id: PositionId): (r: Option<InboundMsg>)
    ensures r.Some? ==> r.value in ms && r.value.Position? && (r.value.account, r.value.contract.conId) == id
  {
    if ms == [] then None
    else
      var m := ms[|ms| - 1];
      if m.Position? && (m.account, m.contract.conId) == id then Some(m) else LastReport(ms[..|ms| - 1], id)
  }

  /** The cache is exactly the last reports, minus the closed positions. */
  lemma {:induction false} CacheIsLastReports(h: Host, ms: seq<InboundMsg>, id: PositionId)
    requires forall m :: m in ms && m.Position? ==> NativeToContract(h, m.contract).Some?
    ensures Get(PositionsOf(h, ms), id) ==
            match LastReport(ms, id)
            case None => None
            case Some(m) => if m.position == Fin(0.0) then None else NativeToPosition(h, m)
  {
    if ms != [] {
      var init := ms[..|ms| - 1];
      assert forall m :: m in init ==> m in ms;
      CacheIsLastReports(h, init, id);
      assert ms[|ms| - 1] in ms;
    }
  }

  // ---- the local book --------------------------------------------------------

  datatype Held = Held(product: string, strike: real, expiry: Date, right: Right, quantity: int, multiplier: real)

  /** The identity a position is compared under. The strike is rounded by formatting, here any `round`. */
  type LegKey = (string, int, Date, Right)

  type Rounding = real -> int

  function KeyOf(round: Rounding, q: Held): (k: LegKey)
  {
    (q.product, round(q.strike), q.expiry, q.right)
  }

  /** A broker position that is a leg of a registered product, as the local book would hold it. */
  function ToHeld(registered: seq<string>, p: BrokerPosition): (r: Option<Held>)
    ensures r.Some? ==> r.value.quantity == p.quantity && r.value.product == p.contract.symbol
                        && p.contract.strike == Some(r.value.strike) && p.contract.right == Some(r.value.right)
  {
    var c := p.contract;
    if c.symbol !in registered || !c.kind.Option_? || c.right.None? || c.strike.None? || c.multiplier <= 0.0 then None
    else Some(Held(c.symbol, c.strike.value, c.expiry, c.right.value, p.quantity, c.multiplier))
  }

  function ToInsert(registered: seq<string>, ps: seq<BrokerPosition>): (hs: seq<Held>)
  {
    if ps == [] then []
    else
      var init := ToInsert(registered, ps[..|ps| - 1]);
      match ToHeld(registered, ps[|ps| - 1])
      case None => init
      case Some(q) => init + [q]
  }

  /** Quantity by leg; of two positions with one key the later counts. */
  function Quantities(round: Rounding, hs: seq<Held>): (m: map<LegKey, int>)
  {
    if hs == [] then map[]
    else Quantities(round, hs[..|hs| - 1])[KeyOf(round, hs[|hs| - 1]) := hs[|hs| - 1].quantity]
  }

  /** A reported leg whose local quantity is another one; a leg not held locally counts as zero. */
  predicate Differs(before: map<LegKey, int>, after: map<LegKey, int>, k: LegKey)
  {
    k in after && (if k in before then before[k] else 0) != after[k]
  }

  function Different(before: map<LegKey, int>, after: map<LegKey, int>): (ks: set<LegKey>)
    ensures forall k :: k in ks <==> Differs(before, after, k)
  {
    set k | k in after.Keys && Differs(before, after, k)
  }

  function Gone(before: map<LegKey, int>, after: map<LegKey, int>): (ks: set<LegKey>)
    ensures forall k :: k in ks <==> k in before && k !in after
  {
    before.Keys - after.Keys
  }

  /** The legs the log calls drifted: reported with another quantity, or held and no longer reported. */
  function Drifted(before: map<LegKey, int>, after: map<LegKey, int>): (ks: set<LegKey>)
    ensures |ks| == |Different(before, after)| + |Gone(before, after)|
  {
    assert Different(before, after) !! Gone(before, after);
    Different(before, after) + Gone(before, after)
  }

  /** The legs whose entry is not the same before and after. */
  function Changed(before: map<LegKey, int>, after: map<LegKey, int>): (ks: set<LegKey>)
  {
    set k | k in before.Keys + after.Keys && Get(before, k) != Get(after, k)
  }

  /** A map inside a map of the same size is that map. */
  lemma SameSizeSubmap(a: map<LegKey, int>, b: map<LegKey, int>)
    requires |a| == |b| && forall k :: k in a ==> k in b && b[k] == a[k]
    ensures a == b
  {
    if k :| k in b.Keys && k !in a.Keys {
      SubsetSize(a.Keys, b.Keys - {k});
    }
    assert a.Keys == b.Keys;
  }

  class Portfolio {
    var positions: seq<Held>
    const round: Rounding

    constructor (round: Rounding)
      ensures positions == [] && this.round == round
    {
      positions := [];
      this.round := round;
    }

    method QuantityMap(hs: seq<Held>) returns (m: map<LegKey, int>)
      ensures m == Quantities(round, hs)
    {
      m := map[];
      for i := 0 to |hs|
        invariant m == Quantities(round, hs[..i])
      {
        assert hs[..i + 1][..i] == hs[..i];
        m := m[KeyOf(round, hs[i]) := hs[i].quantity];
      }
      assert hs[..|hs|] == hs;
    }

    method Same(before: map<LegKey, int>, after: map<LegKey, int>) returns (same: bool)
      ensures same <==> before == after
    {
      same := |before| == |after|;
      var keys := before.Keys;
      while same && keys != {}
        invariant keys <= before.Keys
        invariant same ==> |before| == |after|
        invariant same ==> forall k :: k in before && k !in keys ==> k in after && after[k] == before[k]
        invariant !same ==> before != after
        decreases keys
      {
        var k :| k in keys;
        keys := keys - {k};
        same := k in after && after[k] == before[k];
      }
      if same {
        SameSizeSubmap(before, after);
      }
    }

    method CountDrift(before: map<LegKey, int>, after: map<LegKey, int>) returns (changes: nat)
      ensures changes == |Drifted(before, after)|
    {
      ghost var seen: set<LegKey> := {};
      changes := 0;
      var left := after.Keys;
      while left != {}
        invariant left <= after.Keys && changes == |seen|
        invariant forall k :: k in seen <==> k !in left && Differs(before, after, k)
        decreases left
      {
        var k :| k in left;
        left := left - {k};
        if Differs(before, after, k) {
          changes, seen := changes + 1, seen + {k};
        }
      }
      assert seen == Different(before, after);
      var gone := CountGone(before, after);
      changes := changes + gone;
    }

    /** The second loop of the audit: local legs the broker no longer reports. */
    method CountGone(before: map<LegKey, int>, after: map<LegKey, int>) returns (gone: nat)
      ensures gone == |Gone(before, after)|
    {
      ghost var seen: set<LegKey> := {};
      gone := 0;
      var left := before.Keys;
      while left != {}
        invariant left <= before.Keys && gone == |seen|
        invariant forall k :: k in seen <==> k in before && k !in left && k !in after
        decreases left
      {
        var k :| k in left;
        left := left - {k};
        if k !in after {
          gone, seen := gone + 1, seen + {k};
        }
      }
      assert seen == Gone(before, after);
    }

    method Reconcile(registered: seq<string>, ps: seq<BrokerPosition>) returns (changes: nat)
      modifies this`positions
      ensures (positions, changes) == Reconciled(round, registered, old(positions), ps)
    {
      var toInsert: seq<Held> := [];
      for i := 0 to |ps|
        invariant toInsert == ToInsert(registered, ps[..i])
      {
        assert ps[..i + 1][..i] == ps[..i];
        var p := ps[i];
        if p.contract.symbol !in registered { continue; }
        if !p.contract.kind.Option_? { continue; }
        if p.contract.right.None? { continue; }
        if p.contract.strike.None? { continue; }
        if p.contract.multiplier <= 0.0 { continue; }
        toInsert := toInsert + [Held(p.contract.symbol, p.contract.strike.value, p.contract.expiry,
                                     p.contract.right.value, p.quantity, p.contract.multiplier)];
      }
      assert ps[..|ps|] == ps;
      var before := QuantityMap(positions);
      var after := QuantityMap(toInsert);
      var same := Same(before, after);
      if same {
        return 0;
      }
      changes := CountDrift(before, after);
      positions := toInsert;
    }
  }

  // ---- what one reconcile achieves -------------------------------------------

  /** The book and the count after a reconcile, as the method leaves them. */
  function Reconciled(round: Rounding, registered: seq<string>, local: seq<Held>, ps: seq<BrokerPosition>): (r: (seq<Held>, nat))
  {
    var before, after := Quantities(round, local), Quantities(round, ToInsert(registered, ps));
    if before == after then (local, 0) else (ToInsert(registered, ps), |Drifted(before, after)|)
  }

  /** The same reconcile again finds nothing to do, whatever the drift was. */
  lemma SecondReconcileIsQuiet(round: Rounding, registered: seq<string>, local: seq<Held>, ps: seq<BrokerPosition>)
    ensures var once := Reconciled(round, registered, local, ps).0;
            && Quantities(round, once) == Quantities(round, ToInsert(registered, ps))
            && Reconciled(round, registered, once, ps) == (once, 0)
  {
  }

  /**
   The returned count is the number of legs whose entry changed, if and only if no leg is newly reported with
   quantity zero (which a truncated fractional position would be).
   */
  lemma {:induction false} CountExact(round: Rounding, registered: seq<string>, local: seq<Held>, ps: seq<BrokerPosition>)
    ensures var before, after := Quantities(round, local), Quantities(round, ToInsert(registered, ps));
            Reconciled(round, registered, local, ps).1 == |Changed(before, after)| <==>
            forall k :: k in after && k !in before ==> after[k] != 0
  {
    var before, after := Quantities(round, local), Quantities(round, ToInsert(registered, ps));
    var drifted, changed := Drifted(before, after), Changed(before, after);
    assert drifted <= changed;
    if before == after {
      assert changed == {};
    } else if k :| k in after && k !in before && after[k] == 0 {
      assert k in changed && k !in drifted;
      SubsetSize(drifted, changed - {k});
    } else {
      assert drifted == changed;
    }
  }
}
