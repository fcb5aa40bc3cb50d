/**
 The vol-surface input and cache (vol_surface.rs): the forward implied by put-call parity, the out-of-the-money
 filter, and the copy-on-write surface cache. Prices are reals; implied volatility and the fit are parameters.
 */
module VolSurface {
  import opened Options
  import opened Inbound

  /** One option's market data. */
  datatype Quote = Quote(strike: real, expiry: int, right: Right, bid: real, ask: real, bidSize: nat, askSize: nat)

  const NEAR_SPOT: real := 0.25
  const PARITY_LIMIT: real := 0.20

  function Abs(x: real): (a: real)
    ensures a >= 0.0 && (a == x || a == -x)
  {
    if x >= 0.0 then x else -x
  }

  /** A two-sided, uncrossed mid. */
  function Mid(q: Quote): (m: Option<real>)
    ensures m.Some? ==> m.value > 0.0
  {
    if q.bid > 0.0 && q.ask > 0.0 && q.bid < q.ask then Some((q.bid + q.ask) / 2.0) else None
  }

  /** `(strike * 10_000).round()`: half away from zero. */
  function StrikeKey(k: real): (n: int)
  {
    var x := k * 10000.0;
    if x >= 0.0 then (x + 0.5).Floor else -((0.5 - x).Floor)
  }

  type PairKey = (int, int)

  datatype Sides = Sides(call: Option<real>, put: Option<real>)

  /** What the pairing loop has collected after some quotes. */
  function SidesOf(qs: seq<Quote>): (m: map<PairKey, Sides>)
  {
    if qs == [] then map[]
    else
      var m, q := SidesOf(qs[..|qs| - 1]), qs[|qs| - 1];
      match Mid(q)
      case None => m
      case Some(mid) =>
        var key := (q.expiry, StrikeKey(q.strike));
        var e := if key in m then m[key] else Sides(None, None);
        m[key := if q.right == Call then e.(call := Some(mid)) else e.(put := Some(mid))]
  }

  function SideAt(m: map<PairKey, Sides>, key: PairKey, right: Right): (mid: Option<real>)
  {
    if key !in m then None else if right == Call then m[key].call else m[key].put
  }

  /** The last two-sided mid quoted on one side of one (expiry, strike). */
  function LatestMid(qs: seq<Quote>, key: PairKey, right: Right): (mid: Option<real>)
  {
    if qs == [] then None
    else
      var q := qs[|qs| - 1];
      if Mid(q).Some? && q.right == right && (q.expiry, StrikeKey(q.strike)) == key then Mid(q)
      else LatestMid(qs[..|qs| - 1], key, right)
  }

  /** The pairing keeps the latest mid of each side, calls and puts apart. */
  lemma {:induction false} SidesAreLatestMids(qs: seq<Quote>, key: PairKey, right: Right)
    ensures SideAt(SidesOf(qs), key, right) == LatestMid(qs, key, right)
  {
    if qs != [] {
      SidesAreLatestMids(qs[..|qs| - 1], key, right);
    }
  }

  function KeyStrike(key: PairKey): (k: real)
  {
    key.1 as real / 10000.0
  }

  /** A pair near the spot with both mids: it yields one parity sample. */
  predicate Usable(m: map<PairKey, Sides>, spot: real, key: PairKey)
  {
    key in m && Abs(KeyStrike(key) - spot) <= NEAR_SPOT && m[key].call.Some? && m[key].put.Some?
  }

  function Sample(m: map<PairKey, Sides>, key: PairKey): (f: real)
    requires key in m && m[key].call.Some? && m[key].put.Some?
  {
    KeyStrike(key) + (m[key].call.value - m[key].put.value)
  }

  function UsableKeys(m: map<PairKey, Sides>, spot: real): (ks: set<PairKey>)
    ensures forall k :: k in ks <==> Usable(m, spot, k)
  {
    set k | k in m && Usable(m, spot, k)
  }

  function Sum(xs: seq<real>): (s: real)
  {
    if xs == [] then 0.0 else Sum(xs[..|xs| - 1]) + xs[|xs| - 1]
  }

  /** The forward from the samples: their mean if there are two and it is within the limit, else the spot. */
  function ForwardFrom(samples: seq<real>, spot: real): (f: real)
    ensures Abs(f - spot) <= PARITY_LIMIT
  {
    if |samples| >= 2 then
      var parity := Sum(samples) / |samples| as real;
      if Abs(parity - spot) > PARITY_LIMIT then spot else parity
    else spot
  }

  /** `samples` lists the samples of the usable pairs, each once, in whatever order the map is walked. */
  ghost predicate Lists(m: map<PairKey, Sides>, spot: real, order: seq<PairKey>, samples: seq<real>)
  {
    && |order| == |samples|
    && (forall i, j :: 0 <= i < j < |order| ==> order[i] != order[j])
    && (forall i :: 0 <= i < |order| ==> Usable(m, spot, order[i]) && samples[i] == Sample(m, order[i]))
    && (forall k :: Usable(m, spot, k) ==> k in order)
  }

  /**
   The first half of snapshot_chain: pair, sample, average, sanity-check. The result is that of every order in
   which the map may be walked.
   */
  method Forward(quotes: seq<Quote>, spot: real) returns (forward: real)
    ensures exists order, samples :: Lists(SidesOf(quotes), spot, order, samples)
    ensures forall order, samples :: Lists(SidesOf(quotes), spot, order, samples) ==> forward == ForwardFrom(samples, spot)
  {
    var sides: map<PairKey, Sides> := map[];
    for i := 0 to |quotes|
      invariant sides == SidesOf(quotes[..i])
    {
      assert quotes[..i + 1][..i] == quotes[..i];
      var q := quotes[i];
      var mid := Mid(q);
      if mid.None? { continue; }
      var key := (q.expiry, StrikeKey(q.strike));
      var entry := if key in sides then sides[key] else Sides(None, None);
      sides := sides[key := if q.right == Call then entry.(call := mid) else entry.(put := mid)];
    }
    assert quotes[..|quotes|] == quotes;
    var collected := CollectSamples(sides, spot);
    forward := Average(collected, spot);
    ghost var walked :| Lists(sides, spot, walked, collected);
    forall order, samples | Lists(sides, spot, order, samples) ensures forward == ForwardFrom(samples, spot) {
      OrderDoesNotMatter(sides, spot, walked, collected, order, samples);
    }
  }

  /** The mean, if there are two samples, checked against the spot. */
  method Average(samples: seq<real>, spot: real) returns (forward: real)
    ensures forward == ForwardFrom(samples, spot)
  {
    if |samples| < 2 {
      return spot;
    }
    var total := 0.0;
    for i := 0 to |samples|
      invariant total == Sum(samples[..i])
    {
      assert samples[..i + 1][..i] == samples[..i];
      total := total + samples[i];
    }
    assert samples[..|samples|] == samples;
    var parity := total / |samples| as real;
    forward := if Abs(parity - spot) > PARITY_LIMIT then spot else parity;
  }

  method CollectSamples(sides: map<PairKey, Sides>, spot: real) returns (samples: seq<real>)
    ensures exists order :: Lists(sides, spot, order, samples)
  {
    ghost var order: seq<PairKey> := [];
    samples := [];
    var left := sides.Keys;
    while exists k :: k in left
      invariant forall k :: k in left ==> k in sides
      invariant |order| == |samples|
      invariant forall i, j :: 0 <= i < j < |order| ==> order[i] != order[j]
      invariant forall i :: 0 <= i < |order| ==> order[i] !in left && Usable(sides, spot, order[i]) && samples[i] == Sample(sides, order[i])
      invariant forall k :: Usable(sides, spot, k) && k !in left ==> k in order
      decreases left
    {
      var k :| k in left;
      left := left - {k};
      if Abs(KeyStrike(k) - spot) <= NEAR_SPOT && sides[k].call.Some? && sides[k].put.Some? {
        samples, order := samples + [Sample(sides, k)], order + [k];
      }
    }
    assert Lists(sides, spot, order, samples);
  }

  // ---- the order of the map does not matter ------------------------------------------------

  function Without<T>(xs: seq<T>, j: nat): (ys: seq<T>)
    requires j < |xs|
    ensures |ys| == |xs| - 1
    ensures forall i :: 0 <= i < |ys| ==> ys[i] == if i < j then xs[i] else xs[i + 1]
  {
    xs[..j] + xs[j + 1..]
  }

  lemma {:induction false} SumWithout(xs: seq<real>, j: nat)
    requires j < |xs|
    ensures Sum(xs) == Sum(Without(xs, j)) + xs[j]
  {
    var n := |xs| - 1;
    if j == n {
      assert Without(xs, j) == xs[..n];
    } else {
      SumWithout(xs[..n], j);
      assert Without(xs, j)[..n - 1] == Without(xs[..n], j);
    }
  }

  /** Distinct keys, each with its sample. */
  ghost predicate Tagged(m: map<PairKey, Sides>, order: seq<PairKey>, samples: seq<real>)
  {
    && |order| == |samples|
    && (forall i, j :: 0 <= i < j < |order| ==> order[i] != order[j])
    && (forall i :: 0 <= i < |order| ==>
         && order[i] in m && m[order[i]].call.Some? && m[order[i]].put.Some?
         && samples[i] == Sample(m, order[i]))
  }

  /** The same keys in another order have samples with the same sum. */
  lemma {:induction false} SamplesPermuted(m: map<PairKey, Sides>, a: seq<PairKey>, xs: seq<real>, b: seq<PairKey>, ys: seq<real>)
    requires Tagged(m, a, xs) && Tagged(m, b, ys)
    requires forall k :: k in a <==> k in b
    ensures |xs| == |ys| && Sum(xs) == Sum(ys)
    decreases |a|
  {
    assert b != [] ==> b[0] in b;
    if a != [] {
      var n := |a| - 1;
      assert a[n] in b;
      var j :| 0 <= j < |b| && b[j] == a[n];
      SumWithout(ys, j);
      OneKeyLess(a, b, j);
      OneTagLess(m, b, ys, j);
      SamplesPermuted(m, a[..n], xs[..n], Without(b, j), Without(ys, j));
    }
  }

  lemma OneTagLess(m: map<PairKey, Sides>, order: seq<PairKey>, samples: seq<real>, j: nat)
    requires Tagged(m, order, samples) && j < |order|
    ensures Tagged(m, Without(order, j), Without(samples, j))
  {
    var less := Without(order, j);
    forall i, l | 0 <= i < l < |less| ensures less[i] != less[l] {
      assert order[if i < j then i else i + 1] != order[if l < j then l else l + 1];
    }
  }

  lemma OneKeyLess(a: seq<PairKey>, b: seq<PairKey>, j: nat)
    requires a != [] && j < |b| && b[j] == a[|a| - 1] && forall k :: k in a <==> k in b
    requires forall i, l :: 0 <= i < l < |a| ==> a[i] != a[l]
    requires forall i, l :: 0 <= i < l < |b| ==> b[i] != b[l]
    ensures forall k :: k in a[..|a| - 1] <==> k in Without(b, j)
  {
    var n := |a| - 1;
    forall k ensures k in a[..n] <==> k in a && k != a[n] {
    }
    forall k ensures k in Without(b, j) <==> k in b && k != b[j] {
      if k in b && k != b[j] {
        var i :| 0 <= i < |b| && b[i] == k;
        assert Without(b, j)[if i < j then i else i - 1] == k;
      }
    }
  }

  lemma OrderDoesNotMatter(m: map<PairKey, Sides>, spot: real, a: seq<PairKey>, xs: seq<real>, b: seq<PairKey>, ys: seq<real>)
    requires Lists(m, spot, a, xs) && Lists(m, spot, b, ys)
    ensures ForwardFrom(xs, spot) == ForwardFrom(ys, spot)
  {
    forall k ensures k in a <==> k in b {
    }
    SamplesPermuted(m, a, xs, b, ys);
  }

  /** The mean of equal numbers is that number. */
  lemma {:induction false} SumOfEqual(xs: seq<real>, f: real)
    requires forall i :: 0 <= i < |xs| ==> xs[i] == f
    ensures Sum(xs) == f * |xs| as real
  {
    if xs != [] {
      SumOfEqual(xs[..|xs| - 1], f);
    }
  }

  /** All usable pairs obey put-call parity with one forward: call minus put is forward minus strike. */
  ghost predicate ParityHolds(m: map<PairKey, Sides>, spot: real, f: real)
  {
    forall k :: Usable(m, spot, k) ==> m[k].call.value - m[k].put.value == f - KeyStrike(k)
  }

  /**
   When all usable pairs obey parity with one forward F, the chosen forward is F if and only if there are at
   least two of them and F is within the limit of the spot, or F is the spot; otherwise it is the spot.
   */
  lemma ForwardIsParity(m: map<PairKey, Sides>, spot: real, order: seq<PairKey>, samples: seq<real>, f: real)
    requires Lists(m, spot, order, samples) && ParityHolds(m, spot, f)
    ensures ForwardFrom(samples, spot) == f <==> f == spot || (|samples| >= 2 && Abs(f - spot) <= PARITY_LIMIT)
    ensures ForwardFrom(samples, spot) == f || ForwardFrom(samples, spot) == spot
  {
    if |samples| >= 2 {
      MeanOfEqual(m, spot, order, samples, f);
    }
  }

  lemma MeanOfEqual(m: map<PairKey, Sides>, spot: real, order: seq<PairKey>, samples: seq<real>, f: real)
    requires Lists(m, spot, order, samples) && ParityHolds(m, spot, f) && samples != []
    ensures Sum(samples) / |samples| as real == f
  {
    forall i | 0 <= i < |samples| ensures samples[i] == f {
      assert Usable(m, spot, order[i]);
    }
    SumOfEqual(samples, f);
    var n := |samples| as real;
    assert Sum(samples) / n == f by {
      assert f * n / n == f;
    }
  }

  /** The samples number the usable pairs, so "two samples" is "two usable pairs". */
  lemma SampleCount(m: map<PairKey, Sides>, spot: real, order: seq<PairKey>, samples: seq<real>)
    requires Lists(m, spot, order, samples)
    ensures |samples| == |UsableKeys(m, spot)|
  {
    DistinctCount(order, UsableKeys(m, spot));
  }

  lemma {:induction false} DistinctCount<T>(order: seq<T>, s: set<T>)
    requires forall i, j :: 0 <= i < j < |order| ==> order[i] != order[j]
    requires forall x :: x in s <==> x in order
    ensures |s| == |order|
  {
    if order == [] {
      assert s == {};
    } else {
      var n := |order| - 1;
      assert forall x :: x in order <==> x in order[..n] || x == order[n];
      DistinctCount(order[..n], s - {order[n]});
    }
  }

  // ---- the out-of-the-money filter -----------------------------------------------------

  /** Calls at or above the forward, puts below it. */
  predicate TakesSide(q: Quote, forward: real)
  {
    if q.right == Call then q.strike >= forward else q.strike < forward
  }

  datatype Point = Point(strike: real, iv: real, tte: real)

  /** Inversion and expiry time, as functions the fit does not look into. */
  datatype Pricer = Pricer(tte: int -> Option<real>, iv: (Quote, real, real) -> Option<real>)

  function PointOf(p: Pricer, forward: real, q: Quote): (r: Option<Point>)
    ensures r.Some? ==> r.value.strike == q.strike && 0.001 < r.value.iv < 5.0 && TakesSide(q, forward)
  {
    if !TakesSide(q, forward) || q.bid <= 0.0 || q.ask <= 0.0 || q.bid >= q.ask || q.bidSize == 0 || q.askSize == 0 then None
    else
      match p.tte(q.expiry)
      case None => None
      case Some(tte) =>
        match p.iv(q, forward, tte)
        case Some(v) => if 0.001 < v < 5.0 then Some(Point(q.strike, v, tte)) else None
        case None => None
  }

  function PointsAt(m: map<int, seq<Point>>, e: int): (ps: seq<Point>)
  {
    if e in m then m[e] else []
  }

  /** The fit points of the quotes, by expiry, in the order the quotes are walked. */
  function PointsOf(p: Pricer, quotes: seq<Quote>, forward: real): (m: map<int, seq<Point>>)
  {
    if quotes == [] then map[]
    else
      var m, q := PointsOf(p, quotes[..|quotes| - 1], forward), quotes[|quotes| - 1];
      match PointOf(p, forward, q)
      case None => m
      case Some(pt) => m[q.expiry := PointsAt(m, q.expiry) + [pt]]
  }

  /** The second half of snapshot_chain. */
  method FitPoints(p: Pricer, quotes: seq<Quote>, forward: real) returns (points: map<int, seq<Point>>)
    ensures points == PointsOf(p, quotes, forward)
  {
    points := map[];
    for n := 0 to |quotes|
      invariant points == PointsOf(p, quotes[..n], forward)
    {
      assert quotes[..n + 1][..n] == quotes[..n];
      var q := quotes[n];
      var pt := PointOf(p, forward, q);
      if pt.None? { continue; }
      if q.expiry !in points {
        points := points[q.expiry := []];
      }
      points := points[q.expiry := points[q.expiry] + [pt.value]];
    }
    assert quotes[..|quotes|] == quotes;
  }

  /** The chain holds one quote per leg. */
  ghost predicate OneQuotePerLeg(quotes: seq<Quote>)
  {
    forall i, j :: 0 <= i < j < |quotes| ==>
      !(quotes[i].expiry == quotes[j].expiry && quotes[i].strike == quotes[j].strike && quotes[i].right == quotes[j].right)
  }

  /** Every fit point comes from a quote of its expiry and strike that the filter took. */
  lemma {:induction false} PointHasQuote(p: Pricer, quotes: seq<Quote>, forward: real, e: int, i: nat) returns (k: nat)
    requires i < |PointsAt(PointsOf(p, quotes, forward), e)|
    ensures k < |quotes| && quotes[k].expiry == e
    ensures PointOf(p, forward, quotes[k]) == Some(PointsAt(PointsOf(p, quotes, forward), e)[i])
  {
    var n := |quotes| - 1;
    var before := PointsAt(PointsOf(p, quotes[..n], forward), e);
    if i < |before| {
      k := PointHasQuote(p, quotes[..n], forward, e, i);
    } else {
      k := n;
    }
  }

  /** And every quote the filter takes gives a point of its expiry. */
  lemma {:induction false} QuoteHasPoint(p: Pricer, quotes: seq<Quote>, forward: real, k: nat)
    requires k < |quotes| && PointOf(p, forward, quotes[k]).Some?
    ensures PointOf(p, forward, quotes[k]).value in PointsAt(PointsOf(p, quotes, forward), quotes[k].expiry)
  {
    var n := |quotes| - 1;
    if k < n {
      QuoteHasPoint(p, quotes[..n], forward, k);
    }
  }

  /** Each (expiry, strike) contributes at most one fit point: its call or its put, never both. */
  lemma {:induction false} OnePointPerStrike(p: Pricer, quotes: seq<Quote>, forward: real, e: int, i: nat, j: nat)
    requires OneQuotePerLeg(quotes) && i < j < |PointsAt(PointsOf(p, quotes, forward), e)|
    ensures var ps := PointsAt(PointsOf(p, quotes, forward), e); ps[i].strike != ps[j].strike
  {
    var n := |quotes| - 1;
    var before := PointsAt(PointsOf(p, quotes[..n], forward), e);
    if j < |before| {
      OnePointPerStrike(p, quotes[..n], forward, e, i, j);
    } else {
      var k := PointHasQuote(p, quotes[..n], forward, e, i);
      assert quotes[k] == quotes[..n][k];
    }
  }

  // ---- the surface cache -------------------------------------------------------------------

  datatype SideChar = C | P

  type SurfaceKey = (string, int, SideChar)

  datatype Surface = Surface(forward: real, tte: real, alpha: real, beta: real, rho: real, nu: real)

  type Surfaces = map<SurfaceKey, Surface>

  /** A fit enters the cache under both side keys. */
  function Publish(m: Surfaces, product: string, expiry: int, s: Surface): (m': Surfaces)
  {
    m[(product, expiry, C) := s][(product, expiry, P) := s]
  }

  /** One immutable published table; the cache points at the latest. */
  class Table {
    const surfaces: Surfaces

    constructor (surfaces: Surfaces)
      ensures this.surfaces == surfaces
    {
      this.surfaces := surfaces;
    }
  }

  class SurfaceCache {
    var current: Table

    constructor ()
      ensures fresh(current) && current.surfaces == map[]
    {
      current := new Table(map[]);
    }

    /** Clone, insert under both keys, publish a new table. A reader's table is never written. */
    method Store(product: string, expiry: int, s: Surface)
      modifies this
      ensures fresh(current)
      ensures current.surfaces == Publish(old(current.surfaces), product, expiry, s)
    {
      var next := current.surfaces;
      next := next[(product, expiry, C) := s];
      next := next[(product, expiry, P) := s];
      current := new Table(next);
    }
  }

  datatype Fit = Fit(product: string, expiry: int, s: Surface)

  function SurfacesAfter(fits: seq<Fit>): (m: Surfaces)
  {
    if fits == [] then map[]
    else
      var f := fits[|fits| - 1];
      Publish(SurfacesAfter(fits[..|fits| - 1]), f.product, f.expiry, f.s)
  }

  /** The latest fit of a product and expiry. */
  function LatestFit(fits: seq<Fit>, product: string, expiry: int): (s: Option<Surface>)
  {
    if fits == [] then None
    else
      var f := fits[|fits| - 1];
      if f.product == product && f.expiry == expiry then Some(f.s) else LatestFit(fits[..|fits| - 1], product, expiry)
  }

  /** In every reachable cache both sides of an expiry hold its latest fit, so they are equal. */
  lemma {:induction false} SidesEqualLatest(fits: seq<Fit>, product: string, expiry: int)
    ensures Get(SurfacesAfter(fits), (product, expiry, C)) == LatestFit(fits, product, expiry)
    ensures Get(SurfacesAfter(fits), (product, expiry, P)) == LatestFit(fits, product, expiry)
  {
    if fits != [] {
      SidesEqualLatest(fits[..|fits| - 1], product, expiry);
    }
  }
}
