/**
 The L2 depth-subscription rotator (subscriptions.rs): a handful of slots, the two nearest strikes pinned,
 the others cycling through the rest of the chain by a cursor.
 */
module DepthRotator {
  import opened Sets

  const MAX_ACTIVE: nat := 5
  const FIXED_NEAREST: nat := 2
  const ROTATE_SLOTS: nat := MAX_ACTIVE - FIXED_NEAREST

  type Iid = int

  /** An option with live L1 data, and how far its strike is from the underlying. */
  datatype Candidate = Candidate(dist: real, iid: Iid)

  // ---- ranking -----------------------------------------------------------------

  predicate Sorted(cs: seq<Candidate>)
  {
    forall i, j :: 0 <= i < j < |cs| ==> cs[i].dist <= cs[j].dist
  }

  /** Stable insertion: behind every candidate that is not farther. */
  function Insert(cs: seq<Candidate>, c: Candidate): (r: seq<Candidate>)
    ensures |r| == |cs| + 1
    ensures multiset(r) == multiset(cs) + multiset{c}
  {
    if cs == [] || c.dist < cs[0].dist then [c] + cs
    else
      assert cs == [cs[0]] + cs[1..];
      [cs[0]] + Insert(cs[1..], c)
  }

  lemma {:induction false} InsertSorted(cs: seq<Candidate>, c: Candidate)
    requires Sorted(cs)
    ensures Sorted(Insert(cs, c))
  {
    if cs != [] && cs[0].dist <= c.dist {
      InsertSorted(cs[1..], c);
      var tail := Insert(cs[1..], c);
      forall x | x in tail ensures cs[0].dist <= x.dist {
        assert x in multiset(tail);
        assert x == c || x in cs[1..];
      }
    }
  }

  /** `sort_by` on distance, stable. */
  function Ranked(cs: seq<Candidate>): (r: seq<Candidate>)
    ensures |r| == |cs| && multiset(r) == multiset(cs)
  {
    if cs == [] then []
    else
      assert cs == cs[..|cs| - 1] + [cs[|cs| - 1]];
      Insert(Ranked(cs[..|cs| - 1]), cs[|cs| - 1])
  }

  lemma {:induction false} RankedSorted(cs: seq<Candidate>)
    ensures Sorted(Ranked(cs))
  {
    if cs != [] {
      RankedSorted(cs[..|cs| - 1]);
      InsertSorted(Ranked(cs[..|cs| - 1]), cs[|cs| - 1]);
    }
  }

  function Min(a: nat, b: nat): (m: nat)
    ensures m <= a && m <= b && (m == a || m == b)
  {
    if a < b then a else b
  }

  // ---- selection ---------------------------------------------------------------

  function Fixed(cs: seq<Candidate>): (f: seq<Candidate>)
    ensures |f| == Min(FIXED_NEAREST, |cs|)
  {
    Ranked(cs)[..Min(FIXED_NEAREST, |cs|)]
  }

  function Pool(cs: seq<Candidate>): (p: seq<Candidate>)
    ensures |p| == |cs| - Min(FIXED_NEAREST, |cs|)
  {
    Ranked(cs)[Min(FIXED_NEAREST, |cs|)..]
  }

  /** The pool members of one cadence: `take` consecutive ones from the cursor, wrapping. */
  function Window(pool: seq<Candidate>, cursor: nat): (w: seq<Candidate>)
    ensures |w| == Min(ROTATE_SLOTS, |pool|)
    ensures forall i :: 0 <= i < |w| ==> w[i] == pool[(cursor % |pool| + i) % |pool|]
  {
    seq(Min(ROTATE_SLOTS, |pool|), i requires 0 <= i < Min(ROTATE_SLOTS, |pool|) => pool[(cursor % |pool| + i) % |pool|])
  }

  function Chosen(cs: seq<Candidate>, cursor: nat): (t: seq<Candidate>)
  {
    Fixed(cs) + Window(Pool(cs), cursor)
  }

  function NextCursor(n: nat, cursor: nat): (c: nat)
  {
    if n == 0 then cursor else (cursor + Min(ROTATE_SLOTS, n)) % n
  }

  // ---- the task ------------------------------------------------------------------

  /** The handle a successful subscribe returns, by instrument. */
  type Handles = Iid -> int

  class Rotator {
    var active: map<Iid, int>
    var rotateCursor: nat

    constructor ()
      ensures active == map[] && rotateCursor == 0
    {
      active, rotateCursor := map[], 0;
    }

    /** Pick this cadence's targets and advance the cursor. */
    method Select(candidates: seq<Candidate>) returns (chosen: seq<Candidate>)
      modifies this`rotateCursor
      ensures chosen == Chosen(candidates, old(rotateCursor))
      ensures rotateCursor == NextCursor(|Pool(candidates)|, old(rotateCursor))
    {
      var ranked := Ranked(candidates);
      var fixedCount := Min(FIXED_NEAREST, |ranked|);
      var pool := ranked[fixedCount..];
      chosen := ranked[..fixedCount];
      var n := |pool|;
      if n > 0 {
        var take := Min(ROTATE_SLOTS, n);
        var start := rotateCursor % n;
        for i := 0 to take
          invariant chosen == Fixed(candidates) + Window(pool, rotateCursor)[..i]
        {
          chosen := chosen + [pool[(start + i) % n]];
        }
        rotateCursor := (rotateCursor + take) % n;
      }
      assert Window(pool, old(rotateCursor))[..Min(ROTATE_SLOTS, n)] == Window(pool, old(rotateCursor));
    }

    /**
     One cadence. `subOk` says which subscribes succeed. Instruments no longer wanted leave the active set
     whatever becomes of their cancel; wanted ones join it only if their subscribe succeeds. At no point are
     more than MAX_ACTIVE active.
     */
    method Cadence(candidates: seq<Candidate>, subOk: Iid -> bool, handles: Handles)
      requires |active| <= MAX_ACTIVE
      modifies this
      ensures rotateCursor == NextCursor(|Pool(candidates)|, old(rotateCursor))
      ensures |active| <= MAX_ACTIVE
      ensures var want := Wanted(candidates, old(rotateCursor));
              forall iid :: iid in active <==> iid in want && (iid in old(active) || subOk(iid))
      ensures forall iid :: iid in active ==> active[iid] == if iid in old(active) then old(active)[iid] else handles(iid)
    {
      var target := Select(candidates);
      CancelUnwanted(target);
      AddWanted(target, subOk, handles);
    }

    method CancelUnwanted(target: seq<Candidate>)
      modifies this`active
      ensures forall iid :: iid in active <==> iid in old(active) && iid in Iids(target)
      ensures forall iid :: iid in active ==> active[iid] == old(active)[iid]
    {
      var before := active;
      var left := active.Keys;
      while exists iid :: iid in left
        invariant forall iid :: iid in left ==> iid in before
        invariant forall iid :: iid in active <==> iid in before && (iid in left || iid in Iids(target))
        invariant forall iid :: iid in active ==> active[iid] == before[iid]
        decreases left
      {
        var iid :| iid in left;
        left := left - {iid};
        if !(exists k :: 0 <= k < |target| && target[k].iid == iid) {
          active := active - {iid};
        }
      }
    }

    method AddWanted(target: seq<Candidate>, subOk: Iid -> bool, handles: Handles)
      requires |target| <= MAX_ACTIVE && forall iid :: iid in active ==> iid in Iids(target)
      modifies this`active
      ensures |active| <= MAX_ACTIVE
      ensures forall iid :: iid in active <==> iid in Iids(target) && (iid in old(active) || subOk(iid))
      ensures forall iid :: iid in active ==> active[iid] == if iid in old(active) then old(active)[iid] else handles(iid)
    {
      ghost var before := active;
      Fits(active, target);
      for i := 0 to |target|
        invariant |active| <= MAX_ACTIVE && Joined(before, active, target, i, subOk, handles)
      {
        var iid := target[i].iid;
        JoinStep(before, active, target, i, subOk, handles);
        if iid !in active && subOk(iid) {
          active := active[iid := handles(iid)];
        }
        JoinedFits(before, active, target, i + 1, subOk, handles);
      }
      AllJoined(before, active, target, subOk, handles);
    }
  }

  /** One of the first `n` candidates is the instrument. */
  predicate Among(t: seq<Candidate>, n: nat, iid: Iid)
    requires n <= |t|
  {
    exists k :: 0 <= k < n && t[k].iid == iid
  }

  ghost function Iids(t: seq<Candidate>): (w: set<Iid>)
    ensures forall iid :: iid in w <==> exists k :: 0 <= k < |t| && t[k].iid == iid
  {
    set k | 0 <= k < |t| :: t[k].iid
  }

  /** The active set once the first `n` targets have been tried. */
  ghost predicate Joined(before: map<Iid, int>, active: map<Iid, int>, t: seq<Candidate>, n: nat, subOk: Iid -> bool, handles: Handles)
    requires n <= |t|
  {
    && (forall iid :: iid in active <==> iid in before || (subOk(iid) && Among(t, n, iid)))
    && (forall iid :: iid in active ==> active[iid] == if iid in before then before[iid] else handles(iid))
  }

  lemma JoinStep(before: map<Iid, int>, active: map<Iid, int>, t: seq<Candidate>, i: nat, subOk: Iid -> bool, handles: Handles)
    requires i < |t| && Joined(before, active, t, i, subOk, handles)
    ensures var iid := t[i].iid;
            var next := if iid !in active && subOk(iid) then active[iid := handles(iid)] else active;
            Joined(before, next, t, i + 1, subOk, handles)
  {
    forall iid ensures Among(t, i + 1, iid) <==> Among(t, i, iid) || iid == t[i].iid {
    }
  }

  lemma JoinedFits(before: map<Iid, int>, active: map<Iid, int>, t: seq<Candidate>, n: nat, subOk: Iid -> bool, handles: Handles)
    requires n <= |t| <= MAX_ACTIVE && Joined(before, active, t, n, subOk, handles)
    requires forall iid :: iid in before ==> iid in Iids(t)
    ensures |active| <= MAX_ACTIVE
  {
    Fits(active, t);
  }

  lemma AllJoined(before: map<Iid, int>, active: map<Iid, int>, t: seq<Candidate>, subOk: Iid -> bool, handles: Handles)
    requires Joined(before, active, t, |t|, subOk, handles) && forall iid :: iid in before ==> iid in Iids(t)
    ensures forall iid :: iid in active <==> iid in Iids(t) && (iid in before || subOk(iid))
  {
    forall iid ensures Among(t, |t|, iid) <==> iid in Iids(t) {
    }
  }

  /** The instruments a cadence wants. */
  ghost function Wanted(cs: seq<Candidate>, cursor: nat): (w: set<Iid>)
  {
    Iids(Chosen(cs, cursor))
  }

  lemma {:induction false} IidsBound(t: seq<Candidate>)
    ensures |Iids(t)| <= |t|
  {
    if t == [] {
      assert Iids(t) == {};
    } else {
      var n := |t| - 1;
      IidsBound(t[..n]);
      assert Iids(t) == Iids(t[..n]) + {t[n].iid};
    }
  }

  /** Subscriptions confined to the targets number at most as many as the targets. */
  lemma Fits(active: map<Iid, int>, target: seq<Candidate>)
    requires |target| <= MAX_ACTIVE && forall iid :: iid in active ==> iid in Iids(target)
    ensures |active| <= MAX_ACTIVE
  {
    IidsBound(target);
    SubsetSize(active.Keys, Iids(target));
  }

  // ---- every run -----------------------------------------------------------------

  /** One cadence's market and network. */
  datatype Turn = Turn(candidates: seq<Candidate>, subOk: Iid -> bool)

  ghost function CursorAt(turns: seq<Turn>, n: nat): (c: nat)
    requires n <= |turns|
  {
    if n == 0 then 0 else NextCursor(|Pool(turns[n - 1].candidates)|, CursorAt(turns, n - 1))
  }

  /** The active set after the first `n` cadences, as Cadence leaves it. */
  ghost function ActiveAt(turns: seq<Turn>, n: nat): (a: set<Iid>)
    requires n <= |turns|
  {
    if n == 0 then {}
    else
      var turn := turns[n - 1];
      set iid | iid in Wanted(turn.candidates, CursorAt(turns, n - 1)) && (iid in ActiveAt(turns, n - 1) || turn.subOk(iid))
  }

  /** In every run, whichever subscribes fail: never more than the cap, and always inside the wanted set. */
  lemma {:induction false} CapHolds(turns: seq<Turn>, n: nat)
    requires n <= |turns|
    ensures |ActiveAt(turns, n)| <= MAX_ACTIVE
    ensures n > 0 ==> forall iid :: iid in ActiveAt(turns, n) ==> iid in Wanted(turns[n - 1].candidates, CursorAt(turns, n - 1))
  {
    if n > 0 {
      var want := Wanted(turns[n - 1].candidates, CursorAt(turns, n - 1));
      IidsBound(Chosen(turns[n - 1].candidates, CursorAt(turns, n - 1)));
      SubsetSize(ActiveAt(turns, n), want);
    }
  }

  // ---- what is chosen ---------------------------------------------------------------

  predicate DistinctIids(cs: seq<Candidate>)
  {
    forall i, j :: 0 <= i < j < |cs| ==> cs[i].iid != cs[j].iid
  }

  lemma {:induction false} InsertDistinct(cs: seq<Candidate>, c: Candidate)
    requires DistinctIids(cs) && forall i :: 0 <= i < |cs| ==> cs[i].iid != c.iid
    ensures DistinctIids(Insert(cs, c))
  {
    if cs != [] && cs[0].dist <= c.dist {
      InsertDistinct(cs[1..], c);
      var tail := Insert(cs[1..], c);
      forall x | x in tail ensures x.iid != cs[0].iid {
        assert x in multiset(tail);
        assert x == c || x in cs[1..];
      }
    }
  }

  lemma {:induction false} RankedDistinct(cs: seq<Candidate>)
    requires DistinctIids(cs)
    ensures DistinctIids(Ranked(cs))
  {
    if cs != [] {
      var init, c := cs[..|cs| - 1], cs[|cs| - 1];
      RankedDistinct(init);
      forall i | 0 <= i < |Ranked(init)| ensures Ranked(init)[i].iid != c.iid {
        assert Ranked(init)[i] in multiset(Ranked(init));
        assert Ranked(init)[i] in init;
      }
      InsertDistinct(Ranked(init), c);
    }
  }

  /** Offsets from the cursor stay apart as long as there are no more of them than pool members. */
  lemma ModDistinct(s: nat, i: nat, j: nat, n: nat)
    requires i < j < n && s < n
    ensures (s + i) % n != (s + j) % n
  {
    Residue(s + i, n);
    Residue(s + j, n);
  }

  lemma Residue(x: nat, n: nat)
    requires x < 2 * n
    ensures x % n == if x < n then x else x - n
  {
    if x < n {
      ModSmall(x, n);
    } else {
      ModOnce(x - n, n);
      ModSmall(x - n, n);
    }
  }

  lemma WindowDistinct(pool: seq<Candidate>, cursor: nat)
    requires DistinctIids(pool)
    ensures DistinctIids(Window(pool, cursor))
  {
    var n := |pool|;
    var w := Window(pool, cursor);
    forall i, j | 0 <= i < j < |w| ensures w[i].iid != w[j].iid {
      var a, b := (cursor % n + i) % n, (cursor % n + j) % n;
      ModDistinct(cursor % n, i, j, n);
      assert w[i] == pool[a] && w[j] == pool[b] && (a < b || b < a);
    }
  }

  lemma WindowInPool(pool: seq<Candidate>, cursor: nat, c: Candidate)
    requires c in Window(pool, cursor)
    ensures exists k :: 0 <= k < |pool| && pool[k] == c
  {
    var i :| 0 <= i < |Window(pool, cursor)| && Window(pool, cursor)[i] == c;
    var k := (cursor % |pool| + i) % |pool|;
    assert pool[k] == c;
  }

  /** What one cadence asks for is distinct, and fills the slots whenever there are candidates enough. */
  lemma ChosenDistinct(cs: seq<Candidate>, cursor: nat)
    requires DistinctIids(cs)
    ensures DistinctIids(Chosen(cs, cursor)) && |Chosen(cs, cursor)| == Min(MAX_ACTIVE, |cs|)
  {
    var ranked, f, pool, w := Ranked(cs), Fixed(cs), Pool(cs), Window(Pool(cs), cursor);
    RankedDistinct(cs);
    assert DistinctIids(pool) && DistinctIids(f);
    WindowDistinct(pool, cursor);
    forall i, j | 0 <= i < |f| && 0 <= j < |w| ensures f[i].iid != w[j].iid {
      WindowInPool(pool, cursor, w[j]);
      var k :| 0 <= k < |pool| && pool[k] == w[j];
      assert ranked[|f| + k] == w[j] && ranked[i] == f[i];
    }
  }

  /** The pinned instruments are always asked for, and no candidate left out of them is nearer. */
  lemma PinnedAreNearest(cs: seq<Candidate>, cursor: nat)
    ensures Fixed(cs) <= Chosen(cs, cursor)
    ensures forall c, i :: c in cs && c !in Fixed(cs) && 0 <= i < |Fixed(cs)| ==> Fixed(cs)[i].dist <= c.dist
  {
    var ranked, f := Ranked(cs), Fixed(cs);
    RankedSorted(cs);
    assert forall j :: 0 <= j < |f| ==> f[j] == ranked[j] && f[j] in f;
    forall c, i | c in cs && c !in f && 0 <= i < |f| ensures f[i].dist <= c.dist {
      assert c in multiset(cs);
      assert c in ranked;
      var k :| 0 <= k < |ranked| && ranked[k] == c;
    }
  }

  // ---- coverage -----------------------------------------------------------------------

  /** The cursor after `k` cadences on an unchanged ranking whose pool has `n` members. */
  function CursorAfter(n: nat, cursor: nat, k: nat): (c: nat)
  {
    if k == 0 then cursor else NextCursor(n, CursorAfter(n, cursor, k - 1))
  }

  lemma ModAdd(a: nat, b: nat, n: nat)
    requires n > 0
    ensures (a % n + b) % n == (a + b) % n
  {
    var q := a / n;
    assert a + b == q * n + (a % n + b);
    ModShift(q, a % n + b, n);
  }

  lemma {:induction false} ModShift(q: nat, r: nat, n: nat)
    requires n > 0
    ensures (q * n + r) % n == r % n
    decreases q
  {
    if q > 0 {
      ModShift(q - 1, r, n);
      assert q * n + r == ((q - 1) * n + r) + n;
      ModOnce((q - 1) * n + r, n);
    }
  }

  lemma ModOnce(x: nat, n: nat)
    requires n > 0
    ensures (x + n) % n == x % n
  {
    assert x + n == (x / n + 1) * n + x % n;
    var d := (x + n) / n - (x / n + 1);
    assert d * n == x % n - (x + n) % n;
    MulBound(d, n);
  }

  lemma MulBound(d: int, n: nat)
    ensures d >= 1 ==> d * n >= n
    ensures d <= -1 ==> d * n + n <= 0
  {
    if d >= 1 {
      assert d * n == (d - 1) * n + n;
    } else if d <= -1 {
      assert d * n == -((-d - 1) * n) - n;
    }
  }

  /** After k cadences the cursor has moved on by k windows, modulo the pool. */
  lemma {:induction false} CursorMoves(n: nat, cursor: nat, k: nat)
    requires n > 0
    ensures CursorAfter(n, cursor, k) % n == (cursor + k * Min(ROTATE_SLOTS, n)) % n
  {
    var take := Min(ROTATE_SLOTS, n);
    if k > 0 {
      CursorMoves(n, cursor, k - 1);
      var c := CursorAfter(n, cursor, k - 1);
      var moved := cursor + (k - 1) * take;
      ModAdd(c, take, n);
      ModAdd(moved, take, n);
      ModAdd(c + take, 0, n);
      assert moved + take == cursor + k * take;
    }
  }

  function CeilDiv(a: nat, b: nat): (q: nat)
    requires b > 0
    ensures q * b >= a && (q > 0 ==> (q - 1) * b < a)
  {
    (a + b - 1) / b
  }

  /**
   Coverage. With an unchanged ranking and a pool of n members, every member of the pool is chosen within any
   ceil(n / min(3, n)) consecutive cadences, from any cursor whatever.
   */
  lemma {:induction false} EveryPoolMemberIsChosen(pool: seq<Candidate>, cursor: nat, m: nat) returns (k: nat)
    requires m < |pool|
    ensures k < CeilDiv(|pool|, Min(ROTATE_SLOTS, |pool|))
    ensures pool[m] in Window(pool, CursorAfter(|pool|, cursor, k))
  {
    var n := |pool|;
    var take := Min(ROTATE_SLOTS, n);
    var d := Distance(cursor, m, n);
    k := d / take;
    var i := d % take;
    WithinCeil(d, n, take);
    var c := CursorAfter(n, cursor, k);
    CursorMoves(n, cursor, k);
    SameResidue(c, cursor + k * take, i, n);
    assert (c % n + i) % n == m;
    assert Window(pool, c)[i] == pool[m];
  }

  /** An offset below n falls into one of the first ceil(n / b) windows of b. */
  lemma WithinCeil(d: nat, n: nat, b: nat)
    requires d < n && b > 0
    ensures d / b < CeilDiv(n, b) && d == d / b * b + d % b
  {
    var q := CeilDiv(n, b);
    if d / b >= q {
      Monotone(q, d / b, b);
    }
  }

  lemma SameResidue(c: nat, x: nat, i: nat, n: nat)
    requires n > 0 && c % n == x % n
    ensures (c % n + i) % n == (x + i) % n
  {
    ModAdd(x, i, n);
  }

  lemma Monotone(a: nat, b: nat, c: nat)
    requires a <= b
    ensures a * c <= b * c
  {
  }

  lemma ModSmall(m: nat, n: nat)
    requires m < n
    ensures m % n == m
  {
  }

  /** How far ahead of the cursor a pool member is. */
  lemma Distance(cursor: nat, m: nat, n: nat) returns (d: nat)
    requires m < n
    ensures d < n && (cursor + d) % n == m
  {
    var s := cursor % n;
    d := if m >= s then m - s else m + n - s;
    ModOnce(m, n);
    ModSmall(m, n);
    ModAdd(cursor, d, n);
  }

  /**
   Coverage in a run: while the ranking stays as it is for ceil(n / min(3, n)) cadences, whatever came before,
   every member of the pool is wanted in one of them, and is active after it if its subscribe succeeds.
   */
  lemma {:induction false} CoverageInRuns(turns: seq<Turn>, a: nat, cs: seq<Candidate>, m: nat) returns (k: nat)
    requires m < |Pool(cs)|
    requires var q := CeilDiv(|Pool(cs)|, Min(ROTATE_SLOTS, |Pool(cs)|));
             a + q <= |turns| && forall i :: a <= i < a + q ==> turns[i].candidates == cs
    ensures k < CeilDiv(|Pool(cs)|, Min(ROTATE_SLOTS, |Pool(cs)|)) && a + k < |turns|
    ensures Pool(cs)[m].iid in Wanted(cs, CursorAt(turns, a + k))
    ensures turns[a + k].subOk(Pool(cs)[m].iid) ==> Pool(cs)[m].iid in ActiveAt(turns, a + k + 1)
  {
    var pool := Pool(cs);
    k := EveryPoolMemberIsChosen(pool, CursorAt(turns, a), m);
    CursorInRuns(turns, a, k, |pool|);
    InWindow(cs, CursorAt(turns, a + k), pool[m]);
  }

  lemma InWindow(cs: seq<Candidate>, cursor: nat, c: Candidate)
    requires c in Window(Pool(cs), cursor)
    ensures c.iid in Wanted(cs, cursor)
  {
    assert c in Chosen(cs, cursor);
  }

  /** The cursor of a run depends on the sizes of the pools alone. */
  lemma {:induction false} CursorInRuns(turns: seq<Turn>, a: nat, k: nat, n: nat)
    requires a + k <= |turns| && forall i: nat :: a <= i < a + k ==> PoolSize(turns, i, n)
    ensures CursorAt(turns, a + k) == CursorAfter(n, CursorAt(turns, a), k)
    decreases k
  {
    if k > 0 {
      CursorInRuns(turns, a, k - 1, n);
      CursorStep(turns, a + k, n);
    }
  }

  predicate PoolSize(turns: seq<Turn>, i: nat, n: nat)
  {
    i < |turns| && |Pool(turns[i].candidates)| == n
  }

  lemma CursorStep(turns: seq<Turn>, i: nat, n: nat)
    requires 0 < i <= |turns| && PoolSize(turns, i - 1, n)
    ensures CursorAt(turns, i) == NextCursor(n, CursorAt(turns, i - 1))
  {
  }
}
