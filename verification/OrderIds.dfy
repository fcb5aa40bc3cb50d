/**
 The order-id counter (client.rs): callers allocate locally while the receive loop merges the gateway's
 nextValidId broadcasts by maximum. The counter is a 32-bit integer that wraps.
 */
module OrderIds {
  const MAX: int := 0x7FFF_FFFF
  const MIN: int := -0x8000_0000

  /** `id + 1` on an i32 without overflow checks. */
  function Succ(id: int): (n: int)
    requires MIN <= id <= MAX
    ensures MIN <= n <= MAX
  {
    if id == MAX then MIN else id + 1
  }

  datatype Event = Polled | Broadcast(oid: int)

  type Trace = seq<Event>

  predicate InRange(es: Trace)
  {
    forall i :: 0 <= i < |es| && es[i].Broadcast? ==> MIN <= es[i].oid <= MAX
  }

  /** The counter after the first `n` events. One poll is one look at the counter under its lock. */
  function Counter(es: Trace, n: nat): (c: int)
    requires n <= |es| && InRange(es)
    ensures MIN <= c <= MAX
  {
    if n == 0 then 0
    else
      var c := Counter(es, n - 1);
      match es[n - 1]
      case Polled => if c > 0 then Succ(c) else c
      case Broadcast(oid) => if oid > c then oid else c
  }

  /** The id a poll hands out; zero or less hands out nothing. */
  predicate Issues(es: Trace, i: nat)
    requires InRange(es)
  {
    i < |es| && es[i].Polled? && Counter(es, i) > 0
  }

  class OrderIdAllocator {
    var nextOrderId: int

    constructor ()
      ensures nextOrderId == 0
    {
      nextOrderId := 0;
    }

    method Poll() returns (id: int)
      requires MIN <= nextOrderId <= MAX
      modifies this
      ensures id == if old(nextOrderId) > 0 then old(nextOrderId) else 0
      ensures nextOrderId == if old(nextOrderId) > 0 then Succ(old(nextOrderId)) else old(nextOrderId)
    {
      id := nextOrderId;
      if id > 0 {
        nextOrderId := Succ(id);
      } else {
        id := 0;
      }
    }

    /** The receive loop's max-merge, so that a stale broadcast cannot wind the counter back. */
    method OnNextValidId(oid: int)
      modifies this
      ensures nextOrderId == if oid > old(nextOrderId) then oid else old(nextOrderId)
    {
      if oid > nextOrderId {
        nextOrderId := oid;
      }
    }

    /**
     alloc_order_id: one poll, then up to fifty more, 20 ms apart. `during[k]` is what the receive loop
     processes before the k-th retry. Zero is returned only if the counter never became positive.
     */
    method AllocOrderId(during: seq<seq<int>>) returns (id: int, polls: nat)
      requires |during| == 50 && MIN <= nextOrderId <= MAX
      requires forall k, j :: 0 <= k < 50 && 0 <= j < |during[k]| ==> MIN <= during[k][j] <= MAX
      modifies this
      ensures MIN <= nextOrderId <= MAX
      ensures 1 <= polls <= 51
      ensures id >= 0
      ensures id == 0 <==> old(nextOrderId) <= 0 && forall k, j :: 0 <= k < 50 && 0 <= j < |during[k]| ==> during[k][j] <= 0
      ensures id > 0 ==> id <= MAX && nextOrderId == Succ(id) && id >= old(nextOrderId)
    {
      id := Poll();
      polls := 1;
      var k := 0;
      while id == 0 && k < 50
        invariant 0 <= k <= 50 && polls == k + 1 && MIN <= nextOrderId <= MAX && id >= 0
        invariant id == 0 ==> old(nextOrderId) <= nextOrderId <= 0
        invariant id == 0 ==> forall i, j :: 0 <= i < k && 0 <= j < |during[i]| ==> during[i][j] <= 0
        invariant id > 0 ==> id <= MAX && nextOrderId == Succ(id) && id >= old(nextOrderId)
        invariant id > 0 ==> old(nextOrderId) > 0 || exists i, j :: 0 <= i < k && 0 <= j < |during[i]| && during[i][j] > 0
      {
        var j := 0;
        ghost var before := nextOrderId;
        while j < |during[k]|
          invariant 0 <= j <= |during[k]| && MIN <= nextOrderId <= MAX && before <= nextOrderId
          invariant nextOrderId <= 0 <==> forall i :: 0 <= i < j ==> during[k][i] <= 0
        {
          OnNextValidId(during[k][j]);
          j := j + 1;
        }
        id := Poll();
        polls := polls + 1;
        k := k + 1;
      }
    }
  }

  /** Until the top of the range is handed out the counter never goes down, and passes each id it issues. */
  lemma {:induction false} CounterGrows(es: Trace, a: nat, b: nat)
    requires a <= b <= |es| && InRange(es)
    requires forall i: nat :: a <= i < b && Issues(es, i) ==> Counter(es, i) != MAX
    ensures Counter(es, a) <= Counter(es, b)
    ensures forall i: nat :: a <= i < b && Issues(es, i) ==> Counter(es, i) < Counter(es, b)
    ensures forall i: nat :: a <= i < b && es[i].Broadcast? ==> es[i].oid <= Counter(es, b)
    decreases b
  {
    if a < b {
      CounterGrows(es, a, b - 1);
      assert Issues(es, b - 1) ==> Counter(es, b - 1) != MAX;
    }
  }

  /** Handed-out ids strictly increase, so none is ever reused. */
  ghost predicate Increasing(es: Trace)
    requires InRange(es)
  {
    forall i: nat, j: nat :: i < j && Issues(es, i) && Issues(es, j) ==> Counter(es, i) < Counter(es, j)
  }

  /** The two polls hand out ids, the first one not the largest i32. */
  predicate Passes(es: Trace, i: nat, j: nat)
    requires InRange(es)
  {
    Issues(es, i) && Issues(es, j) ==> Counter(es, i) != MAX
  }

  /**
   Over every interleaving of polls and broadcasts: handed-out ids are strictly increasing if and only if the
   largest i32 is handed out by none but the last of them. Then each is also at least every nextValidId
   processed before it.
   */
  lemma IdsIncrease(es: Trace)
    requires InRange(es)
    ensures Increasing(es) <==> forall i: nat, j: nat :: i < j ==> Passes(es, i, j)
    ensures Increasing(es) ==>
              forall i: nat, j: nat :: i < j && j < |es| && es[i].Broadcast? && Issues(es, j) ==> es[i].oid <= Counter(es, j)
  {
    if forall i: nat, j: nat :: i < j ==> Passes(es, i, j) {
      forall i: nat, j: nat | i < j && Issues(es, j) && (Issues(es, i) || es[i].Broadcast?)
        ensures Issues(es, i) ==> Counter(es, i) < Counter(es, j)
        ensures es[i].Broadcast? ==> es[i].oid <= Counter(es, j)
      {
        assert forall k: nat :: i <= k < j && Issues(es, k) ==> Passes(es, k, j);
        CounterGrows(es, i, j);
      }
    } else {
      var i: nat, j: nat :| i < j && !Passes(es, i, j);
      assert Counter(es, j) <= MAX;
    }
  }

  /**
   Once the largest i32 has been handed out the counter has wrapped: one more broadcast and poll hand out an id
   that is not larger.
   */
  lemma ExhaustedCounterRepeats(es: Trace, i: nat)
    requires InRange(es) && Issues(es, i) && Counter(es, i) == MAX
    ensures InRange(es + [Broadcast(1), Polled]) && !Increasing(es + [Broadcast(1), Polled])
  {
    var more := es + [Broadcast(1), Polled];
    CounterPrefix(es, more, i);
    CounterPrefix(es, more, |es|);
    assert Issues(more, i);
    assert more[|es|] == Broadcast(1);
    assert Counter(more, |es| + 1) >= 1;
    assert Issues(more, |es| + 1);
    assert i < |es| + 1;
  }

  lemma {:induction false} CounterPrefix(es: Trace, more: Trace, n: nat)
    requires n <= |es| <= |more| && InRange(es) && InRange(more) && more[..|es|] == es
    ensures Counter(more, n) == Counter(es, n)
  {
    if n > 0 {
      CounterPrefix(es, more, n - 1);
      assert more[n - 1] == more[..|es|][n - 1];
    }
  }
}
