/** Events with the time at which they happen, for the protocols whose state is a function of such a trace. */
module Clock {

  datatype TimedEvent<+E> = At(now: nat, ev: E)

  /** The clock never goes back. */
  ghost predicate ClockMonotone<E>(es: seq<TimedEvent<E>>)
  {
    forall i, j :: 0 <= i <= j < |es| ==> es[i].now <= es[j].now
  }
}
