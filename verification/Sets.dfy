/** Sizes of finite sets, compared member by member. */
module Sets {

  lemma {:induction false} SubsetSize<T>(a: set<T>, b: set<T>)
    requires a <= b
    ensures |a| <= |b|
  {
    if a != {} {
      var x :| x in a;
      SubsetSize(a - {x}, b - {x});
    }
  }

  lemma SameSize<T>(a: set<T>, b: set<T>)
    requires forall x :: x in a <==> x in b
    ensures |a| == |b|
  {
    assert a == b;
  }

  lemma OneMore<T>(a: set<T>, b: set<T>, y: T)
    requires y !in a && forall x :: x in b <==> x in a || x == y
    ensures |b| == |a| + 1
  {
    assert b == a + {y};
  }
}
