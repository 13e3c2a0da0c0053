/** Counting finite sets. */
module Sets {

  lemma {:induction false} SubsetIsNoLarger<T>(a: set<T>, b: set<T>)
    requires a <= b
    ensures |a| <= |b| && (|a| == |b| ==> a == b)
  {
    if a != {} {
      var k :| k in a;
      SubsetIsNoLarger(a - {k}, b - {k});
      assert a == (a - {k}) + {k} && b == (b - {k}) + {k};
    } else if |b| == 0 {
      assert b == {};
    }
  }
}
