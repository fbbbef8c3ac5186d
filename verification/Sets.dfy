/** Finite sets. */
module Sets {
  lemma SomeIn(s: set<int>)
    ensures s == {} || exists y :: y in s
  {
    if !exists y :: y in s {
      assert s <= {};
    }
  }

  lemma SubsetSame<T>(a: set<T>, b: set<T>)
    requires a <= b && |a| == |b|
    ensures a == b
  {
    assert |b - a| == |b| - |a|;
    assert b == a + (b - a);
  }

  lemma SubsetSize<T>(a: set<T>, b: set<T>)
    requires a <= b
    ensures |a| <= |b|
  {
    assert b == a + (b - a);
  }

  /** The integers from 0 to n - 1. */
  ghost function Below(n: nat): (r: set<int>)
    ensures |r| == n && forall l :: l in r <==> 0 <= l < n
  {
    if n == 0 then {} else Below(n - 1) + {n - 1}
  }
}
