/** Shared by the other modules: an optional value, and facts about set sizes and products. */
module Common {

  datatype Option<+T> = None | Some(value: T)

  lemma SubsetSize<T>(a: set<T>, b: set<T>)
    requires a <= b
    ensures |a| <= |b|
    ensures a < b ==> |a| < |b|
  {
    assert b == a + (b - a);
    assert |b| == |a| + |b - a|;
    if a < b {
      var x :| x in b - a;
      assert |b - a| > 0;
    }
  }

  lemma UnionSize<T>(a: set<T>, b: set<T>)
    ensures |a + b| <= |a| + |b|
  {
    assert a + b == a + (b - a);
    SubsetSize(b - a, b);
  }

  lemma TimesMonotone(a: int, b: int, x: int)
    requires x > 0
    ensures a <= b ==> a * x <= b * x
  {
    if a <= b {
      assert (b - a) * x >= 0;
    }
  }

  lemma WholeQuotient(n: int, p: int)
    requires p > 0
    ensures (n * p) % p == 0 && (n * p) / p == n
  {
    var q, r := (n * p) / p, (n * p) % p;
    assert (n - q) * p == r;
    TimesMonotone(1, n - q, p);
    TimesMonotone(n - q, -1, p);
  }
}
