/** Sizes of finite sets. */
module Sets {

  lemma {:induction false} NoLarger<T>(a: set<T>, b: set<T>)
    requires a <= b
    ensures |a| <= |b|
  {
    if x :| x in a { NoLarger(a - {x}, b - {x}); }
  }

  lemma SameSize<T>(a: set<T>, b: set<T>)
    requires a <= b && |a| == |b|
    ensures a == b
  {
    forall x | x in b ensures x in a {
      if x !in a { NoLarger(a, b - {x}); }
    }
  }

  ghost function Numbers(n: nat): (s: set<nat>)
    ensures |s| == n && forall p :: p in s <==> 1 <= p <= n
  {
    if n == 0 then {} else
      var rest := Numbers(n - 1);
      assert n !in rest;
      rest + {n}
  }
}
