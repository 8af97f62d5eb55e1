/** Facts about the sizes of finite sets of thread indices. */
module Cardinality {

  lemma SubsetSize(a: set<nat>, b: set<nat>)
    requires a <= b
    ensures |a| <= |b|
  {
    if a != {} {
      var x :| x in a;
      SubsetSize(a - {x}, b - {x});
    }
  }

  lemma SubsetSmaller(a: set<nat>, b: set<nat>)
    requires a < b
    ensures |a| < |b|
  {
    var x :| x in b && x !in a;
    SubsetSize(a, b - {x});
  }

  lemma SubsetCardinality(a: set<nat>, n: nat)
    requires forall x :: x in a ==> x < n
    ensures |a| <= n
  {
    if n > 0 {
      SubsetCardinality(a - {n - 1}, n - 1);
    } else {
      assert a == {};
    }
  }
}
