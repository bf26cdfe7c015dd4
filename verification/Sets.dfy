// Sizes of finite sets, for the termination of fixed-point loops.
module Sets {

  lemma ProperSubset(a: set<nat>, b: set<nat>)
    requires a < b
    ensures |a| < |b|
  {
    var x :| x in b && x !in a;
    SubsetSize(a, b - {x});
  }

  lemma SubsetSize(a: set<nat>, b: set<nat>)
    requires a <= b
    ensures |a| <= |b|
  {
    if a != {} {
      var x :| x in a;
      SubsetSize(a - {x}, b - {x});
    }
  }

  lemma LargerLeavesLess(all: set<nat>, a: set<nat>, b: set<nat>)
    requires a <= b <= all
    ensures |all - b| <= |all - a| && (a != b ==> |all - b| < |all - a|)
  {
    assert all - a == (all - b) + (b - a);
    assert |all - a| == |all - b| + |b - a|;
  }
}
