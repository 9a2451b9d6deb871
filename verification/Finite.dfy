/** Sizes of finite sets. */
module Finite {
  lemma {:induction false} SubsetSize<T>(a: set<T>, b: set<T>)
    requires a <= b
    ensures |a| <= |b|
    decreases |a|
  {
    if a != {} {
      var x :| x in a;
      SubsetSize(a - {x}, b - {x});
      assert |a| == |a - {x}| + 1 && |b| == |b - {x}| + 1;
    }
  }
}
