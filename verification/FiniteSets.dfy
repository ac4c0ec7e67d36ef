/** Counting finite sets. */
module FiniteSets {

  lemma {:induction false} SubsetSize<T>(a: set<T>, b: set<T>)
    requires a <= b
    ensures |a| <= |b|
    decreases |a|
  {
    if a != {} {
      var x :| x in a;
      SubsetSize(a - {x}, b - {x});
    }
  }

  lemma EqualSets<T>(a: set<T>, b: set<T>)
    requires a <= b && |a| == |b|
    ensures a == b
  {
    if x :| x in b && x !in a {
      SubsetSize(a, b - {x});
    }
  }

  /** Finitely many numbers leave one over. */
  lemma {:induction false} FreshNat(a: set<nat>) returns (n: nat)
    ensures forall x :: x in a ==> x < n
    decreases |a|
  {
    n := 0;
    if a != {} {
      var x :| x in a;
      assert forall y :: y in a ==> y == x || y in a - {x};
      var m := FreshNat(a - {x});
      n := if x < m then m else x + 1;
    }
  }
}
