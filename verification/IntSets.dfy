/** Finite sets of integers. */
module IntSets {

  lemma {:induction false} RangeSize(s: set<int>, lo: int, n: nat)
    requires forall i :: i in s ==> lo <= i < lo + n
    ensures |s| <= n
  {
    if n == 0 {
      assert forall i :: i !in s;
    } else {
      RangeSize(s - {lo + n - 1}, lo, n - 1);
    }
  }
}
