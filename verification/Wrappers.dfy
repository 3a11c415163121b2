/** Optional values, failing computations and bounds, shared by every module. */
module Wrappers {
  datatype Option<+T> = None | Some(value: T)

  /** Every error of the source is one failure value here. */
  datatype Result<+T> = Success(value: T) | Failure

  ghost predicate Distinct<T>(s: seq<T>) {
    forall i, j :: 0 <= i < j < |s| ==> s[i] != s[j]
  }

  /** Finitely many numbers have a bound. */
  lemma {:induction false} HasBound(s: set<nat>) returns (b: nat)
    ensures forall x :: x in s ==> x <= b
    decreases |s|
  {
    if s == {} {
      b := 0;
    } else {
      var x :| x in s;
      b := HasBound(s - {x});
      b := if x > b then x else b;
      assert forall y :: y in s ==> y == x || y in s - {x};
    }
  }
}
