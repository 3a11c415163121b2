/** Paths and reachability over an arbitrary edge relation. */
module Graphs {

  ghost predicate IsPath<T(!new)>(e: iset<(T, T)>, p: seq<T>) {
    |p| > 0 && forall i :: 0 <= i < |p| - 1 ==> (p[i], p[i + 1]) in e
  }

  ghost predicate IsPathBetween<T(!new)>(e: iset<(T, T)>, p: seq<T>, u: T, v: T) {
    IsPath(e, p) && p[0] == u && p[|p| - 1] == v
  }

  /** `v` is `u` or can be reached from it along the edges. */
  ghost predicate Reach<T(!new)>(e: iset<(T, T)>, u: T, v: T) {
    exists p :: IsPathBetween(e, p, u, v)
  }

  ghost predicate Mutual<T(!new)>(e: iset<(T, T)>, u: T, v: T) {
    Reach(e, u, v) && Reach(e, v, u)
  }

  lemma ReachRefl<T(!new)>(e: iset<(T, T)>, u: T)
    ensures Reach(e, u, u)
  {
    assert IsPathBetween(e, [u], u, u);
  }

  lemma ReachEdge<T(!new)>(e: iset<(T, T)>, u: T, v: T)
    requires (u, v) in e
    ensures Reach(e, u, v)
  {
    assert IsPathBetween(e, [u, v], u, v);
  }

  lemma ReachTrans<T(!new)>(e: iset<(T, T)>, u: T, v: T, w: T)
    requires Reach(e, u, v) && Reach(e, v, w)
    ensures Reach(e, u, w)
  {
    var p :| IsPathBetween(e, p, u, v);
    var q :| IsPathBetween(e, q, v, w);
    var r := p + q[1..];
    forall i | 0 <= i < |r| - 1
      ensures (r[i], r[i + 1]) in e
    {
      if i >= |p| - 1 {
        assert r[i] == q[i - |p| + 1] && r[i + 1] == q[i - |p| + 2];
      }
    }
    assert IsPathBetween(e, r, u, w);
  }

  /** A set closed under the edges contains everything its members reach. */
  lemma ReachStaysInClosed<T(!new)>(e: iset<(T, T)>, s: iset<T>, u: T, v: T)
    requires u in s && Reach(e, u, v)
    requires forall x, y :: x in s && (x, y) in e ==> y in s
    ensures v in s
  {
    var p :| IsPathBetween(e, p, u, v);
    var i := 0;
    while i < |p| - 1
      invariant 0 <= i < |p| && p[i] in s
    {
      i := i + 1;
    }
  }

  /** Reachability only grows with the edge relation. */
  lemma ReachMonotone<T(!new)>(e: iset<(T, T)>, f: iset<(T, T)>, u: T, v: T)
    requires e <= f && Reach(e, u, v)
    ensures Reach(f, u, v)
  {
    var p :| IsPathBetween(e, p, u, v);
    assert IsPathBetween(f, p, u, v);
  }
}
