/** The generalized Kahn sort (query/graph.rs): a topological order cut into strata by poisoned edges. */
module Kahn {
  import opened Wrappers
  import opened Graphs

  /** For each node, its successors, with `true` for a poisoned edge. */
  type StratifiedGraph = map<nat, map<nat, bool>>

  ghost predicate IsGraphOn(g: StratifiedGraph, n: nat) {
    forall u :: u in g ==> u < n && forall v :: v in g[u] ==> v < n
  }

  ghost predicate Edge(g: StratifiedGraph, u: nat, v: nat) {
    u in g && v in g[u]
  }

  ghost function Edges(g: StratifiedGraph): iset<(nat, nat)> {
    iset u: nat, v: nat | Edge(g, u, v) :: (u, v)
  }

  /** 1 for a poisoned edge and 0 for any other. */
  ghost function Weight(g: StratifiedGraph, u: nat, v: nat): nat {
    if Edge(g, u, v) && g[u][v] then 1 else 0
  }

  /** The number of poisoned edges along a path. */
  ghost function PathWeight(g: StratifiedGraph, p: seq<nat>): nat {
    if |p| <= 1 then 0 else PathWeight(g, p[..|p| - 1]) + Weight(g, p[|p| - 2], p[|p| - 1])
  }

  ghost predicate Acyclic(e: iset<(nat, nat)>) {
    forall p :: IsPath(e, p) && |p| > 1 ==> p[0] != p[|p| - 1]
  }

  ghost predicate PathInto(g: StratifiedGraph, p: seq<nat>, v: nat) {
    IsPath(Edges(g), p) && p[|p| - 1] == v
  }

  /** `k` is the largest number of poisoned edges on any path that ends in `v`. */
  ghost predicate IsLevel(g: StratifiedGraph, v: nat, k: nat) {
    && (forall p :: PathInto(g, p, v) ==> PathWeight(g, p) <= k)
    && (exists p :: PathInto(g, p, v) && PathWeight(g, p) == k)
  }

  ghost function Preds(g: StratifiedGraph, v: nat): set<nat> {
    set u | u in g && v in g[u]
  }

  // ----- level equations -----

  /** `k` bounds what the predecessors of `v` ask of it, and is asked by one of them unless it is 0. */
  ghost predicate Asked(g: StratifiedGraph, lv: map<nat, nat>, v: nat, k: nat) {
    && (forall u :: u in Preds(g, v) ==> u in lv && lv[u] + Weight(g, u, v) <= k)
    && (k == 0 || exists u :: u in Preds(g, v) && lv[u] + Weight(g, u, v) == k)
  }

  ghost predicate Levelled(g: StratifiedGraph, lv: map<nat, nat>) {
    forall v {:trigger Asked(g, lv, v, lv[v])} :: v in lv ==> Asked(g, lv, v, lv[v])
  }

  lemma LevelAsked(g: StratifiedGraph, lv: map<nat, nat>, v: nat)
    requires Levelled(g, lv) && v in lv
    ensures forall u :: u in Preds(g, v) ==> u in lv && lv[u] + Weight(g, u, v) <= lv[v]
  {
    assert Asked(g, lv, v, lv[v]);
  }

  lemma {:induction false} LevelBounds(g: StratifiedGraph, lv: map<nat, nat>, p: seq<nat>, v: nat)
    requires Levelled(g, lv) && v in lv && PathInto(g, p, v)
    ensures PathWeight(g, p) <= lv[v]
    decreases |p|
  {
    if |p| > 1 {
      var u, q := p[|p| - 2], p[..|p| - 1];
      assert (p[|p| - 2], p[|p| - 2 + 1]) in Edges(g);
      assert u in Preds(g, v);
      assert IsPath(Edges(g), q);
      LevelAsked(g, lv, v);
      LevelBounds(g, lv, q, u);
    }
  }

  /** Following the edges that ask for the level leads back along a path of exactly that weight. */
  lemma {:induction false} LevelAttained(g: StratifiedGraph, lv: map<nat, nat>, order: seq<nat>, i: nat) returns (p: seq<nat>)
    requires Levelled(g, lv) && i < |order| && order[i] in lv
    requires forall j :: 0 <= j < |order| ==> order[j] in lv && Preds(g, order[j]) <= (set k | 0 <= k < j :: order[k])
    ensures PathInto(g, p, order[i]) && PathWeight(g, p) == lv[order[i]]
    decreases i
  {
    var v := order[i];
    if lv[v] == 0 {
      p := [v];
    } else {
      assert Asked(g, lv, v, lv[v]);
      var u :| u in Preds(g, v) && lv[u] + Weight(g, u, v) == lv[v];
      var k :| 0 <= k < i && order[k] == u;
      var q := LevelAttained(g, lv, order, k);
      p := q + [v];
      assert p[..|p| - 1] == q;
      assert (u, v) in Edges(g);
    }
  }

  // ----- the state of the sort -----

  /** Every node comes after all its predecessors. */
  ghost predicate Topological(g: StratifiedGraph, order: seq<nat>) {
    forall j :: 0 <= j < |order| ==> forall u :: u in Preds(g, order[j]) ==> u in order[..j]
  }

  /** The nodes placed so far, in order, with their strata. */
  ghost predicate Placed(g: StratifiedGraph, n: nat, order: seq<nat>, lv: map<nat, nat>, cur: nat) {
    && Distinct(order)
    && (forall v :: v in order <==> v in lv)
    && (forall v :: v in lv ==> v < n && lv[v] <= cur)
    && Topological(g, order)
    && Levelled(g, lv)
  }

  ghost predicate Degrees(g: StratifiedGraph, n: nat, lv: map<nat, nat>, deg: seq<nat>) {
    |deg| == n && forall v :: 0 <= v < n ==> deg[v] == |Preds(g, v) - lv.Keys|
  }

  ghost predicate Safe(g: StratifiedGraph, n: nat, lv: map<nat, nat>, cur: nat, safe: seq<nat>) {
    Distinct(safe) && forall v :: v in safe ==> v < n && v !in lv && Asked(g, lv, v, cur)
  }

  /** Some node of stratum `cur` has a poisoned edge to `v`. */
  ghost predicate Poisoned(g: StratifiedGraph, lv: map<nat, nat>, cur: nat, v: nat) {
    exists u :: u in lv && lv[u] == cur && u in Preds(g, v) && g[u][v]
  }

  ghost predicate Pending(g: StratifiedGraph, n: nat, lv: map<nat, nat>, safe: seq<nat>, unsafe: set<nat>) {
    forall v :: 0 <= v < n && v !in lv && Preds(g, v) <= lv.Keys ==> v in safe || v in unsafe
  }

  ghost predicate Inv(g: StratifiedGraph, n: nat, order: seq<nat>, lv: map<nat, nat>, cur: nat,
                      deg: seq<nat>, safe: seq<nat>, unsafe: set<nat>) {
    && IsGraphOn(g, n)
    && Placed(g, n, order, lv, cur)
    && Degrees(g, n, lv, deg)
    && Safe(g, n, lv, cur, safe)
    && (forall v: nat :: v in unsafe <==> Poisoned(g, lv, cur, v))
    && Pending(g, n, lv, safe, unsafe)
  }

  // ----- placing one node -----

  /** How removing `x` changes the counters and the two waiting lists. */
  ghost predicate Removes(g: StratifiedGraph, x: nat, deg: seq<nat>, safe: seq<nat>, unsafe: set<nat>,
                          deg': seq<nat>, safe': seq<nat>, unsafe': set<nat>) {
    && |deg'| == |deg|
    && (forall v: nat :: v < |deg| ==> deg'[v] + (if Edge(g, x, v) then 1 else 0) == deg[v])
    && (forall v: nat :: v in unsafe' <==> v in unsafe || (Edge(g, x, v) && g[x][v]))
    && safe <= safe' && Distinct(safe'[|safe|..])
    && (forall v: nat :: v in safe'[|safe|..] <==> Edge(g, x, v) && v < |deg| && deg'[v] == 0 && v !in unsafe')
  }

  lemma RemovesParts(g: StratifiedGraph, x: nat, deg: seq<nat>, safe: seq<nat>, unsafe: set<nat>,
                     deg': seq<nat>, safe': seq<nat>, unsafe': set<nat>)
    requires Removes(g, x, deg, safe, unsafe, deg', safe', unsafe')
    ensures |deg'| == |deg|
    ensures forall v: nat :: v < |deg| ==> deg'[v] + (if Edge(g, x, v) then 1 else 0) == deg[v]
    ensures forall v: nat :: v in unsafe' <==> v in unsafe || (Edge(g, x, v) && g[x][v])
  {
  }

  lemma DegreesLength(g: StratifiedGraph, n: nat, lv: map<nat, nat>, deg: seq<nat>)
    requires Degrees(g, n, lv, deg)
    ensures |deg| == n
  {
  }

  lemma AskedStable(g: StratifiedGraph, lv: map<nat, nat>, v: nat, k: nat, x: nat, cur: nat)
    requires Asked(g, lv, v, k) && x !in lv
    ensures Asked(g, lv[x := cur], v, k)
  {
    if k != 0 {
      var u :| u in Preds(g, v) && lv[u] + Weight(g, u, v) == k;
      assert lv[x := cur][u] + Weight(g, u, v) == k;
    }
  }

  lemma PlaceOrder(g: StratifiedGraph, n: nat, order: seq<nat>, lv: map<nat, nat>, cur: nat, x: nat)
    requires Placed(g, n, order, lv, cur) && x < n && x !in lv && Asked(g, lv, x, cur)
    ensures Placed(g, n, order + [x], lv[x := cur], cur)
  {
    var order', lv' := order + [x], lv[x := cur];
    forall v | v in lv'
      ensures Asked(g, lv', v, lv'[v])
    {
      if v == x {
        AskedStable(g, lv, x, cur, x, cur);
      } else {
        assert Asked(g, lv, v, lv[v]);
        AskedStable(g, lv, v, lv[v], x, cur);
      }
    }
    forall j | 0 <= j < |order'|
      ensures forall u :: u in Preds(g, order'[j]) ==> u in order'[..j]
    {
      if j < |order| {
        assert order'[..j] == order[..j];
      } else {
        assert order'[..j] == order;
      }
    }
  }

  lemma PlaceDegrees(g: StratifiedGraph, n: nat, lv: map<nat, nat>, cur: nat, x: nat, deg: seq<nat>, deg': seq<nat>)
    requires Degrees(g, n, lv, deg) && x !in lv && |deg'| == n
    requires forall v: nat :: v < n ==> deg'[v] + (if Edge(g, x, v) then 1 else 0) == deg[v]
    ensures Degrees(g, n, lv[x := cur], deg')
  {
    forall v | 0 <= v < n
      ensures deg'[v] == |Preds(g, v) - lv[x := cur].Keys|
    {
      IsPred(g, x, v);
      OneLess(Preds(g, v), lv.Keys, x);
      hide Preds, Edge;
      assert lv[x := cur].Keys == lv.Keys + {x};
    }
  }

  lemma IsPred(g: StratifiedGraph, x: nat, v: nat)
    ensures x in Preds(g, v) <==> Edge(g, x, v)
  {
  }

  lemma OneLess(a: set<nat>, b: set<nat>, x: nat)
    requires x !in b
    ensures |a - b| == |a - (b + {x})| + (if x in a then 1 else 0)
  {
    if x in a {
      assert a - b == (a - (b + {x})) + {x};
    } else {
      assert a - b == a - (b + {x});
    }
  }

  lemma PlaceUnsafe(g: StratifiedGraph, lv: map<nat, nat>, cur: nat, x: nat, unsafe: set<nat>, unsafe': set<nat>)
    requires x !in lv
    requires forall v: nat :: v in unsafe <==> Poisoned(g, lv, cur, v)
    requires forall v: nat :: v in unsafe' <==> v in unsafe || (Edge(g, x, v) && g[x][v])
    ensures forall v: nat :: v in unsafe' <==> Poisoned(g, lv[x := cur], cur, v)
  {
    var lv' := lv[x := cur];
    forall v: nat
      ensures v in unsafe' <==> Poisoned(g, lv', cur, v)
    {
      if v in unsafe {
        var u :| u in lv && lv[u] == cur && u in Preds(g, v) && g[u][v];
        assert u in lv' && lv'[u] == cur;
      } else if v in unsafe' {
        assert x in lv' && lv'[x] == cur && x in Preds(g, v);
      }
    }
  }

  /** A successor whose last predecessor was `x`, and which nothing poisons, belongs to the same stratum. */
  lemma PlaceAsked(g: StratifiedGraph, n: nat, lv: map<nat, nat>, cur: nat, x: nat, v: nat)
    requires forall u :: u in lv ==> lv[u] <= cur
    requires x !in lv && Edge(g, x, v) && Preds(g, v) <= lv[x := cur].Keys
    requires !Poisoned(g, lv[x := cur], cur, v)
    ensures Asked(g, lv[x := cur], v, cur)
  {
    var lv' := lv[x := cur];
    assert x in Preds(g, v) && lv'[x] == cur;
    forall u | u in Preds(g, v)
      ensures u in lv' && lv'[u] + Weight(g, u, v) <= cur
    {
      assert lv'[u] == cur ==> !g[u][v];
    }
    assert lv'[x] + Weight(g, x, v) == cur;
  }

  lemma NoneLeft(a: set<nat>, b: set<nat>)
    requires |a - b| == 0
    ensures a <= b
  {
    assert a - b == {};
    assert forall x :: x in a && x !in b ==> x in a - b;
  }

  lemma PlaceSafeOld(g: StratifiedGraph, n: nat, lv: map<nat, nat>, cur: nat, safe: seq<nat>, x: nat, v: nat)
    requires Safe(g, n, lv, cur, safe + [x]) && v in safe
    ensures v < n && v !in lv[x := cur] && Asked(g, lv[x := cur], v, cur) && !Edge(g, x, v)
  {
    var i :| 0 <= i < |safe| && safe[i] == v;
    assert (safe + [x])[i] == v && (safe + [x])[|safe|] == x;
    assert v in safe + [x] && x in safe + [x];
    AskedStable(g, lv, v, cur, x, cur);
    assert x !in Preds(g, v);
  }

  lemma PlaceSafeNew(g: StratifiedGraph, n: nat, order: seq<nat>, lv: map<nat, nat>, cur: nat, x: nat, v: nat)
    requires IsGraphOn(g, n) && Placed(g, n, order, lv, cur) && x !in lv && Asked(g, lv, x, cur)
    requires Edge(g, x, v) && |Preds(g, v) - lv[x := cur].Keys| == 0 && !Poisoned(g, lv[x := cur], cur, v)
    ensures v < n && v !in lv[x := cur] && Asked(g, lv[x := cur], v, cur)
  {
    NoneLeft(Preds(g, v), lv[x := cur].Keys);
    NotPlacedYet(g, n, order, lv, cur, x, v);
    PlaceAsked(g, n, lv, cur, x, v);
  }

  lemma PlaceSafe(g: StratifiedGraph, n: nat, order: seq<nat>, lv: map<nat, nat>, cur: nat, x: nat,
                  deg: seq<nat>, safe: seq<nat>, unsafe: set<nat>,
                  deg': seq<nat>, safe': seq<nat>, unsafe': set<nat>)
    requires IsGraphOn(g, n) && Placed(g, n, order, lv, cur) && |deg| == n && Safe(g, n, lv, cur, safe + [x])
    requires Removes(g, x, deg, safe, unsafe, deg', safe', unsafe')
    requires Degrees(g, n, lv[x := cur], deg')
    requires forall v: nat :: v in unsafe' <==> Poisoned(g, lv[x := cur], cur, v)
    ensures Safe(g, n, lv[x := cur], cur, safe')
  {
    hide Asked, Poisoned, Placed, Preds;
    var lv' := lv[x := cur];
    var news := safe'[|safe|..];
    assert safe' == safe + news;
    assert x in safe + [x];
    forall v | v in safe
      ensures v < n && v !in lv' && Asked(g, lv', v, cur) && !Edge(g, x, v)
    {
      PlaceSafeOld(g, n, lv, cur, safe, x, v);
    }
    forall v | v in news
      ensures v < n && v !in lv' && Asked(g, lv', v, cur)
    {
      PlaceSafeNew(g, n, order, lv, cur, x, v);
    }
    assert forall i :: 0 <= i < |safe| ==> (safe + [x])[i] == safe[i] && safe'[i] == safe[i] && safe[i] in safe;
    assert forall i :: |safe| <= i < |safe'| ==> safe'[i] == news[i - |safe|] && safe'[i] in news;
  }

  /** What `x` points to is placed after `x`. */
  lemma NotPlacedYet(g: StratifiedGraph, n: nat, order: seq<nat>, lv: map<nat, nat>, cur: nat, x: nat, v: nat)
    requires Placed(g, n, order, lv, cur) && x !in lv && Edge(g, x, v) && Asked(g, lv, x, cur)
    ensures v !in lv[x := cur]
  {
    assert x in Preds(g, v);
    if v in lv {
      LevelAsked(g, lv, v);
    }
  }

  lemma PlacePending(g: StratifiedGraph, n: nat, lv: map<nat, nat>, cur: nat, x: nat,
                     deg: seq<nat>, safe: seq<nat>, unsafe: set<nat>,
                     deg': seq<nat>, safe': seq<nat>, unsafe': set<nat>)
    requires Pending(g, n, lv, safe + [x], unsafe) && |deg| == n
    requires Removes(g, x, deg, safe, unsafe, deg', safe', unsafe')
    requires Degrees(g, n, lv[x := cur], deg')
    ensures Pending(g, n, lv[x := cur], safe', unsafe')
  {
    var lv' := lv[x := cur];
    assert safe' == safe + safe'[|safe|..];
    forall v | 0 <= v < n && v !in lv' && Preds(g, v) <= lv'.Keys
      ensures v in safe' || v in unsafe'
    {
      if Edge(g, x, v) {
        assert Preds(g, v) - lv'.Keys == {};
      } else {
        assert x !in Preds(g, v);
        assert v in safe + [x] || v in unsafe;
      }
    }
  }

  lemma PlaceStep(g: StratifiedGraph, n: nat, order: seq<nat>, lv: map<nat, nat>, cur: nat, x: nat,
                  deg: seq<nat>, safe: seq<nat>, unsafe: set<nat>,
                  deg': seq<nat>, safe': seq<nat>, unsafe': set<nat>)
    requires Inv(g, n, order, lv, cur, deg, safe + [x], unsafe)
    requires Removes(g, x, deg, safe, unsafe, deg', safe', unsafe')
    ensures Inv(g, n, order + [x], lv[x := cur], cur, deg', safe', unsafe')
  {
    hide Asked, Poisoned, Preds, Degrees, Pending, Removes;
    assert x in safe + [x];
    PlaceOrder(g, n, order, lv, cur, x);
    RemovesParts(g, x, deg, safe, unsafe, deg', safe', unsafe');
    DegreesLength(g, n, lv, deg);
    PlaceDegrees(g, n, lv, cur, x, deg, deg');
    PlaceUnsafe(g, lv, cur, x, unsafe, unsafe');
    PlaceSafe(g, n, order, lv, cur, x, deg, safe, unsafe, deg', safe', unsafe');
    PlacePending(g, n, lv, cur, x, deg, safe, unsafe, deg', safe', unsafe');
  }

  // ----- starting a new stratum -----

  lemma PoisonedAsked(g: StratifiedGraph, n: nat, lv: map<nat, nat>, cur: nat, v: nat)
    requires forall u :: u in lv ==> lv[u] <= cur
    requires Poisoned(g, lv, cur, v) && Preds(g, v) <= lv.Keys
    ensures Asked(g, lv, v, cur + 1)
  {
    var u :| u in lv && lv[u] == cur && u in Preds(g, v) && g[u][v];
    assert lv[u] + Weight(g, u, v) == cur + 1;
  }

  lemma PoisonedNotPlaced(g: StratifiedGraph, n: nat, order: seq<nat>, lv: map<nat, nat>, cur: nat, v: nat)
    requires IsGraphOn(g, n) && Placed(g, n, order, lv, cur) && Poisoned(g, lv, cur, v)
    ensures v < n && v !in lv
  {
    var u :| u in lv && lv[u] == cur && u in Preds(g, v) && g[u][v];
    if v in lv {
      LevelAsked(g, lv, v);
    }
  }

  lemma StratumStep(g: StratifiedGraph, n: nat, order: seq<nat>, lv: map<nat, nat>, cur: nat,
                    deg: seq<nat>, unsafe: set<nat>, safe': seq<nat>)
    requires Inv(g, n, order, lv, cur, deg, [], unsafe)
    requires Distinct(safe') && forall v: nat :: v in safe' <==> v in unsafe && v < n && deg[v] == 0
    ensures Inv(g, n, order, lv, cur + 1, deg, safe', {})
  {
    hide Asked, Preds, Poisoned, Placed, Pending;
    forall v | v in safe'
      ensures v < n && v !in lv && Asked(g, lv, v, cur + 1)
    {
      StratumSafe(g, n, order, lv, cur, v);
    }
    var none: set<nat> := {};
    forall v: nat
      ensures v in none <==> Poisoned(g, lv, cur + 1, v)
    {
      StratumUnsafe(g, n, order, lv, cur, v);
    }
    assert Placed(g, n, order, lv, cur + 1) by { PlacedLater(g, n, order, lv, cur); }
    StratumPending(g, n, lv, deg, unsafe, safe');
  }

  lemma StratumPending(g: StratifiedGraph, n: nat, lv: map<nat, nat>, deg: seq<nat>, unsafe: set<nat>, safe': seq<nat>)
    requires Degrees(g, n, lv, deg) && Pending(g, n, lv, [], unsafe)
    requires forall v: nat :: v in safe' <==> v in unsafe && v < n && deg[v] == 0
    ensures Pending(g, n, lv, safe', {})
  {
    forall v | 0 <= v < n && v !in lv && Preds(g, v) <= lv.Keys
      ensures v in safe'
    {
      assert Preds(g, v) - lv.Keys == {};
    }
  }

  lemma StratumSafe(g: StratifiedGraph, n: nat, order: seq<nat>, lv: map<nat, nat>, cur: nat, v: nat)
    requires IsGraphOn(g, n) && Placed(g, n, order, lv, cur) && Poisoned(g, lv, cur, v)
    requires |Preds(g, v) - lv.Keys| == 0
    ensures v < n && v !in lv && Asked(g, lv, v, cur + 1)
  {
    NoneLeft(Preds(g, v), lv.Keys);
    PoisonedNotPlaced(g, n, order, lv, cur, v);
    PoisonedAsked(g, n, lv, cur, v);
  }

  lemma PlacedLater(g: StratifiedGraph, n: nat, order: seq<nat>, lv: map<nat, nat>, cur: nat)
    requires Placed(g, n, order, lv, cur)
    ensures Placed(g, n, order, lv, cur + 1)
  {
  }

  lemma StratumUnsafe(g: StratifiedGraph, n: nat, order: seq<nat>, lv: map<nat, nat>, cur: nat, v: nat)
    requires Placed(g, n, order, lv, cur)
    ensures !Poisoned(g, lv, cur + 1, v)
  {
  }

  // ----- at the end every node is placed -----

  ghost predicate HasPredIn(g: StratifiedGraph, left: set<nat>, u: nat) {
    exists w :: w in left && w in Preds(g, u)
  }

  /** Unplaced nodes always have an unplaced predecessor, so walking back never stops. */
  lemma {:induction false} WalkBack(g: StratifiedGraph, left: set<nat>, v: nat, len: nat) returns (p: seq<nat>)
    requires v in left
    requires forall u {:trigger HasPredIn(g, left, u)} :: u in left ==> HasPredIn(g, left, u)
    ensures |p| == len + 1 && IsPath(Edges(g), p) && p[|p| - 1] == v && forall i :: 0 <= i < |p| ==> p[i] in left
    decreases len
  {
    if len == 0 {
      p := [v];
    } else {
      assert HasPredIn(g, left, v);
      var w :| w in left && w in Preds(g, v);
      var q := WalkBack(g, left, w, len - 1);
      p := q + [v];
      assert (w, v) in Edges(g);
    }
  }

  lemma {:induction false} PigeonHole(p: seq<nat>, s: set<nat>) returns (i: nat, j: nat)
    requires |p| > |s| && forall k :: 0 <= k < |p| ==> p[k] in s
    ensures i < j < |p| && p[i] == p[j]
    decreases |p|
  {
    var x := p[0];
    if k :| 1 <= k < |p| && p[k] == x {
      i, j := 0, k;
    } else {
      assert forall k :: 0 <= k < |p[1..]| ==> p[1..][k] == p[k + 1];
      i, j := PigeonHole(p[1..], s - {x});
      i, j := i + 1, j + 1;
    }
  }

  lemma PathSlice(e: iset<(nat, nat)>, p: seq<nat>, i: nat, j: nat)
    requires IsPath(e, p) && i <= j < |p|
    ensures IsPath(e, p[i..j + 1])
  {
    var q := p[i..j + 1];
    forall k | 0 <= k < |q| - 1
      ensures (q[k], q[k + 1]) in e
    {
      var l := i + k;
      assert (p[l], p[l + 1]) in e;
    }
  }

  lemma AllPlaced(g: StratifiedGraph, left: set<nat>)
    requires Acyclic(Edges(g))
    requires forall u {:trigger HasPredIn(g, left, u)} :: u in left ==> HasPredIn(g, left, u)
    ensures left == {}
  {
    if v :| v in left {
      var p := WalkBack(g, left, v, |left|);
      var i, j := PigeonHole(p, left);
      var q := p[i..j + 1];
      PathSlice(Edges(g), p, i, j);
    }
  }

  // ----- the sort itself -----

  function Flatten(ss: seq<seq<nat>>): seq<nat> {
    if ss == [] then [] else Flatten(ss[..|ss| - 1]) + ss[|ss| - 1]
  }

  /** `ret` and then `current` list the placed nodes, stratum by stratum. */
  ghost predicate Records(ret: seq<seq<nat>>, current: seq<nat>, order: seq<nat>, lv: map<nat, nat>) {
    && order == Flatten(ret) + current
    && (forall i, k :: 0 <= i < |ret| && 0 <= k < |ret[i]| ==> ret[i][k] in lv && lv[ret[i][k]] == i)
    && (forall k :: 0 <= k < |current| ==> current[k] in lv && lv[current[k]] == |ret|)
    && (forall v :: v in lv ==> if lv[v] < |ret| then v in ret[lv[v]] else v in current)
    && (forall i :: 0 <= i < |ret| ==> |ret[i]| > 0)
  }

  /** The strata hold every node once, in topological order, each at its level, and none is empty. */
  ghost predicate IsStratification(g: StratifiedGraph, n: nat, ret: seq<seq<nat>>) {
    && Distinct(Flatten(ret))
    && (forall v: nat :: v in Flatten(ret) <==> v < n)
    && Topological(g, Flatten(ret))
    && (forall i :: 0 <= i < |ret| ==> |ret[i]| > 0)
    && (forall i, k :: 0 <= i < |ret| && 0 <= k < |ret[i]| ==> ret[i][k] < n && IsLevel(g, ret[i][k], i))
  }

  method InDegrees(g: StratifiedGraph, n: nat) returns (deg: seq<nat>)
    requires IsGraphOn(g, n)
    ensures |deg| == n && forall v :: 0 <= v < n ==> deg[v] == |Preds(g, v)|
  {
    deg := seq(n, _ => 0);
    ghost var seen: set<nat> := {};
    for u := 0 to n
      invariant forall w: nat :: w in seen <==> w < u
      invariant |deg| == n && forall v :: 0 <= v < n ==> deg[v] == |Preds(g, v) * seen|
    {
      if u in g {
        deg := CountRow(g, n, u, deg, seen);
      } else {
        assert forall v :: Preds(g, v) * (seen + {u}) == Preds(g, v) * seen;
      }
      seen := seen + {u};
    }
    assert forall v :: Preds(g, v) * seen == Preds(g, v);
  }

  method CountRow(g: StratifiedGraph, n: nat, u: nat, deg: seq<nat>, ghost seen: set<nat>) returns (r: seq<nat>)
    requires IsGraphOn(g, n) && u in g && u !in seen
    requires |deg| == n && forall v :: 0 <= v < n ==> deg[v] == |Preds(g, v) * seen|
    ensures |r| == n && forall v :: 0 <= v < n ==> r[v] == |Preds(g, v) * (seen + {u})|
  {
    r := deg;
    for to := 0 to n
      invariant |r| == n
      invariant forall v :: 0 <= v < to ==> r[v] == |Preds(g, v) * (seen + {u})|
      invariant forall v :: to <= v < n ==> r[v] == deg[v]
    {
      if to in g[u] {
        assert Preds(g, to) * (seen + {u}) == Preds(g, to) * seen + {u};
        r := r[to := r[to] + 1];
      } else {
        assert Preds(g, to) * (seen + {u}) == Preds(g, to) * seen;
      }
    }
  }

  /** Follows the edges out of `x`, a node that has just been placed. */
  method RemoveEdges(g: StratifiedGraph, n: nat, x: nat, deg: seq<nat>, safe: seq<nat>, unsafe: set<nat>)
    returns (deg': seq<nat>, safe': seq<nat>, unsafe': set<nat>)
    requires IsGraphOn(g, n) && |deg| == n
    requires forall v: nat :: Edge(g, x, v) ==> v < n && deg[v] > 0
    ensures Removes(g, x, deg, safe, unsafe, deg', safe', unsafe')
  {
    deg', safe', unsafe' := deg, safe, unsafe;
    if x in g {
      ghost var news: seq<nat> := [];
      for nxt := 0 to n
        invariant |deg'| == n && safe' == safe + news && Distinct(news)
        invariant forall v: nat :: v < nxt ==> deg'[v] + (if Edge(g, x, v) then 1 else 0) == deg[v]
        invariant forall v: nat :: nxt <= v < n ==> deg'[v] == deg[v]
        invariant forall v: nat :: v in unsafe' <==> v in unsafe || (v < nxt && Edge(g, x, v) && g[x][v])
        invariant forall v: nat :: v in news <==> v < nxt && Edge(g, x, v) && deg'[v] == 0 && v !in unsafe'
      {
        if nxt in g[x] {
          deg' := deg'[nxt := deg'[nxt] - 1];
          if g[x][nxt] {
            unsafe' := unsafe' + {nxt};
          }
          if deg'[nxt] == 0 && nxt !in unsafe' {
            safe' := safe' + [nxt];
            news := news + [nxt];
          }
        }
      }
      assert safe'[|safe|..] == news;
    } else {
      assert safe'[|safe|..] == [];
    }
  }

  method ReadyNodes(n: nat, deg: seq<nat>, unsafe: set<nat>) returns (r: seq<nat>)
    requires |deg| == n
    ensures Distinct(r) && forall v: nat :: v in r <==> v in unsafe && v < n && deg[v] == 0
  {
    r := [];
    for v := 0 to n
      invariant Distinct(r) && forall w: nat :: w in r <==> w in unsafe && w < v && deg[w] == 0
    {
      if v in unsafe && deg[v] == 0 {
        r := r + [v];
      }
    }
  }

  method SourceNodes(n: nat, deg: seq<nat>) returns (r: seq<nat>)
    requires |deg| == n
    ensures Distinct(r) && forall v: nat :: v in r <==> v < n && deg[v] == 0
  {
    r := [];
    for v := 0 to n
      invariant Distinct(r) && forall w: nat :: w in r <==> w < v && deg[w] == 0
    {
      if deg[v] == 0 {
        r := r + [v];
      }
    }
  }

  lemma StartInv(g: StratifiedGraph, n: nat, deg: seq<nat>, safe: seq<nat>)
    requires IsGraphOn(g, n)
    requires |deg| == n && forall v :: 0 <= v < n ==> deg[v] == |Preds(g, v)|
    requires Distinct(safe) && forall v: nat :: v in safe <==> v < n && deg[v] == 0
    ensures Inv(g, n, [], map[], 0, deg, safe, {})
  {
    var lv: map<nat, nat> := map[];
    assert forall v :: Preds(g, v) - lv.Keys == Preds(g, v);
    forall v | v in safe
      ensures Asked(g, lv, v, 0)
    {
      NoneLeft(Preds(g, v), {});
    }
  }

  lemma RecordsNext(ret: seq<seq<nat>>, current: seq<nat>, order: seq<nat>, lv: map<nat, nat>)
    requires Records(ret, current, order, lv) && current != []
    requires forall v :: v in lv ==> lv[v] <= |ret|
    ensures Records(ret + [current], [], order, lv)
  {
    assert (ret + [current])[..|ret + [current]| - 1] == ret;
  }

  lemma RecordsPlace(ret: seq<seq<nat>>, current: seq<nat>, order: seq<nat>, lv: map<nat, nat>, x: nat)
    requires Records(ret, current, order, lv) && x !in lv
    ensures Records(ret, current + [x], order + [x], lv[x := |ret|])
  {
    assert order + [x] == Flatten(ret) + (current + [x]);
  }

  /** A stratum is only closed when a node of it poisons something, so it is not empty. */
  lemma StratumNotEmpty(g: StratifiedGraph, n: nat, ret: seq<seq<nat>>, current: seq<nat>, order: seq<nat>, lv: map<nat, nat>,
                        deg: seq<nat>, safe: seq<nat>, unsafe: set<nat>)
    requires Inv(g, n, order, lv, |ret|, deg, safe, unsafe) && Records(ret, current, order, lv)
    requires unsafe != {}
    ensures current != []
  {
    var v :| v in unsafe;
    var u :| u in lv && lv[u] == |ret| && u in Preds(g, v) && g[u][v];
  }

  lemma WaitsForAnother(g: StratifiedGraph, n: nat, lv: map<nat, nat>, left: set<nat>, u: nat)
    requires IsGraphOn(g, n) && Pending(g, n, lv, [], {}) && u < n && u !in lv
    requires forall v: nat :: v in left <==> v < n && v !in lv
    ensures HasPredIn(g, left, u)
  {
    assert !(Preds(g, u) <= lv.Keys);
    var w :| w in Preds(g, u) && w !in lv.Keys;
    assert w in left;
  }

  /** With nothing safe and nothing unsafe left, an acyclic graph is completely placed. */
  lemma NothingLeft(g: StratifiedGraph, n: nat, order: seq<nat>, lv: map<nat, nat>, cur: nat, deg: seq<nat>)
    requires Inv(g, n, order, lv, cur, deg, [], {}) && Acyclic(Edges(g))
    ensures forall v: nat :: v < n ==> v in lv
    ensures |deg| == n && forall v :: 0 <= v < n ==> deg[v] == 0
  {
    hide Placed, Safe, Poisoned, Acyclic, Preds;
    var left := set v: nat | v < n && v !in lv;
    forall u | u in left
      ensures HasPredIn(g, left, u)
    {
      WaitsForAnother(g, n, lv, left, u);
    }
    AllPlaced(g, left);
    assert forall v: nat :: v < n && v !in lv ==> v in left;
    forall v | 0 <= v < n
      ensures deg[v] == 0
    {
      NoneWaits(g, n, lv, v);
    }
  }

  lemma NoneWaits(g: StratifiedGraph, n: nat, lv: map<nat, nat>, v: nat)
    requires IsGraphOn(g, n) && forall u: nat :: u < n ==> u in lv
    ensures |Preds(g, v) - lv.Keys| == 0
  {
    assert Preds(g, v) - lv.Keys == {};
  }

  lemma Stratified(g: StratifiedGraph, n: nat, ret: seq<seq<nat>>, order: seq<nat>, lv: map<nat, nat>, cur: nat)
    requires Placed(g, n, order, lv, cur) && Records(ret, [], order, lv)
    requires forall v: nat :: v < n ==> v in lv
    ensures IsStratification(g, n, ret)
  {
    assert order == Flatten(ret);
    forall i, k | 0 <= i < |ret| && 0 <= k < |ret[i]|
      ensures ret[i][k] < n && IsLevel(g, ret[i][k], i)
    {
      AtLevel(g, n, order, lv, cur, ret[i][k]);
    }
  }

  lemma AtLevel(g: StratifiedGraph, n: nat, order: seq<nat>, lv: map<nat, nat>, cur: nat, v: nat)
    requires Placed(g, n, order, lv, cur) && v in lv
    ensures v < n && IsLevel(g, v, lv[v])
  {
    forall p | PathInto(g, p, v)
      ensures PathWeight(g, p) <= lv[v]
    {
      LevelBounds(g, lv, p, v);
    }
    forall j | 0 <= j < |order|
      ensures order[j] in lv && Preds(g, order[j]) <= (set k | 0 <= k < j :: order[k])
    {
      forall u | u in Preds(g, order[j])
        ensures u in (set k | 0 <= k < j :: order[k])
      {
        var k :| 0 <= k < |order[..j]| && order[..j][k] == u;
      }
    }
    var i :| 0 <= i < |order| && order[i] == v;
    var p := LevelAttained(g, lv, order, i);
  }

  method GeneralizedKahn(g: StratifiedGraph, n: nat) returns (ret: seq<seq<nat>>)
    requires IsGraphOn(g, n) && Acyclic(Edges(g))
    ensures IsStratification(g, n, ret)
  {
    hide Placed, Degrees, Safe, Poisoned, Pending, Records, Acyclic, IsStratification, Removes;
    var inDegree := InDegrees(g, n);
    ret := [];
    var current: seq<nat> := [];
    var safePending := SourceNodes(n, inDegree);
    var unsafeNodes: set<nat> := {};
    ghost var order: seq<nat>, lv: map<nat, nat> := [], map[];
    StartInv(g, n, inDegree, safePending);
    StartRecords();
    while true
      invariant Inv(g, n, order, lv, |ret|, inDegree, safePending, unsafeNodes)
      invariant Records(ret, current, order, lv)
      decreases Below(n) - lv.Keys
    {
      if safePending == [] && unsafeNodes != {} {
        StratumNotEmpty(g, n, ret, current, order, lv, inDegree, safePending, unsafeNodes);
        LevelsUpTo(g, n, order, lv, |ret|, inDegree, safePending, unsafeNodes);
        RecordsNext(ret, current, order, lv);
        ret := ret + [current];
        current := [];
        ghost var unsafe0 := unsafeNodes;
        safePending := ReadyNodes(n, inDegree, unsafeNodes);
        unsafeNodes := {};
        StratumStep(g, n, order, lv, |ret| - 1, inDegree, unsafe0, safePending);
      }
      if safePending == [] {
        NothingLeft(g, n, order, lv, |ret|, inDegree);
        assert forall v :: 0 <= v < |inDegree| ==> inDegree[v] == 0;
        ghost var cur := |ret|;
        if current != [] {
          LevelsUpTo(g, n, order, lv, |ret|, inDegree, safePending, unsafeNodes);
          RecordsNext(ret, current, order, lv);
          ret := ret + [current];
        }
        Stratified(g, n, ret, order, lv, cur);
        break;
      }
      var removed := safePending[|safePending| - 1];
      ghost var safe0, deg0, unsafe0 := safePending[..|safePending| - 1], inDegree, unsafeNodes;
      assert safePending == safe0 + [removed];
      SafeToRemove(g, n, order, lv, |ret|, inDegree, safe0, removed, unsafeNodes);
      safePending := safePending[..|safePending| - 1];
      current := current + [removed];
      inDegree, safePending, unsafeNodes := RemoveEdges(g, n, removed, inDegree, safePending, unsafeNodes);
      PlaceStep(g, n, order, lv, |ret|, removed, deg0, safe0, unsafe0, inDegree, safePending, unsafeNodes);
      RecordsPlace(ret, current[..|current| - 1], order, lv, removed);
      assert removed in Below(n) - lv.Keys;
      order, lv := order + [removed], lv[removed := |ret|];
    }
  }

  ghost function Below(n: nat): (r: set<nat>)
    ensures forall v: nat :: v in r <==> v < n
  {
    if n == 0 then {} else Below(n - 1) + {n - 1}
  }

  lemma StartRecords()
    ensures Records([], [], [], map[])
  {
  }

  lemma LevelsUpTo(g: StratifiedGraph, n: nat, order: seq<nat>, lv: map<nat, nat>, cur: nat,
                   deg: seq<nat>, safe: seq<nat>, unsafe: set<nat>)
    requires Inv(g, n, order, lv, cur, deg, safe, unsafe)
    ensures |deg| == n && forall v :: v in lv ==> lv[v] <= cur
  {
  }

  /** The successors of a safe node still count it. */
  lemma SafeToRemove(g: StratifiedGraph, n: nat, order: seq<nat>, lv: map<nat, nat>, cur: nat,
                     deg: seq<nat>, safe: seq<nat>, x: nat, unsafe: set<nat>)
    requires Inv(g, n, order, lv, cur, deg, safe + [x], unsafe)
    ensures |deg| == n && x < n && x !in lv
    ensures forall v: nat :: Edge(g, x, v) ==> v < n && deg[v] > 0
  {
    assert x in safe + [x];
    forall v: nat | Edge(g, x, v)
      ensures v < n && deg[v] > 0
    {
      assert x in Preds(g, v) - lv.Keys;
    }
  }

  // ----- what the strata promise -----

  /** An assignment of strata that lets no edge go down and no poisoned edge stay level. */
  ghost predicate Respects(g: StratifiedGraph, f: nat -> nat) {
    forall u: nat, v: nat :: Edge(g, u, v) ==> f(u) + Weight(g, u, v) <= f(v)
  }

  lemma {:induction false} RespectsPaths(g: StratifiedGraph, f: nat -> nat, p: seq<nat>)
    requires Respects(g, f) && IsPath(Edges(g), p)
    ensures PathWeight(g, p) <= f(p[|p| - 1])
    decreases |p|
  {
    if |p| > 1 {
      assert (p[|p| - 2], p[|p| - 2 + 1]) in Edges(g);
      assert Edge(g, p[|p| - 2], p[|p| - 1]);
      PathSlice(Edges(g), p, 0, |p| - 2);
      assert p[0..|p| - 2 + 1] == p[..|p| - 1];
      RespectsPaths(g, f, p[..|p| - 1]);
    }
  }

  /** No assignment that respects the edges gets by with fewer strata. */
  lemma FewestStrata(g: StratifiedGraph, n: nat, ret: seq<seq<nat>>, f: nat -> nat)
    requires IsStratification(g, n, ret) && Respects(g, f) && |ret| > 0
    ensures exists v: nat :: v < n && |ret| - 1 <= f(v)
  {
    var v := ret[|ret| - 1][0];
    assert IsLevel(g, v, |ret| - 1);
    var p :| PathInto(g, p, v) && PathWeight(g, p) == |ret| - 1;
    RespectsPaths(g, f, p);
  }

  /** Along an edge the stratum never falls, and rises along a poisoned one. */
  lemma StrataRespectEdges(g: StratifiedGraph, u: nat, v: nat, i: nat, j: nat)
    requires Edge(g, u, v) && IsLevel(g, u, i) && IsLevel(g, v, j)
    ensures i + Weight(g, u, v) <= j
  {
    var p :| PathInto(g, p, u) && PathWeight(g, p) == i;
    var q := p + [v];
    assert q[..|q| - 1] == p;
    assert (u, v) in Edges(g);
    assert PathInto(g, q, v);
  }
}
