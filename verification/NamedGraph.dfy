/** Reachability and strongly connected components of a graph keyed by arbitrary names (query/graph.rs). */
module NamedGraph {
  import opened Graphs
  import Tarjan

  /** A `BTreeMap` of adjacency lists. */
  type Graph<!T> = map<T, seq<T>>

  ghost function EdgesOf<T(!new)>(g: Graph<T>): iset<(T, T)> {
    iset u, v | u in g && v in g[u] :: (u, v)
  }

  /** `keys` lists the keys of `g` once each; the source iterates in key order. */
  ghost predicate Enumerates<T(!new), V(!new)>(keys: seq<T>, g: map<T, V>) {
    && (forall k :: k in keys <==> k in g)
    && (forall i, j :: 0 <= i < j < |keys| ==> keys[i] != keys[j])
  }

  /** The keys of a map, once each. */
  method ListKeys<T(==, !new), V(!new)>(g: map<T, V>) returns (keys: seq<T>)
    ensures Enumerates(keys, g)
  {
    keys := [];
    var todo := g.Keys;
    while todo != {}
      invariant todo <= g.Keys
      invariant forall k :: k in keys <==> k in g && k !in todo
      invariant forall i, j :: 0 <= i < j < |keys| ==> keys[i] != keys[j]
    {
      var k :| k in todo;
      keys := keys + [k];
      todo := todo - {k};
    }
  }

  /** Collects what can be reached from `starting` through unvisited nodes. */
  method Walk<T(==, !new)>(g: Graph<T>, starting: T, collected: set<T>, ghost all: set<T>) returns (r: set<T>)
    requires starting in collected && collected <= all
    requires forall u :: u in g ==> forall i :: 0 <= i < |g[u]| ==> g[u][i] in all
    ensures collected <= r <= all
    ensures forall v :: v in r && v !in collected ==> Reach(EdgesOf(g), starting, v)
    ensures forall u, v :: u in r && (u !in collected || u == starting) && (u, v) in EdgesOf(g) ==> v in r
    decreases all - collected
  {
    r := collected;
    if starting in g {
      var children := g[starting];
      var k := 0;
      while k < |children|
        invariant 0 <= k <= |children|
        invariant collected <= r <= all
        invariant forall v :: v in r && v !in collected ==> Reach(EdgesOf(g), starting, v)
        invariant forall u, v :: u in r && u !in collected && (u, v) in EdgesOf(g) ==> v in r
        invariant forall i :: 0 <= i < k ==> children[i] in r
      {
        var el := children[k];
        ReachEdge(EdgesOf(g), starting, el);
        if el !in r {
          ghost var before := r + {el};
          r := Walk(g, el, r + {el}, all);
          forall v | v in r && v !in before
            ensures Reach(EdgesOf(g), starting, v)
          {
            ReachTrans(EdgesOf(g), starting, el, v);
          }
        }
        k := k + 1;
      }
    }
  }

  /** Everything reachable from `start`, and nothing else. */
  method ReachableComponents<T(==, !new)>(g: Graph<T>, start: T) returns (r: set<T>)
    ensures forall v :: v in r <==> Reach(EdgesOf(g), start, v)
  {
    ghost var all := {start} + (set u, i | u in g && 0 <= i < |g[u]| :: g[u][i]);
    r := Walk(g, start, {start}, all);
    ReachRefl(EdgesOf(g), start);
    forall v | Reach(EdgesOf(g), start, v)
      ensures v in r
    {
      ReachStaysInClosed(EdgesOf(g), (iset u | u in r), start, v);
    }
  }

  /** `groups` splits the keys of `g` into the classes of mutual reachability. */
  ghost predicate SccPartition<T(!new)>(g: Graph<T>, groups: seq<seq<T>>) {
    && (forall i, k :: 0 <= i < |groups| && 0 <= k < |groups[i]| ==> groups[i][k] in g)
    && (forall i :: 0 <= i < |groups| ==> |groups[i]| > 0)
    && (forall i, k, l :: 0 <= i < |groups| && 0 <= k < l < |groups[i]| ==> groups[i][k] != groups[i][l])
    && (forall u :: u in g ==> Tarjan.InSome(groups, u))
    && (forall i, j, u, v :: 0 <= i < |groups| && 0 <= j < |groups| && u in groups[i] && v in groups[j] ==>
          (i == j <==> Mutual(EdgesOf(g), u, v)))
  }

  /** `ig` is `g` with every key replaced by its position in `keys`, other targets dropped. */
  ghost predicate IndexesGraph<T(!new)>(g: Graph<T>, keys: seq<T>, ig: seq<seq<nat>>) {
    && Enumerates(keys, g)
    && |ig| == |keys|
    && Tarjan.IsIndexGraph(ig)
    && (forall i: nat, j: nat :: i < |keys| && j < |keys| ==> (j in ig[i] <==> keys[j] in g[keys[i]]))
  }

  lemma ReachToNames<T(!new)>(g: Graph<T>, keys: seq<T>, ig: seq<seq<nat>>, i: nat, j: nat)
    requires IndexesGraph(g, keys, ig) && i < |keys| && j < |keys|
    requires Reach(Tarjan.Edges(ig), i, j)
    ensures Reach(EdgesOf(g), keys[i], keys[j])
  {
    var p :| IsPathBetween(Tarjan.Edges(ig), p, i, j);
    forall k | 0 <= k < |p|
      ensures p[k] < |keys|
    {
      if k < |p| - 1 {
        assert (p[k], p[k + 1]) in Tarjan.Edges(ig);
      }
    }
    var q := seq(|p|, k requires 0 <= k < |p| => keys[p[k]]);
    forall k | 0 <= k < |q| - 1
      ensures (q[k], q[k + 1]) in EdgesOf(g)
    {
      assert (p[k], p[k + 1]) in Tarjan.Edges(ig);
    }
    assert IsPathBetween(EdgesOf(g), q, keys[i], keys[j]);
  }

  lemma ReachToIndices<T(!new)>(g: Graph<T>, keys: seq<T>, ig: seq<seq<nat>>, i: nat, j: nat)
    requires IndexesGraph(g, keys, ig) && i < |keys| && j < |keys|
    requires Reach(EdgesOf(g), keys[i], keys[j])
    ensures Reach(Tarjan.Edges(ig), i, j)
  {
    var p :| IsPathBetween(EdgesOf(g), p, keys[i], keys[j]);
    forall k | 0 <= k < |p|
      ensures p[k] in keys
    {
      if k < |p| - 1 {
        assert (p[k], p[k + 1]) in EdgesOf(g);
      }
    }
    var q: seq<nat> := seq(|p|, k requires 0 <= k < |p| => Position(keys, p[k]));
    forall k | 0 <= k < |q| - 1
      ensures (q[k], q[k + 1]) in Tarjan.Edges(ig)
    {
      assert (p[k], p[k + 1]) in EdgesOf(g);
      assert q[k + 1] in ig[q[k]];
    }
    assert IsPathBetween(Tarjan.Edges(ig), q, i, j);
  }

  ghost function Position<T(!new)>(keys: seq<T>, k: T): (i: nat)
    requires k in keys
    ensures i < |keys| && keys[i] == k
  {
    var i: nat :| i < |keys| && keys[i] == k;
    i
  }

  /** Positions in `keys` of those members of `vs` that are keys. */
  method KnownPositions<T(==, !new)>(invert: map<T, nat>, vs: seq<T>) returns (r: seq<nat>)
    ensures forall j :: j in r <==> exists k :: 0 <= k < |vs| && vs[k] in invert && invert[vs[k]] == j
  {
    r := [];
    for k := 0 to |vs|
      invariant forall j :: j in r <==> exists l :: 0 <= l < k && vs[l] in invert && invert[vs[l]] == j
    {
      if vs[k] in invert {
        r := r + [invert[vs[k]]];
      }
    }
  }

  method IndexGraph<T(==, !new)>(g: Graph<T>, keys: seq<T>) returns (ig: seq<seq<nat>>)
    requires Enumerates(keys, g)
    ensures IndexesGraph(g, keys, ig)
  {
    var invert: map<T, nat> := map i | 0 <= i < |keys| :: keys[i] := i;
    ig := [];
    for i := 0 to |keys|
      invariant |ig| == i
      invariant forall u, l :: 0 <= u < i && 0 <= l < |ig[u]| ==> ig[u][l] < |keys|
      invariant forall u: nat, j: nat :: u < i && j < |keys| ==> (j in ig[u] <==> keys[j] in g[keys[u]])
    {
      var row := KnownPositions(invert, g[keys[i]]);
      forall l | 0 <= l < |row|
        ensures row[l] < |keys|
      {
        assert row[l] in row;
      }
      forall j: nat | j < |keys|
        ensures j in row <==> keys[j] in g[keys[i]]
      {
        assert invert[keys[j]] == j;
      }
      ig := ig + [row];
    }
  }

  /** The classes of mutual reachability of a graph given by name. */
  method StronglyConnectedComponents<T(==, !new)>(g: Graph<T>, keys: seq<T>) returns (groups: seq<seq<T>>)
    requires Enumerates(keys, g)
    ensures SccPartition(g, groups)
  {
    var ig := IndexGraph(g, keys);
    var search := new Tarjan.TarjanScc(ig);
    var parts := search.Run();
    groups := [];
    for i := 0 to |parts|
      invariant |groups| == i
      invariant forall j :: 0 <= j < i ==> groups[j] == Named(keys, parts[j])
    {
      groups := groups + [Named(keys, parts[i])];
    }
    NamedPartition(g, keys, ig, parts, groups);
  }

  function Named<T>(keys: seq<T>, part: seq<nat>): (r: seq<T>)
    requires forall k :: 0 <= k < |part| ==> part[k] < |keys|
  {
    seq(|part|, k requires 0 <= k < |part| => keys[part[k]])
  }

  lemma NamedPartition<T(!new)>(g: Graph<T>, keys: seq<T>, ig: seq<seq<nat>>, parts: seq<seq<nat>>, groups: seq<seq<T>>)
    requires IndexesGraph(g, keys, ig) && Tarjan.GroupsByReach(ig, parts) && |groups| == |parts|
    requires forall j :: 0 <= j < |parts| ==> groups[j] == Named(keys, parts[j])
    ensures SccPartition(g, groups)
  {
    forall u | u in g
      ensures Tarjan.InSome(groups, u)
    {
      var k := Position(keys, u);
      assert Tarjan.InSome(parts, k);
      var i :| 0 <= i < |parts| && k in parts[i];
      var l :| 0 <= l < |parts[i]| && parts[i][l] == k;
      assert groups[i][l] == u;
    }
    forall i, j, u, v | 0 <= i < |groups| && 0 <= j < |groups| && u in groups[i] && v in groups[j]
      ensures i == j <==> Mutual(EdgesOf(g), u, v)
    {
      var k :| 0 <= k < |groups[i]| && groups[i][k] == u;
      var l :| 0 <= l < |groups[j]| && groups[j][l] == v;
      MutualTransfers(g, keys, ig, parts[i][k], parts[j][l]);
      assert parts[i][k] in parts[i] && parts[j][l] in parts[j];
    }
  }

  lemma MutualTransfers<T(!new)>(g: Graph<T>, keys: seq<T>, ig: seq<seq<nat>>, i: nat, j: nat)
    requires IndexesGraph(g, keys, ig) && i < |keys| && j < |keys|
    ensures Mutual(EdgesOf(g), keys[i], keys[j]) <==> Mutual(Tarjan.Edges(ig), i, j)
  {
    if Mutual(EdgesOf(g), keys[i], keys[j]) {
      ReachToIndices(g, keys, ig, i, j);
      ReachToIndices(g, keys, ig, j, i);
    }
    if Mutual(Tarjan.Edges(ig), i, j) {
      ReachToNames(g, keys, ig, i, j);
      ReachToNames(g, keys, ig, j, i);
    }
  }
}
