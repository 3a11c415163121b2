/** Strongly connected components by depth-first search (query/graph.rs). */
module Tarjan {
  import opened Wrappers
  import opened Graphs

  /** Nodes are positions; every listed successor is a node. */
  ghost predicate IsIndexGraph(g: seq<seq<nat>>) {
    forall u, i :: 0 <= u < |g| && 0 <= i < |g[u]| ==> g[u][i] < |g|
  }

  ghost function Edges(g: seq<seq<nat>>): iset<(nat, nat)> {
    iset u: nat, v: nat | u < |g| && v in g[u] :: (u, v)
  }

  ghost function ReachPairs(g: seq<seq<nat>>): iset<(nat, nat)> {
    iset u: nat, v: nat | Reach(Edges(g), u, v) :: (u, v)
  }

  /** A snapshot of the search state. */
  datatype State = State(id: nat, ids: seq<Option<nat>>, low: seq<nat>, onStack: seq<bool>, stack: seq<nat>)

  ghost predicate Lengths(n: nat, s: State) {
    |s.ids| == n && |s.low| == n && |s.onStack| == n
  }

  /** Visit numbers are distinct, and the stack lists the stacked nodes by visit number. */
  ghost predicate Shape(n: nat, s: State) {
    && Lengths(n, s)
    && (forall v :: 0 <= v < n && s.ids[v].Some? ==> 1 <= s.ids[v].value <= s.id && s.low[v] <= s.ids[v].value)
    && (forall u, v :: 0 <= u < v < n && s.ids[u].Some? ==> s.ids[u] != s.ids[v])
    && (forall v :: 0 <= v < n && s.onStack[v] ==> v in s.stack && s.ids[v].Some?)
    && (forall i :: 0 <= i < |s.stack| ==> s.stack[i] < n && s.onStack[s.stack[i]])
    && (forall i, j :: 0 <= i < j < |s.stack| ==> s.ids[s.stack[i]].value < s.ids[s.stack[j]].value)
  }

  /** The low link of `v` is the number of a stacked node that `v` reaches. */
  ghost predicate LowLink(n: nat, r: iset<(nat, nat)>, s: State, v: nat)
    requires Lengths(n, s) && v < n
  {
    exists w :: 0 <= w < n && s.onStack[w] && s.ids[w] == Some(s.low[v]) && (v, w) in r
  }

  ghost predicate LowLinks(n: nat, r: iset<(nat, nat)>, s: State)
    requires Lengths(n, s)
  {
    forall v {:trigger LowLink(n, r, s, v)} :: 0 <= v < n && s.onStack[v] ==> LowLink(n, r, s, v)
  }

  /** Neither unvisited nor on the stack: assigned to a component already. */
  ghost predicate Closed(s: State, v: nat) {
    v < |s.ids| == |s.onStack| && s.ids[v].Some? && !s.onStack[v]
  }

  /** Closed nodes only lead to closed nodes, and share a low link exactly when they reach each other. */
  ghost predicate Components(g: seq<seq<nat>>, r: iset<(nat, nat)>, s: State)
    requires Lengths(|g|, s)
  {
    && (forall u, i :: 0 <= u < |g| && Closed(s, u) && 0 <= i < |g[u]| ==> Closed(s, g[u][i]))
    && (forall u: nat, v: nat :: Closed(s, u) && Closed(s, v) ==>
          (s.low[u] == s.low[v] <==> (u, v) in r && (v, u) in r))
    && (forall u: nat, x: nat :: Closed(s, u) && x < |g| && s.onStack[x] ==> s.ids[x] != Some(s.low[u]))
  }

  /** The first `k` successors of `v` are visited, and none still stacked is older than `v`'s low link. */
  ghost predicate Explored(g: seq<seq<nat>>, s: State, v: nat, k: nat)
    requires Lengths(|g|, s) && IsIndexGraph(g) && v < |g| && k <= |g[v]|
  {
    forall i :: 0 <= i < k ==>
      s.ids[g[v][i]].Some? && (s.onStack[g[v][i]] ==> s.low[v] <= s.ids[g[v][i]].value)
  }

  /** Stacked nodes whose search has returned still depend on an older stacked node. */
  ghost predicate Finished(g: seq<seq<nat>>, s: State, active: set<nat>)
    requires Lengths(|g|, s) && IsIndexGraph(g)
  {
    forall v: nat :: v < |g| && s.onStack[v] && v !in active ==>
      s.ids[v].Some? && s.low[v] < s.ids[v].value && Explored(g, s, v, |g[v]|)
  }

  ghost predicate Inv(g: seq<seq<nat>>, r: iset<(nat, nat)>, s: State, active: set<nat>) {
    && IsIndexGraph(g)
    && Lengths(|g|, s)
    && Shape(|g|, s)
    && LowLinks(|g|, r, s)
    && Components(g, r, s)
    && Finished(g, s, active)
    && (forall v :: v in active ==> v < |g| && s.onStack[v])
  }

  /** What a search from `at` changes: only unvisited nodes, and those left stacked hang below `at`. */
  ghost predicate Extends(n: nat, r: iset<(nat, nat)>, s0: State, s: State, at: nat) {
    && Lengths(n, s0) && Lengths(n, s)
    && at < n
    && s0.stack <= s.stack
    && s0.id <= s.id
    && (forall v :: 0 <= v < n && s0.ids[v].Some? ==>
          s.ids[v] == s0.ids[v] && s.low[v] == s0.low[v] && s.onStack[v] == s0.onStack[v])
    && s.ids[at].Some?
    && (forall v :: 0 <= v < n && s.ids[v].Some? && s0.ids[v].None? ==> s0.id < s.ids[v].value)
    && (forall v :: 0 <= v < n && s.onStack[v] && s0.ids[v].None? ==>
          s.onStack[at] && (at, v) in r && s.low[at] <= s.low[v])
  }

  /** The state while the successors of `at` are being explored. */
  ghost predicate Exploring(g: seq<seq<nat>>, r: iset<(nat, nat)>, s0: State, s: State, at: nat, k: nat, active: set<nat>) {
    && Inv(g, r, s, active + {at})
    && at !in active
    && at < |g| && k <= |g[at]|
    && Extends(|g|, r, s0, s, at)
    && s.onStack[at]
    && s0.ids[at].None?
    && s.ids[at] == Some(s0.id + 1)
    && s0.stack + [at] <= s.stack
    && Explored(g, s, at, k)
  }

  // ----- the steps of the search, on snapshots -----

  function Push(s: State, at: nat): State
    requires at < |s.ids| == |s.low| == |s.onStack|
  {
    State(s.id + 1, s.ids[at := Some(s.id + 1)], s.low[at := s.id + 1], s.onStack[at := true], s.stack + [at])
  }

  function Min(a: nat, b: nat): nat {
    if a <= b then a else b
  }

  function Relax(s: State, at: nat, to: nat): State
    requires at < |s.low| && to < |s.low| && to < |s.onStack|
  {
    if s.onStack[to] then s.(low := s.low[at := Min(s.low[at], s.low[to])]) else s
  }

  /** Everything above `base` on the stack leaves it, with low link `root`. */
  function Pop(s: State, base: nat, root: nat): State
    requires base <= |s.stack| && |s.low| == |s.onStack|
  {
    s.(low := seq(|s.low|, v requires 0 <= v < |s.low| => if v in s.stack[base..] then root else s.low[v]),
       onStack := seq(|s.low|, v requires 0 <= v < |s.low| => s.onStack[v] && v !in s.stack[base..]),
       stack := s.stack[..base])
  }

  lemma PushShape(n: nat, s0: State, at: nat)
    requires Shape(n, s0) && at < n && s0.ids[at].None?
    ensures Shape(n, Push(s0, at))
  {
    var s := Push(s0, at);
    assert forall v :: v in s.stack <==> v in s0.stack || v == at;
  }

  lemma PushLowLinks(n: nat, r: iset<(nat, nat)>, s0: State, at: nat)
    requires Shape(n, s0) && LowLinks(n, r, s0) && at < n && s0.ids[at].None? && (at, at) in r
    ensures LowLinks(n, r, Push(s0, at))
  {
    var s := Push(s0, at);
    forall v | 0 <= v < n && s.onStack[v]
      ensures LowLink(n, r, s, v)
    {
      if v != at {
        assert LowLink(n, r, s0, v);
        var w :| 0 <= w < n && s0.onStack[w] && s0.ids[w] == Some(s0.low[v]) && (v, w) in r;
        assert s.onStack[w];
      } else {
        assert s.onStack[at];
      }
    }
  }

  lemma PushComponents(g: seq<seq<nat>>, r: iset<(nat, nat)>, s0: State, at: nat)
    requires IsIndexGraph(g) && Shape(|g|, s0) && Components(g, r, s0) && at < |g| && s0.ids[at].None?
    ensures Components(g, r, Push(s0, at))
  {
    var s := Push(s0, at);
    assert forall v: nat :: Closed(s, v) <==> Closed(s0, v);
  }

  lemma PushFinished(g: seq<seq<nat>>, s0: State, at: nat, active: set<nat>)
    requires IsIndexGraph(g) && Shape(|g|, s0) && Finished(g, s0, active) && at < |g| && s0.ids[at].None?
    ensures Finished(g, Push(s0, at), active + {at})
  {
    var s := Push(s0, at);
    forall v: nat | v < |g| && s.onStack[v] && v !in active + {at}
      ensures s.ids[v].Some? && s.low[v] < s.ids[v].value && Explored(g, s, v, |g[v]|)
    {
      assert Explored(g, s0, v, |g[v]|);
    }
  }

  lemma PushExtends(n: nat, r: iset<(nat, nat)>, s0: State, at: nat)
    requires Shape(n, s0) && at < n && s0.ids[at].None? && (at, at) in r
    ensures Extends(n, r, s0, Push(s0, at), at)
  {
  }

  lemma PushStep(g: seq<seq<nat>>, r: iset<(nat, nat)>, s0: State, at: nat, active: set<nat>)
    requires Inv(g, r, s0, active) && at < |g| && s0.ids[at].None? && (at, at) in r
    ensures Exploring(g, r, s0, Push(s0, at), at, 0, active)
  {
    PushShape(|g|, s0, at);
    PushLowLinks(|g|, r, s0, at);
    PushComponents(g, r, s0, at);
    PushFinished(g, s0, at, active);
    PushExtends(|g|, r, s0, at);
  }

  // ----- returning from a successor -----

  lemma RelaxLowLinks(n: nat, r: iset<(nat, nat)>, s: State, at: nat, to: nat)
    requires Lengths(n, s) && LowLinks(n, r, s) && at < n && to < n
    requires forall w :: (to, w) in r ==> (at, w) in r
    ensures LowLinks(n, r, Relax(s, at, to))
  {
    var s' := Relax(s, at, to);
    forall v | 0 <= v < n && s'.onStack[v]
      ensures LowLink(n, r, s', v)
    {
      assert LowLink(n, r, s, v);
      if v == at && s'.low[v] != s.low[v] {
        assert LowLink(n, r, s, to);
        var w :| 0 <= w < n && s.onStack[w] && s.ids[w] == Some(s.low[to]) && (to, w) in r;
        assert s'.onStack[w];
      } else {
        var w :| 0 <= w < n && s.onStack[w] && s.ids[w] == Some(s.low[v]) && (v, w) in r;
        assert s'.onStack[w];
      }
    }
  }

  lemma RelaxComponents(g: seq<seq<nat>>, r: iset<(nat, nat)>, s: State, at: nat, to: nat)
    requires IsIndexGraph(g) && Lengths(|g|, s) && Components(g, r, s) && at < |g| && to < |g| && s.onStack[at]
    ensures Components(g, r, Relax(s, at, to))
  {
    var s' := Relax(s, at, to);
    assert forall v: nat :: Closed(s', v) <==> Closed(s, v);
  }

  lemma RelaxFinished(g: seq<seq<nat>>, s: State, at: nat, to: nat, active: set<nat>)
    requires IsIndexGraph(g) && Lengths(|g|, s) && Finished(g, s, active) && at < |g| && to < |g| && at in active
    ensures Finished(g, Relax(s, at, to), active)
  {
    var s' := Relax(s, at, to);
    forall v: nat | v < |g| && s'.onStack[v] && v !in active
      ensures s'.ids[v].Some? && s'.low[v] < s'.ids[v].value && Explored(g, s', v, |g[v]|)
    {
      assert Explored(g, s, v, |g[v]|);
    }
  }

  lemma RelaxInv(g: seq<seq<nat>>, r: iset<(nat, nat)>, s: State, at: nat, to: nat, active: set<nat>)
    requires Inv(g, r, s, active) && at in active && to < |g|
    requires forall w :: (to, w) in r ==> (at, w) in r
    ensures Inv(g, r, Relax(s, at, to), active)
  {
    RelaxLowLinks(|g|, r, s, at, to);
    RelaxComponents(g, r, s, at, to);
    RelaxFinished(g, s, at, to, active);
  }

  lemma RelaxExtends(n: nat, r: iset<(nat, nat)>, s0: State, s: State, s1: State, at: nat, to: nat)
    requires Extends(n, r, s0, s, at) && Extends(n, r, s, s1, to)
    requires s.ids[at].Some? && s.onStack[at] && s0.ids[at].None?
    requires forall w :: (to, w) in r ==> (at, w) in r
    ensures Extends(n, r, s0, Relax(s1, at, to), at)
  {
  }

  lemma RelaxExplored(g: seq<seq<nat>>, r: iset<(nat, nat)>, s: State, s1: State, at: nat, k: nat)
    requires IsIndexGraph(g) && Shape(|g|, s1) && at < |g| && k < |g[at]|
    requires Extends(|g|, r, s, s1, g[at][k]) && s.ids[at].Some?
    requires Explored(g, s, at, k)
    ensures Explored(g, Relax(s1, at, g[at][k]), at, k + 1)
  {
  }

  lemma ExtendsSelf(n: nat, r: iset<(nat, nat)>, s: State, to: nat)
    requires Shape(n, s) && to < n && s.ids[to].Some?
    ensures Extends(n, r, s, s, to)
  {
  }

  /** One successor handled: by a search from it, or directly (`s1 == s`) when it was visited. */
  lemma RelaxStep(g: seq<seq<nat>>, r: iset<(nat, nat)>, s0: State, s: State, s1: State, at: nat, k: nat, active: set<nat>)
    requires Exploring(g, r, s0, s, at, k, active) && k < |g[at]|
    requires Inv(g, r, s1, active + {at}) && Extends(|g|, r, s, s1, g[at][k])
    requires forall w :: (g[at][k], w) in r ==> (at, w) in r
    ensures Exploring(g, r, s0, Relax(s1, at, g[at][k]), at, k + 1, active)
  {
    var to := g[at][k];
    RelaxInv(g, r, s1, at, to, active + {at});
    RelaxExtends(|g|, r, s0, s, s1, at, to);
    RelaxExplored(g, r, s, s1, at, k);
  }

  // ----- leaving the search of a node -----

  lemma KeepStep(g: seq<seq<nat>>, r: iset<(nat, nat)>, s0: State, s: State, at: nat, active: set<nat>)
    requires at < |g| && Exploring(g, r, s0, s, at, |g[at]|, active) && s.low[at] != s.ids[at].value
    ensures Inv(g, r, s, active) && Extends(|g|, r, s0, s, at)
  {
    forall v: nat | v < |g| && s.onStack[v] && v !in active
      ensures s.ids[v].Some? && s.low[v] < s.ids[v].value && Explored(g, s, v, |g[v]|)
    {
      assert v != at ==> v !in active + {at};
    }
  }

  /** Above the stack that `at` found lie exactly the stacked nodes first visited since. */
  lemma Segment(n: nat, r: iset<(nat, nat)>, s0: State, s: State, at: nat, v: nat)
    requires Shape(n, s0) && Shape(n, s) && Extends(n, r, s0, s, at) && v < n
    requires s0.ids[at].None? && s0.stack + [at] <= s.stack && s.ids[at] == Some(s0.id + 1)
    ensures v in s.stack[|s0.stack|..] <==> s.onStack[v] && s0.ids[v].None?
  {
    var b := |s0.stack|;
    if v in s.stack[b..] {
      var i :| b <= i < |s.stack| && s.stack[i] == v;
      assert s.stack[b] == at;
      assert s.ids[v].value >= s0.id + 1;
    } else if s.onStack[v] {
      var i :| 0 <= i < |s.stack| && s.stack[i] == v;
      assert s0.stack[i] == v;
      assert s0.onStack[s0.stack[i]];
    }
  }

  /** In terms of what was visited before, popping closes the nodes first visited since. */
  ghost predicate PopsNew(n: nat, s0: State, s: State, s': State, root: nat)
    requires Lengths(n, s0) && Lengths(n, s)
  {
    && Lengths(n, s')
    && s'.id == s.id && s'.ids == s.ids
    && (forall v :: 0 <= v < n ==> s'.onStack[v] == (s.onStack[v] && s0.ids[v].Some?))
    && (forall v :: 0 <= v < n ==> s'.low[v] == if s.onStack[v] && s0.ids[v].None? then root else s.low[v])
  }

  lemma PopIsNew(n: nat, r: iset<(nat, nat)>, s0: State, s: State, at: nat)
    requires Shape(n, s0) && Shape(n, s) && Extends(n, r, s0, s, at)
    requires s0.ids[at].None? && s0.stack + [at] <= s.stack && s.ids[at] == Some(s0.id + 1)
    ensures PopsNew(n, s0, s, Pop(s, |s0.stack|, s.ids[at].value), s.ids[at].value)
    ensures Pop(s, |s0.stack|, s.ids[at].value).stack == s0.stack
  {
    forall v | 0 <= v < n
      ensures v in s.stack[|s0.stack|..] <==> s.onStack[v] && s0.ids[v].None?
    {
      Segment(n, r, s0, s, at, v);
    }
  }

  lemma PopShape(n: nat, r: iset<(nat, nat)>, s0: State, s: State, s': State, at: nat)
    requires Shape(n, s0) && Shape(n, s) && Extends(n, r, s0, s, at)
    requires s.ids[at] == Some(s0.id + 1)
    requires PopsNew(n, s0, s, s', s0.id + 1) && s'.stack == s0.stack
    ensures Shape(n, s')
  {
  }

  lemma PopLowLinks(n: nat, r: iset<(nat, nat)>, s0: State, s: State, s': State, at: nat)
    requires Shape(n, s0) && Shape(n, s) && Extends(n, r, s0, s, at) && LowLinks(n, r, s)
    requires PopsNew(n, s0, s, s', s0.id + 1)
    ensures LowLinks(n, r, s')
  {
    forall v | 0 <= v < n && s'.onStack[v]
      ensures LowLink(n, r, s', v)
    {
      assert LowLink(n, r, s, v);
      var w :| 0 <= w < n && s.onStack[w] && s.ids[w] == Some(s.low[v]) && (v, w) in r;
      assert s'.onStack[w];
    }
  }

  lemma PopFinished(g: seq<seq<nat>>, s0: State, s: State, s': State, at: nat, active: set<nat>)
    requires IsIndexGraph(g) && Lengths(|g|, s0) && Lengths(|g|, s) && Finished(g, s, active + {at})
    requires PopsNew(|g|, s0, s, s', s0.id + 1) && at < |g| && s0.ids[at].None?
    ensures Finished(g, s', active)
  {
    forall v: nat | v < |g| && s'.onStack[v] && v !in active
      ensures s'.ids[v].Some? && s'.low[v] < s'.ids[v].value && Explored(g, s', v, |g[v]|)
    {
      assert v != at && v !in active + {at};
      assert Explored(g, s, v, |g[v]|);
    }
  }

  /** Every node of the segment reaches `at`. */
  lemma {:induction false} SegmentReachesRoot(n: nat, r: iset<(nat, nat)>, s0: State, s: State, at: nat, v: nat)
    requires Shape(n, s0) && Shape(n, s) && Extends(n, r, s0, s, at) && LowLinks(n, r, s)
    requires s.ids[at] == Some(s0.id + 1) && s.low[at] == s0.id + 1 && (at, at) in r
    requires forall u :: 0 <= u < n && s.onStack[u] && s0.ids[u].None? && u != at ==> s.low[u] < s.ids[u].value
    requires forall x, y, z :: (x, y) in r && (y, z) in r ==> (x, z) in r
    requires v < n && s.onStack[v] && s0.ids[v].None?
    ensures (v, at) in r
    decreases s.ids[v].value
  {
    if v != at {
      assert LowLink(n, r, s, v);
      var w :| 0 <= w < n && s.onStack[w] && s.ids[w] == Some(s.low[v]) && (v, w) in r;
      SegmentReachesRoot(n, r, s0, s, at, w);
    }
  }

  ghost predicate Transitive(r: iset<(nat, nat)>) {
    forall x, y, z :: (x, y) in r && (y, z) in r ==> (x, z) in r
  }

  /** Every successor of a segment node is closed or in the segment. */
  lemma SegmentSuccessors(g: seq<seq<nat>>, r: iset<(nat, nat)>, s0: State, s: State, at: nat, active: set<nat>, v: nat, i: nat)
    requires at < |g| && Exploring(g, r, s0, s, at, |g[at]|, active) && Inv(g, r, s0, active)
    requires s.low[at] == s.ids[at].value
    requires v < |g| && s.onStack[v] && s0.ids[v].None? && i < |g[v]|
    ensures s.ids[g[v][i]].Some? && (s.onStack[g[v][i]] ==> s0.ids[g[v][i]].None?)
  {
    if v != at {
      assert v !in active + {at};
    }
    assert Explored(g, s, v, |g[v]|);
  }

  lemma PopComponents(g: seq<seq<nat>>, r: iset<(nat, nat)>, s0: State, s: State, s': State, at: nat)
    requires IsIndexGraph(g) && Shape(|g|, s) && Components(g, r, s) && Lengths(|g|, s0) && at < |g|
    requires s0.ids[at].None? && s.onStack[at] && s.ids[at] == Some(s0.id + 1)
    requires PopsNew(|g|, s0, s, s', s0.id + 1)
    requires Transitive(r)
    requires forall v: nat :: v < |g| && s.onStack[v] && s0.ids[v].None? ==> (v, at) in r && (at, v) in r
    requires forall v: nat, i :: v < |g| && s.onStack[v] && s0.ids[v].None? && 0 <= i < |g[v]| ==>
               s.ids[g[v][i]].Some? && (s.onStack[g[v][i]] ==> s0.ids[g[v][i]].None?)
    requires forall u: nat, v: nat :: Closed(s, u) && (u, v) in r ==> Closed(s, v)
    ensures Components(g, r, s')
  {
    assert forall v: nat :: Closed(s', v) <==> Closed(s, v) || (v < |g| && s.onStack[v] && s0.ids[v].None?);
    forall u: nat, v: nat | Closed(s', u) && Closed(s', v)
      ensures s'.low[u] == s'.low[v] <==> (u, v) in r && (v, u) in r
    {
      if Closed(s, u) {
        assert Closed(s, v) || s'.low[v] == s.ids[at].value;
      } else if !Closed(s, v) {
        assert (u, at) in r && (at, v) in r && (v, at) in r && (at, u) in r;
      }
    }
  }

  lemma PopStep(g: seq<seq<nat>>, r: iset<(nat, nat)>, s0: State, s: State, at: nat, active: set<nat>)
    requires at < |g| && Exploring(g, r, s0, s, at, |g[at]|, active) && Inv(g, r, s0, active)
    requires s.low[at] == s.ids[at].value
    requires Transitive(r) && (at, at) in r
    requires forall u: nat, v: nat :: Closed(s, u) && (u, v) in r ==> Closed(s, v)
    ensures Inv(g, r, Pop(s, |s0.stack|, s.ids[at].value), active)
    ensures Extends(|g|, r, s0, Pop(s, |s0.stack|, s.ids[at].value), at)
  {
    hide Shape, LowLinks, LowLink, Components, Closed, Finished, Explored, Pop, Transitive;
    var s' := Pop(s, |s0.stack|, s.ids[at].value);
    PopIsNew(|g|, r, s0, s, at);
    PopShape(|g|, r, s0, s, s', at);
    PopLowLinks(|g|, r, s0, s, s', at);
    PopFinished(g, s0, s, s', at, active);
    PopComponentsStep(g, r, s0, s, s', at, active);
    PopKeepsActive(g, r, s0, s, s', active);
  }

  lemma PopKeepsActive(g: seq<seq<nat>>, r: iset<(nat, nat)>, s0: State, s: State, s': State, active: set<nat>)
    requires Inv(g, r, s0, active) && (forall v :: v in active ==> v < |g|) && Lengths(|g|, s)
    requires forall v :: v in active ==> s.onStack[v]
    requires PopsNew(|g|, s0, s, s', s0.id + 1)
    ensures forall v :: v in active ==> s'.onStack[v]
  {
    forall v | v in active
      ensures s'.onStack[v]
    {
      assert s0.ids[v].Some?;
    }
  }

  lemma PopComponentsStep(g: seq<seq<nat>>, r: iset<(nat, nat)>, s0: State, s: State, s': State, at: nat, active: set<nat>)
    requires at < |g| && Exploring(g, r, s0, s, at, |g[at]|, active) && Inv(g, r, s0, active)
    requires s.low[at] == s.ids[at].value
    requires Transitive(r) && (at, at) in r
    requires forall u: nat, v: nat :: Closed(s, u) && (u, v) in r ==> Closed(s, v)
    requires PopsNew(|g|, s0, s, s', s0.id + 1)
    ensures Components(g, r, s')
  {
    forall v: nat | v < |g| && s.onStack[v] && s0.ids[v].None?
      ensures (v, at) in r && (at, v) in r
    {
      SegmentReachesRoot(|g|, r, s0, s, at, v);
    }
    forall v: nat, i | v < |g| && s.onStack[v] && s0.ids[v].None? && 0 <= i < |g[v]|
      ensures s.ids[g[v][i]].Some? && (s.onStack[g[v][i]] ==> s0.ids[g[v][i]].None?)
    {
      SegmentSuccessors(g, r, s0, s, at, active, v, i);
    }
    PopComponents(g, r, s0, s, s', at);
  }

  // ----- reachability as a set of pairs -----

  lemma ReachPairsFacts(g: seq<seq<nat>>)
    requires IsIndexGraph(g)
    ensures Transitive(ReachPairs(g))
    ensures forall v: nat :: (v, v) in ReachPairs(g)
    ensures forall u: nat, i :: u < |g| && 0 <= i < |g[u]| ==> (u, g[u][i]) in ReachPairs(g)
  {
    forall x, y, z | (x, y) in ReachPairs(g) && (y, z) in ReachPairs(g)
      ensures (x, z) in ReachPairs(g)
    {
      ReachTrans(Edges(g), x, y, z);
    }
    forall v: nat ensures (v, v) in ReachPairs(g) { ReachRefl(Edges(g), v); }
    forall u: nat, i | u < |g| && 0 <= i < |g[u]|
      ensures (u, g[u][i]) in ReachPairs(g)
    {
      var v := g[u][i];
      assert (u, v) in Edges(g);
      ReachEdge(Edges(g), u, v);
    }
  }

  lemma ClosedUnderReach(g: seq<seq<nat>>, s: State)
    requires IsIndexGraph(g) && Lengths(|g|, s) && Components(g, ReachPairs(g), s)
    ensures forall u: nat, v: nat :: Closed(s, u) && (u, v) in ReachPairs(g) ==> Closed(s, v)
  {
    forall u: nat, v: nat | Closed(s, u) && (u, v) in ReachPairs(g)
      ensures Closed(s, v)
    {
      ReachStaysInClosed(Edges(g), (iset w: nat | Closed(s, w)), u, v);
    }
  }

  /** The oldest stacked node can only be its own low link. */
  lemma OldestIsRoot(n: nat, r: iset<(nat, nat)>, s: State)
    requires Shape(n, s) && LowLinks(n, r, s) && s.stack != []
    ensures s.low[s.stack[0]] == s.ids[s.stack[0]].value
  {
    var v := s.stack[0];
    assert s.onStack[v] && LowLink(n, r, s, v);
    var w :| 0 <= w < n && s.onStack[w] && s.ids[w] == Some(s.low[v]) && (v, w) in r;
    var i :| 0 <= i < |s.stack| && s.stack[i] == w;
  }

  /** Between searches nothing is left on the stack. */
  lemma NothingStacked(g: seq<seq<nat>>, r: iset<(nat, nat)>, s: State)
    requires Inv(g, r, s, {})
    ensures s.stack == []
  {
    if s.stack != [] {
      OldestIsRoot(|g|, r, s);
    }
  }

  ghost function Unvisited(s: State): set<nat> {
    set v | 0 <= v < |s.ids| && s.ids[v].None?
  }

  ghost function Initial(n: nat): State {
    State(0, seq(n, _ => None), seq(n, _ => 0), seq(n, _ => false), [])
  }

  ghost predicate InSome<T(!new)>(groups: seq<seq<T>>, v: T) {
    exists i :: 0 <= i < |groups| && v in groups[i]
  }

  /** `groups` splits the nodes into the classes of mutual reachability. */
  ghost predicate GroupsByReach(g: seq<seq<nat>>, groups: seq<seq<nat>>) {
    && (forall i, k :: 0 <= i < |groups| && 0 <= k < |groups[i]| ==> groups[i][k] < |g|)
    && (forall i :: 0 <= i < |groups| ==> |groups[i]| > 0)
    && (forall i, k, l :: 0 <= i < |groups| && 0 <= k < l < |groups[i]| ==> groups[i][k] < groups[i][l])
    && (forall v: nat :: v < |g| ==> InSome(groups, v))
    && (forall i, j, u, v :: 0 <= i < |groups| && 0 <= j < |groups| && u in groups[i] && v in groups[j] ==>
          (i == j <==> Mutual(Edges(g), u, v)))
  }

  /** Popping one node more. */
  lemma PopOne(s: State, base: nat, root: nat)
    requires base < |s.stack| && |s.low| == |s.onStack| && s.stack[base] < |s.low|
    ensures var s1 := Pop(s, base + 1, root);
            Pop(s, base, root) ==
            s1.(low := s1.low[s.stack[base] := root], onStack := s1.onStack[s.stack[base] := false], stack := s.stack[..base])
  {
    assert s.stack[base..] == [s.stack[base]] + s.stack[base + 1..];
  }

  lemma PopNone(s: State, root: nat)
    requires |s.low| == |s.onStack|
    ensures Pop(s, |s.stack|, root) == s
  {
  }

  lemma StackIndex(n: nat, s: State, i: nat, j: nat)
    requires Shape(n, s) && i < |s.stack| && j < |s.stack| && s.stack[i] == s.stack[j]
    ensures i == j
  {
  }

  class TarjanScc {
    const graph: seq<seq<nat>>
    var id: nat
    var ids: seq<Option<nat>>
    var low: seq<nat>
    var onStack: seq<bool>
    var stack: seq<nat>

    ghost function Snapshot(): State
      reads this
    {
      State(id, ids, low, onStack, stack)
    }

    constructor (g: seq<seq<nat>>)
      ensures graph == g && Snapshot() == Initial(|g|)
    {
      graph := g;
      id := 0;
      ids := seq(|g|, _ => None);
      low := seq(|g|, _ => 0);
      onStack := seq(|g|, _ => false);
      stack := [];
    }

    /** Searches from `at`, an unvisited node; `active` are the nodes whose search is under way. */
    method Dfs(at: nat, ghost active: set<nat>)
      requires Inv(graph, ReachPairs(graph), Snapshot(), active)
      requires at < |graph| && ids[at].None?
      modifies this
      ensures Inv(graph, ReachPairs(graph), Snapshot(), active)
      ensures Extends(|graph|, ReachPairs(graph), old(Snapshot()), Snapshot(), at)
      decreases Unvisited(Snapshot())
    {
      hide LowLinks, LowLink, Components, Finished, Explored, Shape, ReachPairs;
      ghost var r := ReachPairs(graph);
      ghost var s0 := Snapshot();
      ReachPairsFacts(graph);
      Enter(at);
      PushStep(graph, r, s0, at, active);
      var k := 0;
      while k < |graph[at]|
        invariant 0 <= k <= |graph[at]|
        invariant Exploring(graph, r, s0, Snapshot(), at, k, active)
      {
        var to := graph[at][k];
        ghost var s := Snapshot();
        assert forall v :: 0 <= v < |graph| && s0.ids[v].Some? ==> s.ids[v].Some?;
        if ids[to].None? {
          assert at !in Unvisited(s) && at in Unvisited(s0);
          Dfs(to, active + {at});
        } else {
          ExtendsSelf(|graph|, r, s, to);
        }
        ghost var s1 := Snapshot();
        RelaxLow(at, to);
        RelaxStep(graph, r, s0, s, s1, at, k, active);
        k := k + 1;
      }
      Leave(at, s0, active);
    }

    method Enter(at: nat)
      requires at < |ids| == |low| == |onStack|
      modifies this`id, this`ids, this`low, this`onStack, this`stack
      ensures Snapshot() == Push(old(Snapshot()), at)
    {
      stack := stack + [at];
      onStack := onStack[at := true];
      id := id + 1;
      ids := ids[at := Some(id)];
      low := low[at := id];
    }

    method RelaxLow(at: nat, to: nat)
      requires at < |low| && to < |low| && to < |onStack|
      modifies this`low
      ensures Snapshot() == Relax(old(Snapshot()), at, to)
    {
      if onStack[to] {
        low := low[at := Min(low[at], low[to])];
      }
    }

    /** Ends the search from `at`: a root takes its component off the stack. */
    method Leave(at: nat, ghost s0: State, ghost active: set<nat>)
      requires at < |graph| && Exploring(graph, ReachPairs(graph), s0, Snapshot(), at, |graph[at]|, active)
      requires Inv(graph, ReachPairs(graph), s0, active)
      modifies this`low, this`onStack, this`stack
      ensures Inv(graph, ReachPairs(graph), Snapshot(), active) && Extends(|graph|, ReachPairs(graph), s0, Snapshot(), at)
    {
      hide LowLinks, LowLink, Components, Finished, Explored, Shape, ReachPairs, Pop;
      ghost var r := ReachPairs(graph);
      ReachPairsFacts(graph);
      if ids[at].value == low[at] {
        ghost var s := Snapshot();
        PopComponent(at, |s0.stack|);
        ClosedUnderReach(graph, s);
        PopStep(graph, r, s0, s, at, active);
      } else {
        KeepStep(graph, r, s0, Snapshot(), at, active);
      }
    }

    /** Pops the stack down to and including `at`. */
    method PopComponent(at: nat, ghost base: nat)
      requires Shape(|graph|, Snapshot())
      requires at < |graph| && ids[at].Some? && base < |stack| && stack[base] == at
      modifies this`low, this`onStack, this`stack
      ensures Snapshot() == Pop(old(Snapshot()), base, ids[at].value)
    {
      ghost var s := Snapshot();
      ghost var root := ids[at].value;
      PopNone(s, root);
      while true
        invariant base < |stack| <= |s.stack| && stack == s.stack[..|stack|]
        invariant Snapshot() == Pop(s, |stack|, root)
        decreases |stack|
      {
        var node := stack[|stack| - 1];
        stack := stack[..|stack| - 1];
        onStack := onStack[node := false];
        low := low[node := ids[at].value];
        PopOne(s, |stack|, root);
        if node == at {
          break;
        }
      }
      StackIndex(|graph|, s, base, |stack|);
    }

    /** Searches from every node and groups the nodes by their final low link. */
    method Run() returns (groups: seq<seq<nat>>)
      requires IsIndexGraph(graph) && Snapshot() == Initial(|graph|)
      modifies this
      ensures GroupsByReach(graph, groups)
    {
      SearchAll();
      AllClosed(graph, Snapshot());
      var lowMap := GroupByLow(low);
      hide Inv, IsGrouping, GroupsByReach, Mutual;
      ghost var keys;
      groups, keys := ListGroups(lowMap, id);
      GroupsAreClasses(graph, Snapshot(), lowMap, keys, groups);
    }

    static method GroupByLow(low: seq<nat>) returns (lowMap: map<nat, seq<nat>>)
      ensures IsGrouping(low, |low|, lowMap)
    {
      lowMap := map[];
      var idx := 0;
      while idx < |low|
        invariant 0 <= idx <= |low|
        invariant IsGrouping(low, idx, lowMap)
      {
        var grp := low[idx];
        GroupingStep(low, idx, lowMap);
        lowMap := lowMap[grp := (if grp in lowMap then lowMap[grp] else []) + [idx]];
        idx := idx + 1;
      }
    }

    static method ListGroups(lowMap: map<nat, seq<nat>>, id: nat) returns (groups: seq<seq<nat>>, ghost keys: seq<nat>)
      ensures |keys| == |groups| && forall i :: 0 <= i < |groups| ==> keys[i] in lowMap && groups[i] == lowMap[keys[i]]
      ensures forall i, j :: 0 <= i < j < |keys| ==> keys[i] < keys[j]
      ensures forall k :: k in lowMap && k < id + 1 ==> k in keys
    {
      groups, keys := [], [];
      var key := 0;
      while key <= id
        invariant 0 <= key <= id + 1
        invariant |keys| == |groups|
        invariant forall i :: 0 <= i < |groups| ==> keys[i] in lowMap && groups[i] == lowMap[keys[i]]
        invariant forall i :: 0 <= i < |keys| ==> keys[i] < key
        invariant forall i, j :: 0 <= i < j < |keys| ==> keys[i] < keys[j]
        invariant forall k :: k in lowMap && k < key ==> k in keys
      {
        if key in lowMap {
          groups := groups + [lowMap[key]];
          keys := keys + [key];
        }
        key := key + 1;
      }
    }

    method SearchAll()
      requires IsIndexGraph(graph) && Snapshot() == Initial(|graph|)
      modifies this
      ensures Inv(graph, ReachPairs(graph), Snapshot(), {})
      ensures forall v :: 0 <= v < |graph| ==> ids[v].Some?
    {
      hide LowLinks, LowLink, Components, Finished, Shape, ReachPairs;
      ghost var r := ReachPairs(graph);
      InitialInv(graph, r);
      var i := 0;
      while i < |graph|
        invariant 0 <= i <= |graph|
        invariant Inv(graph, r, Snapshot(), {})
        invariant forall v :: 0 <= v < i ==> ids[v].Some?
      {
        if ids[i].None? {
          Dfs(i, {});
        }
        i := i + 1;
      }
    }
  }

  /** `m` lists, for each low link, the nodes below `k` that have it, in order. */
  ghost predicate IsGrouping(low: seq<nat>, k: nat, m: map<nat, seq<nat>>)
    requires k <= |low|
  {
    && (forall v :: 0 <= v < k ==> low[v] in m && v in m[low[v]])
    && (forall l :: l in m ==> |m[l]| > 0)
    && (forall l, i :: l in m && 0 <= i < |m[l]| ==> m[l][i] < k && low[m[l][i]] == l)
    && (forall l, i, j :: l in m && 0 <= i < j < |m[l]| ==> m[l][i] < m[l][j])
  }

  lemma GroupingStep(low: seq<nat>, k: nat, m: map<nat, seq<nat>>)
    requires k < |low| && IsGrouping(low, k, m)
    ensures IsGrouping(low, k + 1, m[low[k] := (if low[k] in m then m[low[k]] else []) + [k]])
  {
    var grp := low[k];
    var before := if grp in m then m[grp] else [];
    var m' := m[grp := before + [k]];
    forall v | 0 <= v < k + 1
      ensures low[v] in m' && v in m'[low[v]]
    {
      if v == k {
        assert m'[grp][|before|] == k;
      } else if low[v] == grp {
        var i :| 0 <= i < |before| && before[i] == v;
        assert m'[grp][i] == v;
      }
    }
  }

  lemma InitialInv(g: seq<seq<nat>>, r: iset<(nat, nat)>)
    requires IsIndexGraph(g)
    ensures Inv(g, r, Initial(|g|), {})
  {
  }

  /** Once every node is visited, every node is closed, so low links name the components. */
  lemma AllClosed(g: seq<seq<nat>>, s: State)
    requires Inv(g, ReachPairs(g), s, {})
    requires forall v :: 0 <= v < |g| ==> s.ids[v].Some?
    ensures forall u: nat, v: nat :: u < |g| && v < |g| ==> (s.low[u] == s.low[v] <==> Mutual(Edges(g), u, v))
    ensures forall v :: 0 <= v < |g| ==> s.low[v] <= s.id
  {
    NothingStacked(g, ReachPairs(g), s);
    assert forall v: nat :: v < |g| ==> Closed(s, v);
  }

  lemma GroupsAreClasses(g: seq<seq<nat>>, s: State, m: map<nat, seq<nat>>, keys: seq<nat>, groups: seq<seq<nat>>)
    requires Lengths(|g|, s) && IsGrouping(s.low, |g|, m)
    requires forall u: nat, v: nat :: u < |g| && v < |g| ==> (s.low[u] == s.low[v] <==> Mutual(Edges(g), u, v))
    requires forall v :: 0 <= v < |g| ==> s.low[v] <= s.id
    requires |keys| == |groups|
    requires forall i :: 0 <= i < |groups| ==> keys[i] in m && groups[i] == m[keys[i]]
    requires forall i, j :: 0 <= i < j < |keys| ==> keys[i] < keys[j]
    requires forall k :: k in m && k < s.id + 1 ==> k in keys
    ensures GroupsByReach(g, groups)
  {
    hide Mutual;
    forall v: nat | v < |g|
      ensures InSome(groups, v)
    {
      var i :| 0 <= i < |keys| && keys[i] == s.low[v];
      assert v in groups[i];
    }
    forall i, j, u, v | 0 <= i < |groups| && 0 <= j < |groups| && u in groups[i] && v in groups[j]
      ensures i == j <==> Mutual(Edges(g), u, v)
    {
      assert s.low[u] == keys[i] && s.low[v] == keys[j];
      assert s.low[u] == s.low[v] <==> Mutual(Edges(g), u, v);
    }
  }
}
