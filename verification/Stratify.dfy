/** Cutting a program into strata (query/stratify.rs). */
module Stratify {
  import opened Wrappers
  import opened Exprs
  import opened Program
  import opened Datalog
  import opened Graphs
  import opened NamedGraph
  import Tarjan
  import Kahn

  type Prog = Rules<Symbol>

  /** For each rule the rules it depends on, with `true` for a dependency that must be complete before use. */
  type DepGraph = map<Symbol, map<Symbol, bool>>

  // ----- dependencies of a program -----

  /** The rule an atom applies, and whether it is negated. */
  function Applied(a: Atom<Symbol>): Option<(Symbol, bool)> {
    if a.Rule? then Some((a.name, false)) else if a.NegatedRule? then Some((a.name, true)) else None
  }

  predicate HasAggr(rules: seq<InlineRule<Symbol>>) {
    exists i, j :: 0 <= i < |rules| && 0 <= j < |rules[i].aggr| && rules[i].aggr[j].Some?
  }

  /** All aggregations are meet aggregations, wherever they stand in the head. */
  predicate AllMeet(rules: seq<InlineRule<Symbol>>) {
    HasAggr(rules) && forall i, j :: 0 <= i < |rules| && 0 <= j < |rules[i].aggr| && rules[i].aggr[j].Some? ==> rules[i].aggr[j].value.isMeet
  }

  predicate IsMeetRule(rf: RulesOrFixed<Symbol>) {
    rf.Rules? && AllMeet(rf.rules)
  }

  /** An application of `f` (negated if `neg`) in a rule of `k` asks for `f` to be complete. */
  predicate NeedsComplete(prog: Prog, k: Symbol, f: Symbol, neg: bool)
    requires k in prog && prog[k].Rules?
  {
    || neg
    || (f in prog && prog[f].Fixed?)
    || (HasAggr(prog[k].rules) && !(AllMeet(prog[k].rules) && k == f))
    || (f != k && f in prog && IsMeetRule(prog[f]))
  }

  ghost predicate Applies(rules: seq<InlineRule<Symbol>>, f: Symbol, neg: bool) {
    exists i, j :: 0 <= i < |rules| && 0 <= j < |rules[i].body| && Applied(rules[i].body[j]) == Some((f, neg))
  }

  ghost predicate Depends(prog: Prog, k: Symbol, f: Symbol) {
    k in prog &&
    match prog[k]
    case Rules(rules) => Applies(rules, f, false) || Applies(rules, f, true)
    case Fixed(_, args) => InMem(f) in args
  }

  ghost predicate Poisons(prog: Prog, k: Symbol, f: Symbol) {
    k in prog &&
    match prog[k]
    case Rules(rules) => exists neg :: Applies(rules, f, neg) && NeedsComplete(prog, k, f, neg)
    case Fixed(_, args) => InMem(f) in args
  }

  ghost function DepEdges(prog: Prog): iset<(Symbol, Symbol)> {
    iset k, f | Depends(prog, k, f) :: (k, f)
  }

  ghost predicate IsDepGraph(prog: Prog, g: DepGraph) {
    && g.Keys == prog.Keys
    && (forall k, f :: k in g ==> (f in g[k] <==> Depends(prog, k, f)))
    && (forall k, f :: k in g && f in g[k] ==> (g[k][f] <==> Poisons(prog, k, f)))
  }

  ghost predicate AppliedIn(body: seq<Atom<Symbol>>, n: nat, f: Symbol, neg: bool) {
    exists j :: 0 <= j < n && j < |body| && Applied(body[j]) == Some((f, neg))
  }

  lemma AppliedInStep(body: seq<Atom<Symbol>>, n: nat)
    requires n < |body|
    ensures forall f, neg :: AppliedIn(body, n + 1, f, neg) <==> AppliedIn(body, n, f, neg) || Applied(body[n]) == Some((f, neg))
  {
  }

  /** Adds the dependencies of one body. */
  method BodyEdges(prog: Prog, k: Symbol, body: seq<Atom<Symbol>>, hasAggr: bool, isMeet: bool,
                   meetRules: set<Symbol>, fixedRules: set<Symbol>, before: map<Symbol, bool>) returns (ret: map<Symbol, bool>)
    requires k in prog && prog[k].Rules? && hasAggr == HasAggr(prog[k].rules) && isMeet == AllMeet(prog[k].rules)
    requires forall f :: f in meetRules <==> f in prog && IsMeetRule(prog[f])
    requires forall f :: f in fixedRules <==> f in prog && prog[f].Fixed?
    ensures forall f :: f in ret <==> f in before || AppliedIn(body, |body|, f, false) || AppliedIn(body, |body|, f, true)
    ensures forall f :: f in ret ==>
      (ret[f] <==> (f in before && before[f]) || exists neg :: AppliedIn(body, |body|, f, neg) && NeedsComplete(prog, k, f, neg))
  {
    hide HasAggr, AllMeet;
    ret := before;
    for j := 0 to |body|
      invariant forall f :: f in ret <==> f in before || AppliedIn(body, j, f, false) || AppliedIn(body, j, f, true)
      invariant forall f :: f in ret ==>
        (ret[f] <==> (f in before && before[f]) || exists neg :: AppliedIn(body, j, f, neg) && NeedsComplete(prog, k, f, neg))
    {
      AppliedInStep(body, j);
      match Applied(body[j]) {
        case None =>
        case Some(call) =>
          var (f, neg) := call;
          var isMeetOther := f in meetRules && f != k;
          var isFixed := f in fixedRules;
          var poisoned := if hasAggr then (if isMeet && k == f then isFixed || isMeetOther || neg else true)
                       else isFixed || isMeetOther || neg;
          assert poisoned <==> NeedsComplete(prog, k, f, neg);
          ret := ret[f := if f in ret then ret[f] || poisoned else poisoned];
      }
    }
  }

  ghost predicate AppliesUpTo(rules: seq<InlineRule<Symbol>>, n: nat, f: Symbol, neg: bool) {
    exists i :: 0 <= i < n && i < |rules| && AppliedIn(rules[i].body, |rules[i].body|, f, neg)
  }

  method RuleEdges(prog: Prog, k: Symbol, meetRules: set<Symbol>, fixedRules: set<Symbol>) returns (ret: map<Symbol, bool>)
    requires k in prog && prog[k].Rules?
    requires forall f :: f in meetRules <==> f in prog && IsMeetRule(prog[f])
    requires forall f :: f in fixedRules <==> f in prog && prog[f].Fixed?
    ensures forall f :: f in ret <==> Depends(prog, k, f)
    ensures forall f :: f in ret ==> (ret[f] <==> Poisons(prog, k, f))
  {
    hide HasAggr, AllMeet, AppliedIn, NeedsComplete, Applies;
    ret := map[];
    var rules := prog[k].rules;
    var hasAggr, isMeet := HasAggr(rules), AllMeet(rules);
    for i := 0 to |rules|
      invariant forall f :: f in ret <==> AppliesUpTo(rules, i, f, false) || AppliesUpTo(rules, i, f, true)
      invariant forall f :: f in ret ==> (ret[f] <==> exists neg :: AppliesUpTo(rules, i, f, neg) && NeedsComplete(prog, k, f, neg))
    {
      ret := BodyEdges(prog, k, rules[i].body, hasAggr, isMeet, meetRules, fixedRules, ret);
      assert forall f, neg :: AppliesUpTo(rules, i + 1, f, neg) <==> AppliesUpTo(rules, i, f, neg) || AppliedIn(rules[i].body, |rules[i].body|, f, neg);
    }
    forall f, neg
      ensures AppliesUpTo(rules, |rules|, f, neg) <==> Applies(rules, f, neg)
    {
      AppliesIs(rules, f, neg);
    }
  }

  lemma AppliesIs(rules: seq<InlineRule<Symbol>>, f: Symbol, neg: bool)
    ensures AppliesUpTo(rules, |rules|, f, neg) <==> Applies(rules, f, neg)
  {
    if Applies(rules, f, neg) {
      var i, j :| 0 <= i < |rules| && 0 <= j < |rules[i].body| && Applied(rules[i].body[j]) == Some((f, neg));
      assert AppliedIn(rules[i].body, |rules[i].body|, f, neg);
    }
  }

  method FixedEdges(args: seq<FixedRuleArg<Symbol>>) returns (ret: map<Symbol, bool>)
    ensures forall f :: f in ret <==> InMem(f) in args
    ensures forall f :: f in ret ==> ret[f]
  {
    ret := map[];
    for i := 0 to |args|
      invariant forall f :: f in ret <==> InMem(f) in args[..i]
      invariant forall f :: f in ret ==> ret[f]
    {
      match args[i]
      case InMem(name) => ret := ret[name := true];
      case Stored(_, _) =>
    }
  }

  method ProgramToGraph(prog: Prog, names: seq<Symbol>) returns (g: DepGraph)
    requires Enumerates(names, prog)
    ensures IsDepGraph(prog, g)
  {
    hide Applies, NeedsComplete;
    var meetRules := set k | k in prog && IsMeetRule(prog[k]);
    var fixedRules := set k | k in prog && prog[k].Fixed?;
    g := map[];
    for i := 0 to |names|
      invariant forall k :: k in g <==> k in names[..i]
      invariant forall k, f :: k in g ==> (f in g[k] <==> Depends(prog, k, f))
      invariant forall k, f :: k in g && f in g[k] ==> (g[k][f] <==> Poisons(prog, k, f))
    {
      var k := names[i];
      var edges;
      match prog[k] {
        case Rules(_) => edges := RuleEdges(prog, k, meetRules, fixedRules);
        case Fixed(_, args) => edges := FixedEdges(args);
      }
      g := g[k := edges];
    }
  }

  // ----- what stratification promises -----

  /** The query uses the rule, directly or not. */
  ghost predicate Reachable(prog: Prog, k: Symbol) {
    Reach(DepEdges(prog), PROG_ENTRY, k)
  }

  /** No dependency that asks for completion, among the rules the query uses, lies on a cycle. */
  ghost predicate Stratifiable(prog: Prog) {
    forall k, f :: Poisons(prog, k, f) && Reachable(prog, k) ==> !Reach(DepEdges(prog), f, k)
  }

  /** The strata as returned, the query's own first, and how long each relation is kept. */
  datatype Stratified = Stratified(strata: seq<Prog>, lifetimes: map<MagicSymbol, nat>)

  ghost predicate InStratum(strata: seq<Prog>, k: Symbol, i: int) {
    0 <= i < |strata| && k in strata[i]
  }

  ghost predicate InSomeStratum(strata: seq<Prog>, k: Symbol) {
    exists i :: InStratum(strata, k, i)
  }

  /** Every rule the query uses is in one stratum, unchanged, and no other rule is anywhere. */
  ghost predicate Places(prog: Prog, strata: seq<Prog>) {
    && (forall k :: InSomeStratum(strata, k) <==> k in prog && Reachable(prog, k))
    && (forall i, k :: InStratum(strata, k, i) ==> k in prog && strata[i][k] == prog[k])
    && (forall i, j, k :: InStratum(strata, k, i) && InStratum(strata, k, j) ==> i == j)
  }

  /** Dependencies point to the same stratum or a later one, and to a later one when they ask for completion. */
  ghost predicate Ordered(prog: Prog, strata: seq<Prog>) {
    forall i, j, k, f :: InStratum(strata, k, i) && InStratum(strata, f, j) && Depends(prog, k, f) ==>
      i <= j && (Poisons(prog, k, f) ==> i < j)
  }

  /** A rule of stratum `i` uses `f`; strata are evaluated in reverse, so this happens in step `|strata| - 1 - i`. */
  ghost predicate UsedIn(prog: Prog, strata: seq<Prog>, f: Symbol, step: nat) {
    exists k :: InStratum(strata, k, |strata| - 1 - step) && Depends(prog, k, f)
  }

  /** A relation is kept until the last step that uses it. */
  ghost predicate KeptWhileUsed(prog: Prog, strata: seq<Prog>, lifetimes: map<MagicSymbol, nat>) {
    && (forall f, step: nat :: UsedIn(prog, strata, f, step) ==> Muggle(f) in lifetimes && step <= lifetimes[Muggle(f)])
    && (forall m :: m in lifetimes ==> m.Muggle? && UsedIn(prog, strata, m.inner, lifetimes[m]))
  }

  /** An assignment of strata as good as the one asked for. */
  ghost predicate RespectsDeps(prog: Prog, h: Symbol -> nat) {
    forall k, f :: Depends(prog, k, f) && k in prog && f in prog && Reachable(prog, k) ==>
      h(k) <= h(f) && (Poisons(prog, k, f) ==> h(k) < h(f))
  }

  /** No assignment gets by with fewer strata. */
  ghost predicate Fewest(prog: Prog, strata: seq<Prog>) {
    forall h: Symbol -> nat :: RespectsDeps(prog, h) && |strata| > 0 ==> exists k :: k in prog && |strata| - 1 <= h(k)
  }

  // ----- the graph of live rules -----

  ghost predicate SameKeys(g: DepGraph, r: Graph<Symbol>) {
    && r.Keys == g.Keys
    && forall k, f :: k in g ==> (f in r[k] <==> f in g[k])
  }

  method ReduceToGraph(g: DepGraph, names: seq<Symbol>) returns (r: Graph<Symbol>)
    requires Enumerates(names, g)
    ensures SameKeys(g, r)
  {
    r := map[];
    for i := 0 to |names|
      invariant forall k :: k in r <==> k in names[..i]
      invariant forall k, f :: k in r ==> (f in r[k] <==> f in g[k])
    {
      var fs := ListKeys(g[names[i]]);
      r := r[names[i] := fs];
    }
  }

  lemma GraphEdges(prog: Prog, g: DepGraph, r: Graph<Symbol>)
    requires IsDepGraph(prog, g) && SameKeys(g, r)
    ensures EdgesOf(r) == DepEdges(prog)
  {
    hide Depends, Poisons;
    DependsInProg(prog);
    forall u, v
      ensures (u, v) in EdgesOf(r) <==> (u, v) in DepEdges(prog)
    {
    }
  }

  lemma DependsInProg(prog: Prog)
    ensures forall k, f :: Depends(prog, k, f) ==> k in prog
    ensures forall k, f :: Poisons(prog, k, f) ==> Depends(prog, k, f)
  {
    hide Applies, NeedsComplete;
  }

  /** `g` is the dependency graph of the rules that the query uses. */
  ghost predicate IsLiveGraph(prog: Prog, g: DepGraph) {
    && (forall k :: k in g <==> k in prog && Reachable(prog, k))
    && (forall k, f :: k in g ==> (f in g[k] <==> Depends(prog, k, f)))
    && (forall k, f :: k in g && f in g[k] ==> (g[k][f] <==> Poisons(prog, k, f)))
  }

  /** Between live rules, the pruned graph reaches as far as the whole one. */
  lemma LiveReach(prog: Prog, g: DepGraph, r: Graph<Symbol>, u: Symbol, v: Symbol)
    requires IsLiveGraph(prog, g) && SameKeys(g, r) && Reachable(prog, u)
    ensures Reach(EdgesOf(r), u, v) <==> Reach(DepEdges(prog), u, v)
  {
    hide Depends, Poisons;
    DependsInProg(prog);
    if Reach(EdgesOf(r), u, v) {
      assert EdgesOf(r) <= DepEdges(prog);
      ReachMonotone(EdgesOf(r), DepEdges(prog), u, v);
    }
    if Reach(DepEdges(prog), u, v) {
      var p :| IsPathBetween(DepEdges(prog), p, u, v);
      forall i | 0 <= i < |p| - 1
        ensures (p[i], p[i + 1]) in EdgesOf(r)
      {
        PrefixReach(DepEdges(prog), p, i);
        ReachTrans(DepEdges(prog), PROG_ENTRY, u, p[i]);
        assert (p[i], p[i + 1]) in DepEdges(prog);
      }
      assert IsPathBetween(EdgesOf(r), p, u, v);
    }
  }

  lemma PrefixReach(e: iset<(Symbol, Symbol)>, p: seq<Symbol>, i: nat)
    requires IsPath(e, p) && i < |p|
    ensures Reach(e, p[0], p[i])
  {
    assert IsPathBetween(e, p[..i + 1], p[0], p[i]);
  }

  // ----- cycles -----

  /** A dependency that asks for completion stays within a component. */
  ghost predicate PoisonedWithin(g: DepGraph, sccs: seq<seq<Symbol>>, k: Symbol, f: Symbol) {
    k in g && f in g[k] && g[k][f] && exists s :: 0 <= s < |sccs| && k in sccs[s] && f in sccs[s]
  }

  method VerifyNoCycle(g: DepGraph, names: seq<Symbol>, sccs: seq<seq<Symbol>>) returns (ok: bool)
    requires Enumerates(names, g)
    ensures ok <==> forall k, f :: !PoisonedWithin(g, sccs, k, f)
  {
    for i := 0 to |names|
      invariant forall k, f :: k in names[..i] ==> !PoisonedWithin(g, sccs, k, f)
    {
      var k := names[i];
      for s := 0 to |sccs|
        invariant forall f, s' :: 0 <= s' < s && k in sccs[s'] && f in g[k] && g[k][f] ==> f !in sccs[s']
      {
        if k in sccs[s] {
          var todo := g[k].Keys;
          while todo != {}
            invariant todo <= g[k].Keys
            invariant forall f :: f in g[k].Keys - todo && g[k][f] ==> f !in sccs[s]
          {
            var f :| f in todo;
            if g[k][f] && f in sccs[s] {
              assert PoisonedWithin(g, sccs, k, f);
              return false;
            }
            todo := todo - {f};
          }
        }
      }
    }
    return true;
  }

  /** Staying within a component is lying on a cycle. */
  lemma WithinIsCycle(prog: Prog, g: DepGraph, r: Graph<Symbol>, sccs: seq<seq<Symbol>>)
    requires IsLiveGraph(prog, g) && SameKeys(g, r) && SccPartition(r, sccs)
    ensures (forall k, f :: !PoisonedWithin(g, sccs, k, f)) <==> Stratifiable(prog)
  {
    hide Depends, Poisons, IsLiveGraph, SameKeys, SccPartition, DepEdges, PoisonedWithin;
    forall k, f
      ensures PoisonedWithin(g, sccs, k, f) <==> Poisons(prog, k, f) && Reachable(prog, k) && Reach(DepEdges(prog), f, k)
    {
      WithinIsCycleAt(prog, g, r, sccs, k, f);
    }
  }

  lemma WithinIsCycleAt(prog: Prog, g: DepGraph, r: Graph<Symbol>, sccs: seq<seq<Symbol>>, k: Symbol, f: Symbol)
    requires IsLiveGraph(prog, g) && SameKeys(g, r) && SccPartition(r, sccs)
    ensures PoisonedWithin(g, sccs, k, f) <==> Poisons(prog, k, f) && Reachable(prog, k) && Reach(DepEdges(prog), f, k)
  {
    hide Depends, Poisons, Reach;
    DependsInProg(prog);
    if k in g && f in g[k] {
      assert (k, f) in DepEdges(prog);
      ReachEdge(DepEdges(prog), k, f);
      ReachTrans(DepEdges(prog), PROG_ENTRY, k, f);
      LiveReach(prog, g, r, f, k);
      ReachEdge(EdgesOf(r), k, f);
      if Reach(EdgesOf(r), f, k) {
        ReachesKey(r, f, k);
        assert Tarjan.InSome(sccs, k) && Tarjan.InSome(sccs, f);
        var i :| 0 <= i < |sccs| && k in sccs[i];
        var j :| 0 <= j < |sccs| && f in sccs[j];
        assert Mutual(EdgesOf(r), k, f);
      } else {
        assert !Mutual(EdgesOf(r), k, f);
      }
    }
  }

  lemma ReachesKey(r: Graph<Symbol>, u: Symbol, v: Symbol)
    requires Reach(EdgesOf(r), u, v) && v in r
    ensures u in r
  {
    var p :| IsPathBetween(EdgesOf(r), p, u, v);
    if |p| > 1 {
      assert (p[0], p[1]) in EdgesOf(r);
    }
  }

  // ----- the graph of components -----

  /** `idx` gives every member the position of its group. */
  ghost predicate IsIndex<T(!new)>(sccs: seq<seq<T>>, idx: map<T, nat>) {
    && (forall s, u :: 0 <= s < |sccs| && u in sccs[s] ==> u in idx && idx[u] == s)
    && (forall u :: u in idx ==> idx[u] < |sccs| && u in sccs[idx[u]])
  }

  method Positions<T(==, !new)>(sccs: seq<seq<T>>) returns (idx: map<T, nat>)
    requires forall i, j, u :: 0 <= i < |sccs| && 0 <= j < |sccs| && u in sccs[i] && u in sccs[j] ==> i == j
    ensures IsIndex(sccs, idx)
  {
    idx := map[];
    for s := 0 to |sccs|
      invariant forall s', u :: 0 <= s' < s && u in sccs[s'] ==> u in idx && idx[u] == s'
      invariant forall u :: u in idx ==> idx[u] < s && u in sccs[idx[u]]
    {
      for l := 0 to |sccs[s]|
        invariant forall s', u :: 0 <= s' < s && u in sccs[s'] ==> u in idx && idx[u] == s'
        invariant forall u :: u in sccs[s][..l] ==> u in idx && idx[u] == s
        invariant forall u :: u in idx ==> idx[u] <= s && u in sccs[idx[u]]
        invariant forall u :: u in idx && idx[u] == s ==> u in sccs[s][..l]
      {
        assert sccs[s][l] in sccs[s];
        idx := idx[sccs[s][l] := s];
      }
    }
  }

  /** One of the dependencies in `done` leads from component `a` to component `b`. */
  ghost predicate Linked(idx: map<Symbol, nat>, done: set<(Symbol, Symbol)>, a: nat, b: nat) {
    exists k, f :: (k, f) in done && k in idx && f in idx && idx[k] == a && idx[f] == b
  }

  /** One that asks for completion does. */
  ghost predicate PoisonLinked(g: DepGraph, idx: map<Symbol, nat>, done: set<(Symbol, Symbol)>, a: nat, b: nat) {
    exists k, f :: (k, f) in done && k in g && f in g[k] && g[k][f] && k in idx && f in idx && idx[k] == a && idx[f] == b
  }

  ghost predicate Reduces(g: DepGraph, idx: map<Symbol, nat>, done: set<(Symbol, Symbol)>, red: Kahn.StratifiedGraph) {
    && (forall a: nat, b: nat :: Kahn.Edge(red, a, b) <==> a != b && Linked(idx, done, a, b))
    && (forall a: nat, b: nat :: Kahn.Edge(red, a, b) ==> (red[a][b] <==> PoisonLinked(g, idx, done, a, b)))
  }

  ghost function AllDeps(g: DepGraph): set<(Symbol, Symbol)> {
    set k, f | k in g && f in g[k] :: (k, f)
  }

  lemma LinkedStep(g: DepGraph, idx: map<Symbol, nat>, done: set<(Symbol, Symbol)>, k: Symbol, f: Symbol)
    requires k in g && f in g[k]
    ensures forall a, b :: Linked(idx, done + {(k, f)}, a, b) <==>
      Linked(idx, done, a, b) || (k in idx && f in idx && idx[k] == a && idx[f] == b)
    ensures forall a, b :: PoisonLinked(g, idx, done + {(k, f)}, a, b) <==>
      PoisonLinked(g, idx, done, a, b) || (g[k][f] && k in idx && f in idx && idx[k] == a && idx[f] == b)
    ensures forall a, b :: PoisonLinked(g, idx, done, a, b) ==> Linked(idx, done, a, b)
  {
  }

  /** Adds one dependency to the graph of components. */
  method ReduceEdge(g: DepGraph, idx: map<Symbol, nat>, before: Kahn.StratifiedGraph, k: Symbol, f: Symbol,
                    ghost done: set<(Symbol, Symbol)>) returns (red: Kahn.StratifiedGraph)
    requires k in g && f in g[k] && k in idx && idx[k] in before && Reduces(g, idx, done, before)
    ensures Reduces(g, idx, done + {(k, f)}, red) && idx[k] in red
    ensures red.Keys == before.Keys
  {
    hide Linked, PoisonLinked;
    LinkedStep(g, idx, done, k, f);
    red := before;
    var a := idx[k];
    if f in idx && idx[f] != a {
      var b := idx[f];
      var row := before[a];
      row := row[b := if b in row then row[b] || g[k][f] else g[k][f]];
      red := before[a := row];
      assert forall x: nat, y: nat :: Kahn.Edge(red, x, y) <==> Kahn.Edge(before, x, y) || (x == a && y == b);
    }
  }

  method MakeSccReducedGraph(sccs: seq<seq<Symbol>>, g: DepGraph, names: seq<Symbol>) returns (idx: map<Symbol, nat>, red: Kahn.StratifiedGraph)
    requires Enumerates(names, g)
    requires forall i, j, u :: 0 <= i < |sccs| && 0 <= j < |sccs| && u in sccs[i] && u in sccs[j] ==> i == j
    requires forall k :: k in g ==> Tarjan.InSome(sccs, k)
    ensures IsIndex(sccs, idx) && g.Keys <= idx.Keys
    ensures Reduces(g, idx, AllDeps(g), red)
    ensures forall a :: a in red ==> a < |sccs|
  {
    hide Reduces;
    idx := Positions(sccs);
    red := map[];
    ghost var done: set<(Symbol, Symbol)> := {};
    ReducesEmpty(g, idx);
    for i := 0 to |names|
      invariant done == set k, f | k in names[..i] && k in g && f in g[k] :: (k, f)
      invariant Reduces(g, idx, done, red)
      invariant forall a :: a in red ==> a < |sccs|
    {
      var k := names[i];
      assert Tarjan.InSome(sccs, k);
      ghost var was := done;
      if idx[k] !in red {
        ReducesEmptyRow(g, idx, done, red, idx[k]);
        red := red[idx[k] := map[]];
      }
      var todo := g[k].Keys;
      while todo != {}
        invariant todo <= g[k].Keys && idx[k] in red
        invariant done == was + set f | f in g[k].Keys - todo :: (k, f)
        invariant Reduces(g, idx, done, red)
        invariant forall a :: a in red ==> a < |sccs|
      {
        var f :| f in todo;
        red := ReduceEdge(g, idx, red, k, f, done);
        ghost var seen := g[k].Keys - todo;
        todo := todo - {f};
        assert g[k].Keys - todo == seen + {f};
        done := done + {(k, f)};
      }
    }
    assert done == AllDeps(g);
  }

  lemma ReducesEmpty(g: DepGraph, idx: map<Symbol, nat>)
    ensures Reduces(g, idx, {}, map[])
  {
  }

  lemma ReducesEmptyRow(g: DepGraph, idx: map<Symbol, nat>, done: set<(Symbol, Symbol)>, red: Kahn.StratifiedGraph, a: nat)
    requires Reduces(g, idx, done, red) && a !in red
    ensures Reduces(g, idx, done, red[a := map[]])
  {
    hide Linked, PoisonLinked;
    assert forall x: nat, y: nat :: Kahn.Edge(red[a := map[]], x, y) <==> Kahn.Edge(red, x, y);
  }

  // ----- components form an acyclic graph -----

  lemma LinkReaches(g: DepGraph, r: Graph<Symbol>, sccs: seq<seq<Symbol>>, idx: map<Symbol, nat>, red: Kahn.StratifiedGraph,
                    a: nat, b: nat, u: Symbol, v: Symbol)
    requires SameKeys(g, r) && SccPartition(r, sccs) && IsIndex(sccs, idx) && Reduces(g, idx, AllDeps(g), red)
    requires Kahn.Edge(red, a, b) && a < |sccs| && b < |sccs| && u in sccs[a] && v in sccs[b]
    ensures Reach(EdgesOf(r), u, v)
  {
    hide Reach;
    assert Linked(idx, AllDeps(g), a, b);
    var k, f :| (k, f) in AllDeps(g) && k in idx && f in idx && idx[k] == a && idx[f] == b;
    assert (k, f) in EdgesOf(r);
    ReachEdge(EdgesOf(r), k, f);
    assert Mutual(EdgesOf(r), u, k) && Mutual(EdgesOf(r), f, v);
    ReachTrans(EdgesOf(r), u, k, f);
    ReachTrans(EdgesOf(r), u, f, v);
  }

  lemma {:induction false} ComponentReaches(g: DepGraph, r: Graph<Symbol>, sccs: seq<seq<Symbol>>, idx: map<Symbol, nat>, red: Kahn.StratifiedGraph,
                                            p: seq<nat>, u: Symbol, v: Symbol)
    requires SameKeys(g, r) && SccPartition(r, sccs) && IsIndex(sccs, idx) && Reduces(g, idx, AllDeps(g), red)
    requires IsPath(Kahn.Edges(red), p) && p[0] < |sccs| && p[|p| - 1] < |sccs| && u in sccs[p[0]] && v in sccs[p[|p| - 1]]
    ensures Reach(EdgesOf(r), u, v)
    decreases |p|
  {
    hide Reach, SccPartition, IsIndex, Reduces, SameKeys;
    if |p| == 1 {
      assert Mutual(EdgesOf(r), u, v) by { SameComponent(r, sccs, p[0], u, v); }
    } else {
      assert (p[0], p[1]) in Kahn.Edges(red);
      assert Kahn.Edge(red, p[0], p[1]);
      var x := Member(r, g, sccs, idx, red, p[0], p[1]);
      LinkReaches(g, r, sccs, idx, red, p[0], p[1], u, x);
      Kahn.PathSlice(Kahn.Edges(red), p, 1, |p| - 1);
      assert p[1..|p| - 1 + 1] == p[1..];
      ComponentReaches(g, r, sccs, idx, red, p[1..], x, v);
      ReachTrans(EdgesOf(r), u, x, v);
    }
  }

  lemma SameComponent(r: Graph<Symbol>, sccs: seq<seq<Symbol>>, a: nat, u: Symbol, v: Symbol)
    requires SccPartition(r, sccs) && a < |sccs| && u in sccs[a] && v in sccs[a]
    ensures Mutual(EdgesOf(r), u, v)
  {
  }

  lemma Member(r: Graph<Symbol>, g: DepGraph, sccs: seq<seq<Symbol>>, idx: map<Symbol, nat>, red: Kahn.StratifiedGraph, a: nat, b: nat) returns (x: Symbol)
    requires IsIndex(sccs, idx) && Reduces(g, idx, AllDeps(g), red) && Kahn.Edge(red, a, b)
    ensures a < |sccs| && b < |sccs| && a != b && x in sccs[b]
  {
    assert Linked(idx, AllDeps(g), a, b);
    var k, f :| (k, f) in AllDeps(g) && k in idx && f in idx && idx[k] == a && idx[f] == b;
    x := f;
  }

  lemma ReducedAcyclic(g: DepGraph, r: Graph<Symbol>, sccs: seq<seq<Symbol>>, idx: map<Symbol, nat>, red: Kahn.StratifiedGraph)
    requires SameKeys(g, r) && SccPartition(r, sccs) && IsIndex(sccs, idx) && Reduces(g, idx, AllDeps(g), red)
    ensures Kahn.Acyclic(Kahn.Edges(red))
  {
    hide Reach, SccPartition, IsIndex, Reduces, SameKeys;
    forall p | IsPath(Kahn.Edges(red), p) && |p| > 1
      ensures p[0] != p[|p| - 1]
    {
      assert (p[0], p[1]) in Kahn.Edges(red);
      assert Kahn.Edge(red, p[0], p[1]);
      var v := Member(r, g, sccs, idx, red, p[0], p[1]);
      if p[0] == p[|p| - 1] {
        var u := First(g, idx, sccs, red, p[0], p[1]);
        LinkReaches(g, r, sccs, idx, red, p[0], p[1], u, v);
        Kahn.PathSlice(Kahn.Edges(red), p, 1, |p| - 1);
        assert p[1..|p| - 1 + 1] == p[1..];
        ComponentReaches(g, r, sccs, idx, red, p[1..], v, u);
        Apart(r, sccs, p[0], p[1], u, v);
      }
    }
  }

  lemma First(g: DepGraph, idx: map<Symbol, nat>, sccs: seq<seq<Symbol>>, red: Kahn.StratifiedGraph, a: nat, b: nat) returns (x: Symbol)
    requires IsIndex(sccs, idx) && Reduces(g, idx, AllDeps(g), red) && Kahn.Edge(red, a, b)
    ensures a < |sccs| && x in sccs[a]
  {
    assert Linked(idx, AllDeps(g), a, b);
    var k, f :| (k, f) in AllDeps(g) && k in idx && f in idx && idx[k] == a && idx[f] == b;
    x := k;
  }

  lemma Apart(r: Graph<Symbol>, sccs: seq<seq<Symbol>>, a: nat, b: nat, u: Symbol, v: Symbol)
    requires SccPartition(r, sccs) && a < |sccs| && b < |sccs| && u in sccs[a] && v in sccs[b]
    requires Reach(EdgesOf(r), u, v) && Reach(EdgesOf(r), v, u)
    ensures a == b
  {
    hide Reach;
    assert Mutual(EdgesOf(r), u, v);
  }

  // ----- strata and lifetimes -----

  /** The stratum of a rule, by way of its component. */
  ghost predicate HasStratum(idx: map<Symbol, nat>, inv: map<nat, nat>, k: Symbol, i: int) {
    k in idx && idx[k] in inv && inv[idx[k]] == i
  }

  method PlaceRules(prog: Prog, names: seq<Symbol>, idx: map<Symbol, nat>, inv: map<nat, nat>, n: nat) returns (strata: seq<Prog>)
    requires Enumerates(names, prog) && forall v :: v in inv ==> inv[v] < n
    ensures |strata| == n
    ensures forall i, k :: InStratum(strata, k, i) <==> k in prog && HasStratum(idx, inv, k, i)
    ensures forall i, k :: InStratum(strata, k, i) && k in prog ==> strata[i][k] == prog[k]
  {
    strata := seq(n, _ => map[]);
    for l := 0 to |names|
      invariant |strata| == n
      invariant forall i, k :: InStratum(strata, k, i) <==> k in names[..l] && HasStratum(idx, inv, k, i)
      invariant forall i, k :: InStratum(strata, k, i) ==> k in prog && strata[i][k] == prog[k]
    {
      var name := names[l];
      assert names[..l + 1] == names[..l] + [name];
      if name in idx && idx[name] in inv {
        var at := inv[idx[name]];
        ghost var was := strata;
        strata := strata[at := strata[at][name := prog[name]]];
        assert forall i, k :: InStratum(strata, k, i) <==> InStratum(was, k, i) || (k == name && i == at);
      }
    }
  }

  /** A rule placed so that it is evaluated in the given step uses `f`. */
  ghost predicate StepUses(g: DepGraph, idx: map<Symbol, nat>, inv: map<nat, nat>, n: nat, ks: set<Symbol>, f: Symbol, step: int) {
    exists k :: k in ks && k in g && f in g[k] && HasStratum(idx, inv, k, n - 1 - step)
  }

  ghost predicate KeepsFor(g: DepGraph, idx: map<Symbol, nat>, inv: map<nat, nat>, n: nat, ks: set<Symbol>, lifetimes: map<MagicSymbol, nat>) {
    && (forall f, step :: StepUses(g, idx, inv, n, ks, f, step) ==> Muggle(f) in lifetimes && step <= lifetimes[Muggle(f)])
    && (forall m :: m in lifetimes ==> m.Muggle? && StepUses(g, idx, inv, n, ks, m.inner, lifetimes[m]))
  }

  method Lifetimes(g: DepGraph, names: seq<Symbol>, idx: map<Symbol, nat>, inv: map<nat, nat>, n: nat) returns (lifetimes: map<MagicSymbol, nat>)
    requires Enumerates(names, g) && forall v :: v in inv ==> inv[v] < n
    ensures KeepsFor(g, idx, inv, n, g.Keys, lifetimes)
  {
    lifetimes := map[];
    ghost var ks: set<Symbol> := {};
    for l := 0 to |names|
      invariant forall k :: k in ks <==> k in names[..l]
      invariant KeepsFor(g, idx, inv, n, ks, lifetimes)
    {
      hide KeepsFor;
      var fr := names[l];
      if fr in idx && idx[fr] in inv {
        lifetimes := RowLifetimes(g, idx, inv, n, fr, lifetimes, ks);
      } else {
        UnplacedRow(g, idx, inv, n, ks, fr, lifetimes);
      }
      ks := ks + {fr};
    }
    assert ks == g.Keys;
  }

  lemma UnplacedRow(g: DepGraph, idx: map<Symbol, nat>, inv: map<nat, nat>, n: nat, ks: set<Symbol>, fr: Symbol, lifetimes: map<MagicSymbol, nat>)
    requires KeepsFor(g, idx, inv, n, ks, lifetimes) && !(fr in idx && idx[fr] in inv)
    ensures KeepsFor(g, idx, inv, n, ks + {fr}, lifetimes)
  {
    forall f, step
      ensures StepUses(g, idx, inv, n, ks + {fr}, f, step) <==> StepUses(g, idx, inv, n, ks, f, step)
    {
    }
  }

  method RowLifetimes(g: DepGraph, idx: map<Symbol, nat>, inv: map<nat, nat>, n: nat, fr: Symbol, before: map<MagicSymbol, nat>,
                      ghost ks: set<Symbol>) returns (lifetimes: map<MagicSymbol, nat>)
    requires fr in g && fr in idx && idx[fr] in inv && inv[idx[fr]] < n
    requires KeepsFor(g, idx, inv, n, ks, before)
    ensures KeepsFor(g, idx, inv, n, ks + {fr}, lifetimes)
  {
    lifetimes := before;
    var usedIn := n - 1 - inv[idx[fr]];
    var todo := g[fr].Keys;
    while todo != {}
      invariant todo <= g[fr].Keys
      invariant forall m :: m in lifetimes ==> m.Muggle?
      invariant forall m :: m in before ==> m in lifetimes && before[m] <= lifetimes[m]
      invariant forall f :: f in g[fr] && f !in todo ==> Muggle(f) in lifetimes && usedIn <= lifetimes[Muggle(f)]
      invariant forall m :: m in lifetimes ==> (m in before && lifetimes[m] == before[m]) || (m.inner in g[fr] && lifetimes[m] == usedIn)
    {
      var to :| to in todo;
      if Muggle(to) !in lifetimes || usedIn > lifetimes[Muggle(to)] {
        lifetimes := lifetimes[Muggle(to) := usedIn];
      }
      todo := todo - {to};
    }
    assert HasStratum(idx, inv, fr, n - 1 - usedIn);
    forall f, step | StepUses(g, idx, inv, n, ks + {fr}, f, step)
      ensures Muggle(f) in lifetimes && step <= lifetimes[Muggle(f)]
    {
      assert StepUses(g, idx, inv, n, ks, f, step) || (f in g[fr] && step == usedIn);
    }
  }

  // ----- putting it together -----

  lemma InFlatten(ss: seq<seq<nat>>, v: nat)
    ensures v in Kahn.Flatten(ss) <==> Tarjan.InSome(ss, v)
  {
    if ss != [] {
      InFlatten(ss[..|ss| - 1], v);
      if Tarjan.InSome(ss[..|ss| - 1], v) {
        var i :| 0 <= i < |ss| - 1 && v in ss[..|ss| - 1][i];
        assert v in ss[i];
      }
      if v in ss[|ss| - 1] {
        assert Tarjan.InSome(ss, v);
      }
      if Tarjan.InSome(ss, v) {
        var i :| 0 <= i < |ss| && v in ss[i];
        if i < |ss| - 1 {
          assert v in ss[..|ss| - 1][i];
          assert Tarjan.InSome(ss[..|ss| - 1], v);
        }
      }
    }
  }

  lemma OneLevel(red: Kahn.StratifiedGraph, v: nat, i: nat, j: nat)
    requires Kahn.IsLevel(red, v, i) && Kahn.IsLevel(red, v, j)
    ensures i == j
  {
  }

  lemma SortIsPartition(red: Kahn.StratifiedGraph, n: nat, sort: seq<seq<nat>>)
    requires Kahn.IsStratification(red, n, sort)
    ensures forall i, j, v :: 0 <= i < |sort| && 0 <= j < |sort| && v in sort[i] && v in sort[j] ==> i == j
    ensures forall v: nat :: v < n ==> Tarjan.InSome(sort, v)
    ensures forall i, v :: 0 <= i < |sort| && v in sort[i] ==> Kahn.IsLevel(red, v, i)
  {
    hide Kahn.IsLevel;
    forall i, j, v | 0 <= i < |sort| && 0 <= j < |sort| && v in sort[i] && v in sort[j]
      ensures i == j
    {
      OneLevel(red, v, i, j);
    }
    forall v: nat | v < n
      ensures Tarjan.InSome(sort, v)
    {
      InFlatten(sort, v);
    }
  }

  lemma PartsNonempty(r: Graph<Symbol>, sccs: seq<seq<Symbol>>)
    requires SccPartition(r, sccs)
    ensures forall i :: 0 <= i < |sccs| ==> |sccs[i]| > 0 && sccs[i][0] in r
  {
  }

  lemma OneComponent(r: Graph<Symbol>, sccs: seq<seq<Symbol>>, i: nat, j: nat, u: Symbol)
    requires SccPartition(r, sccs) && i < |sccs| && j < |sccs| && u in sccs[i] && u in sccs[j]
    ensures i == j
  {
    ReachRefl(EdgesOf(r), u);
    Apart(r, sccs, i, j, u, u);
  }

  lemma {:induction false} DistinctCount(s: seq<Symbol>, b: set<Symbol>)
    requires forall i :: 0 <= i < |s| ==> s[i] in b
    requires forall i, j :: 0 <= i < j < |s| ==> s[i] != s[j]
    ensures |s| <= |b|
    decreases |s|
  {
    if s != [] {
      DistinctCount(s[..|s| - 1], b - {s[|s| - 1]});
    }
  }

  /** There are no more components than rules. */
  lemma FewComponents(r: Graph<Symbol>, sccs: seq<seq<Symbol>>)
    requires SccPartition(r, sccs)
    ensures |sccs| <= |r.Keys|
  {
    PartsNonempty(r, sccs);
    hide SccPartition;
    var heads := seq(|sccs|, i requires 0 <= i < |sccs| => sccs[i][0]);
    forall i, j | 0 <= i < j < |sccs|
      ensures heads[i] != heads[j]
    {
      if heads[i] == heads[j] {
        OneComponent(r, sccs, i, j, heads[i]);
      }
    }
    DistinctCount(heads, r.Keys);
  }

  /** Everything computed on the way, and how it fits together. */
  ghost predicate Computed(prog: Prog, g: DepGraph, r: Graph<Symbol>, sccs: seq<seq<Symbol>>, idx: map<Symbol, nat>,
                           red: Kahn.StratifiedGraph, sort: seq<seq<nat>>, inv: map<nat, nat>) {
    && IsLiveGraph(prog, g) && SameKeys(g, r) && SccPartition(r, sccs)
    && IsIndex(sccs, idx) && Reduces(g, idx, AllDeps(g), red)
    && Kahn.IsStratification(red, |g.Keys|, sort) && IsIndex(sort, inv)
  }

  /** Exactly the live rules have a stratum, which is the level of their component. */
  lemma StratumIsLevel(prog: Prog, g: DepGraph, r: Graph<Symbol>, sccs: seq<seq<Symbol>>, idx: map<Symbol, nat>,
                       red: Kahn.StratifiedGraph, sort: seq<seq<nat>>, inv: map<nat, nat>, k: Symbol)
    requires Computed(prog, g, r, sccs, idx, red, sort, inv)
    ensures k in g <==> exists i :: HasStratum(idx, inv, k, i)
    ensures forall i :: HasStratum(idx, inv, k, i) ==> 0 <= i < |sort| && Kahn.IsLevel(red, idx[k], i)
  {
    hide Kahn.IsLevel, IsLiveGraph, Reduces, Reach;
    SortIsPartition(red, |g.Keys|, sort);
    FewComponents(r, sccs);
    if k in g {
      assert Tarjan.InSome(sccs, k);
      assert idx[k] < |g.Keys|;
      assert Tarjan.InSome(sort, idx[k]);
      var i :| 0 <= i < |sort| && idx[k] in sort[i];
      assert HasStratum(idx, inv, k, i);
    }
  }

  lemma PlacesRules(prog: Prog, g: DepGraph, r: Graph<Symbol>, sccs: seq<seq<Symbol>>, idx: map<Symbol, nat>,
                    red: Kahn.StratifiedGraph, sort: seq<seq<nat>>, inv: map<nat, nat>, strata: seq<Prog>)
    requires Computed(prog, g, r, sccs, idx, red, sort, inv)
    requires forall i, k :: InStratum(strata, k, i) <==> k in prog && HasStratum(idx, inv, k, i)
    requires forall i, k :: InStratum(strata, k, i) && k in prog ==> strata[i][k] == prog[k]
    ensures Places(prog, strata)
  {
    hide Computed, InStratum, Reachable;
    assert forall k :: k in g <==> k in prog && Reachable(prog, k) by { LiveKeys(prog, g, r, sccs, idx, red, sort, inv); }
    forall k
      ensures InSomeStratum(strata, k) <==> k in prog && Reachable(prog, k)
    {
      StratumIsLevel(prog, g, r, sccs, idx, red, sort, inv, k);
      if k in g {
        var i :| HasStratum(idx, inv, k, i);
        assert InStratum(strata, k, i);
      }
    }
  }

  lemma LiveKeys(prog: Prog, g: DepGraph, r: Graph<Symbol>, sccs: seq<seq<Symbol>>, idx: map<Symbol, nat>,
                 red: Kahn.StratifiedGraph, sort: seq<seq<nat>>, inv: map<nat, nat>)
    requires Computed(prog, g, r, sccs, idx, red, sort, inv)
    ensures forall k :: k in g <==> k in prog && Reachable(prog, k)
  {
    hide Reachable;
  }

  lemma DependencyOrder(prog: Prog, g: DepGraph, r: Graph<Symbol>, sccs: seq<seq<Symbol>>, idx: map<Symbol, nat>,
                        red: Kahn.StratifiedGraph, sort: seq<seq<nat>>, inv: map<nat, nat>, k: Symbol, f: Symbol, i: nat, j: nat)
    requires Computed(prog, g, r, sccs, idx, red, sort, inv)
    requires forall k', f' :: !PoisonedWithin(g, sccs, k', f')
    requires HasStratum(idx, inv, k, i) && HasStratum(idx, inv, f, j) && Depends(prog, k, f)
    ensures i <= j && (Poisons(prog, k, f) ==> i < j)
  {
    hide Kahn.IsLevel, Reach, Depends, Poisons, Kahn.IsStratification, SccPartition;
    StratumIsLevel(prog, g, r, sccs, idx, red, sort, inv, k);
    StratumIsLevel(prog, g, r, sccs, idx, red, sort, inv, f);
    assert (k, f) in AllDeps(g);
    assert g[k][f] <==> Poisons(prog, k, f);
    if idx[k] == idx[f] {
      assert !PoisonedWithin(g, sccs, k, f);
    } else {
      assert Linked(idx, AllDeps(g), idx[k], idx[f]);
      assert Kahn.Edge(red, idx[k], idx[f]);
      Kahn.StrataRespectEdges(red, idx[k], idx[f], i, j);
      if g[k][f] {
        assert PoisonLinked(g, idx, AllDeps(g), idx[k], idx[f]);
      }
    }
  }

  lemma OrdersRules(prog: Prog, g: DepGraph, r: Graph<Symbol>, sccs: seq<seq<Symbol>>, idx: map<Symbol, nat>,
                    red: Kahn.StratifiedGraph, sort: seq<seq<nat>>, inv: map<nat, nat>, strata: seq<Prog>)
    requires Computed(prog, g, r, sccs, idx, red, sort, inv)
    requires forall k, f :: !PoisonedWithin(g, sccs, k, f)
    requires forall i, k :: InStratum(strata, k, i) <==> k in prog && HasStratum(idx, inv, k, i)
    ensures Ordered(prog, strata)
  {
    hide Computed, Depends, Poisons, HasStratum;
    forall i, j, k, f | InStratum(strata, k, i) && InStratum(strata, f, j) && Depends(prog, k, f)
      ensures i <= j && (Poisons(prog, k, f) ==> i < j)
    {
      DependencyOrder(prog, g, r, sccs, idx, red, sort, inv, k, f, i, j);
    }
  }

  lemma KeptEnough(prog: Prog, g: DepGraph, idx: map<Symbol, nat>, inv: map<nat, nat>, strata: seq<Prog>, lifetimes: map<MagicSymbol, nat>)
    requires IsLiveGraph(prog, g) && KeepsFor(g, idx, inv, |strata|, g.Keys, lifetimes) && Places(prog, strata)
    requires forall i, k :: InStratum(strata, k, i) <==> k in prog && HasStratum(idx, inv, k, i)
    requires forall k, i :: HasStratum(idx, inv, k, i) ==> i < |strata|
    ensures KeptWhileUsed(prog, strata, lifetimes)
  {
    hide Reach, Depends, Poisons, Reachable, HasStratum, InStratum;
    forall f, step: nat
      ensures UsedIn(prog, strata, f, step) <==> StepUses(g, idx, inv, |strata|, g.Keys, f, step)
    {
      if UsedIn(prog, strata, f, step) {
        var k :| InStratum(strata, k, |strata| - 1 - step) && Depends(prog, k, f);
        assert InSomeStratum(strata, k);
        assert k in g && f in g[k];
      }
      if StepUses(g, idx, inv, |strata|, g.Keys, f, step) {
        var k :| k in g && f in g[k] && HasStratum(idx, inv, k, |strata| - 1 - step);
        assert InStratum(strata, k, |strata| - 1 - step) && Depends(prog, k, f);
      }
    }
  }

  // ----- no fewer strata -----

  lemma NeverFalls(prog: Prog, g: DepGraph, r: Graph<Symbol>, h: Symbol -> nat, u: Symbol, v: Symbol)
    requires IsLiveGraph(prog, g) && SameKeys(g, r) && RespectsDeps(prog, h) && v in r && Reach(EdgesOf(r), u, v)
    ensures h(u) <= h(v)
  {
    hide Depends, Poisons, Reachable;
    var p :| IsPathBetween(EdgesOf(r), p, u, v);
    var i := |p| - 1;
    while i > 0
      invariant 0 <= i < |p| && p[i] in r && h(p[i]) <= h(v)
    {
      assert (p[i - 1], p[i - 1 + 1]) in EdgesOf(r);
      i := i - 1;
    }
  }

  lemma LinkRises(prog: Prog, g: DepGraph, r: Graph<Symbol>, sccs: seq<seq<Symbol>>, h: Symbol -> nat,
                  k: Symbol, f: Symbol, a: nat, b: nat)
    requires IsLiveGraph(prog, g) && SameKeys(g, r) && SccPartition(r, sccs) && RespectsDeps(prog, h)
    requires k in g && f in g[k] && a < |sccs| && b < |sccs| && k in sccs[a] && f in sccs[b]
    ensures sccs[a] != [] && sccs[b] != [] && h(sccs[a][0]) + (if g[k][f] then 1 else 0) <= h(sccs[b][0])
  {
    PartsNonempty(r, sccs);
    hide Depends, Poisons, Reachable, Reach;
    var u, v := sccs[a][0], sccs[b][0];
    SameComponent(r, sccs, a, u, k);
    SameComponent(r, sccs, b, f, v);
    NeverFalls(prog, g, r, h, u, k);
    NeverFalls(prog, g, r, h, f, v);
    assert f in r;
  }

  ghost function LevelBy(sccs: seq<seq<Symbol>>, h: Symbol -> nat): nat -> nat {
    (v: nat) => if v < |sccs| && sccs[v] != [] then h(sccs[v][0]) else 0
  }

  lemma LevelRespects(prog: Prog, g: DepGraph, r: Graph<Symbol>, sccs: seq<seq<Symbol>>, idx: map<Symbol, nat>, red: Kahn.StratifiedGraph, h: Symbol -> nat)
    requires IsLiveGraph(prog, g) && SameKeys(g, r) && SccPartition(r, sccs) && RespectsDeps(prog, h)
    requires IsIndex(sccs, idx) && Reduces(g, idx, AllDeps(g), red)
    ensures Kahn.Respects(red, LevelBy(sccs, h))
  {
    hide SccPartition, IsLiveGraph, Reduces, RespectsDeps, IsIndex, SameKeys, Kahn.Weight, Kahn.Edge;
    forall a: nat, b: nat | Kahn.Edge(red, a, b)
      ensures LevelBy(sccs, h)(a) + Kahn.Weight(red, a, b) <= LevelBy(sccs, h)(b)
    {
      EdgeRises(prog, g, r, sccs, idx, red, h, a, b);
    }
  }

  lemma FewestProved(prog: Prog, g: DepGraph, r: Graph<Symbol>, sccs: seq<seq<Symbol>>, idx: map<Symbol, nat>,
                     red: Kahn.StratifiedGraph, sort: seq<seq<nat>>, inv: map<nat, nat>, h: Symbol -> nat)
    requires Computed(prog, g, r, sccs, idx, red, sort, inv) && RespectsDeps(prog, h) && |sort| > 0
    ensures exists k :: k in prog && |sort| - 1 <= h(k)
  {
    hide SccPartition, IsLiveGraph, Reduces, RespectsDeps, IsIndex, SameKeys, Kahn.IsStratification, Kahn.Respects, AllDeps, LevelBy;
    LevelRespects(prog, g, r, sccs, idx, red, h);
    Kahn.FewestStrata(red, |g.Keys|, sort, LevelBy(sccs, h));
    var v: nat :| v < |g.Keys| && |sort| - 1 <= LevelBy(sccs, h)(v);
    var k := RuleAtLevel(prog, g, r, sccs, h, v);
  }

  lemma RuleAtLevel(prog: Prog, g: DepGraph, r: Graph<Symbol>, sccs: seq<seq<Symbol>>, h: Symbol -> nat, v: nat) returns (k: Symbol)
    requires IsLiveGraph(prog, g) && SameKeys(g, r) && SccPartition(r, sccs) && v < |g.Keys|
    ensures k in prog && LevelBy(sccs, h)(v) <= h(k)
  {
    hide Reachable, Depends, Poisons, Mutual, Tarjan.InSome;
    if v < |sccs| {
      PartsNonempty(r, sccs);
      k := sccs[v][0];
    } else {
      k :| k in g.Keys;
    }
  }

  lemma UsesFewest(prog: Prog, g: DepGraph, r: Graph<Symbol>, sccs: seq<seq<Symbol>>, idx: map<Symbol, nat>,
                   red: Kahn.StratifiedGraph, sort: seq<seq<nat>>, inv: map<nat, nat>, strata: seq<Prog>)
    requires Computed(prog, g, r, sccs, idx, red, sort, inv) && |strata| == |sort|
    ensures Fewest(prog, strata)
  {
    hide Computed, RespectsDeps;
    forall h: Symbol -> nat | RespectsDeps(prog, h) && |strata| > 0
      ensures exists k :: k in prog && |strata| - 1 <= h(k)
    {
      FewestProved(prog, g, r, sccs, idx, red, sort, inv, h);
    }
  }

  lemma EdgeRises(prog: Prog, g: DepGraph, r: Graph<Symbol>, sccs: seq<seq<Symbol>>, idx: map<Symbol, nat>, red: Kahn.StratifiedGraph,
                  h: Symbol -> nat, a: nat, b: nat)
    requires IsLiveGraph(prog, g) && SameKeys(g, r) && SccPartition(r, sccs) && RespectsDeps(prog, h)
    requires IsIndex(sccs, idx) && Reduces(g, idx, AllDeps(g), red) && Kahn.Edge(red, a, b)
    ensures a < |sccs| && b < |sccs| && sccs[a] != [] && sccs[b] != []
    ensures h(sccs[a][0]) + Kahn.Weight(red, a, b) <= h(sccs[b][0])
  {
    hide IsLiveGraph, SameKeys, SccPartition, RespectsDeps;
    assert Linked(idx, AllDeps(g), a, b);
    var k, f :| (k, f) in AllDeps(g) && k in idx && f in idx && idx[k] == a && idx[f] == b;
    if red[a][b] {
      assert PoisonLinked(g, idx, AllDeps(g), a, b);
      k, f :| (k, f) in AllDeps(g) && k in g && f in g[k] && g[k][f] && k in idx && f in idx && idx[k] == a && idx[f] == b;
    }
    LinkRises(prog, g, r, sccs, h, k, f, a, b);
  }

  // ----- the operation -----

  method LiveNames(names: seq<Symbol>, keep: set<Symbol>, ghost g: DepGraph) returns (live: seq<Symbol>)
    requires Enumerates(names, g)
    ensures (forall k :: k in live <==> k in g && k in keep)
    ensures forall i, j :: 0 <= i < j < |live| ==> live[i] != live[j]
  {
    live := [];
    for l := 0 to |names|
      invariant forall k :: k in live <==> k in names[..l] && k in keep
      invariant forall i, j :: 0 <= i < j < |live| ==> live[i] != live[j]
    {
      if names[l] in keep {
        live := live + [names[l]];
      }
    }
  }

  method IntoStratifiedProgram(prog: Prog, names: seq<Symbol>) returns (res: Result<Stratified>)
    requires Enumerates(names, prog)
    ensures res.Success? <==> Stratifiable(prog)
    ensures res.Success? ==> Places(prog, res.value.strata) && Ordered(prog, res.value.strata)
    ensures res.Success? ==> KeptWhileUsed(prog, res.value.strata, res.value.lifetimes)
    ensures res.Success? ==> Fewest(prog, res.value.strata)
    ensures res.Success? && PROG_ENTRY !in prog ==> res.value.strata == []
  {
    hide IsDepGraph, SameKeys, IsLiveGraph, SccPartition, Stratifiable, PoisonedWithin, Places, KeptWhileUsed, Reach, Ordered, Fewest;
    var full := ProgramToGraph(prog, names);
    assert full.Keys == prog.Keys by { FullKeys(prog, full); }
    var graph := ReduceToGraph(full, names);
    var reachable := ReachableComponents(graph, PROG_ENTRY);
    var g := map k | k in full && k in reachable :: full[k];
    assert graph.Keys == full.Keys by { SameKeysFact(full, graph); }
    var r := map k | k in graph && k in reachable :: graph[k];
    Pruned(prog, full, graph, reachable, g, r);
    var live := LiveNames(names, reachable, full);
    var sccs := StronglyConnectedComponents(r, live);
    WithinIsCycle(prog, g, r, sccs);
    var ok := VerifyNoCycle(g, live, sccs);
    if !ok {
      return Failure;
    }
    var arranged := Arrange(prog, names, g, live, r, sccs);
    res := Success(arranged);
  }

  /** Sorts the components into strata and places the rules. */
  method Arrange(prog: Prog, names: seq<Symbol>, g: DepGraph, live: seq<Symbol>, ghost r: Graph<Symbol>, sccs: seq<seq<Symbol>>) returns (res: Stratified)
    requires Enumerates(names, prog) && Enumerates(live, g)
    requires IsLiveGraph(prog, g) && SameKeys(g, r) && SccPartition(r, sccs) && forall k, f :: !PoisonedWithin(g, sccs, k, f)
    ensures Places(prog, res.strata) && Ordered(prog, res.strata) && KeptWhileUsed(prog, res.strata, res.lifetimes) && Fewest(prog, res.strata)
    ensures PROG_ENTRY !in prog ==> res.strata == []
  {
    hide SameKeys, IsLiveGraph, SccPartition, IsIndex, Reduces, Kahn.IsStratification, Kahn.Acyclic, Kahn.IsGraphOn,
         PoisonedWithin, HasStratum, InStratum, KeepsFor, Places, KeptWhileUsed, Ordered, Fewest, Computed;
    ComponentsFit(g, r, sccs);
    var idx, red := MakeSccReducedGraph(sccs, g, live);
    ReducedAcyclic(g, r, sccs, idx, red);
    ReducedOn(g, r, sccs, idx, red);
    var sort := Kahn.GeneralizedKahn(red, |g|);
    SortIsPartition(red, |g.Keys|, sort);
    var inv := Positions(sort);
    assert Computed(prog, g, r, sccs, idx, red, sort, inv) by { Collect(prog, g, r, sccs, idx, red, sort, inv); }
    InvBound(sort, inv);
    var strata := PlaceRules(prog, names, idx, inv, |sort|);
    var lifetimes := Lifetimes(g, live, idx, inv, |sort|);
    Assembled(prog, g, r, sccs, idx, red, sort, inv, strata, lifetimes);
    res := Stratified(strata, lifetimes);
  }

  lemma Assembled(prog: Prog, g: DepGraph, r: Graph<Symbol>, sccs: seq<seq<Symbol>>, idx: map<Symbol, nat>,
                  red: Kahn.StratifiedGraph, sort: seq<seq<nat>>, inv: map<nat, nat>, strata: seq<Prog>, lifetimes: map<MagicSymbol, nat>)
    requires Computed(prog, g, r, sccs, idx, red, sort, inv) && |strata| == |sort|
    requires forall k, f :: !PoisonedWithin(g, sccs, k, f)
    requires forall i, k :: InStratum(strata, k, i) <==> k in prog && HasStratum(idx, inv, k, i)
    requires forall i, k :: InStratum(strata, k, i) && k in prog ==> strata[i][k] == prog[k]
    requires KeepsFor(g, idx, inv, |strata|, g.Keys, lifetimes)
    ensures Places(prog, strata) && Ordered(prog, strata) && KeptWhileUsed(prog, strata, lifetimes) && Fewest(prog, strata)
    ensures PROG_ENTRY !in prog ==> strata == []
  {
    hide IsLiveGraph, SameKeys, SccPartition, IsIndex, Reduces, Kahn.IsStratification, PoisonedWithin, HasStratum, InStratum, KeepsFor,
         Places, Ordered, KeptWhileUsed, Fewest, AllDeps;
    PlacesRules(prog, g, r, sccs, idx, red, sort, inv, strata);
    OrdersRules(prog, g, r, sccs, idx, red, sort, inv, strata);
    InvBound(sort, inv);
    StratumBound(idx, inv, |sort|);
    KeptEnough(prog, g, idx, inv, strata, lifetimes);
    UsesFewest(prog, g, r, sccs, idx, red, sort, inv, strata);
    NoQueryNoStrata(prog, g, red, sort);
  }

  lemma NoQueryNoStrata(prog: Prog, g: DepGraph, red: Kahn.StratifiedGraph, sort: seq<seq<nat>>)
    requires IsLiveGraph(prog, g) && Kahn.IsStratification(red, |g.Keys|, sort)
    ensures PROG_ENTRY !in prog ==> sort == []
  {
    hide Depends, Poisons;
    DependsInProg(prog);
    if sort != [] {
      assert sort[0][0] < |g.Keys|;
      var k :| k in g.Keys;
      var p :| IsPathBetween(DepEdges(prog), p, PROG_ENTRY, k);
      assert |p| > 1 ==> (p[0], p[0 + 1]) in DepEdges(prog);
    }
  }

  lemma FullKeys(prog: Prog, g: DepGraph)
    requires IsDepGraph(prog, g)
    ensures g.Keys == prog.Keys
  {
  }

  lemma SameKeysFact(g: DepGraph, r: Graph<Symbol>)
    requires SameKeys(g, r)
    ensures g.Keys == r.Keys
  {
  }

  lemma Pruned(prog: Prog, full: DepGraph, graph: Graph<Symbol>, reachable: set<Symbol>, g: DepGraph, r: Graph<Symbol>)
    requires IsDepGraph(prog, full) && SameKeys(full, graph)
    requires forall v :: v in reachable <==> Reach(EdgesOf(graph), PROG_ENTRY, v)
    requires g == map k | k in full && k in reachable :: full[k]
    requires r == map k | k in graph && k in reachable :: graph[k]
    ensures IsLiveGraph(prog, g) && SameKeys(g, r)
  {
    hide Depends, Poisons, Reach;
    GraphEdges(prog, full, graph);
  }

  lemma ComponentsFit(g: DepGraph, r: Graph<Symbol>, sccs: seq<seq<Symbol>>)
    requires SameKeys(g, r) && SccPartition(r, sccs)
    ensures forall i, j, u :: 0 <= i < |sccs| && 0 <= j < |sccs| && u in sccs[i] && u in sccs[j] ==> i == j
    ensures forall k :: k in g ==> Tarjan.InSome(sccs, k)
  {
    forall i, j, u | 0 <= i < |sccs| && 0 <= j < |sccs| && u in sccs[i] && u in sccs[j]
      ensures i == j
    {
      OneComponent(r, sccs, i, j, u);
    }
  }

  lemma ReducedOn(g: DepGraph, r: Graph<Symbol>, sccs: seq<seq<Symbol>>, idx: map<Symbol, nat>, red: Kahn.StratifiedGraph)
    requires SameKeys(g, r) && SccPartition(r, sccs) && IsIndex(sccs, idx) && Reduces(g, idx, AllDeps(g), red)
    requires forall a :: a in red ==> a < |sccs|
    ensures Kahn.IsGraphOn(red, |g.Keys|)
  {
    hide SccPartition;
    FewComponents(r, sccs);
    assert g.Keys == r.Keys;
    forall a, b | a in red && b in red[a]
      ensures b < |sccs|
    {
      assert Kahn.Edge(red, a, b);
      var x := Member(r, g, sccs, idx, red, a, b);
    }
  }

  lemma Collect(prog: Prog, g: DepGraph, r: Graph<Symbol>, sccs: seq<seq<Symbol>>, idx: map<Symbol, nat>,
                red: Kahn.StratifiedGraph, sort: seq<seq<nat>>, inv: map<nat, nat>)
    requires IsLiveGraph(prog, g) && SameKeys(g, r) && SccPartition(r, sccs)
    requires IsIndex(sccs, idx) && Reduces(g, idx, AllDeps(g), red)
    requires Kahn.IsStratification(red, |g.Keys|, sort) && IsIndex(sort, inv)
    ensures Computed(prog, g, r, sccs, idx, red, sort, inv)
  {
  }

  lemma InvBound(sort: seq<seq<nat>>, inv: map<nat, nat>)
    requires IsIndex(sort, inv)
    ensures forall v :: v in inv ==> inv[v] < |sort|
  {
  }

  lemma StratumBound(idx: map<Symbol, nat>, inv: map<nat, nat>, n: nat)
    requires forall v :: v in inv ==> inv[v] < n
    ensures forall k, i :: HasStratum(idx, inv, k, i) ==> i < n
  {
  }
}
