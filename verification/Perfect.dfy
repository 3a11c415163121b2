/** The meaning of a program, without mention of strata, and why every stratification computes it. */
module Perfect {
  import opened Wrappers
  import opened Values
  import opened Exprs
  import opened Program
  import opened Datalog
  import opened Graphs
  import opened Stratify
  import opened BodyEval
  import opened SemiNaive
  import opened StrataMagic
  import opened StageReady
  import opened Pipeline

  /** The rules that depend on `k` and that `k` depends on. */
  ghost function Group(prog: Prog, k: Symbol): Prog {
    map f | f in prog && Mutual(DepEdges(prog), k, f) :: prog[f]
  }

  /** Everything outside the group, and what fixed rules and aggregations in it compute. */
  ghost function GroupBase(prog: Prog, once: OnceFn<Symbol>, k: Symbol, mean: Tables<Symbol>): DB<Symbol> {
    iset f: Fact<Symbol> |
      || (f in Facts(mean) && f.name !in Group(prog, k))
      || (f.name in Group(prog, k) && IsOnce(prog[f.name]) && f.tuple in once(f.name, Inputs(prog[f.name], mean)))
  }

  /** The tables of a program: each group of mutually dependent rules holds what follows from the others and no more. */
  ghost predicate IsPerfect(w: World, prog: Prog, once: OnceFn<Symbol>, mean: Tables<Symbol>) {
    && (forall k :: k in mean <==> k in prog && Reachable(prog, k))
    && (forall k, t :: k in mean ==> (t in mean[k] <==> Fact(k, t) in Least(w, Group(prog, k), GroupBase(prog, once, k, mean))))
  }

  /** What the following needs to know about one stratum. */
  ghost predicate Within(prog: Prog, strata: seq<Prog>, lifetimes: map<MagicSymbol, nat>, i: nat, mean: Tables<Symbol>, w: World, once: OnceFn<Symbol>) {
    WellFormed(prog) && Accepted(prog, strata, lifetimes) && i < |strata| && IsPerfect(w, prog, once, mean)
  }

  lemma GroupOf(prog: Prog, k: Symbol, f: Symbol)
    requires f in Group(prog, k)
    ensures Group(prog, f) == Group(prog, k)
  {
    hide Reach;
    forall g
      ensures Mutual(DepEdges(prog), f, g) <==> Mutual(DepEdges(prog), k, g)
    {
      MutualTrans(prog, f, k, g);
      MutualTrans(prog, k, f, g);
    }
  }

  lemma MutualTrans(prog: Prog, a: Symbol, b: Symbol, c: Symbol)
    ensures Mutual(DepEdges(prog), a, b) && Mutual(DepEdges(prog), b, c) ==> Mutual(DepEdges(prog), a, c)
    ensures Mutual(DepEdges(prog), a, b) ==> Mutual(DepEdges(prog), b, a)
  {
    if Mutual(DepEdges(prog), a, b) && Mutual(DepEdges(prog), b, c) {
      ReachTrans(DepEdges(prog), a, b, c);
      ReachTrans(DepEdges(prog), c, b, a);
    }
  }

  lemma InOwnGroup(prog: Prog, k: Symbol)
    requires k in prog
    ensures k in Group(prog, k)
  {
    ReachRefl(DepEdges(prog), k);
  }

  /** A group lies within one stratum. */
  lemma {:induction false} ReachDown(prog: Prog, strata: seq<Prog>, k: Symbol, f: Symbol, i: nat, j: nat)
    requires Closed(prog) && Places(prog, strata) && Ordered(prog, strata) && InStratum(strata, k, i) && InStratum(strata, f, j)
    requires Reach(DepEdges(prog), k, f)
    ensures i <= j
  {
    hide Depends, Poisons, InStratum, ReadsOf, Reachable;
    var p :| IsPathBetween(DepEdges(prog), p, k, f);
    var l, at := 0, i;
    while l < |p| - 1
      invariant 0 <= l < |p| && InStratum(strata, p[l], at) && i <= at
    {
      assert (p[l], p[l + 1]) in DepEdges(prog);
      DependsIsReads(prog, p[l], p[l + 1]);
      assert p[l] in prog;
      ReadIsPlaced(prog, strata, p[l], p[l + 1], at);
      var at' := StratumOf(strata, p[l + 1]);
      l, at := l + 1, at';
    }
  }

  lemma GroupInStratum(prog: Prog, strata: seq<Prog>, lifetimes: map<MagicSymbol, nat>, i: nat, k: Symbol, f: Symbol)
    requires WellFormed(prog) && Accepted(prog, strata, lifetimes) && i < |strata| && k in strata[i] && f in Group(prog, k)
    ensures f in strata[i]
  {
    hide Reach, RulesWellFormed, KeptWhileUsed, IsOnce, ReadsOf, Ordered, Closed;
    assert InStratum(strata, k, i);
    assert InSomeStratum(strata, k);
    ReachTrans(DepEdges(prog), PROG_ENTRY, k, f);
    assert InSomeStratum(strata, f);
    var j := StratumOf(strata, f);
    ReachDown(prog, strata, k, f, i, j);
    ReachDown(prog, strata, f, k, j, i);
  }

  lemma PerfectAt(w: World, prog: Prog, once: OnceFn<Symbol>, mean: Tables<Symbol>, k: Symbol, f: Symbol, t: Tuple)
    requires IsPerfect(w, prog, once, mean) && k in mean && f in Group(prog, k)
    ensures f in mean && (t in mean[f] <==> Fact(f, t) in Least(w, Group(prog, k), GroupBase(prog, once, k, mean)))
  {
    hide Reach, Least;
    GroupOf(prog, k, f);
    ReachTrans(DepEdges(prog), PROG_ENTRY, k, f);
    assert GroupBase(prog, once, f, mean) == GroupBase(prog, once, k, mean);
  }

  // ----- one rule, seen from its group and from its stratum -----

  /** Everything a rule reads from the stratum means what it means, and negation looks outside the stratum. */
  lemma ReadMeans(w: World, prog: Prog, strata: seq<Prog>, lifetimes: map<MagicSymbol, nat>, i: nat, once: OnceFn<Symbol>, mean: Tables<Symbol>, k: Symbol, n: Symbol)
    requires i < |strata| && Within(prog, strata, lifetimes, i, mean, w, once) && k in strata[i] && n in ReadsOf(strata[i][k])
    ensures n in mean && (n in strata[i] || Before(strata, i, n))
  {
    hide ReadsOf, RulesWellFormed, IsOnce, Least, Reachable, KeptWhileUsed;
    assert InStratum(strata, k, i);
    assert strata[i][k] == prog[k];
    ReadIsPlaced(prog, strata, k, n, i);
    var j := StratumOf(strata, n);
    DependsIsReads(prog, k, n);
    if i != j {
      assert i < j;
    }
  }

  lemma NegatedOutside(w: World, prog: Prog, strata: seq<Prog>, lifetimes: map<MagicSymbol, nat>, i: nat, once: OnceFn<Symbol>, mean: Tables<Symbol>,
                       k: Symbol, r: InlineRule<Symbol>, x: Atom<Symbol>)
    requires i < |strata| && Within(prog, strata, lifetimes, i, mean, w, once) && k in strata[i] && HasRule(strata[i], k, r) && x in r.body && x.NegatedRule?
    ensures x.name !in strata[i]
  {
    hide RulesWellFormed, IsOnce, Least, Reachable, KeptWhileUsed, IsPerfect, NeedsComplete;
    assert InStratum(strata, k, i);
    assert strata[i][k] == prog[k];
    var l :| 0 <= l < |prog[k].rules| && prog[k].rules[l] == r;
    var j :| 0 <= j < |r.body| && r.body[j] == x;
    assert Applied(prog[k].rules[l].body[j]) == Some((x.name, true));
    NegationPoisons(prog, k, x.name);
    assert InStratum(strata, x.name, i) ==> i < i;
  }

  /** The rule yields in one setting what it yields in the other. */
  lemma YieldsBetween<S(!new)>(w: World, pos: DB<S>, neg: DB<S>, pos': DB<S>, neg': DB<S>, r: InlineRule<S>, env: Env, t: Tuple)
    requires Yields(w, pos, neg, r, env, t)
    requires forall x, u :: x in r.body && x.Rule? && Fact(x.name, u) in pos ==> Fact(x.name, u) in pos'
    requires forall x, u :: x in r.body && x.NegatedRule? ==> (Fact(x.name, u) in neg <==> Fact(x.name, u) in neg')
    ensures Yields(w, pos', neg', r, env, t)
  {
    hide IsPlain, BodyBinds;
    forall l | 0 <= l < |r.body|
      ensures Holds(w, pos', neg', r.body[l], env)
    {
      var x := r.body[l];
      assert x in r.body;
      match x
      case Rule(n, args) => assert Fact(n, Row(args, env)) in pos;
      case NegatedRule(n, args) => assert forall u :: Fact(n, u) in neg <==> Fact(n, u) in neg';
      case _ =>
    }
  }

  lemma GroupBaseAt(prog: Prog, once: OnceFn<Symbol>, k: Symbol, mean: Tables<Symbol>, n: Symbol, u: Tuple)
    ensures n !in Group(prog, k) ==> (Fact(n, u) in GroupBase(prog, once, k, mean) <==> n in mean && u in mean[n])
    ensures n in Group(prog, k) ==> (Fact(n, u) in GroupBase(prog, once, k, mean) <==> IsOnce(prog[n]) && u in once(n, Inputs(prog[n], mean)))
  {
    hide IsOnce, Inputs;
  }

  /** Outside the rules, the least model is the base. */
  lemma LeastOutside<S(!new)>(w: World, p: Rules<S>, b: DB<S>, n: S, u: Tuple)
    requires n !in p
    ensures Fact(n, u) in Least(w, p, b) <==> Fact(n, u) in b
  {
    hide Yields, Least;
    LeastIsModel(w, p, b);
    var l := Least(w, p, b);
    var m := iset f | f in l && (f.name in p || f in b);
    forall f | Derives(w, p, m, b, f)
      ensures f in m
    {
      DerivesMonotone(w, p, m, l, b, f);
    }
    assert IsModel(w, p, b, m);
    LeastInModel(w, p, b, m);
  }

  // ----- a stratum holds no more than the meaning -----

  ghost function MeanFacts(strata: seq<Prog>, i: nat, mean: Tables<Symbol>, b: DB<Symbol>): DB<Symbol>
    requires i < |strata|
  {
    iset f: Fact<Symbol> | if f.name in strata[i] then f in Facts(mean) else f in b
  }

  lemma MeanYields(w: World, prog: Prog, strata: seq<Prog>, lifetimes: map<MagicSymbol, nat>, i: nat, once: OnceFn<Symbol>, mean: Tables<Symbol>,
                   k: Symbol, r: InlineRule<Symbol>, env: Env, t: Tuple)
    requires i < |strata| && Within(prog, strata, lifetimes, i, mean, w, once) && HasRule(strata[i], k, r)
    requires var b := StageBase(strata, once, i, mean); Yields(w, MeanFacts(strata, i, mean, b), b, r, env, t)
    ensures k in mean && t in mean[k]
  {
    hide Within, StageBase, GroupBase, Least, Yields, Group, Before;
    var b := StageBase(strata, once, i, mean);
    RuleFacts(w, prog, strata, lifetimes, i, once, mean, k);
    var g, gb := Group(prog, k), GroupBase(prog, once, k, mean);
    var lg := Least(w, g, gb);
    forall x, u | x in r.body && x.Rule? && Fact(x.name, u) in MeanFacts(strata, i, mean, b)
      ensures Fact(x.name, u) in lg
    {
      ReadsAtom(strata[i], k, r, x);
      ReadMeans(w, prog, strata, lifetimes, i, once, mean, k, x.name);
      StratumBaseAt(w, prog, strata, lifetimes, i, once, mean, x.name, u);
      if x.name in g {
        PerfectAtStage(w, prog, strata, lifetimes, i, once, mean, k, x.name, u);
      } else {
        GroupBaseAt(prog, once, k, mean, x.name, u);
        LeastOutside(w, g, gb, x.name, u);
      }
    }
    forall x, u | x in r.body && x.NegatedRule?
      ensures Fact(x.name, u) in b <==> Fact(x.name, u) in gb
    {
      NegatedAgrees(w, prog, strata, lifetimes, i, once, mean, k, r, x, u);
    }
    YieldsBetween(w, MeanFacts(strata, i, mean, b), b, lg, gb, r, env, t);
    LeastIsModel(w, g, gb);
    assert HasRule(g, k, r) by { GroupHasRule(prog, strata, lifetimes, i, k, r, w, once, mean); }
    assert Derives(w, g, lg, gb, Fact(k, t));
    PerfectAtStage(w, prog, strata, lifetimes, i, once, mean, k, k, t);
  }

  lemma RuleFacts(w: World, prog: Prog, strata: seq<Prog>, lifetimes: map<MagicSymbol, nat>, i: nat, once: OnceFn<Symbol>, mean: Tables<Symbol>, k: Symbol)
    requires i < |strata| && Within(prog, strata, lifetimes, i, mean, w, once) && k in strata[i]
    ensures k in prog && k in mean && strata[i][k] == prog[k] && k in Group(prog, k)
  {
    hide RulesWellFormed, IsOnce, Least, Reachable, KeptWhileUsed, Group;
    assert InStratum(strata, k, i);
    assert InSomeStratum(strata, k);
    InOwnGroup(prog, k);
  }

  lemma ReadsAtom(p: Prog, k: Symbol, r: InlineRule<Symbol>, x: Atom<Symbol>)
    requires HasRule(p, k, r) && x in r.body && (x.Rule? || x.NegatedRule?)
    ensures x.name in ReadsOf(p[k])
  {
    var l :| 0 <= l < |p[k].rules| && p[k].rules[l] == r;
    var j :| 0 <= j < |r.body| && r.body[j] == x;
    assert p[k].rules[l].body[j].name == x.name;
  }

  lemma StratumBaseAt(w: World, prog: Prog, strata: seq<Prog>, lifetimes: map<MagicSymbol, nat>, i: nat, once: OnceFn<Symbol>, mean: Tables<Symbol>, n: Symbol, u: Tuple)
    requires i < |strata| && Within(prog, strata, lifetimes, i, mean, w, once)
    ensures n in strata[i] ==>
      (Fact(n, u) in StageBase(strata, once, i, mean) <==> IsOnce(strata[i][n]) && u in once(n, Inputs(strata[i][n], mean)))
    ensures n !in strata[i] ==> (Fact(n, u) in StageBase(strata, once, i, mean) <==> Before(strata, i, n) && n in mean && u in mean[n])
  {
    hide WellFormed, Places, Ordered, KeptWhileUsed, StageBase, IsPerfect;
    StageBaseAt(prog, strata, once, i, mean, n, u);
  }

  lemma PerfectAtStage(w: World, prog: Prog, strata: seq<Prog>, lifetimes: map<MagicSymbol, nat>, i: nat, once: OnceFn<Symbol>, mean: Tables<Symbol>,
                       k: Symbol, n: Symbol, u: Tuple)
    requires i < |strata| && Within(prog, strata, lifetimes, i, mean, w, once) && k in mean && n in Group(prog, k)
    ensures n in mean && (u in mean[n] <==> Fact(n, u) in Least(w, Group(prog, k), GroupBase(prog, once, k, mean)))
  {
    PerfectAt(w, prog, once, mean, k, n, u);
  }

  lemma GroupHasRule(prog: Prog, strata: seq<Prog>, lifetimes: map<MagicSymbol, nat>, i: nat, k: Symbol, r: InlineRule<Symbol>, w: World,
                     once: OnceFn<Symbol>, mean: Tables<Symbol>)
    requires i < |strata| && Within(prog, strata, lifetimes, i, mean, w, once) && HasRule(strata[i], k, r)
    ensures HasRule(Group(prog, k), k, r)
  {
    RuleFacts(w, prog, strata, lifetimes, i, once, mean, k);
  }

  lemma NegatedAgrees(w: World, prog: Prog, strata: seq<Prog>, lifetimes: map<MagicSymbol, nat>, i: nat, once: OnceFn<Symbol>, mean: Tables<Symbol>,
                      k: Symbol, r: InlineRule<Symbol>, x: Atom<Symbol>, u: Tuple)
    requires i < |strata| && Within(prog, strata, lifetimes, i, mean, w, once) && HasRule(strata[i], k, r) && x in r.body && x.NegatedRule?
    ensures Fact(x.name, u) in StageBase(strata, once, i, mean) <==> Fact(x.name, u) in GroupBase(prog, once, k, mean)
  {
    hide Within, StageBase, GroupBase, Group, Before;
    ReadsAtom(strata[i], k, r, x);
    ReadMeans(w, prog, strata, lifetimes, i, once, mean, k, x.name);
    NegatedOutside(w, prog, strata, lifetimes, i, once, mean, k, r, x);
    StratumBaseAt(w, prog, strata, lifetimes, i, once, mean, x.name, u);
    GroupBaseAt(prog, once, k, mean, x.name, u);
    if x.name in Group(prog, k) {
      GroupStays(w, prog, strata, lifetimes, i, once, mean, k, x.name);
    }
  }

  lemma GroupStays(w: World, prog: Prog, strata: seq<Prog>, lifetimes: map<MagicSymbol, nat>, i: nat, once: OnceFn<Symbol>, mean: Tables<Symbol>, k: Symbol, n: Symbol)
    requires i < |strata| && Within(prog, strata, lifetimes, i, mean, w, once) && k in strata[i] && n in Group(prog, k)
    ensures n in strata[i]
  {
    GroupInStratum(prog, strata, lifetimes, i, k, n);
  }

  lemma StratumInMean(w: World, prog: Prog, strata: seq<Prog>, lifetimes: map<MagicSymbol, nat>, i: nat, once: OnceFn<Symbol>, mean: Tables<Symbol>)
    requires i < |strata| && Within(prog, strata, lifetimes, i, mean, w, once)
    ensures var b := StageBase(strata, once, i, mean); Least(w, strata[i], b) <= MeanFacts(strata, i, mean, b)
  {
    hide Within, StageBase, Least, Yields;
    var b := StageBase(strata, once, i, mean);
    var x := MeanFacts(strata, i, mean, b);
    forall f | f in b
      ensures f in x
    {
      assert f == Fact(f.name, f.tuple);
      StratumBaseAt(w, prog, strata, lifetimes, i, once, mean, f.name, f.tuple);
      if f.name in strata[i] {
        OnceInMean(w, prog, strata, lifetimes, i, once, mean, f.name, f.tuple);
      }
    }
    forall f | Derives(w, strata[i], x, b, f)
      ensures f in x
    {
      var r, env :| HasRule(strata[i], f.name, r) && Yields(w, x, b, r, env, f.tuple);
      MeanYields(w, prog, strata, lifetimes, i, once, mean, f.name, r, env, f.tuple);
    }
    assert IsModel(w, strata[i], b, x);
    LeastInModel(w, strata[i], b, x);
  }

  lemma OnceInMean(w: World, prog: Prog, strata: seq<Prog>, lifetimes: map<MagicSymbol, nat>, i: nat, once: OnceFn<Symbol>, mean: Tables<Symbol>, k: Symbol, t: Tuple)
    requires i < |strata| && Within(prog, strata, lifetimes, i, mean, w, once) && k in strata[i] && IsOnce(strata[i][k]) && t in once(k, Inputs(strata[i][k], mean))
    ensures k in mean && t in mean[k]
  {
    hide Within, GroupBase, Least, IsOnce, Inputs, Group;
    RuleFacts(w, prog, strata, lifetimes, i, once, mean, k);
    GroupBaseAt(prog, once, k, mean, k, t);
    LeastIsModel(w, Group(prog, k), GroupBase(prog, once, k, mean));
    PerfectAtStage(w, prog, strata, lifetimes, i, once, mean, k, k, t);
  }

  // ----- and no less -----

  /** The rules that `k` depends on, itself included. */
  ghost function Below(prog: Prog, k: Symbol): set<Symbol> {
    set f | f in prog && Reach(DepEdges(prog), k, f)
  }

  lemma BelowShrinks(prog: Prog, k: Symbol, k': Symbol, n: Symbol)
    requires k in prog && k' in Group(prog, k) && Depends(prog, k', n) && n in prog && n !in Group(prog, k)
    ensures Below(prog, n) < Below(prog, k)
  {
    hide Reach, Depends;
    ReachEdge(DepEdges(prog), k', n);
    ReachTrans(DepEdges(prog), k, k', n);
    ReachRefl(DepEdges(prog), k);
    forall f | f in Below(prog, n)
      ensures f in Below(prog, k)
    {
      ReachTrans(DepEdges(prog), k, n, f);
    }
    assert k !in Below(prog, n);
  }

  /** The part of the group's consequences that the stratum has. */
  ghost function HeldFacts(g: Prog, l: DB<Symbol>, gb: DB<Symbol>): DB<Symbol> {
    iset f: Fact<Symbol> | if f.name in g then f in l else f in gb
  }

  lemma {:induction false} MeanInStratum(w: World, prog: Prog, strata: seq<Prog>, lifetimes: map<MagicSymbol, nat>, i: nat, once: OnceFn<Symbol>,
                                         mean: Tables<Symbol>, k: Symbol, t: Tuple)
    requires i < |strata| && Within(prog, strata, lifetimes, i, mean, w, once) && k in strata[i] && k in mean && t in mean[k]
    ensures Fact(k, t) in Least(w, strata[i], StageBase(strata, once, i, mean))
    decreases Below(prog, k)
  {
    hide Within, StageBase, GroupBase, Least, Yields, Group, Below;
    RuleFacts(w, prog, strata, lifetimes, i, once, mean, k);
    var b := StageBase(strata, once, i, mean);
    var g, gb := Group(prog, k), GroupBase(prog, once, k, mean);
    var l := Least(w, strata[i], b);
    LeastIsModel(w, strata[i], b);
    forall f | f in gb
      ensures f in HeldFacts(g, l, gb)
    {
      if f.name in g {
        assert f == Fact(f.name, f.tuple);
        GroupBaseAt(prog, once, k, mean, f.name, f.tuple);
        GroupStays(w, prog, strata, lifetimes, i, once, mean, k, f.name);
        RuleFacts(w, prog, strata, lifetimes, i, once, mean, f.name);
        StratumBaseAt(w, prog, strata, lifetimes, i, once, mean, f.name, f.tuple);
      }
    }
    forall f | Derives(w, g, HeldFacts(g, l, gb), gb, f)
      ensures f in HeldFacts(g, l, gb)
    {
      var r, env :| HasRule(g, f.name, r) && Yields(w, HeldFacts(g, l, gb), gb, r, env, f.tuple);
      GroupStays(w, prog, strata, lifetimes, i, once, mean, k, f.name);
      RuleFacts(w, prog, strata, lifetimes, i, once, mean, f.name);
      assert HasRule(strata[i], f.name, r) by { GroupRule(prog, k, f.name); }
      forall x, u | x in r.body && x.Rule? && Fact(x.name, u) in HeldFacts(g, l, gb)
        ensures Fact(x.name, u) in l
      {
        ReadsAtom(strata[i], f.name, r, x);
        ReadMeans(w, prog, strata, lifetimes, i, once, mean, f.name, x.name);
        GroupBaseAt(prog, once, k, mean, x.name, u);
        if x.name !in g {
          if x.name in strata[i] {
            RuleFacts(w, prog, strata, lifetimes, i, once, mean, x.name);
            DependsIsReads(prog, f.name, x.name);
            BelowShrinks(prog, k, f.name, x.name);
            MeanInStratum(w, prog, strata, lifetimes, i, once, mean, x.name, u);
          } else {
            StratumBaseAt(w, prog, strata, lifetimes, i, once, mean, x.name, u);
          }
        }
      }
      forall x, u | x in r.body && x.NegatedRule?
        ensures Fact(x.name, u) in gb <==> Fact(x.name, u) in b
      {
        NegatedAgrees(w, prog, strata, lifetimes, i, once, mean, f.name, r, x, u);
        SameGroupBase(prog, once, k, f.name, mean);
      }
      YieldsBetween(w, HeldFacts(g, l, gb), gb, l, b, r, env, f.tuple);
      assert Derives(w, strata[i], l, b, f);
    }
    assert IsModel(w, g, gb, HeldFacts(g, l, gb));
    LeastInModel(w, g, gb, HeldFacts(g, l, gb));
    PerfectAtStage(w, prog, strata, lifetimes, i, once, mean, k, k, t);
  }

  lemma GroupRule(prog: Prog, k: Symbol, f: Symbol)
    requires f in Group(prog, k)
    ensures f in prog && Group(prog, k)[f] == prog[f]
  {
  }

  lemma SameGroupBase(prog: Prog, once: OnceFn<Symbol>, k: Symbol, f: Symbol, mean: Tables<Symbol>)
    requires f in Group(prog, k)
    ensures GroupBase(prog, once, f, mean) == GroupBase(prog, once, k, mean)
  {
    GroupOf(prog, k, f);
  }

  /** Whatever the strata, evaluating them in turn gives the meaning of the program. */
  lemma PerfectIsMeaning(w: World, prog: Prog, strata: seq<Prog>, lifetimes: map<MagicSymbol, nat>, once: OnceFn<Symbol>, mean: Tables<Symbol>)
    requires WellFormed(prog) && Accepted(prog, strata, lifetimes) && IsPerfect(w, prog, once, mean)
    ensures IsMeaning(w, strata, once, mean)
  {
    hide WellFormed, Ordered, KeptWhileUsed, Least, StageBase, Reachable, GroupBase;
    forall i: nat, k, t | i < |strata| && k in strata[i] && k in mean
      ensures t in mean[k] <==> Fact(k, t) in Least(w, strata[i], StageBase(strata, once, i, mean))
    {
      StratumInMean(w, prog, strata, lifetimes, i, once, mean);
      if t in mean[k] {
        MeanInStratum(w, prog, strata, lifetimes, i, once, mean, k, t);
      }
    }
  }
}
