/** The magic-sets rewrite over all strata (query/magic.rs): which rules of a stratum keep their names. */
module StrataMagic {
  import opened Wrappers
  import opened Exprs
  import opened Program
  import opened Datalog
  import opened Graphs
  import opened NamedGraph
  import opened Stratify
  import opened MagicSets
  import opened MagicRewrite

  type MagicProg = Rules<MagicSymbol>

  /** The relations that a rule set or a fixed rule reads. */
  function ReadsOf<S(==)>(rf: RulesOrFixed<S>): set<S> {
    match rf
    case Rules(rules) =>
      set i, j | 0 <= i < |rules| && 0 <= j < |rules[i].body| && (rules[i].body[j].Rule? || rules[i].body[j].NegatedRule?) ::
        rules[i].body[j].name
    case Fixed(_, args) => set i | 0 <= i < |args| && args[i].InMem? :: args[i].arg
  }

  lemma DependsIsReads(prog: Prog, k: Symbol, f: Symbol)
    ensures Depends(prog, k, f) <==> k in prog && f in ReadsOf(prog[k])
  {
    if k in prog && prog[k].Rules? {
      var rules := prog[k].rules;
      if f in ReadsOf(prog[k]) {
        var i, j :| 0 <= i < |rules| && 0 <= j < |rules[i].body| && (rules[i].body[j].Rule? || rules[i].body[j].NegatedRule?) &&
                    rules[i].body[j].name == f;
        assert Applied(rules[i].body[j]) == Some((f, rules[i].body[j].NegatedRule?));
      }
      if Applies(rules, f, false) {
        var i, j :| 0 <= i < |rules| && 0 <= j < |rules[i].body| && Applied(rules[i].body[j]) == Some((f, false));
        assert rules[i].body[j].name == f;
      }
      if Applies(rules, f, true) {
        var i, j :| 0 <= i < |rules| && 0 <= j < |rules[i].body| && Applied(rules[i].body[j]) == Some((f, true));
        assert rules[i].body[j].name == f;
      }
    }
  }

  // ----- exempt rules -----

  /** The rules of a stratum that are never rewritten: those that aggregate, or all of them when rewriting is off. */
  function AggrRules(prog: Prog, disabled: bool): set<Symbol> {
    set k | k in prog && (disabled || (prog[k].Rules? && HasAggr(prog[k].rules)))
  }

  /** What a stratum reads from the others. */
  function Downstream(prog: Prog): set<Symbol> {
    set k, f | k in prog && f in ReadsOf(prog[k]) && (prog[k].Fixed? || f !in prog) :: f
  }

  /** The exempt rules when the rewrite comes to stratum `i`. */
  function ExemptBefore(strata: seq<Prog>, disabled: bool, i: nat): set<Symbol>
    requires i <= |strata|
  {
    if i == 0 then {PROG_ENTRY}
    else ExemptBefore(strata, disabled, i - 1) + AggrRules(strata[i - 1], disabled) + Downstream(strata[i - 1])
  }

  function ExemptAt(strata: seq<Prog>, disabled: bool, i: nat): set<Symbol>
    requires i < |strata|
  {
    ExemptBefore(strata, disabled, i) + AggrRules(strata[i], disabled)
  }

  /** The rules of stratum `i` that are rewritten. */
  function Rewritten(strata: seq<Prog>, disabled: bool, i: nat): set<Symbol>
    requires i < |strata|
  {
    strata[i].Keys - ExemptAt(strata, disabled, i)
  }

  method ExemptAggrRules(prog: Prog, disabled: bool, exempt: set<Symbol>) returns (r: set<Symbol>)
    ensures r == exempt + AggrRules(prog, disabled)
  {
    r := exempt;
    var names := ListKeys(prog);
    for l := 0 to |names|
      invariant forall k :: k in r <==> k in exempt || (k in names[..l] && k in AggrRules(prog, disabled))
    {
      var name := names[l];
      assert names[..l + 1] == names[..l] + [name];
      if disabled {
        r := r + {name};
      } else {
        match prog[name] {
          case Rules(rules) =>
            var found := false;
            for i := 0 to |rules|
              invariant found <==> exists i', j :: 0 <= i' < i && 0 <= j < |rules[i'].aggr| && rules[i'].aggr[j].Some?
            {
              var here := false;
              for j := 0 to |rules[i].aggr|
                invariant here <==> exists j' :: 0 <= j' < j && rules[i].aggr[j'].Some?
              {
                here := here || rules[i].aggr[j].Some?;
              }
              found := found || here;
            }
            assert found <==> HasAggr(rules);
            if found {
              r := r + {name};
            }
          case Fixed(_, _) =>
        }
      }
    }
  }

  ghost predicate ReadsOutside(prog: Prog, k: Symbol, f: Symbol)
    requires k in prog
  {
    f in ReadsOf(prog[k]) && (prog[k].Fixed? || f !in prog)
  }

  method GetDownstreamRules(prog: Prog) returns (r: set<Symbol>)
    ensures r == Downstream(prog)
  {
    hide ReadsOf;
    r := {};
    var names := ListKeys(prog);
    for l := 0 to |names|
      invariant forall f :: f in r <==> exists k :: k in names[..l] && k in prog && ReadsOutside(prog, k, f)
    {
      var name := names[l];
      assert names[..l + 1] == names[..l] + [name];
      ghost var was := r;
      match prog[name] {
        case Rules(rules) =>
          var fs := RuleReads(rules);
          r := r + (fs - prog.Keys);
        case Fixed(algo, args) =>
          var fs := ArgReads(algo, args);
          r := r + fs;
      }
      assert forall f :: f in r <==> f in was || ReadsOutside(prog, name, f);
    }
  }

  ghost predicate Names<S>(a: Atom<S>, f: S) {
    (a.Rule? || a.NegatedRule?) && a.name == f
  }

  method RuleReads(rules: seq<InlineRule<Symbol>>) returns (fs: set<Symbol>)
    ensures fs == ReadsOf(Rules(rules))
  {
    fs := {};
    for i := 0 to |rules|
      invariant forall f :: f in fs <==> exists i', j :: 0 <= i' < i && 0 <= j < |rules[i'].body| && Names(rules[i'].body[j], f)
    {
      ghost var was := fs;
      for j := 0 to |rules[i].body|
        invariant forall f :: f in fs <==> f in was || exists j' :: 0 <= j' < j && Names(rules[i].body[j'], f)
      {
        var a := rules[i].body[j];
        if a.Rule? || a.NegatedRule? {
          fs := fs + {a.name};
        }
      }
    }
  }

  method ArgReads(algo: string, args: seq<FixedRuleArg<Symbol>>) returns (fs: set<Symbol>)
    ensures fs == ReadsOf(RulesOrFixed<Symbol>.Fixed(algo, args))
  {
    fs := {};
    for i := 0 to |args|
      invariant fs == set i' | 0 <= i' < i && args[i'].InMem? :: args[i'].arg
    {
      if args[i].InMem? {
        fs := fs + {args[i].arg};
      }
    }
  }

  // ----- all strata -----

  /** `ad` and `m` are stratum `i` adorned and rewritten. */
  ghost predicate StratumDone(strata: seq<Prog>, disabled: bool, i: nat, ad: MagicProg, m: MagicProg)
    requires i < |strata|
  {
    && IsAdorned(strata[i], Rewritten(strata, disabled, i), ad)
    && (forall h :: h in ad && h.Magic? ==> Called(ad, h))
    && IsRewritten(ad, m) && NoEmptyRules(m)
    && (forall k :: k in m && m[k].Fixed? ==> k in ad && ad[k] == m[k])
  }

  method MagicSetsRewrite(strata: seq<Prog>, disabled: bool) returns (out: seq<MagicProg>, ghost ads: seq<MagicProg>)
    requires forall i: nat :: i < |strata| ==> CallsAreRules(strata[i], Rewritten(strata, disabled, i))
    ensures |out| == |ads| == |strata|
    ensures forall i: nat :: i < |strata| ==> StratumDone(strata, disabled, i, ads[i], out[i])
  {
    hide CallsAreRules, IsAdorned, IsRewritten, Called, NoEmptyRules, AggrRules, Downstream;
    var exempt := {PROG_ENTRY};
    out, ads := [], [];
    for i := 0 to |strata|
      invariant |out| == |ads| == i
      invariant exempt == ExemptBefore(strata, disabled, i)
      invariant forall j: nat :: j < i ==> StratumDone(strata, disabled, j, ads[j], out[j])
    {
      exempt := ExemptAggrRules(strata[i], disabled, exempt);
      var downstream := GetDownstreamRules(strata[i]);
      assert exempt == ExemptAt(strata, disabled, i);
      var names := ListKeys(strata[i]);
      var adorned := Adorn(strata[i], names, exempt);
      AdornedHeadsOk(strata[i], Rewritten(strata, disabled, i), adorned);
      var heads := ListKeys(adorned);
      var m := MagicRewriteAll(adorned, heads);
      assert StratumDone(strata, disabled, i, adorned, m);
      out, ads := out + [m], ads + [adorned];
      exempt := exempt + downstream;
    }
  }

  // ----- what acceptance gives the rewrite -----

  /** The strata that stratification returns for an accepted program. */
  ghost predicate Accepted(prog: Prog, strata: seq<Prog>, lifetimes: map<MagicSymbol, nat>) {
    Places(prog, strata) && Ordered(prog, strata) && KeptWhileUsed(prog, strata, lifetimes)
  }

  /** Every rule that the query comes to apply is defined. */
  ghost predicate Closed(prog: Prog) {
    forall k, f :: k in prog && Reachable(prog, k) && f in ReadsOf(prog[k]) ==> f in prog
  }

  lemma {:induction false} ExemptGrows(strata: seq<Prog>, disabled: bool, i: nat, j: nat)
    requires i <= j <= |strata|
    ensures ExemptBefore(strata, disabled, i) <= ExemptBefore(strata, disabled, j)
    decreases j
  {
    if i < j {
      ExemptGrows(strata, disabled, i, j - 1);
    }
  }

  /** A rule read from a stratum evaluated later keeps its plain name, and its rows, until then. */
  lemma ReadAcross(prog: Prog, strata: seq<Prog>, lifetimes: map<MagicSymbol, nat>, disabled: bool, i: nat, j: nat, k: Symbol, f: Symbol)
    requires Accepted(prog, strata, lifetimes) && InStratum(strata, k, i) && InStratum(strata, f, j) && i != j
    requires f in ReadsOf(prog[k])
    ensures i < j && f in ExemptBefore(strata, disabled, j)
    ensures Muggle(f) in lifetimes && |strata| - 1 - i <= lifetimes[Muggle(f)]
  {
    hide Depends, Poisons, ReadsOf, Reachable;
    DependsIsReads(prog, k, f);
    assert UsedIn(prog, strata, f, |strata| - 1 - i);
    assert f in Downstream(strata[i]) by {
      assert f !in strata[i] by { assert InStratum(strata, f, i) ==> i == j; }
    }
    ExemptGrows(strata, disabled, i + 1, j);
  }

  /** A rule that the query reaches is the query or is read by another such rule. */
  lemma ReadBySome(prog: Prog, strata: seq<Prog>, k: Symbol, j: nat) returns (u: Symbol, i: nat)
    requires Places(prog, strata) && InStratum(strata, k, j) && k != PROG_ENTRY
    ensures InStratum(strata, u, i) && k in ReadsOf(prog[u])
  {
    hide Depends, ReadsOf, InStratum;
    DependsInProg(prog);
    assert InSomeStratum(strata, k);
    var p :| IsPathBetween(DepEdges(prog), p, PROG_ENTRY, k);
    u := p[|p| - 2];
    assert (p[|p| - 2], p[|p| - 2 + 1]) in DepEdges(prog);
    PrefixReach(DepEdges(prog), p, |p| - 2);
    DependsIsReads(prog, u, k);
    assert InSomeStratum(strata, u);
    i := StratumOf(strata, u);
  }

  lemma StratumOf(strata: seq<Prog>, k: Symbol) returns (i: nat)
    requires InSomeStratum(strata, k)
    ensures InStratum(strata, k, i)
  {
    i :| InStratum(strata, k, i);
  }

  /** Fixed rules are never rewritten. */
  lemma FixedExempt(prog: Prog, strata: seq<Prog>, lifetimes: map<MagicSymbol, nat>, disabled: bool, j: nat, k: Symbol)
    requires Accepted(prog, strata, lifetimes) && InStratum(strata, k, j) && strata[j][k].Fixed?
    ensures k in ExemptBefore(strata, disabled, j)
  {
    hide ReadsOf, KeptWhileUsed;
    if k == PROG_ENTRY {
      ExemptGrows(strata, disabled, 0, j);
    } else {
      var u, i := ReadBySome(prog, strata, k, j);
      DependsIsReads(prog, u, k);
      FixedPoisons(prog, u, k);
      assert i < j;
      ReadAcross(prog, strata, lifetimes, disabled, i, j, u, k);
    }
  }

  lemma FixedPoisons(prog: Prog, u: Symbol, k: Symbol)
    requires Depends(prog, u, k) && k in prog && prog[k].Fixed?
    ensures Poisons(prog, u, k)
  {
    if prog[u].Rules? {
      var neg :| Applies(prog[u].rules, k, neg);
      assert NeedsComplete(prog, u, k, neg);
    }
  }

  lemma CallsFine(prog: Prog, strata: seq<Prog>, lifetimes: map<MagicSymbol, nat>, disabled: bool, i: nat)
    requires Accepted(prog, strata, lifetimes) && i < |strata|
    ensures CallsAreRules(strata[i], Rewritten(strata, disabled, i))
  {
    hide Accepted;
    var p := strata[i];
    forall n, l, j | n in p && p[n].Rules? && 0 <= l < |p[n].rules| && 0 <= j < |p[n].rules[l].body| &&
                     p[n].rules[l].body[j].Rule? && p[n].rules[l].body[j].name in Rewritten(strata, disabled, i)
      ensures p[n].rules[l].body[j].name in p && p[p[n].rules[l].body[j].name].Rules?
    {
      var f := p[n].rules[l].body[j].name;
      assert InStratum(strata, f, i);
      if p[f].Fixed? {
        FixedExempt(prog, strata, lifetimes, disabled, i, f);
      }
    }
  }
}
