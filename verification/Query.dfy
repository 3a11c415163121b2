/** A query from its rules to its rows. */
module Query {
  import opened Wrappers
  import opened Values
  import opened Exprs
  import opened Program
  import opened Datalog
  import opened Graphs
  import opened NamedGraph
  import opened Stratify
  import opened MagicRewrite
  import opened BodyEval
  import opened SemiNaive
  import opened StrataMagic
  import opened StageReady
  import opened Compile
  import opened Pipeline
  import opened Perfect
  import opened StageCompiles
  import opened StageArities
  import opened StageVersions
  import opened StrataCompile

  // ----- the query is evaluated last -----

  ghost function IndexOf(strata: seq<Prog>, k: Symbol): nat {
    if InSomeStratum(strata, k) then
      var i: nat :| InStratum(strata, k, i);
      i
    else 0
  }

  lemma IndexIs(prog: Prog, strata: seq<Prog>, k: Symbol, i: nat)
    requires Places(prog, strata) && InStratum(strata, k, i)
    ensures IndexOf(strata, k) == i
  {
    hide Reachable;
    assert InSomeStratum(strata, k);
  }

  /** With as few strata as possible, the first one returned, which is evaluated last, holds the query. */
  lemma EntryFirst(prog: Prog, strata: seq<Prog>, lifetimes: map<MagicSymbol, nat>)
    requires Closed(prog) && Accepted(prog, strata, lifetimes) && Fewest(prog, strata) && PROG_ENTRY in prog
    ensures strata != [] && PROG_ENTRY in strata[0]
  {
    hide KeptWhileUsed, Closed, Places, Ordered, Depends, Poisons, Fewest;
    var j := EntryPlaced(prog, strata);
    var h: Symbol -> nat := (k: Symbol) => if IndexOf(strata, k) >= j then IndexOf(strata, k) - j else 0;
    forall k, f | Depends(prog, k, f) && k in prog && f in prog && Reachable(prog, k)
      ensures h(k) <= h(f) && (Poisons(prog, k, f) ==> h(k) < h(f))
    {
      RanksFrom(prog, strata, j, k, f);
    }
    var k := HighestRank(prog, strata, h);
    IndexBound(strata, k);
    assert j == 0;
  }

  lemma HighestRank(prog: Prog, strata: seq<Prog>, h: Symbol -> nat) returns (k: Symbol)
    requires Fewest(prog, strata) && RespectsDeps(prog, h) && strata != []
    ensures k in prog && |strata| - 1 <= h(k)
  {
    k :| k in prog && |strata| - 1 <= h(k);
  }

  lemma IndexBound(strata: seq<Prog>, k: Symbol)
    ensures strata != [] ==> IndexOf(strata, k) < |strata|
  {
  }

  lemma EntryPlaced(prog: Prog, strata: seq<Prog>) returns (j: nat)
    requires Places(prog, strata) && PROG_ENTRY in prog
    ensures InStratum(strata, PROG_ENTRY, j)
  {
    ReachRefl(DepEdges(prog), PROG_ENTRY);
    j := StratumOf(strata, PROG_ENTRY);
  }

  lemma RanksFrom(prog: Prog, strata: seq<Prog>, j: nat, k: Symbol, f: Symbol)
    requires Closed(prog) && Places(prog, strata) && Ordered(prog, strata) && InStratum(strata, PROG_ENTRY, j)
    requires Depends(prog, k, f) && k in prog && f in prog && Reachable(prog, k)
    ensures j <= IndexOf(strata, k) <= IndexOf(strata, f) && (Poisons(prog, k, f) ==> IndexOf(strata, k) < IndexOf(strata, f))
  {
    hide Depends, Poisons, Closed, Reach, InStratum;
    assert InSomeStratum(strata, k);
    var a := StratumOf(strata, k);
    DependsIsReads(prog, k, f);
    ReadIsPlaced(prog, strata, k, f, a);
    var b := StratumOf(strata, f);
    IndexIs(prog, strata, k, a);
    IndexIs(prog, strata, f, b);
    ReachDown(prog, strata, PROG_ENTRY, k, j, a);
  }

  // ----- the query -----

  /** Stratifies, rewrites, compiles and evaluates: succeeds exactly if the program is stratifiable, defines the query, and all rules
      that the query uses compile; and then the rows are those that the program means, with or without the rewrite. */
  method RunQuery(src: Source, cat: Catalog, prog: Prog, once: OnceFn<Symbol>, disabled: bool, ghost mean: Tables<Symbol>) returns (res: Result<set<Tuple>>)
    requires Normalised(prog) && QueryReadsWhole(cat, prog, disabled)
    requires Stratifiable(prog) && QueryCompiles(cat, prog) ==> IsPerfect(WorldOf(src), prog, once, mean)
    ensures res.Success? <==> Stratifiable(prog) && PROG_ENTRY in prog && QueryCompiles(cat, prog)
    ensures res.Success? ==> PROG_ENTRY in mean && res.value == mean[PROG_ENTRY]
  {
    hide Normalised, Closed, QueryCompiles, QueryReadsWhole, ReadsWhole, IsPerfect, IsMeaning, Places, Ordered, KeptWhileUsed, Fewest, Stratifiable,
         StratumDone, CallsAreRules, RulesCompile, MagicArities;
    var names := ListKeys(prog);
    var st := IntoStratifiedProgram(prog, names);
    if st.Failure? {
      return Failure;
    }
    var strata, lifetimes := st.value.strata, st.value.lifetimes;
    assert Accepted(prog, strata, lifetimes);
    forall i: nat | i < |strata|
      ensures CallsAreRules(strata[i], Rewritten(strata, disabled, i))
    {
      CallsFine(prog, strata, lifetimes, disabled, i);
    }
    var outs, ads := MagicSetsRewrite(strata, disabled);
    ghost var w := Rewriting(prog, strata, lifetimes, disabled, ads, outs);
    var arities := StoreArities(cat, outs);
    var compiled := Reversed(outs);
    var ok := CompileStrata(cat, arities, compiled);
    ReversedFine(w, cat, compiled);
    StrataCompileIff(w, cat);
    if !ok {
      return Failure;
    }
    assert forall s :: 0 <= s < |compiled| ==> StratumReadsWhole(cat, compiled[s]) by { VersionsWhole(w, cat, compiled); }
    CompilesCloses(cat, prog);
    PerfectIsMeaning(WorldOf(src), prog, strata, lifetimes, once, mean);
    if PROG_ENTRY in prog {
      EntryFirst(prog, strata, lifetimes);
    }
    res := StratifiedMagicEvaluate(src, prog, once, compiled, lifetimes, strata, disabled, ads, outs, mean);
  }

  /** The order of the strata does not matter to compiling them. */
  lemma ReversedFine(w: Rewriting, cat: Catalog, compiled: seq<MagicProg>)
    requires |compiled| == |w.outs| && forall s :: 0 <= s < |w.outs| ==> compiled[s] == w.outs[|w.outs| - 1 - s]
    ensures StrataFine(w, cat) <==> forall s :: 0 <= s < |compiled| ==> RulesCompile(cat, MagicArities(cat, w.outs), compiled[s])
  {
    hide RulesCompile, MagicArities;
    forall s | 0 <= s < |w.outs|
      ensures w.outs[s] == compiled[|w.outs| - 1 - s]
    {
    }
  }

  /** Where all rules compile, every rule applied is defined. */
  lemma CompilesCloses(cat: Catalog, prog: Prog)
    requires Normalised(prog) && QueryCompiles(cat, prog)
    ensures WellFormed(prog)
  {
    hide RulesWellFormed, Reachable, IsOnce, MeetReadsItself;
    forall k, f | k in prog && Reachable(prog, k) && f in ReadsOf(prog[k])
      ensures f in prog
    {
      if prog[k].Rules? {
        var rules := prog[k].rules;
        var l, j :| 0 <= l < |rules| && 0 <= j < |rules[l].body| && (rules[l].body[j].Rule? || rules[l].body[j].NegatedRule?) && rules[l].body[j].name == f;
        assert AtomCompiles(cat, ProgArities(cat, prog), rules[l].body, j);
      }
    }
  }

  /** The tables that evaluation reads at a time are those of the current versions: no scan is cut within a row. */
  ghost predicate StratumReadsWhole(cat: Catalog, m: MagicProg) {
    forall n, r :: HasRule(m, n, r) ==> ReadsWhole(cat, r.body)
  }

  lemma VersionsWhole(w: Rewriting, cat: Catalog, compiled: seq<MagicProg>)
    requires Done(w) && QueryReadsWhole(cat, w.prog, w.disabled)
    requires |compiled| == |w.outs| && forall s :: 0 <= s < |w.outs| ==> compiled[s] == w.outs[|w.outs| - 1 - s]
    ensures forall s :: 0 <= s < |compiled| ==> StratumReadsWhole(cat, compiled[s])
  {
    hide Done, QueryReadsWhole, ReadsWhole;
    DoneSize(w);
    forall s, n, r | 0 <= s < |compiled| && HasRule(compiled[s], n, r)
      ensures ReadsWhole(cat, r.body)
    {
      StrataReadWhole(w, cat, |w.outs| - 1 - s, n, r);
    }
  }

  // ----- aggregations and fixed rules read completed relations -----

  /** The aggregations of a head follow its plain columns. */
  ghost predicate AggregatesLast(rules: seq<InlineRule<Symbol>>) {
    forall i, a, b :: 0 <= i < |rules| && 0 <= a < b < |rules[i].aggr| && rules[i].aggr[a].Some? ==> rules[i].aggr[b].Some?
  }

  /** In an accepted program, what is computed once has complete inputs, unless it is such a rule. */
  lemma OnceInputsComplete(prog: Prog, strata: seq<Prog>, lifetimes: map<MagicSymbol, nat>, i: nat, k: Symbol)
    requires Closed(prog) && Accepted(prog, strata, lifetimes) && InStratum(strata, k, i) && IsOnce(prog[k])
    ensures (forall f :: f in ReadsOf(prog[k]) ==> Before(strata, i, f)) <==> !MeetReadsItself(prog, k)
  {
    hide KeptWhileUsed, ReadsOf, Depends, Poisons, Reachable, AllMeet, IsOnce;
    forall f | f in ReadsOf(prog[k])
      ensures Before(strata, i, f) <==> !(f == k && MeetReadsItself(prog, k))
    {
      DependsIsReads(prog, k, f);
      ReadIsPlaced(prog, strata, k, f, i);
      var j := StratumOf(strata, f);
      if !(f == k && MeetReadsItself(prog, k)) {
        OnceNeedsComplete(prog, k, f);
        assert i < j;
      } else {
        assert forall j' :: InStratum(strata, k, j') ==> j' == i;
      }
    }
  }

  /** With aggregations last, no rule is taken differently by stratification and evaluation. */
  lemma LastAggregatesComplete(prog: Prog, strata: seq<Prog>, lifetimes: map<MagicSymbol, nat>, i: nat, k: Symbol, f: Symbol)
    requires Closed(prog) && Accepted(prog, strata, lifetimes) && InStratum(strata, k, i) && IsOnce(prog[k])
    requires prog[k].Rules? ==> AggregatesLast(prog[k].rules)
    requires f in ReadsOf(prog[k])
    ensures Before(strata, i, f)
  {
    hide Ordered, KeptWhileUsed, ReadsOf, Before, Closed;
    OnceInputsComplete(prog, strata, lifetimes, i, k);
    if prog[k].Rules? {
      assert !AllMeet(prog[k].rules) by { LastNotMeet(prog[k].rules); }
    }
  }

  lemma LastNotMeet(rules: seq<InlineRule<Symbol>>)
    requires rules != [] && KindOf(rules[0].aggr) == Normal && AggregatesLast(rules)
    ensures !AllMeet(rules)
  {
  }

  /** `p[min(x), y] <~ p[x, y]` with the aggregation in front, and a query of `p`. */
  ghost function FrontMeet(): Prog {
    map["p" := RulesOrFixed.Rules([InlineRule(["x", "y"], [Some(Aggregation("min", true)), None], [Rule("p", ["x", "y"])])]),
        PROG_ENTRY := RulesOrFixed.Rules([InlineRule(["x", "y"], [None, None], [Rule("p", ["x", "y"])])])]
  }

  lemma FrontMeetDepends(k: Symbol, f: Symbol)
    ensures Depends(FrontMeet(), k, f) <==> (k == "p" || k == PROG_ENTRY) && f == "p"
  {
    DependsIsReads(FrontMeet(), k, f);
    if k in FrontMeet() {
      var rules := FrontMeet()[k].rules;
      assert rules[0].body[0] == Rule("p", ["x", "y"]);
    }
  }

  /** Such a rule is accepted, and computed once although it reads itself. */
  lemma FrontMeetAccepted()
    ensures Stratifiable(FrontMeet()) && IsOnce(FrontMeet()["p"]) && MeetReadsItself(FrontMeet(), "p")
  {
    hide Depends;
    var prog := FrontMeet();
    var rules := prog["p"].rules;
    assert KindOf(rules[0].aggr) == Normal by {
      assert rules[0].aggr[0].Some? && rules[0].aggr[1].None?;
    }
    assert AllMeet(rules) by {
      assert rules[0].aggr[0].Some?;
    }
    FrontMeetDepends("p", "p");
    DependsIsReads(prog, "p", "p");
    forall k, f | Poisons(prog, k, f) && Reachable(prog, k)
      ensures !Reach(DepEdges(prog), f, k)
    {
      DependsInProg(prog);
      FrontMeetDepends(k, f);
      FrontMeetPoisons();
      assert k == PROG_ENTRY;
      if Reach(DepEdges(prog), f, k) {
        forall a, b | (a, b) in DepEdges(prog)
          ensures b == "p"
        {
          FrontMeetDepends(a, b);
        }
        ReachStaysInClosed(DepEdges(prog), iset{"p"}, f, k);
      }
    }
  }

  lemma FrontMeetPoisons()
    ensures !Poisons(FrontMeet(), "p", "p")
  {
    var prog := FrontMeet();
    var rules := prog["p"].rules;
    assert rules[0].aggr[0].Some?;
    assert AllMeet(rules);
    assert !Applies(rules, "p", true);
    assert !NeedsComplete(prog, "p", "p", false);
  }
}
